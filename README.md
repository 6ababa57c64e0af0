# Definitivo knowledge base: the client-side reconciliation core in Dafny

The Definitivo "base de conhecimento" app is a Next.js front end over a hosted
database. It keeps FAQs, pendências (to-do items), acessos (terminal
credentials), authors, SPED counts and an activity feed. Each table lives in
the client as a flat list of rows keyed by an integer `id`. Three things
change such a list:

- a change event (INSERT, UPDATE, DELETE) pushed by the database;
- an optimistic local edit, which is undone when the server reports an error;
- a fetch that returns a fresh snapshot.

Around these lists the pages hold small helpers: search filters, the "urgent
first, then newest" order, status counts, the CSV export, form validation and
normalisation, relative-time labels, the bounded activity feed, the daily
SPED summary, and the theme switches.

This project models that layer. The database is an oracle:

- every call's outcome is a parameter, either `Reply<T>` (`Ok(value)` or
  `Err`) or an `ok` flag;
- ids and clocks are parameters as well.

What a piece of code does decides its shape here:

- Hooks, stores and page state that the source updates step by step are
  classes. Their fields are the React state or the store's slices, and
  their methods carry `modifies` clauses.
- The pure helpers are functions, each with lemmas that relate it to an
  independent description.

Module layout:

| module | models |
|---|---|
| `Common`, `Text`, `Lists`, `Sorting`, `Tables` | JavaScript built-ins the code relies on: `trim`, `toLowerCase`, `includes`, `slice`, `join`, the `replace(/"/g, '""')` quoting, `filter`, the (stable) `Array.prototype.sort`, and the id-keyed `map`/`filter`/`find` idioms |
| `Records`, `Activities` | the row types of lib/supabase.ts, lib/store.ts and lib/enhanced-store.ts |
| `SupabaseRealtime` | hooks/use-supabase-realtime.ts |
| `PendenciaLists`, `EnhancedPendencias`, `DynamicPendencias` | hooks/use-enhanced-pendencias.ts and hooks/use-dynamic-pendencias.ts |
| `Store`, `EnhancedStore` | lib/store.ts and lib/enhanced-store.ts |
| `PendenciasPage`, `AcessosPage`, `KnowledgePage`, `SettingsPage` | the four pages under app/ |
| `ActivityList`, `EnhancedStatusIndicator`, `DynamicStatusIndicator` | the three components |

Conventions:

- Pendência statuses are `"nao-concluido" | "em-andamento" | "concluido"`,
  the set lib/supabase.ts and every page use.
- Timestamps are integers (milliseconds).
- `Math.floor(x / n)` with a positive `n` is Dafny's `x / n`.

## Model

| member | source | states |
|---|---|---|
| SupabaseRealtime.GetOrderColumn | hooks/use-supabase-realtime.ts:82-95 | "data" exactly for pendencias, "created_at" exactly for faqs, acessos and authors, "id" for every other table |
| SupabaseRealtime.OrderColumn | hooks/use-supabase-realtime.ts:107 | a non-empty `orderBy` wins; otherwise the table's default column |
| SupabaseRealtime.RealtimeTable.constructor | hooks/use-supabase-realtime.ts:35-38 | the list starts as `initialData`, loading exactly when `autoFetch`, disconnected, no error |
| SupabaseRealtime.RealtimeTable.UpdateLocalData | hooks/use-supabase-realtime.ts:51-79 | the list becomes the event applied to the old list; the loading and error flags stay |
| SupabaseRealtime.RealtimeTable.FetchInitialData | hooks/use-supabase-realtime.ts:98-128 | with `autoFetch` off nothing happens; otherwise it queries by `OrderColumn` and stops loading. Rows received replace the list; an error keeps the list and sets the flag |
| SupabaseRealtime.RealtimeTable.OnSubscribeStatus | hooks/use-supabase-realtime.ts:158-165 | connected exactly when the status is "SUBSCRIBED"; "CHANNEL_ERROR" sets the error, which no status clears; the list and the loading flag stay |
| SupabaseRealtime.InsertEvent | hooks/use-supabase-realtime.ts:55-65 | an INSERT of a present id changes nothing. Otherwise the row goes to index 0, the length grows by one, and the old rows follow in order |
| SupabaseRealtime.UpdateEvent | hooks/use-supabase-realtime.ts:66-70 | same length; every row with the id becomes the new row; every other row stays |
| SupabaseRealtime.DeleteEvent | hooks/use-supabase-realtime.ts:72-76 | exactly the rows with another id remain, in order; the length drops by the count of rows that had the id |
| SupabaseRealtime.OtherEvent | hooks/use-supabase-realtime.ts:54-78 | any other event type leaves the list as it was |
| SupabaseRealtime.EventKeepsUniqueIds | hooks/use-supabase-realtime.ts:51-79 | unique ids stay unique after any event; the length changes by 0, +1 (INSERT) or −1 (DELETE) |
| Sorting.SortByPermutes | hooks/use-enhanced-pendencias.ts:129-131 | the sort returns a permutation of its input |
| Sorting.SortBySorted | hooks/use-enhanced-pendencias.ts:129-131 | with a total preorder, the sort's result is ordered by it |
| Sorting.SortByStable | hooks/use-enhanced-pendencias.ts:129-131 | the sort is stable: the elements the comparator ranks equal to any given one keep their input order |
| PendenciaLists.NewestFirstIsPreorder | hooks/use-enhanced-pendencias.ts:129-131 | the comparator `b.data - a.data` is a total preorder (newest first) |
| PendenciaLists.SortedWithSpec | hooks/use-enhanced-pendencias.ts:129-131 | `[p, ...rows].sort(...)` holds the old rows plus `p` (a multiset), is one longer and is newest first; a fresh id keeps the ids unique |
| PendenciaLists.InsertSortedSpec | hooks/use-enhanced-pendencias.ts:121-136 | a realtime INSERT of a present id changes nothing. Otherwise the row is in the list, the old rows are kept, and the list is newest first. Unique ids stay unique |
| PendenciaLists.UpdateDeleteSpec | hooks/use-enhanced-pendencias.ts:143-162 | UPDATE keeps the length and the rows with other ids. DELETE keeps exactly the rows with another id, in order. Both keep the ids unique |
| PendenciaLists.RealtimeKeepsUniqueIds | hooks/use-dynamic-pendencias.ts:89-119 | every realtime event, a payload without `new`/`old` included, keeps the ids unique |
| PendenciaLists.SetStatusSpec | hooks/use-enhanced-pendencias.ts:284 | `{ ...p, status }` on the rows with the id keeps the length and the ids. Only those rows' status changes; every other row is untouched |
| EnhancedPendencias.DataHashEqual | hooks/use-enhanced-pendencias.ts:45-47 | two lists hash alike exactly when, row by row, they agree on id, status and titulo |
| EnhancedPendencias.HashIgnoresDescription | hooks/use-enhanced-pendencias.ts:45-47 | changing the description or the urgency of a row leaves the hash as it was |
| EnhancedPendencias.EnhancedPendenciasHook.constructor | hooks/use-enhanced-pendencias.ts:32-42 | an empty list, no stored hash, disconnected |
| EnhancedPendencias.EnhancedPendenciasHook.OnSubscribeStatus | hooks/use-enhanced-pendencias.ts:174-176 | connected exactly when the status is "SUBSCRIBED"; the list and hash stay |
| EnhancedPendencias.EnhancedPendenciasHook.FetchPendencias | hooks/use-enhanced-pendencias.ts:50-97 | an error changes nothing. A non-polling fetch always replaces the list, and a polling one only when the hash differs. When nothing is replaced, the list shown already has the fetched hash. The stored hash is always that of the list |
| EnhancedPendencias.EnhancedPendenciasHook.HandleRealtimeEvent | hooks/use-enhanced-pendencias.ts:121-162 | the list follows the realtime event; the hash is recomputed exactly when the list was rebuilt |
| EnhancedPendencias.EnhancedPendenciasHook.AddPendenciaOptimistic | hooks/use-enhanced-pendencias.ts:226-273 | the list changes only when the insert succeeds, realtime is disconnected and the id is new. In that case the row is sorted in and the hash updated |
| EnhancedPendencias.EnhancedPendenciasHook.UpdateStatusOptimistic | hooks/use-enhanced-pendencias.ts:276-306 | on success only the matching rows' status changes; on failure the list is exactly the snapshot; the hash follows the list |
| EnhancedPendencias.EnhancedPendenciasHook.RemovePendenciaOptimistic | hooks/use-enhanced-pendencias.ts:309-339 | on success no row with the id remains; on failure the list is exactly the snapshot; the hash follows the list |
| DynamicPendencias.DynamicPendenciasHook.constructor | hooks/use-dynamic-pendencias.ts:21-23 | an empty list, disconnected |
| DynamicPendencias.DynamicPendenciasHook.OnSubscribeStatus | hooks/use-dynamic-pendencias.ts:131-133 | connected exactly when the status is "SUBSCRIBED"; the list stays |
| DynamicPendencias.DynamicPendenciasHook.FetchPendencias | hooks/use-dynamic-pendencias.ts:32-65 | the fetched rows (null read as none) replace the list; an error leaves it |
| DynamicPendencias.DynamicPendenciasHook.HandleRealtimeEvent | hooks/use-dynamic-pendencias.ts:89-119 | the list follows the same realtime rules as the enhanced hook |
| DynamicPendencias.DynamicPendenciasHook.AddPendenciaOptimistic | hooks/use-dynamic-pendencias.ts:183-209 | while disconnected, a created row is put in front and the list re-sorted, with no duplicate check; otherwise nothing changes |
| DynamicPendencias.DynamicPendenciasHook.UpdateStatusOptimistic | hooks/use-dynamic-pendencias.ts:212-234 | the status of the matching rows is set. On a server error the list becomes a fresh fetch, not a local backup; if that fetch fails too, the optimistic change stays |
| DynamicPendencias.DynamicPendenciasHook.RemovePendenciaOptimistic | hooks/use-dynamic-pendencias.ts:237-264 | the rows with the id are removed. On failure, the first of them (if any) is appended again and the list re-sorted newest first |
| DynamicPendencias.AddGrowsByOne | hooks/use-dynamic-pendencias.ts:195-200 | a disconnected add always grows the list by one and leaves it newest first; re-adding a present id makes that id occur twice |
| DynamicPendencias.FailedRemoveRestores | hooks/use-dynamic-pendencias.ts:241-253 | with unique ids, a failed delete gives back the same rows (a multiset) newest first; a failed delete of an absent id re-adds nothing |
| Store.PushActivitySpec | lib/store.ts:481-491 | the new entry is first, at most 50 entries are kept, and the rest are the previous entries in order |
| Store.NullIfEmpty | lib/store.ts:114 | `author \|\| null`: null exactly when absent or empty |
| Store.CleanFaqData | lib/store.ts:110-116 | title, category and images as given; a missing description becomes ""; the author is null when empty |
| Store.TrimRequiredSpec | lib/store.ts:315-323 | a required field is trimmed, and "" exactly when missing or blank |
| Store.TrimOptionalSpec | lib/store.ts:315-323 | an optional field is null exactly when missing or blank, otherwise trimmed and non-empty |
| Store.CleanAcessoDataSpec | lib/store.ts:315-323 | every field is trimmed; required fields are empty exactly when blank; optional ones are null exactly when blank; no client flag |
| Store.CleanAcessoDataIdempotent | lib/store.ts:315-323 | cleaning already-clean data changes nothing |
| Store.AddAuthorSorted | lib/store.ts:433-435 | after an add the authors are sorted by name and hold the old authors plus the new one |
| Store.AppStore.constructor | lib/store.ts:90-93 | every table and the feed start empty |
| Store.AppStore.AddActivity | lib/store.ts:481-491 | the feed gets the entry in front, capped at 50; the tables stay |
| Store.AppStore.AddFaq | lib/store.ts:106-138 | the cleaned row is sent. On success the server row is prepended and a "created" entry is logged; on error nothing changes |
| Store.AppStore.UpdateFaq | lib/store.ts:140-158 | on success the rows with the id are replaced by the server row and an entry is logged; on error nothing changes |
| Store.AppStore.DeleteFaq | lib/store.ts:160-179 | on success exactly the rows with the id are removed, and the entry names the removed title; on error nothing changes |
| Store.AppStore.AddPendencia | lib/store.ts:209-240 | on success the server row is prepended and an entry is logged; on error nothing changes |
| Store.AppStore.UpdatePendencia | lib/store.ts:242-260 | on success the rows with the id are replaced and an entry is logged; on error nothing changes |
| Store.AppStore.DeletePendencia | lib/store.ts:262-281 | on success exactly the rows with the id are removed and an entry is logged; on error nothing changes |
| Store.AppStore.AddAcesso | lib/store.ts:311-345 | the cleaned data is sent. On success the server row is prepended and an entry is logged; on error nothing changes |
| Store.AppStore.UpdateAcesso | lib/store.ts:347-365 | on success the rows with the id are replaced and an entry is logged; on error nothing changes |
| Store.AppStore.DeleteAcesso | lib/store.ts:367-386 | on success exactly the rows with the id are removed and an entry is logged; on error nothing changes |
| Store.AppStore.AddAuthor | lib/store.ts:416-442 | on success the authors become the old ones plus the server row, sorted by name, and an entry is logged; on error nothing changes |
| Store.AppStore.DeleteAuthor | lib/store.ts:444-463 | on success exactly the rows with the id are removed and an entry is logged; on error nothing changes |
| Activities.ClearNewFlagSpec | lib/enhanced-store.ts:139-143 | clearing the flag sets `isNew = false` only on the entries with that id; everything else, order and length included, stays |
| EnhancedStore.PushNewSpec | lib/enhanced-store.ts:126-136 | the new entry is first with `isNew = true`; the feed never exceeds 50; the rest are the previous entries in order |
| EnhancedStore.CapsAgree | lib/enhanced-store.ts:135 | the two stores' caps agree: `[x, ...s].slice(0, 50)` equals `[x, ...s.slice(0, 49)]` |
| EnhancedStore.EnhancedAppStore.constructor | lib/enhanced-store.ts:125 | the feed starts empty |
| EnhancedStore.EnhancedAppStore.AddActivity | lib/enhanced-store.ts:126-137 | the feed becomes the capped push of the new entry; pendências stay |
| EnhancedStore.EnhancedAppStore.ClearNewFlag | lib/enhanced-store.ts:139-143 | the step after the timer: the flag of that entry is cleared; the cap is kept |
| EnhancedStore.EnhancedAppStore.ClearActivities | lib/enhanced-store.ts:145 | the feed is emptied |
| EnhancedStore.FaqsByCategorySpec | lib/enhanced-store.ts:246-249 | "all" gives every FAQ; any other category gives exactly the FAQs of that category, in order |
| EnhancedStore.AddImagePayloadSpec | lib/enhanced-store.ts:250-263 | nothing is sent for an unknown id; otherwise the images sent are the FAQ's images (or none) with the new one appended |
| EnhancedStore.AcessoUpdatePayloadSpec | lib/enhanced-store.ts:470-477 | only truthy fields are sent, camelCase mapped to the snake_case columns, with their values |
| EnhancedStore.SpedUpdatePayloadSpec | lib/enhanced-store.ts:739-748 | `count` is sent whenever defined, 0 included; `date` and `author` are sent only when truthy |
| EnhancedStore.StatusText | lib/enhanced-store.ts:631-632 | "concluída" exactly for concluido, "em andamento" exactly for em-andamento, "pendente" for anything else |
| EnhancedStore.EnhancedAppStore.UpdatePendenciaStatus | lib/enhanced-store.ts:623-644 | on success an "updated" entry is logged, titled by the status and described by the pendência's titulo or "Status atualizado"; on error nothing changes |
| EnhancedStore.BumpLookup | lib/enhanced-store.ts:858-860 | `byAuthor[a] = (byAuthor[a] \|\| 0) + count` changes only the entry of `a` |
| EnhancedStore.BumpSum | lib/enhanced-store.ts:858-860 | each step adds its count to the sum of the tally |
| EnhancedStore.BumpDistinct | lib/enhanced-store.ts:858-860 | each step keeps one entry per author |
| EnhancedStore.TallyKeys | lib/enhanced-store.ts:857-860 | an author has an entry exactly when it has a sped that day, and the entry is its total |
| EnhancedStore.TallyAddsUp | lib/enhanced-store.ts:853-866 | the `byAuthor` values sum to the day's total, with one entry per author, each that author's total |
| EnhancedStore.GetDailySummary | lib/enhanced-store.ts:853-866 | `totalCount` is the sum of the counts of the speds of that date, and `byAuthor` is their per-author tally |
| EnhancedStore.PartializeForgetsExactly | lib/enhanced-store.ts:879-893 | two states persist alike exactly when they agree on everything except the feed, the connection, the theme and the FAQs' images |
| PendenciasPage.UrgentFirstIsPreorder | app/pendencias/page.tsx:132-135 | the page's comparator is a total preorder |
| PendenciasPage.FilteredPendenciasSpec | app/pendencias/page.tsx:125-135 | exactly the rows whose titulo or descricao contains the term, ignoring case; an empty term keeps all. Urgent rows come before the others; within each group the newest comes first |
| PendenciasPage.StatsAddUp | app/pendencias/page.tsx:138-144 | the total is the length. The urgent count and the three status counts are each at most the total, and those three sum to it when every status is known |
| PendenciasPage.FormatarStatus | app/pendencias/page.tsx:190-201 | the three codes get their labels; any other value is returned as it is |
| PendenciasPage.CsvLineCount | app/pendencias/page.tsx:203-216 | one header line plus one line per pendência: the text the export writes, and the fully escaped one, hold exactly one line feed per pendência |
| PendenciasPage.CsvTitleReadsBack | app/pendencias/page.tsx:207-208 | in the row as the export writes it (and in the fully escaped one) the title follows the id; a CSV reader gets it back exactly, quotes and commas included |
| Text.QuotedFieldRoundTrip | app/pendencias/page.tsx:208-209 | a field with every internal `"` doubled reads back as the original text |
| PendenciasPage.AuthorQuoteMisread | app/pendencias/page.tsx:213 | as written, an author holding a quote is not read back from its field |
| PendenciasPage.CsvAuthorReadsBack | app/pendencias/page.tsx:213 | with the author escaped like the title, the last field reads back as the author |
| PendenciasPage.NewPendenciaPayload | app/pendencias/page.tsx:246-253 | the titulo is trimmed; a blank descricao becomes "Sem descrição", otherwise it is trimmed. Status "nao-concluido"; author null exactly when empty |
| PendenciasPage.PendenciaForm.constructor | app/pendencias/page.tsx:53-62 | an empty form, dialog closed |
| PendenciasPage.PendenciaForm.HandleSubmit | app/pendencias/page.tsx:235-278 | a blank title submits nothing and changes nothing. Otherwise the payload is submitted; on success the form is reset and the dialog closed, on failure both stay |
| AcessosPage.FilteredAcessosSpec | app/acessos/page.tsx:92-98 | exactly the acessos whose posto, maquina or usuario contains the term, in order; none without data; all for an empty term |
| AcessosPage.ToggleExpansaoSpec | app/acessos/page.tsx:101-103 | only the flag of the matching rows flips. Toggling twice restores what is shown, and exactly restores the list when every flag is defined |
| AcessosPage.FirstBlankSpec | app/acessos/page.tsx:135-169 | the field reported is blank and every field checked before it (posto, maquina, usuario, senha) is not; no report means none is blank |
| AcessosPage.AcessoDataIsClean | app/acessos/page.tsx:172-180 | every field is trimmed, blank optional fields become null, and the store's cleaning of that data changes nothing |
| AcessosPage.AcessosPageState.constructor | app/acessos/page.tsx:45-57 | an empty form, dialog closed, nothing being edited |
| AcessosPage.AcessosPageState.Editar | app/acessos/page.tsx:411 | the edit dialog opens on a copy of the acesso; the list, the form and the new-acesso dialog stay |
| AcessosPage.WithEditSpec | app/acessos/page.tsx:533-582 | an edit sets the named field to the text typed; every other field and the expansion flag stay |
| AcessosPage.AcessosPageState.EditarCampo | app/acessos/page.tsx:533-582 | with an acesso being edited, that field of the copy takes the text; otherwise nothing changes |
| AcessosPage.AcessosPageState.FecharEdicao | app/acessos/page.tsx:521 | closing the edit dialog discards the copy; nothing else changes |
| AcessosPage.AcessosPageState.ToggleExpansao | app/acessos/page.tsx:101-103 | the list becomes the toggled list; the form and dialogs stay |
| AcessosPage.AcessosPageState.HandleSubmit | app/acessos/page.tsx:130-215 | the first blank required field stops it with nothing sent. Otherwise the clean data is sent; on success the form is reset and the dialog closed, on failure nothing changes |
| AcessosPage.AcessosPageState.HandleUpdateAcesso | app/acessos/page.tsx:217-245 | with nothing being edited, nothing is sent and nothing changes. Otherwise the row is sent, and on success the edit is closed |
| KnowledgePage.FilteredFaqsSpec | app/base-conhecimento/page.tsx:123-130 | a FAQ is shown exactly when it matches the search (title or description, ignoring case) and the tab ("all" or its category) |
| KnowledgePage.WithFieldSpec | app/base-conhecimento/page.tsx:132-137 | only the named field changes |
| KnowledgePage.FaqFormState.constructor | app/base-conhecimento/page.tsx:66-72 | the form starts empty |
| KnowledgePage.FaqFormState.HandleInputChange | app/base-conhecimento/page.tsx:132-137 | the form becomes the form with that field set |
| KnowledgePage.FaqSubmissionSpec | app/base-conhecimento/page.tsx:150-156 | an empty title becomes "Novo FAQ" and an empty description "Descrição do novo FAQ"; otherwise both are kept as typed. The author is null exactly when empty |
| KnowledgePage.FaqFormState.HandleSubmit | app/base-conhecimento/page.tsx:147-182 | the submission is sent; on success the form is reset, on failure it stays |
| KnowledgePage.SaveEnabledKeepsTitle | app/base-conhecimento/page.tsx:318 | with save enabled (title and category non-empty), the title typed is the one written |
| KnowledgePage.FindCategorySpec | app/base-conhecimento/page.tsx:348-351 | `find` returns the first category with the id, or none when no category has it |
| KnowledgePage.CategoryNameSpec | app/base-conhecimento/page.tsx:43-52 | a listed id shows its name; any other id shows itself |
| SettingsPage.ToggledTheme | app/configuracao/page.tsx:97-103 | "dark" exactly when checked, "light" exactly when not |
| SettingsPage.SystemTheme | app/configuracao/page.tsx:106-113 | on gives "system"; off keeps "dark" when dark, otherwise "light" |
| SettingsPage.SystemThemeSwitchOff | app/configuracao/page.tsx:106-113 | switching off never leaves "system" and is idempotent; on then off always gives "light" |
| SettingsPage.SentName | app/configuracao/page.tsx:116-129 | a name is sent exactly when the input is not blank and the action called exists; it is the trimmed input |
| SettingsPage.AddAutorNeverSends | app/configuracao/page.tsx:45 | `addAutor` is not a store action, so as written nothing is ever sent; with `addAuthor` a non-blank name is sent trimmed |
| SettingsPage.SaveDisabledIsGuard | app/configuracao/page.tsx:319 | save is disabled exactly when the guard would reject the name |
| SettingsPage.SettingsPageState.constructor | app/configuracao/page.tsx:48-50 | an empty name, dialog closed |
| SettingsPage.SettingsPageState.ToggleTheme | app/configuracao/page.tsx:97-103 | the theme becomes `ToggledTheme(checked)` |
| SettingsPage.SettingsPageState.UseSystemTheme | app/configuracao/page.tsx:106-113 | the theme becomes `SystemTheme(theme, checked)` |
| SettingsPage.SettingsPageState.HandleAddAutorCalling | app/configuracao/page.tsx:116-142 | the guard and then the call. On success the name is cleared and the dialog closed; a failed call changes nothing |
| SettingsPage.SettingsPageState.HandleAddAutorAsWritten | app/configuracao/page.tsx:127 | as written: nothing is sent and nothing changes, for every input |
| SettingsPage.SettingsPageState.HandleAddAutor | app/configuracao/page.tsx:116-142 | calling the store's `addAuthor`: a blank name does nothing. Otherwise the trimmed name is sent; on success the input is cleared and the dialog closed, on failure nothing changes |
| ActivityList.ElapsedBuckets | components/real-time-activity-list.tsx:95-107 | under a minute "now"; then whole minutes below an hour, whole hours below a day, and whole days. The buckets do not overlap and cover every difference |
| ActivityList.RenderElapsedInjective | components/real-time-activity-list.tsx:99-106 | different buckets or counts never give the same label |
| ActivityList.ActivityListState.constructor | components/real-time-activity-list.tsx:81 | the list shown is the first `maxItems` activities |
| ActivityList.ActivityListState.AddNewActivity | components/real-time-activity-list.tsx:110-112 | the item is first with `isNew = true`, followed by the entries shown before; with `maxItems ≥ 1` at most `maxItems` are kept |
| ActivityList.ActivityListState.ClearNewFlag | components/real-time-activity-list.tsx:114-118 | the step after the timer: only the entries with that id lose the flag |
| EnhancedStatusIndicator.FormatLastUpdateBuckets | components/enhanced-status-indicator.tsx:32-50 | "agora" exactly below 10 s; "{s}s atrás" from 10 to 59 s; "{m}m atrás" from 60 to 3599 s; the clock time exactly from 3600 s |
| EnhancedStatusIndicator.SameLabelSameAge | components/enhanced-status-indicator.tsx:38-43 | the same relative label means the same bucket and the same count |
| EnhancedStatusIndicator.CountLabel | components/enhanced-status-indicator.tsx:123 | "pendência" exactly for 1, "pendências" for every other count |
| DynamicStatusIndicator.FormatLastUpdateBuckets | components/dynamic-status-indicator.tsx:27-43 | "{s}s atrás" under a minute, "0s atrás" included; "{m}m atrás" from 60 to 3599 s; the clock time exactly from 3600 s |
| DynamicStatusIndicator.AgreesWithEnhanced | components/dynamic-status-indicator.tsx:33-34 | from 10 s on both components show the same label; below that they differ, "agora" against the seconds |
| DynamicStatusIndicator.SecondsTextRoundTrip | components/dynamic-status-indicator.tsx:89 | the printed `pollingInterval / 1000` reads back as the interval |
| DynamicStatusIndicator.PollingLabelSpec | components/dynamic-status-indicator.tsx:89 | different intervals show different badges; whole seconds show without a point ("30s", "1.5s") |

## Left out

- The database, the realtime channels and polling are oracles. Every call's outcome is a parameter; `getSupabaseClient`, setting up and removing channels, and the query builders are not modelled; only the status callbacks are.
- Timers, `isMountedRef` and interleaving are left out. The `setTimeout` flag clearing is an explicit `ClearNewFlag` step. The order of realtime events racing in-flight writes is not a sequential question.
- Dates, clocks and randomness are left out. Ids and times are parameters. `toLocaleString`/`toLocaleTimeString` is either a `formatDate` parameter or the `ClockTime` label.
- `getSpedsByDateRange` (lib/enhanced-store.ts:867-875) compares date strings, which this model does not order.
- The daily password (app/pendencias/page.tsx:87-98) is left out: it depends on floating-point division and float rendering.
- The CSV download (Blob, DOM link), toasts, logging and the dialog's DOM close (app/base-conhecimento/page.tsx:168) are left out; only the string building and the state changes are modelled.
- Each store's `fetch*` and `subscribe*` actions are left out. They replace a list with a snapshot, or wire up realtime, which `SupabaseRealtime` models.
- lib/store.ts:19 lists statuses ("pendente", "concluida") that disagree with the set the pages and lib/supabase.ts use. The model follows the pages.
- handleUpdateAcesso (app/acessos/page.tsx:221-229) sends camelCase keys to lib/store.ts, which passes them to the database unchanged. Whether those columns exist is a schema question outside this model; the payload is modelled as sent.
- Text.ToLower: folds ASCII and Latin-1 upper-case letters only, not full Unicode case mapping.
- EnhancedPendencias.DataHash: the `JSON.stringify` text is represented by the (id, status, titulo) projection it is computed from. Equal texts are equal projections.
- Store.AppStore.AddAuthor: `localeCompare` is an abstract total preorder supplied by the caller, not the pt-BR collation.
- PendenciasPage.CsvLineCount: stated, for the text as written and the escaped one, for pendências whose texts and rendered date hold no line feed. A quoted line feed is legal CSV but adds a physical line.
- ActivityList.ActivityListState.AddNewActivity: the bound on the list length is stated for `maxItems ≥ 1`. With `maxItems ≤ 0`, `slice` takes a negative end and the length is only tied to the previous one.
- DynamicStatusIndicator.SecondsText: prints `pollingInterval / 1000` for a whole number of milliseconds below 10^15. JavaScript's exponent notation for huge numbers and non-integral intervals are not modelled.
- PendenciasPage.CsvFields: the status field is quoted by the corrected definition as well. The three known labels hold no quote, so known statuses read the same in both versions.

## Findings

| source | as written | input that shows it | evidently intended | confidence | as-written member | corrected member |
|---|---|---|---|---|---|---|
| app/configuracao/page.tsx:45,127 | the handler calls `addAutor`, which lib/store.ts does not define (its action is `addAuthor({ name })`), so every submission throws and lands in the error branch | any non-blank name, e.g. "Ana" | `addAuthor({ name: newAuthorName.trim() })`, then clear the input and close the dialog | high, not executed | SettingsPage.SettingsPageState.HandleAddAutorAsWritten | SettingsPage.SettingsPageState.HandleAddAutor |
| app/pendencias/page.tsx:210,213 | the status and author fields are wrapped in quotes without doubling the quotes inside, unlike the title and description | a pendência whose author is `a"b`: its field reads back as `a` followed by stray text | escape every quoted field as the title is escaped | medium, not executed | PendenciasPage.AuthorQuoteMisread | PendenciasPage.CsvAuthorReadsBack |
