/** The settings page (app/configuracao/page.tsx): the two theme switches
    and the new-author dialog.

    The dialog's handler calls the store action `addAutor`, which the store
    (lib/store.ts) does not define: its action is `addAuthor`, and it takes
    an object `{ name }`. Calling an undefined action throws, so as written
    every valid submission ends in the error branch. Both the handler as
    written and the handler as evidently intended are modelled. */
module SettingsPage {
  import opened Common
  import opened Text

  // ---------------------------------------------------------------------
  // Theme

  /** `toggleTheme(checked)`: the dark-mode switch. */
  function ToggledTheme(checked: bool): (theme: string)
    ensures checked <==> theme == "dark"
    ensures !checked <==> theme == "light"
  {
    if checked then "dark" else "light"
  }

  /** `useSystemTheme(checked)`: turning the system switch on selects
      "system"; turning it off keeps dark when dark is the theme and
      otherwise selects light. */
  function SystemTheme(current: string, checked: bool): (theme: string)
    ensures checked ==> theme == "system"
    ensures !checked ==> (theme == "dark" <==> current == "dark") && (theme == "light" <==> current != "dark")
  {
    if checked then "system" else if current == "dark" then "dark" else "light"
  }

  /** Turning the system switch off never leaves the system theme, and
      doing it twice is doing it once. Turning it on and off again always
      gives light, whatever the theme was before. */
  lemma SystemThemeSwitchOff(current: string)
    ensures SystemTheme(current, false) != "system"
    ensures SystemTheme(SystemTheme(current, false), false) == SystemTheme(current, false)
    ensures SystemTheme(SystemTheme(current, true), false) == "light"
    ensures SystemTheme(ToggledTheme(true), false) == "dark" && SystemTheme(ToggledTheme(false), false) == "light"
  {
  }

  // ---------------------------------------------------------------------
  // New author

  /** The actions the store defines (lib/store.ts). Calling a name not
      among them throws a TypeError. */
  const StoreActions: set<string> := {
    "fetchFaqs", "addFaq", "updateFaq", "deleteFaq", "subscribeToFaqs",
    "fetchPendencias", "addPendencia", "updatePendencia", "deletePendencia", "subscribeToPendencias",
    "fetchAcessos", "addAcesso", "updateAcesso", "deleteAcesso", "subscribeToAcessos",
    "fetchAutores", "addAuthor", "deleteAuthor", "subscribeToAuthors", "addActivity"}

  /** The name the store is given when the handler calls `action`: none for
      a blank input (the guard), none when the action does not exist (the
      call throws before anything is sent), and otherwise the trimmed
      input. */
  function SentName(action: string, input: string): (r: Option<string>)
    ensures r.Some? <==> !IsBlank(input) && action in StoreActions
    ensures r.Some? ==> r.value == Trim(input) && r.value != "" && IsTrimmed(r.value)
  {
    TrimShape(input);
    if IsBlank(input) || action !in StoreActions then None else Some(Trim(input))
  }

  /** Whether the handler reaches its success branch: the action exists
      and the store's insert succeeds. */
  function AddSucceeds(action: string, input: string, serverOk: bool): (ok: bool)
    ensures ok <==> SentName(action, input).Some? && serverOk
  {
    !IsBlank(input) && action in StoreActions && serverOk
  }

  /** As written, no name is ever sent and the success branch is never
      reached: the action the handler calls does not exist. With the store's
      own action, a non-blank name is sent trimmed and a successful insert
      reaches it. */
  lemma AddAutorNeverSends(input: string, serverOk: bool)
    ensures "addAutor" !in StoreActions
    ensures SentName("addAutor", input) == None && !AddSucceeds("addAutor", input, serverOk)
    ensures !IsBlank(input) ==> SentName("addAuthor", input) == Some(Trim(input))
    ensures !IsBlank(input) && serverOk ==> AddSucceeds("addAuthor", input, serverOk)
  {
  }

  /** The save button is disabled exactly when the guard would reject the
      input, so through the button the guard never fires. */
  predicate SaveDisabled(newAuthorName: string) {
    Trim(newAuthorName) == ""
  }

  lemma SaveDisabledIsGuard(newAuthorName: string)
    ensures SaveDisabled(newAuthorName) <==> SentName("addAuthor", newAuthorName).None?
    ensures SaveDisabled(newAuthorName) <==> AllSpace(newAuthorName)
  {
    TrimShape(newAuthorName);
  }

  class SettingsPageState {
    var theme: string
    var newAuthorName: string
    var isDialogOpen: bool

    constructor(initialTheme: string)
      ensures theme == initialTheme && newAuthorName == "" && !isDialogOpen
    {
      theme := initialTheme;
      newAuthorName := "";
      isDialogOpen := false;
    }

    method ToggleTheme(checked: bool)
      modifies this
      ensures theme == ToggledTheme(checked)
      ensures newAuthorName == old(newAuthorName) && isDialogOpen == old(isDialogOpen)
    {
      if checked {
        theme := "dark";
      } else {
        theme := "light";
      }
    }

    method UseSystemTheme(checked: bool)
      modifies this
      ensures theme == SystemTheme(old(theme), checked)
      ensures newAuthorName == old(newAuthorName) && isDialogOpen == old(isDialogOpen)
    {
      if checked {
        theme := "system";
      } else {
        theme := if theme == "dark" then "dark" else "light";
      }
    }

    /** The handler's steps with the store action it calls as a parameter:
        the guard, the call, and on success the reset of the input and the
        dialog. A failed call (the action missing, or the insert failing)
        changes nothing. */
    method HandleAddAutorCalling(action: string, serverOk: bool) returns (sent: Option<string>)
      modifies this
      ensures sent == SentName(action, old(newAuthorName))
      ensures AddSucceeds(action, old(newAuthorName), serverOk) ==>
        newAuthorName == "" && !isDialogOpen && theme == old(theme)
      ensures !AddSucceeds(action, old(newAuthorName), serverOk) ==> unchanged(this)
    {
      if IsBlank(newAuthorName) {
        return None;
      }
      sent := SentName(action, newAuthorName);
      if AddSucceeds(action, newAuthorName, serverOk) {
        newAuthorName := "";
        isDialogOpen := false;
      }
    }

    /** `handleAddAutor()` as written: it calls `addAutor`, which does not
        exist, so for every input nothing is sent and the input and the
        dialog stay as they were. */
    method HandleAddAutorAsWritten(serverOk: bool) returns (sent: Option<string>)
      modifies this
      ensures sent == None && unchanged(this)
    {
      AddAutorNeverSends(newAuthorName, serverOk);
      sent := HandleAddAutorCalling("addAutor", serverOk);
    }

    /** `handleAddAutor()` calling the store's `addAuthor({ name })`: a blank
        name sends nothing and changes nothing; otherwise the trimmed name is
        sent, and after a successful insert the input is cleared and the
        dialog closed, while after a failure both stay. */
    method HandleAddAutor(serverOk: bool) returns (sent: Option<string>)
      modifies this
      ensures IsBlank(old(newAuthorName)) ==> sent == None && unchanged(this)
      ensures !IsBlank(old(newAuthorName)) ==> sent == Some(Trim(old(newAuthorName)))
      ensures !IsBlank(old(newAuthorName)) && serverOk ==> newAuthorName == "" && !isDialogOpen && theme == old(theme)
      ensures !serverOk ==> unchanged(this)
    {
      AddAutorNeverSends(newAuthorName, serverOk);
      sent := HandleAddAutorCalling("addAuthor", serverOk);
    }
  }
}
