/** The string operations of JavaScript that the pages and stores use:
    `trim`, `toLowerCase`, `includes`, `slice`, `join`, the `||` default on
    strings, the `replace(/"/g, '""')` quoting of the CSV export and the
    decimal rendering of integers in template strings. */
module Text {
  import opened Common

  // ---------------------------------------------------------------------
  // String.prototype.trim

  /** The code points `trim` removes: ECMAScript WhiteSpace (tab, vertical
      tab, form feed, space, no-break space, byte order mark and the Unicode
      space separators) and LineTerminator (line feed, carriage return, line
      and paragraph separators). */
  predicate IsSpace(c: char) {
    c == ' ' || c == '\t' || c == '\n' || c == '\r' || c == '\U{B}' || c == '\U{C}'
    || c == '\U{A0}' || c == '\U{FEFF}' || c == '\U{1680}'
    || ('\U{2000}' <= c <= '\U{200A}')
    || c == '\U{2028}' || c == '\U{2029}' || c == '\U{202F}' || c == '\U{205F}' || c == '\U{3000}'
  }

  function TrimStart(s: string): string
    decreases |s|
  {
    if s != [] && IsSpace(s[0]) then TrimStart(s[1..]) else s
  }

  function TrimEnd(s: string): string
    decreases |s|
  {
    if s != [] && IsSpace(s[|s| - 1]) then TrimEnd(s[..|s| - 1]) else s
  }

  function Trim(s: string): string {
    TrimEnd(TrimStart(s))
  }

  /** No white space at either end. */
  predicate IsTrimmed(s: string) {
    s == [] || (!IsSpace(s[0]) && !IsSpace(s[|s| - 1]))
  }

  predicate AllSpace(s: string) {
    forall i :: 0 <= i < |s| ==> IsSpace(s[i])
  }

  /** `!s.trim()`: the string is empty or white space only. */
  predicate IsBlank(s: string) {
    Trim(s) == ""
  }

  lemma {:induction false} TrimStartShape(s: string)
    ensures TrimStart(s) == [] || !IsSpace(TrimStart(s)[0])
    ensures TrimStart(s) == [] <==> AllSpace(s)
    ensures |TrimStart(s)| <= |s| && TrimStart(s) == s[|s| - |TrimStart(s)|..]
    decreases |s|
  {
    if s != [] && IsSpace(s[0]) {
      TrimStartShape(s[1..]);
      assert AllSpace(s[1..]) ==> AllSpace(s) by {
        if AllSpace(s[1..]) {
          forall i | 0 <= i < |s| ensures IsSpace(s[i]) {
            if i > 0 { assert s[i] == s[1..][i - 1]; }
          }
        }
      }
    }
  }

  lemma {:induction false} TrimEndShape(s: string)
    ensures TrimEnd(s) == [] || !IsSpace(TrimEnd(s)[|TrimEnd(s)| - 1])
    ensures TrimEnd(s) == [] <==> AllSpace(s)
    ensures |TrimEnd(s)| <= |s| && TrimEnd(s) == s[..|TrimEnd(s)|]
    decreases |s|
  {
    if s != [] && IsSpace(s[|s| - 1]) {
      var p := s[..|s| - 1];
      TrimEndShape(p);
      assert AllSpace(p) ==> AllSpace(s) by {
        if AllSpace(p) {
          forall i | 0 <= i < |s| ensures IsSpace(s[i]) {
            if i < |s| - 1 { assert s[i] == p[i]; }
          }
        }
      }
      assert TrimEnd(s) == p[..|TrimEnd(s)|];
    }
  }

  /** TrimEnd keeps the first character of a string that does not start
      with white space. */
  lemma {:induction false} TrimEndKeepsHead(s: string)
    requires s != [] && !IsSpace(s[0])
    ensures TrimEnd(s) != [] && TrimEnd(s)[0] == s[0]
    decreases |s|
  {
    if IsSpace(s[|s| - 1]) {
      TrimEndKeepsHead(s[..|s| - 1]);
    }
  }

  /** The result of `trim` has no white space at either end, and it is empty
      exactly when the input is white space only. */
  lemma TrimShape(s: string)
    ensures IsTrimmed(Trim(s))
    ensures Trim(s) == "" <==> AllSpace(s)
  {
    var t := TrimStart(s);
    TrimStartShape(s);
    TrimEndShape(t);
    if t != [] {
      TrimEndKeepsHead(t);
    }
    assert t != [] ==> !AllSpace(t);
  }

  /** A string without white space at its ends is left as it is. */
  lemma TrimOfTrimmed(s: string)
    requires IsTrimmed(s)
    ensures Trim(s) == s
  {
  }

  /** Trimming twice is trimming once. */
  lemma TrimIdempotent(s: string)
    ensures Trim(Trim(s)) == Trim(s)
  {
    TrimShape(s);
    TrimOfTrimmed(Trim(s));
  }

  // ---------------------------------------------------------------------
  // `s || d` on strings: the empty string is falsy.

  function OrElse(s: string, d: string): string {
    if s != "" then s else d
  }

  /** `s.trim() || null`: the trimmed text, or null when it is blank. */
  function TrimOrNull(s: string): (r: Option<string>)
    ensures r == None <==> IsBlank(s)
    ensures r.Some? ==> r.value == Trim(s) && r.value != ""
  {
    if Trim(s) != "" then Some(Trim(s)) else None
  }

  // ---------------------------------------------------------------------
  // String.prototype.toLowerCase, for the Basic Latin and Latin-1 letters.

  function LowerChar(c: char): char {
    if 'A' <= c <= 'Z' || ('\U{C0}' <= c <= '\U{DE}' && c != '\U{D7}') then (c as int + 32) as char else c
  }

  function ToLower(s: string): (r: string)
    ensures |r| == |s|
  {
    seq(|s|, i requires 0 <= i < |s| => LowerChar(s[i]))
  }

  // ---------------------------------------------------------------------
  // String.prototype.includes

  predicate StartsWith(s: string, t: string) {
    |t| <= |s| && s[..|t|] == t
  }

  predicate Includes(s: string, t: string)
    decreases |s|
  {
    StartsWith(s, t) || (s != [] && Includes(s[1..], t))
  }

  /** `t` occurs in `s` starting at position `k`. */
  predicate OccursAt(s: string, t: string, k: int) {
    0 <= k && k + |t| <= |s| && s[k..k + |t|] == t
  }

  /** `includes` holds exactly when `t` occurs at some position of `s`. */
  lemma {:induction false} IncludesAt(s: string, t: string)
    ensures Includes(s, t) <==> exists k :: OccursAt(s, t, k)
    decreases |s|
  {
    if s != [] {
      IncludesAt(s[1..], t);
      if exists k :: OccursAt(s, t, k) {
        var k :| OccursAt(s, t, k);
        if k > 0 {
          assert s[1..][k - 1..k - 1 + |t|] == t;
          assert OccursAt(s[1..], t, k - 1);
        }
      }
      if Includes(s[1..], t) && !StartsWith(s, t) {
        var k :| OccursAt(s[1..], t, k);
        assert s[k + 1..k + 1 + |t|] == t;
        assert OccursAt(s, t, k + 1);
      }
      if StartsWith(s, t) {
        assert OccursAt(s, t, 0);
      }
    } else {
      if exists k :: OccursAt(s, t, k) {
        assert StartsWith(s, t);
      }
      if StartsWith(s, t) {
        assert OccursAt(s, t, 0);
      }
    }
  }

  /** `x.toLowerCase().includes(term.toLowerCase())`. */
  predicate MatchesTerm(text: string, term: string) {
    Includes(ToLower(text), ToLower(term))
  }

  /** The empty search term matches every text. */
  lemma EmptyTermMatches(text: string)
    ensures MatchesTerm(text, "")
  {
    assert StartsWith(ToLower(text), ToLower(""));
  }

  // ---------------------------------------------------------------------
  // Decimal rendering of an integer (`${n}` for a safe integer)

  function DigitChar(d: int): char
    requires 0 <= d < 10
  {
    ('0' as int + d) as char
  }

  predicate IsDigit(c: char) {
    '0' <= c <= '9'
  }

  function NatToString(n: nat): string
    decreases n
  {
    if n < 10 then [DigitChar(n)] else NatToString(n / 10) + [DigitChar(n % 10)]
  }

  function IntToString(n: int): string {
    if n < 0 then "-" + NatToString(-n) else NatToString(n)
  }

  /** The value of a string of decimal digits, as `parseInt` reads it. */
  function DigitsValue(s: string): int
    requires forall i :: 0 <= i < |s| ==> IsDigit(s[i])
    decreases |s|
  {
    if s == [] then 0 else DigitsValue(s[..|s| - 1]) * 10 + (s[|s| - 1] as int - '0' as int)
  }

  /** The rendering is a non-empty string of digits, without a leading zero
      (unless the number is 0), that reads back as the number. */
  lemma {:induction false} NatToStringRoundTrip(n: nat)
    ensures var s := NatToString(n);
      s != [] && (forall i :: 0 <= i < |s| ==> IsDigit(s[i]))
      && (s[0] == '0' ==> n == 0)
      && DigitsValue(s) == n
    decreases n
  {
    var s := NatToString(n);
    if n >= 10 {
      NatToStringRoundTrip(n / 10);
      assert s[..|s| - 1] == NatToString(n / 10);
    }
  }

  /** Two numbers render the same exactly when they are equal. */
  lemma NatToStringInjective(a: nat, b: nat)
    ensures NatToString(a) == NatToString(b) <==> a == b
  {
    NatToStringRoundTrip(a);
    NatToStringRoundTrip(b);
  }

  // ---------------------------------------------------------------------
  // Array.prototype.slice(start, end)

  /** A relative index as `slice` resolves it: negative values count from
      the end, and the result is clamped to `[0, len]`. */
  function RelativeIndex(k: int, len: nat): (r: nat)
    ensures r <= len
    ensures 0 <= k <= len ==> r == k
    ensures k > len ==> r == len
    ensures k < 0 ==> r == if len + k < 0 then 0 else len + k
  {
    if k < 0 then (if len + k < 0 then 0 else len + k) else if k > len then len else k
  }

  function Slice<T>(s: seq<T>, start: int, end: int): seq<T> {
    var a := RelativeIndex(start, |s|);
    var b := RelativeIndex(end, |s|);
    if a < b then s[a..b] else []
  }

  function Min(a: int, b: int): int {
    if a < b then a else b
  }

  /** `s.slice(0, n)` with `n >= 0` is the first `n` elements (all of them
      when there are fewer). */
  lemma SlicePrefix<T>(s: seq<T>, n: int)
    requires n >= 0
    ensures Slice(s, 0, n) == s[..Min(n, |s|)]
    ensures |Slice(s, 0, n)| <= n
  {
  }

  /** `[x, ...s].slice(0, n)` equals `[x, ...s.slice(0, n - 1)]` for `n >= 1`:
      the two ways the stores cap the activity feed agree. */
  lemma SliceAfterPrepend<T>(x: T, s: seq<T>, n: int)
    requires n >= 1
    ensures Slice([x] + s, 0, n) == [x] + Slice(s, 0, n - 1)
  {
    SlicePrefix([x] + s, n);
    SlicePrefix(s, n - 1);
    assert ([x] + s)[..Min(n, |s| + 1)] == [x] + s[..Min(n - 1, |s|)];
  }

  // ---------------------------------------------------------------------
  // Array.prototype.join(sep)

  function Join(parts: seq<string>, sep: string): string
    decreases |parts|
  {
    if parts == [] then ""
    else if |parts| == 1 then parts[0]
    else parts[0] + sep + Join(parts[1..], sep)
  }

  function Count(s: string, c: char): nat
    decreases |s|
  {
    if s == [] then 0 else (if s[0] == c then 1 else 0) + Count(s[1..], c)
  }

  lemma {:induction false} CountAppend(a: string, b: string, c: char)
    ensures Count(a + b, c) == Count(a, c) + Count(b, c)
    decreases |a|
  {
    if a != [] {
      assert (a + b)[0] == a[0];
      assert (a + b)[1..] == a[1..] + b;
      CountAppend(a[1..], b, c);
    } else {
      assert a + b == b;
    }
  }

  /** Joining `n` parts none of which holds the separator character gives
      a text holding that character exactly `n - 1` times: one line per
      part when the separator is a line feed. */
  lemma {:induction false} JoinCount(parts: seq<string>, c: char)
    requires parts != []
    requires forall i :: 0 <= i < |parts| ==> Count(parts[i], c) == 0
    ensures Count(Join(parts, [c]), c) == |parts| - 1
    decreases |parts|
  {
    if |parts| > 1 {
      JoinCount(parts[1..], c);
      CountAppend(parts[0] + [c], Join(parts[1..], [c]), c);
      CountAppend(parts[0], [c], c);
    }
  }

  // ---------------------------------------------------------------------
  // s.replace(/"/g, '""') and the CSV reader it is meant for

  /** Doubles every double quote. */
  function EscapeQuotes(s: string): string
    decreases |s|
  {
    if s == [] then [] else (if s[0] == '"' then "\"\"" else [s[0]]) + EscapeQuotes(s[1..])
  }

  /** A field wrapped in double quotes, as the CSV export writes it. */
  function QuotedField(s: string): string {
    "\"" + EscapeQuotes(s) + "\""
  }

  /** How a CSV reader (RFC 4180) reads the rest of a quoted field after its
      opening quote: a doubled quote stands for one quote and a single quote
      ends the field. The reply is the field's text and the text after it. */
  function ReadQuoted(t: string): Option<(string, string)>
    decreases |t|
  {
    if t == [] then None
    else if t[0] == '"' then
      if |t| >= 2 && t[1] == '"' then
        match ReadQuoted(t[2..])
        case None => None
        case Some(p) => Some(("\"" + p.0, p.1))
      else Some(("", t[1..]))
    else
      match ReadQuoted(t[1..])
      case None => None
      case Some(p) => Some(([t[0]] + p.0, p.1))
  }

  /** Quoting round-trips: a reader gets back exactly the original text,
      whatever quotes it holds, and stops right after the closing quote. */
  lemma {:induction false} QuotedFieldRoundTrip(s: string, rest: string)
    requires rest == [] || rest[0] != '"'
    ensures QuotedField(s)[0] == '"'
    ensures ReadQuoted((QuotedField(s) + rest)[1..]) == Some((s, rest))
  {
    assert (QuotedField(s) + rest)[1..] == EscapeQuotes(s) + "\"" + rest;
    ReadEscaped(s, rest);
  }

  lemma {:induction false} ReadEscaped(s: string, rest: string)
    requires rest == [] || rest[0] != '"'
    ensures ReadQuoted(EscapeQuotes(s) + "\"" + rest) == Some((s, rest))
    decreases |s|
  {
    var t := EscapeQuotes(s) + "\"" + rest;
    if s == [] {
      assert t == "\"" + rest;
    } else if s[0] == '"' {
      assert t == "\"\"" + (EscapeQuotes(s[1..]) + "\"" + rest);
      ReadEscaped(s[1..], rest);
      assert t[2..] == EscapeQuotes(s[1..]) + "\"" + rest;
      assert "\"" + s[1..] == s;
    } else {
      assert t == [s[0]] + (EscapeQuotes(s[1..]) + "\"" + rest);
      ReadEscaped(s[1..], rest);
      assert t[1..] == EscapeQuotes(s[1..]) + "\"" + rest;
      assert [s[0]] + s[1..] == s;
    }
  }

  /** Escaping adds one character per quote and removes no line feed. */
  lemma {:induction false} EscapeQuotesCount(s: string, c: char)
    requires c != '"'
    ensures Count(EscapeQuotes(s), c) == Count(s, c)
    decreases |s|
  {
    if s != [] {
      var head := if s[0] == '"' then "\"\"" else [s[0]];
      CountAppend(head, EscapeQuotes(s[1..]), c);
      EscapeQuotesCount(s[1..], c);
    }
  }
}
