/** The status bar of the dynamic pendências view
    (components/dynamic-status-indicator.tsx): its "last update" label,
    which unlike the enhanced card has no "agora" bucket, and the polling
    badge, which shows the interval in seconds as JavaScript prints the
    quotient `pollingInterval / 1000`. */
module DynamicStatusIndicator {
  import opened Common
  import opened Text
  import Enhanced = EnhancedStatusIndicator

  // ---------------------------------------------------------------------
  // formatLastUpdate

  /** `formatLastUpdate(date)`, with `diffMs = now - date` in milliseconds. */
  function FormatLastUpdate(diffMs: int): Enhanced.LastUpdateLabel {
    var s := diffMs / 1000;
    var m := s / 60;
    if s < 60 then Enhanced.Relative(IntToString(s) + "s atrás")
    else if m < 60 then Enhanced.Relative(IntToString(m) + "m atrás")
    else Enhanced.ClockTime
  }

  /** The buckets in milliseconds: whole seconds below a minute, starting
      at "0s atrás"; whole minutes below an hour; the clock time from an
      hour on. */
  lemma FormatLastUpdateBuckets(diffMs: int)
    ensures 0 <= diffMs < 60000 ==>
      FormatLastUpdate(diffMs) == Enhanced.Relative(NatToString(diffMs / 1000) + "s atrás")
    ensures 0 <= diffMs < 1000 ==> FormatLastUpdate(diffMs) == Enhanced.Relative("0s atrás")
    ensures 60000 <= diffMs < 3600000 ==>
      FormatLastUpdate(diffMs) == Enhanced.Relative(NatToString(diffMs / 60000) + "m atrás") && 1 <= diffMs / 60000 < 60
    ensures 3600000 <= diffMs <==> FormatLastUpdate(diffMs) == Enhanced.ClockTime
  {
    Enhanced.MinutesOfSeconds(diffMs);
  }

  /** The two views label an update alike from ten seconds on; below that
      the enhanced card says "agora" where this bar counts the seconds. */
  lemma AgreesWithEnhanced(diffMs: int)
    ensures diffMs >= 10000 ==> FormatLastUpdate(diffMs) == Enhanced.FormatLastUpdate(diffMs)
    ensures diffMs < 10000 ==>
      Enhanced.FormatLastUpdate(diffMs) == Enhanced.Relative("agora")
      && FormatLastUpdate(diffMs) == Enhanced.Relative(IntToString(diffMs / 1000) + "s atrás")
      && FormatLastUpdate(diffMs) != Enhanced.FormatLastUpdate(diffMs)
  {
    if diffMs < 10000 {
      var t := IntToString(diffMs / 1000) + "s atrás";
      assert t[|t| - 6] == ' ';
    }
  }

  // ---------------------------------------------------------------------
  // The polling badge: `{pollingInterval / 1000}s`

  /** The digits of a fraction of a second in thousandths, as JavaScript
      prints them after the point: no trailing zeros. */
  function FracDigits(f: nat): string
    requires 0 < f < 1000
  {
    if f % 100 == 0 then [DigitChar(f / 100)]
    else if f % 10 == 0 then [DigitChar(f / 100), DigitChar(f / 10 % 10)]
    else [DigitChar(f / 100), DigitChar(f / 10 % 10), DigitChar(f % 10)]
  }

  /** `String(ms / 1000)` for a whole number of milliseconds. */
  function SecondsText(ms: nat): string {
    var f := ms % 1000;
    NatToString(ms / 1000) + (if f == 0 then "" else "." + FracDigits(f))
  }

  function PollingLabel(pollingInterval: nat): string {
    SecondsText(pollingInterval) + "s"
  }

  // A reader for the printed quotient, the partner of SecondsText.

  predicate AllDigits(s: string) {
    forall i :: 0 <= i < |s| ==> IsDigit(s[i])
  }

  /** The text before and after the first '.', if any. */
  function SplitAtDot(t: string): Option<(string, string)>
    decreases |t|
  {
    if t == [] then None
    else if t[0] == '.' then Some(([], t[1..]))
    else
      match SplitAtDot(t[1..])
      case None => None
      case Some(p) => Some(([t[0]] + p.0, p.1))
  }

  function Pow10(k: nat): nat {
    if k == 0 then 1 else 10 * Pow10(k - 1)
  }

  /** A decimal number of seconds with at most three digits after the
      point, read as milliseconds. */
  function ParseSeconds(t: string): Option<int> {
    match SplitAtDot(t)
    case None =>
      if t != [] && AllDigits(t) then Some(DigitsValue(t) * 1000) else None
    case Some((whole, frac)) =>
      if whole != [] && AllDigits(whole) && 1 <= |frac| <= 3 && AllDigits(frac)
      then Some(DigitsValue(whole) * 1000 + DigitsValue(frac) * Pow10(3 - |frac|))
      else None
  }

  lemma {:induction false} SplitAtFirstDot(a: string, b: string)
    requires '.' !in a
    ensures SplitAtDot(a + "." + b) == Some((a, b))
    decreases |a|
  {
    if a == [] {
      assert a + "." + b == ['.'] + b;
    } else {
      assert (a + "." + b)[1..] == a[1..] + "." + b;
      SplitAtFirstDot(a[1..], b);
      assert [a[0]] + a[1..] == a;
    }
  }

  lemma {:induction false} NoDotAnywhere(a: string)
    requires '.' !in a
    ensures SplitAtDot(a) == None
    decreases |a|
  {
    if a != [] {
      NoDotAnywhere(a[1..]);
    }
  }

  lemma DigitsHaveNoDot(s: string)
    requires AllDigits(s)
    ensures '.' !in s
  {
  }

  /** The fraction digits are digits, end in a non-zero one, and read back
      as the thousandths they came from. */
  lemma FracDigitsRoundTrip(f: nat)
    requires 0 < f < 1000
    ensures var d := FracDigits(f);
      1 <= |d| <= 3 && AllDigits(d) && d[|d| - 1] != '0'
      && DigitsValue(d) * Pow10(3 - |d|) == f
  {
    var d := FracDigits(f);
    var a, b, c := f / 100, f / 10 % 10, f % 10;
    assert f == 100 * a + 10 * b + c;
    assert DigitsValue([DigitChar(a)]) == a by {
      assert [DigitChar(a)][..0] == [];
    }
    if f % 100 == 0 {
      assert d == [DigitChar(a)];
    } else if f % 10 == 0 {
      assert d == [DigitChar(a), DigitChar(b)];
      assert d[..1] == [DigitChar(a)];
    } else {
      assert d == [DigitChar(a), DigitChar(b), DigitChar(c)];
      assert d[..2] == [DigitChar(a), DigitChar(b)];
      assert d[..2][..1] == [DigitChar(a)];
    }
  }

  /** Reading the badge's number gives the interval back. */
  lemma SecondsTextRoundTrip(ms: nat)
    ensures ParseSeconds(SecondsText(ms)) == Some(ms)
  {
    var q, f := ms / 1000, ms % 1000;
    var w := NatToString(q);
    NatToStringRoundTrip(q);
    DigitsHaveNoDot(w);
    if f == 0 {
      assert SecondsText(ms) == w;
      NoDotAnywhere(w);
    } else {
      var d := FracDigits(f);
      FracDigitsRoundTrip(f);
      assert SecondsText(ms) == w + "." + d;
      SplitAtFirstDot(w, d);
    }
  }

  /** Different intervals show different badges, and a whole number of
      seconds shows without a point. */
  lemma PollingLabelSpec(a: nat, b: nat)
    ensures PollingLabel(a) == PollingLabel(b) ==> a == b
    ensures a % 1000 == 0 ==> PollingLabel(a) == NatToString(a / 1000) + "s"
    ensures PollingLabel(30000) == "30s" && PollingLabel(1500) == "1.5s"
  {
    if PollingLabel(a) == PollingLabel(b) {
      assert SecondsText(a) == PollingLabel(a)[..|PollingLabel(a)| - 1] == SecondsText(b);
      SecondsTextRoundTrip(a);
      SecondsTextRoundTrip(b);
    }
    assert NatToString(30) == "30";
    assert NatToString(1) == "1";
  }
}
