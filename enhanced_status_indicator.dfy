/** The status card of the enhanced pendências view
    (components/enhanced-status-indicator.tsx): the "last update" label and
    the pluralised count. */
module EnhancedStatusIndicator {
  import opened Text

  /** A "last update" label: relative text, or the wall-clock time of the
      update rendered by the locale (not modelled). */
  datatype LastUpdateLabel = Relative(text: string) | ClockTime

  /** `Math.floor(diffMs / 1000)` */
  function SecondsOf(diffMs: int): int {
    diffMs / 1000
  }

  /** `formatLastUpdate(date)`, with `diffMs = now - date` in milliseconds. */
  function FormatLastUpdate(diffMs: int): LastUpdateLabel {
    var s := SecondsOf(diffMs);
    var m := s / 60;
    if s < 10 then Relative("agora")
    else if s < 60 then Relative(IntToString(s) + "s atrás")
    else if m < 60 then Relative(IntToString(m) + "m atrás")
    else ClockTime
  }

  /** `Math.floor(Math.floor(x / 1000) / 60) == Math.floor(x / 60000)` */
  lemma MinutesOfSeconds(x: int)
    ensures SecondsOf(x) / 60 == x / 60000
  {
    var q := x / 1000;
    var q2 := q / 60;
    assert 60000 * q2 <= 1000 * q <= x;
    assert x < 1000 * (q + 1) <= 60000 * (q2 + 1);
  }

  /** The buckets in milliseconds: "agora" below ten seconds (a clock
      running ahead included), whole seconds below a minute, whole minutes
      below an hour, and the clock time from an hour on. */
  lemma FormatLastUpdateBuckets(diffMs: int)
    ensures diffMs < 10000 <==> FormatLastUpdate(diffMs) == Relative("agora")
    ensures 10000 <= diffMs < 60000 ==>
      FormatLastUpdate(diffMs) == Relative(NatToString(diffMs / 1000) + "s atrás") && 10 <= diffMs / 1000 < 60
    ensures 60000 <= diffMs < 3600000 ==>
      FormatLastUpdate(diffMs) == Relative(NatToString(diffMs / 60000) + "m atrás") && 1 <= diffMs / 60000 < 60
    ensures 3600000 <= diffMs <==> FormatLastUpdate(diffMs) == ClockTime
  {
    MinutesOfSeconds(diffMs);
  }

  /** A number followed by a unit letter and a common tail reads back as
      that number and that letter. */
  lemma NumberWithUnitInjective(n1: nat, n2: nat, u1: char, u2: char, tail: string)
    requires NatToString(n1) + [u1] + tail == NatToString(n2) + [u2] + tail
    ensures n1 == n2 && u1 == u2
  {
    var s := NatToString(n1) + [u1] + tail;
    var k := |NatToString(n1)|;
    assert |NatToString(n2)| == k;
    assert NatToString(n1) == s[..k] == NatToString(n2);
    assert u1 == s[k] == u2;
    NatToStringInjective(n1, n2);
  }

  /** The number a label in seconds or minutes shows. */
  function Amount(s: int): nat
    requires 10 <= s
  {
    if s < 60 then s else s / 60
  }

  /** The unit letter of a label in seconds or minutes. */
  function Unit(s: int): char {
    if s < 60 then 's' else 'm'
  }

  /** Between ten seconds and an hour the label is a number, its unit and
      " atrás". */
  lemma RelativeShape(d: int)
    requires 10 <= SecondsOf(d) < 3600
    ensures FormatLastUpdate(d) == Relative(NatToString(Amount(SecondsOf(d))) + [Unit(SecondsOf(d))] + " atrás")
  {
    NatToStringRoundTrip(Amount(SecondsOf(d)));
  }

  /** The clock time is shown exactly from an hour on, and the five letters
      of "agora" exactly below ten seconds. */
  lemma LabelKind(d: int)
    ensures FormatLastUpdate(d).ClockTime? <==> SecondsOf(d) >= 3600
    ensures FormatLastUpdate(d).Relative? ==> (|FormatLastUpdate(d).text| == 5 <==> SecondsOf(d) < 10)
  {
    if 10 <= SecondsOf(d) < 3600 {
      RelativeShape(d);
    }
  }

  /** Two updates that show the same relative label lie in the same
      bucket, and one shown in seconds or in minutes is the same number of
      whole seconds or whole minutes old. */
  lemma SameLabelSameAge(d1: int, d2: int)
    requires FormatLastUpdate(d1) == FormatLastUpdate(d2)
    ensures SecondsOf(d1) < 10 <==> SecondsOf(d2) < 10
    ensures 10 <= SecondsOf(d1) < 60 ==> SecondsOf(d1) == SecondsOf(d2)
    ensures 60 <= SecondsOf(d1) < 3600 ==> SecondsOf(d1) / 60 == SecondsOf(d2) / 60
  {
    var s1, s2 := SecondsOf(d1), SecondsOf(d2);
    LabelKind(d1);
    LabelKind(d2);
    if 10 <= s1 < 3600 {
      assert 10 <= s2 < 3600;
      RelativeShape(d1);
      RelativeShape(d2);
      NumberWithUnitInjective(Amount(s1), Amount(s2), Unit(s1), Unit(s2), " atrás");
    }
  }

  /** `pendenciasCount === 1 ? "pendência" : "pendências"` */
  function CountLabel(n: int): (word: string)
    ensures word == "pendência" <==> n == 1
    ensures word == "pendências" <==> n != 1
  {
    if n == 1 then "pendência" else "pendências"
  }
}
