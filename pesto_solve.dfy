/// Solves recorded by the timer app (`pesto-core/src/solve.rs`): the penalty
/// codec used to store them and the text they are displayed as.
module PestoSolve {
  import opened Wrappers

  datatype Penalty = NoPenalty | Plus2 | Dnf {
    /// `index`: the number a penalty is stored as.
    function Index(): (r: nat)
      ensures r < 3
    {
      match this
      case NoPenalty => 0
      case Plus2 => 1
      case Dnf => 2
    }
  }

  /// `from_index`: the penalty stored as `index`, or an error for any other
  /// number.
  function PenaltyFromIndex(index: nat): (r: Result<Penalty, string>)
    ensures r.Ok? <==> index < 3
    ensures r.Ok? ==> r.value.Index() == index
  {
    if index == 0 then Ok(NoPenalty)
    else if index == 1 then Ok(Plus2)
    else if index == 2 then Ok(Dnf)
    else Err("Invalid penalty index")
  }

  /// Decoding the stored index gives the penalty back, and no two penalties
  /// are stored as the same index.
  lemma PenaltyRoundTrip(p: Penalty, q: Penalty)
    ensures PenaltyFromIndex(p.Index()) == Ok(p)
    ensures p.Index() == q.Index() ==> p == q
  {
  }

  /// A `std::time::Duration`, kept as its whole number of nanoseconds.
  datatype Duration = Duration(nanos: nat) {
    /// `as_secs`: whole seconds.
    function Secs(): nat {
      nanos / 1_000_000_000
    }

    /// `as_millis`: whole milliseconds.
    function Millis(): nat {
      nanos / 1_000_000
    }
  }

  /// The decimal digit for `d < 10`.
  function DigitChar(d: nat): (c: char)
    requires d < 10
    ensures '0' <= c <= '9'
  {
    ['0', '1', '2', '3', '4', '5', '6', '7', '8', '9'][d]
  }

  /// The value of a decimal digit.
  function DigitValue(c: char): (d: nat)
    requires '0' <= c <= '9'
    ensures d < 10
  {
    if c == '0' then 0 else if c == '1' then 1 else if c == '2' then 2
    else if c == '3' then 3 else if c == '4' then 4 else if c == '5' then 5
    else if c == '6' then 6 else if c == '7' then 7 else if c == '8' then 8
    else 9
  }

  lemma DigitRoundTrip(d: nat)
    requires d < 10
    ensures DigitValue(DigitChar(d)) == d
  {
  }

  predicate IsDigits(s: string) {
    forall i :: 0 <= i < |s| ==> '0' <= s[i] <= '9'
  }

  /// The number a string of decimal digits spells, most significant first.
  function Value(s: string): nat
    requires IsDigits(s)
  {
    if s == [] then 0 else Value(s[..|s| - 1]) * 10 + DigitValue(s[|s| - 1])
  }

  /// `n` in decimal, without leading zeros (`{}` on an integer).
  function Decimal(n: nat): (s: string)
    ensures IsDigits(s) && |s| > 0
    ensures Value(s) == n
    ensures n < 10 ==> |s| == 1
    ensures n < 100 ==> |s| <= 2
    ensures n < 1000 ==> |s| <= 3
  {
    var s := if n < 10 then [DigitChar(n)] else Decimal(n / 10) + [DigitChar(n % 10)];
    assert s[..|s| - 1] == if n < 10 then [] else Decimal(n / 10);
    DigitRoundTrip(n % 10);
    s
  }

  function Zeros(k: nat): (s: string)
    ensures |s| == k && IsDigits(s)
  {
    seq(k, _ => '0')
  }

  /// `{:0>w}`: `s` with zeros added in front up to width `w`; a longer `s` is
  /// kept whole.
  function PadLeft(s: string, w: nat): (r: string)
    ensures |r| == if |s| < w then w else |s|
  {
    if |s| < w then Zeros(w - |s|) + s else s
  }

  /// Leading zeros do not change the value.
  lemma {:induction false} ZerosValue(k: nat, s: string)
    requires IsDigits(s)
    ensures IsDigits(Zeros(k) + s) && Value(Zeros(k) + s) == Value(s)
    decreases |s|
  {
    var z := Zeros(k) + s;
    if s == [] {
      assert z == Zeros(k);
      ZerosOnly(k);
    } else {
      assert z[..|z| - 1] == Zeros(k) + s[..|s| - 1];
      ZerosValue(k, s[..|s| - 1]);
    }
  }

  lemma {:induction false} ZerosOnly(k: nat)
    ensures Value(Zeros(k)) == 0
  {
    if k > 0 {
      assert Zeros(k)[..k - 1] == Zeros(k - 1);
      ZerosOnly(k - 1);
    }
  }

  /// `{:0>w}` applied to `n`: a digit string of the number `n`, exactly `w`
  /// characters long when `n` fits in `w` digits.
  function Padded(n: nat, w: nat): (s: string)
    ensures IsDigits(s) && Value(s) == n && |s| >= w
    ensures w == 2 && n < 100 ==> |s| == 2
    ensures w == 3 && n < 1000 ==> |s| == 3
  {
    var d := Decimal(n);
    assert IsDigits(PadLeft(d, w)) && Value(PadLeft(d, w)) == n by {
      if |d| < w {
        ZerosValue(w - |d|, d);
      }
    }
    PadLeft(d, w)
  }

  /// `a`, the separator `sep`, then `b`.
  function Fields(a: string, sep: char, b: string): (s: string)
    ensures |s| == |a| + 1 + |b| && s[..|a|] == a && s[|a|] == sep && s[|a| + 1..] == b
  {
    a + [sep] + b
  }

  /// `SS.mmm`: the seconds padded to two digits and the milliseconds to
  /// three.
  function SecondsText(secs: nat, millis: nat): (s: string)
    requires secs < 60 && millis < 1000
    ensures |s| == 6 && s[2] == '.' && IsDigits(s[..2]) && IsDigits(s[3..])
    ensures Value(s[..2]) == secs && Value(s[3..]) == millis
  {
    Fields(Padded(secs, 2), '.', Padded(millis, 3))
  }

  /// The text for `secs` whole seconds and `millis` further milliseconds:
  /// `SS.mmm` under a minute, `MM:SS.mmm` from a minute on, where the
  /// minutes take as many digits as they need (at least two).
  function ClockText(secs: nat, millis: nat): (s: string)
    requires millis < 1000
  {
    if secs < 60 then SecondsText(secs, millis)
    else Fields(Padded(secs / 60, 2), ':', SecondsText(secs % 60, millis))
  }

  /// `format_duration_text`.
  function FormatDurationText(d: Duration): (s: string) {
    ClockText(d.Secs(), d.Millis() % 1000)
  }

  /// From a minute on, the minutes stand before a colon seven characters
  /// from the end, followed by the seconds within the minute and the
  /// milliseconds.
  lemma LongClockText(secs: nat, millis: nat)
    requires secs >= 60 && millis < 1000
    ensures |ClockText(secs, millis)| >= 9
    ensures var s := ClockText(secs, millis); var k := |s| - 7;
      s[k] == ':' && IsDigits(s[..k]) && Value(s[..k]) == secs / 60 &&
      s[k + 1..] == SecondsText(secs % 60, millis)
  {
    var m := Padded(secs / 60, 2);
    assert |m| >= 2;
  }

  lemma SecondsTextInjective(secs: nat, millis: nat, secs': nat, millis': nat)
    requires secs < 60 && millis < 1000 && secs' < 60 && millis' < 1000
    requires SecondsText(secs, millis) == SecondsText(secs', millis')
    ensures secs == secs' && millis == millis'
  {
  }

  lemma LongClockTextInjective(secs: nat, millis: nat, secs': nat, millis': nat)
    requires secs >= 60 && millis < 1000 && secs' >= 60 && millis' < 1000
    requires ClockText(secs, millis) == ClockText(secs', millis')
    ensures secs == secs' && millis == millis'
  {
    LongClockText(secs, millis);
    LongClockText(secs', millis');
    var t := ClockText(secs, millis);
    var k := |t| - 7;
    assert Value(t[..k]) == secs / 60 == secs' / 60;
    assert t[k + 1..] == SecondsText(secs % 60, millis) == SecondsText(secs' % 60, millis');
    SecondsTextInjective(secs % 60, millis, secs' % 60, millis');
    MinutesAndSeconds(secs, secs');
  }

  lemma MinutesAndSeconds(secs: nat, secs': nat)
    requires secs / 60 == secs' / 60 && secs % 60 == secs' % 60
    ensures secs == secs'
  {
    assert secs == 60 * (secs / 60) + secs % 60;
    assert secs' == 60 * (secs' / 60) + secs' % 60;
  }

  lemma ClockTextLength(secs: nat, millis: nat)
    requires millis < 1000
    ensures |ClockText(secs, millis)| == 6 <==> secs < 60
  {
    if secs >= 60 {
      LongClockText(secs, millis);
    }
  }

  /// Different times give different texts: the seconds and milliseconds can
  /// be read back off the text.
  lemma ClockTextInjective(secs: nat, millis: nat, secs': nat, millis': nat)
    requires millis < 1000 && millis' < 1000
    requires ClockText(secs, millis) == ClockText(secs', millis')
    ensures secs == secs' && millis == millis'
  {
    ClockTextLength(secs, millis);
    ClockTextLength(secs', millis');
    if secs < 60 {
      SecondsTextInjective(secs, millis, secs', millis');
    } else {
      LongClockTextInjective(secs, millis, secs', millis');
    }
  }

  lemma MillisSplit(d: Duration)
    ensures d.Millis() == d.Secs() * 1000 + d.Millis() % 1000
  {
    assert d.Secs() == d.Millis() / 1000;
  }

  /// The text gives the duration back to the millisecond: two durations with
  /// the same text agree on whole milliseconds.
  lemma DurationTextDetermines(d: Duration, e: Duration)
    requires FormatDurationText(d) == FormatDurationText(e)
    ensures d.Millis() == e.Millis()
  {
    ClockTextInjective(d.Secs(), d.Millis() % 1000, e.Secs(), e.Millis() % 1000);
    MillisSplit(d);
    MillisSplit(e);
  }

  /// A solve, without the wall-clock moment it ended.
  datatype Solve = Solve(time: Duration, scramble: string, penalty: Penalty)

  /// `Solve::new`: a fresh solve carries no penalty.
  function NewSolve(time: Duration, scramble: string): (s: Solve)
    ensures s.time == time && s.scramble == scramble && s.penalty == NoPenalty
  {
    Solve(time, scramble, NoPenalty)
  }

  function PenaltySuffix(p: Penalty): string {
    match p
    case NoPenalty => ""
    case Plus2 => " (+2)"
    case Dnf => " (DNF)"
  }

  /// `Display for Solve`: the duration text, then the penalty, if any.
  function SolveText(s: Solve): string {
    FormatDurationText(s.time) + PenaltySuffix(s.penalty)
  }

  /// The duration text always ends in a millisecond digit.
  lemma DurationTextEndsInDigit(d: Duration)
    ensures var t := FormatDurationText(d); |t| >= 6 && '0' <= t[|t| - 1] <= '9'
  {
    ClockTextEndsInDigit(d.Secs(), d.Millis() % 1000);
  }

  lemma ClockTextEndsInDigit(secs: nat, millis: nat)
    requires millis < 1000
    ensures var t := ClockText(secs, millis); |t| >= 6 && '0' <= t[|t| - 1] <= '9'
  {
    var t := ClockText(secs, millis);
    var m := SecondsText(secs % 60, millis);
    assert m[3..][2] == m[5];
    if secs >= 60 {
      LongClockText(secs, millis);
      assert t[|t| - 1] == m[5];
    } else {
      assert t[3..][2] == t[5];
    }
  }

  /// Behind a text ending in a digit, the penalty's mark can be read off
  /// the end: there is a digit last exactly when there is no penalty.
  lemma SuffixShowsPenalty(t: string, p: Penalty)
    requires |t| >= 6 && '0' <= t[|t| - 1] <= '9'
    ensures var r := t + PenaltySuffix(p);
      ('0' <= r[|r| - 1] <= '9' <==> p == NoPenalty) &&
      (p == Plus2 <==> r[|r| - 5..] == " (+2)") &&
      (p == Dnf <==> r[|r| - 6..] == " (DNF)")
  {
    var r := t + PenaltySuffix(p);
    match p
    case NoPenalty =>
      assert r == t;
      assert r[|r| - 5..][4] == t[|t| - 1];
      assert r[|r| - 6..][5] == t[|t| - 1];
    case Plus2 =>
      assert r[|r| - 5..] == " (+2)";
      assert r[|r| - 6..][5] == ')';
    case Dnf =>
      assert r[|r| - 6..] == " (DNF)";
      assert r[|r| - 5..][0] == '(';
  }

  /// The penalty can be read off the end of a solve's text.
  lemma SolveTextPenalty(s: Solve)
    ensures var r := SolveText(s);
      ('0' <= r[|r| - 1] <= '9' <==> s.penalty == NoPenalty) &&
      (s.penalty == Plus2 <==> r[|r| - 5..] == " (+2)") &&
      (s.penalty == Dnf <==> r[|r| - 6..] == " (DNF)")
  {
    var t := FormatDurationText(s.time);
    DurationTextEndsInDigit(s.time);
    SuffixShowsPenalty(t, s.penalty);
    assert SolveText(s) == t + PenaltySuffix(s.penalty);
  }
}
