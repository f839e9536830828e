/** The `MM:SS` text both Pomodoro panels show (`formatSec`), and a decoder
    for it that the round-trip lemma reads it back with. */
module ClockText {
  import opened JavaLang

  /** `%02d` of a non-negative number: its digits, zero-padded to width 2. */
  function Pad2(digits: string): string
  {
    if |digits| < 2 then "0" + digits else digits
  }

  /** `formatSec`: negative seconds show as zero, then minutes and seconds
      as `%02d:%02d`; the minutes field grows past two digits as needed. */
  function FormatSec(sec: int32): (r: string)
    ensures |r| >= 5 && r[|r| - 3] == ':'
    ensures AllDigits(r[..|r| - 3]) && AllDigits(r[|r| - 2..])
  {
    var s := if sec < 0 then 0 else sec;
    Pad2(NatDigits(s / 60)) + ":" + Pad2(NatDigits(s % 60))
  }

  /** Reads a clock text back into seconds: digits, a colon, then exactly two
      digits worth less than 60. */
  function ClockValue(text: string): Option<nat>
  {
    if |text| < 5 || text[|text| - 3] != ':' then None
    else
      var mm := text[..|text| - 3];
      var ss := text[|text| - 2..];
      if AllDigits(mm) && AllDigits(ss) && DigitsValue(ss) < 60
      then Some(DigitsValue(mm) * 60 + DigitsValue(ss))
      else None
  }

  lemma Pad2Value(d: string)
    requires |d| >= 1 && AllDigits(d)
    ensures AllDigits(Pad2(d)) && |Pad2(d)| >= 2
    ensures DigitsValue(Pad2(d)) == DigitsValue(d)
  {
    if |d| < 2 {
      var p := Pad2(d);
      assert p[..1] == "0";
      assert DigitsValue(p[..1]) == 0;
    }
  }

  /** Minutes and a two-digit seconds field below 60, joined by a colon,
      decode to the seconds they stand for. */
  lemma ClockValueJoined(m: string, ss: string)
    requires |m| >= 2 && AllDigits(m) && |ss| == 2 && AllDigits(ss) && DigitsValue(ss) < 60
    ensures ClockValue(m + ":" + ss) == Some(DigitsValue(m) * 60 + DigitsValue(ss))
  {
    var r := m + ":" + ss;
    assert r[..|r| - 3] == m;
    assert r[|r| - 2..] == ss;
  }

  /** The clock text decodes to the clamped number of seconds it was made
      from; in particular its seconds field lies in 0..59 and it never shows
      a negative time. */
  lemma FormatSecRoundTrip(sec: int32)
    ensures ClockValue(FormatSec(sec)) == Some(if sec < 0 then 0 else sec)
  {
    var s: nat := if sec < 0 then 0 else sec;
    var q, rem := s / 60, s % 60;
    assert q * 60 + rem == s;
    NatDigitsValue(q);
    NatDigitsValue(rem);
    Pad2Value(NatDigits(q));
    Pad2Value(NatDigits(rem));
    var m, ss := Pad2(NatDigits(q)), Pad2(NatDigits(rem));
    assert |ss| == 2;
    ClockValueJoined(m, ss);
    assert FormatSec(sec) == m + ":" + ss;
  }
}
