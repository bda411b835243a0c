/** `generate_report_filename` (reports/utils.py): the title with every
    character that is not a letter or digit replaced by "_", then the
    moment of the call as %Y%m%d_%H%M%S, then ".json". */
module ReportUtils {
  import opened Base

  /** The broken-down `timezone.now()`. */
  datatype Moment = Moment(year: nat, month: nat, day: nat, hour: nat, minute: nat, second: nat)

  /** The ranges of a calendar moment. */
  predicate ValidMoment(m: Moment) {
    1 <= m.year <= 9999 && 1 <= m.month <= 12 && 1 <= m.day <= 31
    && m.hour < 24 && m.minute < 60 && m.second < 60
  }

  function Pad(n: nat, width: nat): string { ZeroFill(NatToString(n), width) }

  /** `strftime("%Y%m%d_%H%M%S")` */
  function Stamp(m: Moment): string {
    DatePart(m) + "_" + TimePart(m)
  }

  /** `%Y%m%d` */
  function DatePart(m: Moment): string { Pad(m.year, 4) + Pad(m.month, 2) + Pad(m.day, 2) }

  /** `%H%M%S` */
  function TimePart(m: Moment): string { Pad(m.hour, 2) + Pad(m.minute, 2) + Pad(m.second, 2) }

  predicate Digits(s: string) { forall i :: 0 <= i < |s| ==> IsDigit(s[i]) }

  lemma {:induction false} NatToStringDigits(n: nat)
    ensures Digits(NatToString(n))
    decreases n
  {
    if n >= 10 {
      NatToStringDigits(n / 10);
    }
  }

  /** A field below 10^width pads to exactly its width, all digits. */
  lemma PadShape(n: nat, width: nat)
    requires 1 <= width && n < Pow10(width)
    ensures |Pad(n, width)| == width && Digits(Pad(n, width))
  {
    NatToStringLength(n, width, Pow10(width));
    NatToStringDigits(n);
  }

  lemma DigitsAppend(a: string, b: string)
    requires Digits(a) && Digits(b)
    ensures Digits(a + b)
  {
    assert forall i :: |a| <= i < |a + b| ==> (a + b)[i] == b[i - |a|];
  }

  /** `%Y%m%d` of a valid moment is eight digits. */
  lemma DatePartShape(m: Moment)
    requires ValidMoment(m)
    ensures |DatePart(m)| == 8 && Digits(DatePart(m))
  {
    assert Pow10(4) == 10000 by { assert Pow10(1) == 10 && Pow10(2) == 100 && Pow10(3) == 1000; }
    PadShape(m.year, 4);
    PadShape(m.month, 2);
    PadShape(m.day, 2);
    DigitsAppend(Pad(m.year, 4), Pad(m.month, 2));
    DigitsAppend(Pad(m.year, 4) + Pad(m.month, 2), Pad(m.day, 2));
  }

  /** `%H%M%S` of a valid moment is six digits. */
  lemma TimePartShape(m: Moment)
    requires ValidMoment(m)
    ensures |TimePart(m)| == 6 && Digits(TimePart(m))
  {
    assert Pow10(2) == 100 by { assert Pow10(1) == 10; }
    PadShape(m.hour, 2);
    PadShape(m.minute, 2);
    PadShape(m.second, 2);
    DigitsAppend(Pad(m.hour, 2), Pad(m.minute, 2));
    DigitsAppend(Pad(m.hour, 2) + Pad(m.minute, 2), Pad(m.second, 2));
  }

  /** The stamp of a valid moment is fifteen characters with "_" in the
      middle. */
  lemma StampShape(m: Moment)
    requires ValidMoment(m)
    ensures |Stamp(m)| == 15 && Stamp(m)[8] == '_'
  {
    DatePartShape(m);
    TimePartShape(m);
  }

  /** `c if c.isalnum() else '_'` over the title. */
  function SafeTitle(title: string): (r: string)
    ensures |r| == |title|
    ensures forall i :: 0 <= i < |r| ==> IsAlnum(r[i]) || r[i] == '_'
    ensures forall i :: 0 <= i < |r| ==> (IsAlnum(title[i]) ==> r[i] == title[i]) && (!IsAlnum(title[i]) ==> r[i] == '_')
  {
    seq(|title|, i requires 0 <= i < |title| => if IsAlnum(title[i]) then title[i] else '_')
  }

  /** A title made only of letters and digits is kept as it is, and
      replacing a second time changes nothing. */
  lemma SafeTitleIdempotent(title: string)
    ensures SafeTitle(SafeTitle(title)) == SafeTitle(title)
    ensures (forall i :: 0 <= i < |title| ==> IsAlnum(title[i])) ==> SafeTitle(title) == title
  {
  }

  lemma Pieces(a: string, b: string)
    requires |b| == 15
    ensures var f := a + "_" + b + ".json";
      |f| == |a| + 21 && f[..|a|] == a && f[|a|] == '_' && f[|a| + 1..|a| + 16] == b && f[|a| + 16..] == ".json"
  {
    var f := a + "_" + b + ".json";
    assert f[..|a|] == a;
    assert f[|a| + 1..|a| + 16] == b;
    assert f[|a| + 16..] == ".json";
  }

  function ReportFilename(title: string, now: Moment): string {
    SafeTitle(title) + "_" + Stamp(now) + ".json"
  }

  /** The filename is the safe title, "_", the stamp and ".json"; its
      length is the title's plus 21, and the title can be read back from it
      up to the replaced characters. */
  lemma FilenameShape(title: string, now: Moment)
    requires ValidMoment(now)
    ensures var f := ReportFilename(title, now);
      |f| == |title| + 21
      && f[..|title|] == SafeTitle(title)
      && f[|title|] == '_'
      && f[|title| + 1..|title| + 16] == Stamp(now)
      && f[|title| + 16..] == ".json"
  {
    StampShape(now);
    Pieces(SafeTitle(title), Stamp(now));
  }
}
