/** The line-oriented curve writer: one `curve { ... }` block per curve,
    holding the type name, the control-point count and one `cp` line per
    control point.

    Output streams are modelled as sequences of lines without their
    terminating newlines. Real numbers are formatted by an abstract `%g`
    formatter; integers by the decimal rendering `Decimal`. */
module CurveFile {
  import opened Curves

  /** The C library's `%g` rendering of a number; its text is not modelled. */
  type RealFormat = real -> string

  /** The lines written to the output file and to the diagnostic stream, and
      the returned success flag. */
  datatype Streams = Streams(out: seq<string>, err: seq<string>, ok: bool)

  /** One written block and the success flag of the call that wrote it. */
  datatype Written = Written(lines: seq<string>, ok: bool)

  /** First line of a curve file. */
  const Marker: string := "GCURVES"

  const TypePrefix: string := "    type "
  const CountPrefix: string := "    cpcount "
  const CpPrefix: string := "    cp "

  predicate IsDigit(ch: char) {
    '0' <= ch <= '9'
  }

  function DigitChar(d: int): (ch: char)
    requires 0 <= d < 10
    ensures IsDigit(ch)
  {
    (48 + d) as char
  }

  function DigitValue(ch: char): int
    requires IsDigit(ch)
  {
    ch as int - 48
  }

  /** The `%d` rendering of a count: its decimal digits, with no leading zero. */
  function Decimal(n: nat): (s: string)
    ensures |s| >= 1
    ensures AllDigits(s)
    ensures s[0] == '0' <==> n == 0
    decreases n
  {
    if n < 10 then [DigitChar(n)] else Decimal(n / 10) + [DigitChar(n % 10)]
  }

  /** The number a string of decimal digits denotes. */
  predicate AllDigits(s: string) {
    forall i :: 0 <= i < |s| ==> IsDigit(s[i])
  }

  function DecimalValue(s: string): nat
    requires AllDigits(s)
  {
    if |s| == 0 then 0
    else DecimalValue(s[..|s| - 1]) * 10 + DigitValue(s[|s| - 1])
  }

  /** Reading back a rendered count gives the count. */
  lemma {:induction false} DecimalRoundTrip(n: nat)
    ensures DecimalValue(Decimal(n)) == n
  {
    var s := Decimal(n);
    if n < 10 {
      assert s[..|s| - 1] == [];
    } else {
      assert s[..|s| - 1] == Decimal(n / 10);
      DecimalRoundTrip(n / 10);
    }
  }

  /** The file-format name of a curve type. */
  function TypeName(kind: CurveType): (s: string)
    ensures |s| > 0
    ensures forall i :: 0 <= i < |s| ==> 'a' <= s[i] <= 'z'
  {
    match kind
    case Linear => "polyline"
    case Hermite => "hermite"
    case BSpline => "bspline"
  }

  /** Distinct types get distinct names, so the name identifies the type. */
  lemma TypeNameInjective(a: CurveType, b: CurveType)
    ensures TypeName(a) == TypeName(b) <==> a == b
  {
  }

  /** A `cp` line: the point's x, y and weight. */
  function CpLine(v: Vec3, fmt: RealFormat): string {
    CpPrefix + fmt(v.x) + " " + fmt(v.y) + " " + fmt(v.z)
  }

  /** The block written for one curve; writing it always succeeds. */
  function SaveCurve(c: Curve, fmt: RealFormat): (w: Written)
    ensures w.ok
    ensures |w.lines| == |c.cp| + 4
    ensures w.lines[0] == "curve {" && w.lines[|w.lines| - 1] == "}"
    ensures w.lines[1] == TypePrefix + TypeName(c.kind)
    ensures w.lines[2] == CountPrefix + Decimal(|c.cp|)
    ensures forall i :: 0 <= i < |c.cp| ==> w.lines[3 + i] == CpLine(c.cp[i], fmt)
    ensures forall i :: 0 <= i < |w.lines| ==> |w.lines[i]| > 0 && w.lines[i][0] != 'G'
  {
    var cps := seq(|c.cp|, i requires 0 <= i < |c.cp| => CpLine(c.cp[i], fmt));
    var lines := ["curve {", TypePrefix + TypeName(c.kind), CountPrefix + Decimal(|c.cp|)] + cps + ["}"];
    assert forall i :: 0 <= i < |cps| ==> cps[i][0] == ' ';
    Written(lines, true)
  }

  /** The number on the `cpcount` line is the number of `cp` lines between it
      and the closing brace, and no other line of the block is a `cp` line. */
  lemma CpCountMatchesCpLines(c: Curve, fmt: RealFormat)
    ensures var w := SaveCurve(c, fmt);
      && w.lines[2][..|CountPrefix|] == CountPrefix
      && DecimalValue(w.lines[2][|CountPrefix|..]) == |w.lines| - 4
      && (forall i :: 3 <= i < |w.lines| - 1 ==> w.lines[i][..|CpPrefix|] == CpPrefix)
      && (forall i :: 0 <= i < |w.lines| && (i < 3 || i == |w.lines| - 1) ==>
            |w.lines[i]| < |CpPrefix| || w.lines[i][..|CpPrefix|] != CpPrefix)
  {
    var w := SaveCurve(c, fmt);
    assert w.lines[2][|CountPrefix|..] == Decimal(|c.cp|);
    DecimalRoundTrip(|c.cp|);
    forall i | 3 <= i < |w.lines| - 1
      ensures w.lines[i][..|CpPrefix|] == CpPrefix
    {
      assert w.lines[3 + (i - 3)] == CpLine(c.cp[i - 3], fmt);
    }
    forall i | 0 <= i < |w.lines| && (i < 3 || i == |w.lines| - 1)
      ensures |w.lines[i]| < |CpPrefix| || w.lines[i][..|CpPrefix|] != CpPrefix
    {
      if i == 0 {
        assert w.lines[0][4] == 'e';
      } else if i == 1 {
        assert w.lines[1][4] == 't';
      } else if i == 2 {
        assert w.lines[2][6] == 'c';
      }
    }
  }

  /** Every block written for `curves`, in order. */
  function Blocks(curves: seq<Curve>, fmt: RealFormat): (out: seq<string>)
    ensures forall i :: 0 <= i < |out| ==> out[i] != Marker
  {
    if |curves| == 0 then []
    else
      var prev := Blocks(curves[..|curves| - 1], fmt);
      var last := SaveCurve(curves[|curves| - 1], fmt).lines;
      assert forall i :: 0 <= i < |last| ==> last[i][0] != Marker[0];
      prev + last
  }

  /** Writes the blocks one after another, stopping at the first block whose
      writer reports failure. */
  method WriteBlocks(curves: seq<Curve>, fmt: RealFormat) returns (out: seq<string>, ok: bool)
    ensures ok
    ensures out == Blocks(curves, fmt)
  {
    out := [];
    ok := true;
    var i := 0;
    while i < |curves| && ok
      invariant 0 <= i <= |curves|
      invariant ok
      invariant out == Blocks(curves[..i], fmt)
    {
      var w := SaveCurve(curves[i], fmt);
      out := out + w.lines;
      ok := w.ok;
      assert curves[..i + 1][..i] == curves[..i];
      i := i + 1;
    }
    assert curves[..i] == curves;
  }

  /** `line` reads `count <n>` with n written in decimal. */
  predicate IsCountLine(line: string, n: nat) {
    && |line| > 6
    && line[..6] == "count "
    && AllDigits(line[6..])
    && DecimalValue(line[6..]) == n
  }

  /** The two header lines of a curve file holding n curves: the marker, then
      the count. */
  function Header(n: nat): (h: seq<string>)
    ensures |h| == 2 && h[0] == Marker && h[1] != Marker
  {
    var count := "count " + Decimal(n);
    assert count[0] == 'c';
    [Marker, count]
  }

  /** The count line of the header reads back as the number of curves. */
  lemma HeaderCountReadsBack(n: nat)
    ensures IsCountLine(Header(n)[1], n)
  {
    assert Header(n)[1][6..] == Decimal(n);
    DecimalRoundTrip(n);
  }

  /** The code's streams: the header on the diagnostic stream, the blocks
      in the file. */
  predicate HeaderOnDiagnostics(curves: seq<Curve>, fmt: RealFormat, s: Streams) {
    s.err == Header(|curves|) && s.out == Blocks(curves, fmt)
  }

  /** A curve file: the header, then the blocks, and nothing on the
      diagnostic stream. */
  predicate HeaderInFile(curves: seq<Curve>, fmt: RealFormat, s: Streams) {
    s.err == [] && s.out == Header(|curves|) + Blocks(curves, fmt)
  }

  /** The stream writer as the code writes it: the header goes to the
      diagnostic stream, so the file holds only blocks and never the marker. */
  method SaveCurves(curves: seq<Curve>, fmt: RealFormat) returns (s: Streams)
    ensures s.ok
    ensures HeaderOnDiagnostics(curves, fmt, s)
    ensures forall i :: 0 <= i < |s.out| ==> s.out[i] != Marker
  {
    var out, ok := WriteBlocks(curves, fmt);
    s := Streams(out, Header(|curves|), ok);
  }

  /** The stream writer with the header sent to the file: the marker first,
      then the count, then the blocks, and the marker nowhere else. */
  method SaveCurvesWithHeader(curves: seq<Curve>, fmt: RealFormat) returns (s: Streams)
    ensures s.ok
    ensures HeaderInFile(curves, fmt, s)
    ensures forall i :: 0 < i < |s.out| ==> s.out[i] != Marker
  {
    var out, ok := WriteBlocks(curves, fmt);
    s := Streams(Header(|curves|) + out, [], ok);
  }

  /** The file writer as the code writes it: fails with nothing written
      when the file cannot be opened, and otherwise hands the file to the
      stream writer, so the header still goes to the diagnostic stream. */
  method SaveCurvesToFile(fileOpened: bool, curves: seq<Curve>, fmt: RealFormat) returns (s: Streams)
    ensures s.ok <==> fileOpened
    ensures !fileOpened ==> s.out == [] && s.err == []
    ensures fileOpened ==> HeaderOnDiagnostics(curves, fmt, s)
  {
    if !fileOpened {
      return Streams([], [], false);
    }
    s := SaveCurves(curves, fmt);
  }

  /** The file writer over the corrected stream writer: the opened file
      receives the header and then the blocks. */
  method SaveCurvesToFileWithHeader(fileOpened: bool, curves: seq<Curve>, fmt: RealFormat) returns (s: Streams)
    ensures s.ok <==> fileOpened
    ensures !fileOpened ==> s.out == [] && s.err == []
    ensures fileOpened ==> HeaderInFile(curves, fmt, s)
  {
    if !fileOpened {
      return Streams([], [], false);
    }
    s := SaveCurvesWithHeader(curves, fmt);
  }
}
