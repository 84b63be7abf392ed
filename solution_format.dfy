/** The text form of a solution: a SIZE line, then for every layer a LAYER
    line followed by one line per row; a row lists the cells of x = 0 ..
    width-1 as numbers of at least two digits separated by commas. A cell
    holds the number (net position + 1) of the last net whose route covers
    it, or 0. */
module SolutionFormat {
  import opened NlProblem
  import opened GridSpec

  // ---------------------------------------------------------------------
  // Cells

  /** The value of cell p once the routes of nets 0 .. n-1 have been
      written in that order. */
  function CellValue(routes: seq<seq<Point>>, n: nat, p: Point): (v: nat)
    requires n <= |routes|
    ensures v <= n
  {
    if n == 0 then 0 else if p in routes[n - 1] then n else CellValue(routes, n - 1, p)
  }

  /** No route of nets lo .. n-1 covers p. */
  predicate Uncovered(routes: seq<seq<Point>>, lo: nat, n: nat, p: Point)
    requires n <= |routes|
  {
    forall j :: lo <= j < n ==> p !in routes[j]
  }

  /** A cell is 0 iff no route covers it. */
  lemma {:induction false} CellValueZero(routes: seq<seq<Point>>, n: nat, p: Point)
    requires n <= |routes|
    ensures CellValue(routes, n, p) == 0 <==> Uncovered(routes, 0, n, p)
  {
    if n > 0 {
      CellValueZero(routes, n - 1, p);
    }
  }

  /** A cell is k+1 iff net k's route covers it and no later net's route
      does: the last writer wins. */
  lemma {:induction false} CellValueNet(routes: seq<seq<Point>>, n: nat, p: Point, k: nat)
    requires k < n <= |routes|
    ensures CellValue(routes, n, p) == k + 1 <==> p in routes[k] && Uncovered(routes, k + 1, n, p)
  {
    if k < n - 1 {
      CellValueNet(routes, n - 1, p, k);
      if p in routes[n - 1] {
        assert !Uncovered(routes, k + 1, n, p);
      } else {
        assert Uncovered(routes, k + 1, n, p) == Uncovered(routes, k + 1, n - 1, p);
      }
    }
  }

  // ---------------------------------------------------------------------
  // Numbers

  predicate IsDigit(c: char) {
    '0' <= c <= '9'
  }

  predicate AllDigits(s: string) {
    forall i :: 0 <= i < |s| ==> IsDigit(s[i])
  }

  function DigitChar(d: nat): (c: char)
    requires d < 10
    ensures IsDigit(c) && c as int - '0' as int == d
  {
    ('0' as int + d) as char
  }

  /** The decimal form of n, without leading zeros. */
  function NatStr(n: nat): (s: string)
    ensures |s| >= 1 && AllDigits(s)
  {
    if n < 10 then [DigitChar(n)] else NatStr(n / 10) + [DigitChar(n % 10)]
  }

  /** The number a string of digits denotes. */
  function DigitsValue(s: string): nat
    requires AllDigits(s)
  {
    if |s| == 0 then 0 else DigitsValue(s[..|s| - 1]) * 10 + (s[|s| - 1] as int - '0' as int)
  }

  /** NatStr writes n back to the digits that denote n, with no leading zero. */
  lemma {:induction false} NatStrRoundTrip(n: nat)
    ensures DigitsValue(NatStr(n)) == n
    ensures NatStr(n)[0] == '0' ==> n == 0
  {
    if n >= 10 {
      NatStrRoundTrip(n / 10);
      var s := NatStr(n);
      assert s[..|s| - 1] == NatStr(n / 10);
    }
  }

  /** A number padded with zeros to at least two digits. */
  function Pad2(n: nat): string {
    var s := NatStr(n);
    if |s| < 2 then "0" + s else s
  }

  lemma Pad2RoundTrip(n: nat)
    ensures |Pad2(n)| >= 2 && AllDigits(Pad2(n)) && DigitsValue(Pad2(n)) == n
    ensures n >= 10 ==> Pad2(n) == NatStr(n)
  {
    NatStrRoundTrip(n);
    var s := NatStr(n);
    if |s| < 2 {
      var t := "0" + s;
      assert t[..1] == "0";
      assert DigitsValue(t[..1]) == 0;
    } else {
      assert s[..|s| - 1] == NatStr(n / 10);
    }
  }

  // ---------------------------------------------------------------------
  // Rows

  /** The fields of a row joined by single commas, without a trailing one. */
  function Row(fs: seq<nat>): string {
    if |fs| == 0 then ""
    else if |fs| == 1 then Pad2(fs[0])
    else Row(fs[..|fs| - 1]) + "," + Pad2(fs[|fs| - 1])
  }

  /** A string cut at every comma. */
  function Split(s: string): (parts: seq<string>)
    ensures |parts| >= 1
  {
    if |s| == 0 then [""]
    else
      var p := Split(s[..|s| - 1]);
      if s[|s| - 1] == ',' then p + [""] else p[..|p| - 1] + [p[|p| - 1] + [s[|s| - 1]]]
  }

  lemma {:induction false} SplitNoComma(a: string, b: string)
    requires forall i :: 0 <= i < |b| ==> b[i] != ','
    ensures Split(a + "," + b) == Split(a) + [b]
  {
    var s := a + "," + b;
    if |b| == 0 {
      assert s[..|s| - 1] == a;
    } else {
      var b' := b[..|b| - 1];
      assert s[..|s| - 1] == a + "," + b';
      SplitNoComma(a, b');
      assert b' + [b[|b| - 1]] == b;
    }
  }

  lemma {:induction false} SplitSingle(b: string)
    requires forall i :: 0 <= i < |b| ==> b[i] != ','
    ensures Split(b) == [b]
  {
    if |b| > 0 {
      var b' := b[..|b| - 1];
      SplitSingle(b');
      assert b' + [b[|b| - 1]] == b;
    }
  }

  /** The padded fields of a row. */
  function Pads(fs: seq<nat>): (ps: seq<string>)
    ensures |ps| == |fs| && forall i :: 0 <= i < |fs| ==> ps[i] == Pad2(fs[i])
  {
    seq(|fs|, i requires 0 <= i < |fs| => Pad2(fs[i]))
  }

  /** Each padded field has at least two digits and denotes its value. */
  lemma PadsDecode(fs: seq<nat>)
    ensures forall i :: 0 <= i < |fs| ==>
              |Pads(fs)[i]| >= 2 && AllDigits(Pads(fs)[i]) && DigitsValue(Pads(fs)[i]) == fs[i]
  {
    forall i | 0 <= i < |fs|
      ensures |Pads(fs)[i]| >= 2 && AllDigits(Pads(fs)[i]) && DigitsValue(Pads(fs)[i]) == fs[i]
    {
      Pad2RoundTrip(fs[i]);
    }
  }

  lemma PadsSnoc(fs: seq<nat>)
    requires |fs| >= 1
    ensures Pads(fs[..|fs| - 1]) + [Pad2(fs[|fs| - 1])] == Pads(fs)
  {
  }

  lemma Pad2NoComma(k: nat)
    ensures forall i :: 0 <= i < |Pad2(k)| ==> Pad2(k)[i] != ','
  {
    Pad2RoundTrip(k);
  }

  lemma {:induction false} RowSplit(fs: seq<nat>)
    requires |fs| >= 1
    ensures Split(Row(fs)) == Pads(fs)
  {
    var last := Pad2(fs[|fs| - 1]);
    Pad2NoComma(fs[|fs| - 1]);
    if |fs| == 1 {
      SplitSingle(last);
    } else {
      var prefix := fs[..|fs| - 1];
      RowSplit(prefix);
      SplitNoComma(Row(prefix), last);
      PadsSnoc(fs);
    }
  }

  /** Cutting a non-empty row at its commas gives back its fields, each
      padded to at least two digits and denoting the cell's value. */
  lemma RowRoundTrip(fs: seq<nat>)
    requires |fs| >= 1
    ensures Split(Row(fs)) == Pads(fs)
    ensures forall i :: 0 <= i < |fs| ==>
              |Split(Row(fs))[i]| >= 2 && AllDigits(Split(Row(fs))[i]) && DigitsValue(Split(Row(fs))[i]) == fs[i]
  {
    RowSplit(fs);
    PadsDecode(fs);
  }

  // ---------------------------------------------------------------------
  // The whole text

  function SizeHeader(w: nat, h: nat, d: nat): string {
    "SIZE " + NatStr(w) + "X" + NatStr(h) + "X" + NatStr(d)
  }

  /** The heading of layer z, numbered from 1. */
  function LayerHeader(z: nat): string {
    "LAYER " + NatStr(z + 1)
  }

  /** The cells of row y of layer z, for x = 0 .. w-1. */
  function RowCells(routes: seq<seq<Point>>, n: nat, w: nat, y: nat, z: nat): (cs: seq<nat>)
    requires n <= |routes|
    ensures |cs| == w && forall x :: 0 <= x < w ==> cs[x] == CellValue(routes, n, Point(x, y, z))
  {
    seq(w, x requires 0 <= x < w => CellValue(routes, n, Point(x, y, z)))
  }

  /** What each printed line is: the SIZE line, the heading of layer z, or
      row y of layer z. */
  datatype TextLine = SizeText | LayerText(z: nat) | RowText(y: nat, z: nat)

  /** The rows 0 .. rows-1 of layer z. */
  function LayerRows(rows: nat, z: nat): (ls: seq<TextLine>)
    ensures |ls| == rows && forall y :: 0 <= y < rows ==> ls[y] == RowText(y, z)
  {
    seq(rows, y requires 0 <= y < rows => RowText(y, z))
  }

  /** Layers 0 .. layers-1, each a heading and its h rows. */
  function LayersLines(h: nat, layers: nat): seq<TextLine> {
    if layers == 0 then [] else LayersLines(h, layers - 1) + [LayerText(layers - 1)] + LayerRows(h, layers - 1)
  }

  /** The order of the printed lines of a solution of height h and depth d. */
  function TextLayout(h: nat, d: nat): seq<TextLine> {
    [SizeText] + LayersLines(h, d)
  }

  /** The text of one line. */
  function Render(routes: seq<seq<Point>>, n: nat, w: nat, h: nat, d: nat, l: TextLine): string
    requires n <= |routes|
  {
    match l
    case SizeText => SizeHeader(w, h, d)
    case LayerText(z) => LayerHeader(z)
    case RowText(y, z) => Row(RowCells(routes, n, w, y, z))
  }

  /** The text of a sequence of lines. */
  function RenderAll(routes: seq<seq<Point>>, n: nat, w: nat, h: nat, d: nat, ls: seq<TextLine>): (t: seq<string>)
    requires n <= |routes|
    ensures |t| == |ls| && forall i :: 0 <= i < |t| ==> t[i] == Render(routes, n, w, h, d, ls[i])
  {
    seq(|ls|, i requires 0 <= i < |ls| => Render(routes, n, w, h, d, ls[i]))
  }

  /** Printing one more line appends its text. */
  lemma RenderAllSnoc(routes: seq<seq<Point>>, n: nat, w: nat, h: nat, d: nat, ls: seq<TextLine>, l: TextLine)
    requires n <= |routes|
    ensures RenderAll(routes, n, w, h, d, ls + [l]) == RenderAll(routes, n, w, h, d, ls) + [Render(routes, n, w, h, d, l)]
  {
  }

  /** The printed solution, line by line. */
  function SolutionText(routes: seq<seq<Point>>, n: nat, w: nat, h: nat, d: nat): seq<string>
    requires n <= |routes|
  {
    RenderAll(routes, n, w, h, d, TextLayout(h, d))
  }

  /** The line where layer z starts: after the SIZE line and z layers of
      h+1 lines each. */
  function LayerLine(z: nat, h: nat): nat {
    1 + Mul(z, h + 1)
  }

  lemma LayerLineProduct(z: nat, h: nat)
    ensures LayerLine(z, h) == 1 + z * (h + 1)
  {
    MulIsProduct(z, h + 1);
  }

  lemma {:induction false} LayersLinesLength(h: nat, layers: nat)
    ensures |LayersLines(h, layers)| == Mul(layers, h + 1)
  {
    if layers > 0 {
      LayersLinesLength(h, layers - 1);
    }
  }

  /** Layer z of the first `layers` layers starts at Mul(z, h+1) with its
      heading. */
  lemma {:induction false} LayerHeaderAt(h: nat, layers: nat, z: nat)
    requires z < layers
    ensures Mul(z, h + 1) + h < |LayersLines(h, layers)|
    ensures LayersLines(h, layers)[Mul(z, h + 1)] == LayerText(z)
  {
    var prev := LayersLines(h, layers - 1);
    LayersLinesLength(h, layers);
    LayersLinesLength(h, layers - 1);
    if z < layers - 1 {
      LayerHeaderAt(h, layers - 1, z);
      MulStep(z, layers - 1, h + 1);
      assert LayersLines(h, layers)[Mul(z, h + 1)] == prev[Mul(z, h + 1)];
    }
  }

  /** Row y of layer z sits y+1 lines below the layer's heading. */
  lemma {:induction false} LayerRowAt(h: nat, layers: nat, z: nat, y: nat)
    requires z < layers && y < h
    ensures Mul(z, h + 1) + 1 + y < |LayersLines(h, layers)|
    ensures LayersLines(h, layers)[Mul(z, h + 1) + 1 + y] == RowText(y, z)
  {
    var prev := LayersLines(h, layers - 1);
    LayersLinesLength(h, layers);
    LayersLinesLength(h, layers - 1);
    if z < layers - 1 {
      LayerRowAt(h, layers - 1, z, y);
      MulStep(z, layers - 1, h + 1);
      assert LayersLines(h, layers)[Mul(z, h + 1) + 1 + y] == prev[Mul(z, h + 1) + 1 + y];
    }
  }

  lemma LayoutHeaderAt(h: nat, d: nat, z: nat)
    requires z < d
    ensures LayerLine(z, h) + h < |TextLayout(h, d)| && TextLayout(h, d)[LayerLine(z, h)] == LayerText(z)
  {
    LayerHeaderAt(h, d, z);
  }

  lemma LayoutRowAt(h: nat, d: nat, z: nat, y: nat)
    requires z < d && y < h
    ensures LayerLine(z, h) + 1 + y < |TextLayout(h, d)| && TextLayout(h, d)[LayerLine(z, h) + 1 + y] == RowText(y, z)
  {
    LayerRowAt(h, d, z, y);
  }

  /** The printed text: 1 + d*(h+1) lines, the SIZE line first, then for each
      layer z its "LAYER z+1" heading at LayerLine(z, h) = 1 + z*(h+1)
      followed by the rows y = 0 .. h-1 of its cells. */
  lemma SolutionTextShape(routes: seq<seq<Point>>, n: nat, w: nat, h: nat, d: nat)
    requires n <= |routes|
    ensures |SolutionText(routes, n, w, h, d)| == 1 + d * (h + 1)
    ensures SolutionText(routes, n, w, h, d)[0] == "SIZE " + NatStr(w) + "X" + NatStr(h) + "X" + NatStr(d)
    ensures forall z :: 0 <= z < d ==>
              LayerLine(z, h) + h < |SolutionText(routes, n, w, h, d)| &&
              SolutionText(routes, n, w, h, d)[LayerLine(z, h)] == "LAYER " + NatStr(z + 1)
    ensures forall z, y :: 0 <= z < d && 0 <= y < h ==>
              SolutionText(routes, n, w, h, d)[LayerLine(z, h) + 1 + y] == Row(RowCells(routes, n, w, y, z))
  {
    var t := SolutionText(routes, n, w, h, d);
    var ls := TextLayout(h, d);
    LayersLinesLength(h, d);
    MulIsProduct(d, h + 1);
    assert t[0] == Render(routes, n, w, h, d, ls[0]);
    forall z | 0 <= z < d
      ensures LayerLine(z, h) + h < |t| && t[LayerLine(z, h)] == "LAYER " + NatStr(z + 1)
    {
      LayoutHeaderAt(h, d, z);
      assert t[LayerLine(z, h)] == Render(routes, n, w, h, d, LayerText(z));
    }
    forall z, y | 0 <= z < d && 0 <= y < h
      ensures t[LayerLine(z, h) + 1 + y] == Row(RowCells(routes, n, w, y, z))
    {
      var k := LayerLine(z, h) + 1 + y;
      LayoutRowAt(h, d, z, y);
      assert t[k] == Render(routes, n, w, h, d, RowText(y, z));
    }
  }
}
