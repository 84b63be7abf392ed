/** The reader of the ADC2016 problem format. The file is read line by
    line; every line is a SIZE line, a LINE_NUM line, a LINE# line, a VIA#
    line, a blank line or something else. The reader keeps going after an
    error, counts the errors, and hands back the problem only when the
    count is zero.

    Pattern matching is abstracted: every line arrives as a LineRecord
    holding the numbers and labels its pattern captured. A LINE# or VIA#
    pattern only matches when at least one point follows the name, which is
    why those records carry a first point and the rest. */
module Adc2016Reader {
  import opened NlProblem

  /** A point as written in the file: its layer number counts from 1. */
  datatype FilePoint = FilePoint(x: nat, y: nat, z: nat)

  datatype LineRecord =
    | Blank
    | SizeLine(width: nat, height: nat, depth: nat)
    | LineNumLine(count: nat)
    | NetLine(netId: nat, first: FilePoint, rest: seq<FilePoint>)
    | ViaLine(viaName: string, first: FilePoint, rest: seq<FilePoint>)
    | Unmatched

  /** The reader's fields between two lines. */
  datatype ReaderState = ReaderState(
    problem: Problem,
    nerr: nat,
    width: nat, height: nat, depth: nat,
    lineNum: nat,
    curLineno: nat,
    hasSize: bool, hasLineNum: bool,
    sizeLineno: nat, lineNumLineno: nat,
    netDict: map<nat, nat>,
    viaDict: map<string, nat>)

  /** The state at the start of read: an empty problem and no errors. */
  const Init := ReaderState(EmptyProblem, 0, 0, 0, 0, 0, 0, false, false, 0, 0, map[], map[])

  /** Reporting an error only bumps the error count. */
  function WithError(st: ReaderState): (r: ReaderState)
    ensures r.nerr == st.nerr + 1 && r.(nerr := st.nerr) == st
  {
    st.(nerr := st.nerr + 1)
  }

  /** The stored point: the file's layer number minus one. */
  function ToPoint(fp: FilePoint): (p: Point)
    ensures p.x == fp.x && p.y == fp.y && p.z + 1 == fp.z
  {
    Point(fp.x, fp.y, fp.z - 1)
  }

  function Points(first: FilePoint, rest: seq<FilePoint>): seq<FilePoint> {
    [first] + rest
  }

  // ---------------------------------------------------------------------
  // Range check

  /** Which axis, checked in the order x, y, z, is the first one out of range. */
  datatype RangeCheck = InRange | XOutOfRange | YOutOfRange | ZOutOfRange

  function CheckRange(w: nat, h: nat, d: nat, p: Point): (c: RangeCheck)
    ensures c == InRange <==> InBox(w, h, d, p)
    ensures c == XOutOfRange <==> !(0 <= p.x < w)
    ensures c == YOutOfRange <==> 0 <= p.x < w && !(0 <= p.y < h)
    ensures c == ZOutOfRange <==> 0 <= p.x < w && 0 <= p.y < h && !(0 <= p.z < d)
  {
    if !(0 <= p.x < w) then XOutOfRange
    else if !(0 <= p.y < h) then YOutOfRange
    else if !(0 <= p.z < d) then ZOutOfRange
    else InRange
  }

  predicate PointOk(st: ReaderState, fp: FilePoint) {
    InBox(st.width, st.height, st.depth, ToPoint(fp))
  }

  // ---------------------------------------------------------------------
  // Problem updates (plain record operations)

  function SetSize(pr: Problem, w: nat, h: nat, d: nat): Problem {
    pr.(width := w, height := h, depth := d)
  }

  function AddNet(pr: Problem, id: nat, s: Point, e: Point): Problem {
    pr.(nets := pr.nets + [NetDef(id, s, e)])
  }

  function AddVia(pr: Problem, viaName: string, x: int, y: int, z1: int, z2: int): Problem {
    pr.(vias := pr.vias + [ViaDef(viaName, x, y, z1, z2)])
  }

  // ---------------------------------------------------------------------
  // What each handler does, as a function of the state before the line

  /** A SIZE line: the first one sets the size; a repeated one is an
      error and the first size stays. */
  function SizeStep(st: ReaderState, w: nat, h: nat, d: nat): (r: ReaderState)
    ensures r.hasSize && r.curLineno == st.curLineno
    ensures r.nerr == if st.hasSize then st.nerr + 1 else st.nerr
    ensures (r.width, r.height, r.depth) == if st.hasSize then (st.width, st.height, st.depth) else (w, h, d)
    ensures r.problem.nets == st.problem.nets && r.problem.vias == st.problem.vias
  {
    if st.hasSize then WithError(st)
    else st.(problem := SetSize(st.problem, w, h, d), width := w, height := h, depth := d,
             hasSize := true, sizeLineno := st.curLineno)
  }

  /** A LINE_NUM line: the first one sets the count; a repeated one is an
      error and the first count stays. */
  function LineNumStep(st: ReaderState, n: nat): (r: ReaderState)
    ensures r.hasLineNum && r.curLineno == st.curLineno
    ensures r.nerr == if st.hasLineNum then st.nerr + 1 else st.nerr
    ensures r.lineNum == if st.hasLineNum then st.lineNum else n
    ensures r.problem == st.problem
  {
    if st.hasLineNum then WithError(st)
    else st.(lineNum := n, hasLineNum := true, lineNumLineno := st.curLineno)
  }

  /** The LINE handler range-checks points until it has two, and checks a
      third one (if any) before it stops looking. */
  function Examined(pts: seq<FilePoint>): nat {
    if |pts| < 3 then |pts| else 3
  }

  predicate PointsOk(st: ReaderState, pts: seq<FilePoint>, k: nat)
    requires k <= |pts|
  {
    forall i :: 0 <= i < k ==> PointOk(st, pts[i])
  }

  /** The two ends of a LINE, or None when the handler reports an error
      about its points (one out of range, or fewer than two). */
  function NetEnds(st: ReaderState, pts: seq<FilePoint>): Option<(Point, Point)> {
    if !PointsOk(st, pts, Examined(pts)) || |pts| < 2 then None
    else Some((ToPoint(pts[0]), ToPoint(pts[1])))
  }

  /** A LINE line adds at most one error; it is accepted only after both
      headers, with a new id within 1 .. LINE_NUM and at least two points
      whose examined ones are in range, and then the net joins the first
      two points. A rejected line leaves the problem as it was. */
  function NetStep(st: ReaderState, id: nat, pts: seq<FilePoint>): (r: ReaderState)
    ensures r.curLineno == st.curLineno && r.hasSize == st.hasSize && r.hasLineNum == st.hasLineNum
    ensures r.width == st.width && r.height == st.height && r.depth == st.depth && r.lineNum == st.lineNum
    ensures r.nerr == st.nerr || r.nerr == st.nerr + 1
    ensures r.nerr == st.nerr + 1 ==> r.problem == st.problem
    ensures r.nerr == st.nerr ==>
              st.hasSize && st.hasLineNum && 1 <= id <= st.lineNum && id !in st.netDict &&
              |pts| >= 2 && PointsOk(st, pts, Examined(pts)) &&
              r.problem == AddNet(st.problem, id, ToPoint(pts[0]), ToPoint(pts[1]))
    ensures st.hasSize && st.hasLineNum && 1 <= id <= st.lineNum && id !in st.netDict &&
            |pts| >= 2 && PointsOk(st, pts, Examined(pts)) ==>
              r.nerr == st.nerr && r.problem == AddNet(st.problem, id, ToPoint(pts[0]), ToPoint(pts[1]))
  {
    if !st.hasSize then WithError(st)
    else if !st.hasLineNum then WithError(st)
    else if !(1 <= id <= st.lineNum) then WithError(st)
    else if id in st.netDict then WithError(st)
    else
      var st1 := st.(netDict := st.netDict[id := st.curLineno]);
      match NetEnds(st1, pts)
      case None => WithError(st1)
      case Some(ends) => st1.(problem := AddNet(st1.problem, id, ends.0, ends.1))
  }

  /** Every VIA point is in range and lies on the first point's column. */
  predicate ColumnOk(st: ReaderState, pts: seq<FilePoint>, k: nat)
    requires 1 <= |pts| && k <= |pts|
  {
    forall i :: 0 <= i < k ==> PointOk(st, pts[i]) && pts[i].x == pts[0].x && pts[i].y == pts[0].y
  }

  /** The 0-based layers of a list of points, in file order. */
  function Layers(pts: seq<FilePoint>): (zs: seq<int>)
    ensures |zs| == |pts| && forall i :: 0 <= i < |pts| ==> zs[i] == ToPoint(pts[i]).z
  {
    seq(|pts|, i requires 0 <= i < |pts| => ToPoint(pts[i]).z)
  }

  /** A VIA line adds at most one error; it is accepted only after the
      SIZE line, with a new label and every point in range on the first
      point's column, and then the via spans exactly one layer per point
      less one. A rejected line leaves the problem as it was. */
  function ViaStep(st: ReaderState, viaName: string, pts: seq<FilePoint>): (r: ReaderState)
    requires |pts| >= 1
    ensures r.curLineno == st.curLineno && r.hasSize == st.hasSize && r.hasLineNum == st.hasLineNum
    ensures r.width == st.width && r.height == st.height && r.depth == st.depth && r.lineNum == st.lineNum
    ensures r.nerr == st.nerr || r.nerr == st.nerr + 1
    ensures r.nerr == st.nerr + 1 ==> r.problem == st.problem
    ensures r.nerr == st.nerr ==>
              st.hasSize && viaName !in st.viaDict && ColumnOk(st, pts, |pts|) &&
              r.problem.nets == st.problem.nets &&
              |r.problem.vias| == |st.problem.vias| + 1 &&
              r.problem.vias[..|st.problem.vias|] == st.problem.vias &&
              r.problem.vias[|st.problem.vias|].name == viaName &&
              r.problem.vias[|st.problem.vias|].x == pts[0].x &&
              r.problem.vias[|st.problem.vias|].y == pts[0].y &&
              r.problem.vias[|st.problem.vias|].z2 - r.problem.vias[|st.problem.vias|].z1 == |pts| - 1
  {
    if !st.hasSize then WithError(st)
    else if viaName in st.viaDict then WithError(st)
    else
      var st1 := st.(viaDict := st.viaDict[viaName := st.curLineno]);
      if !ColumnOk(st1, pts, |pts|) then WithError(st1)
      else
        var zs := SortInts(Layers(pts));
        if zs[|zs| - 1] - zs[0] != |zs| - 1 then WithError(st1)
        else st1.(problem := AddVia(st1.problem, viaName, pts[0].x, pts[0].y, zs[0], zs[|zs| - 1]))
  }

  /** One line: the line number advances, then the matching handler runs;
      a blank line is skipped and a line no handler takes is an error. */
  function Step(st: ReaderState, r: LineRecord): (s': ReaderState)
    ensures s'.curLineno == st.curLineno + 1
    ensures s'.nerr == st.nerr || s'.nerr == st.nerr + 1
  {
    var s := st.(curLineno := st.curLineno + 1);
    match r
    case Blank => s
    case SizeLine(w, h, d) => SizeStep(s, w, h, d)
    case LineNumLine(n) => LineNumStep(s, n)
    case NetLine(id, first, rest) => NetStep(s, id, Points(first, rest))
    case ViaLine(viaName, first, rest) => ViaStep(s, viaName, Points(first, rest))
    case Unmatched => WithError(s)
  }

  /** The state after the given lines, read from the start. */
  function Run(lines: seq<LineRecord>): (st: ReaderState)
    ensures st.curLineno == |lines|
    ensures st.nerr <= |lines|
  {
    if |lines| == 0 then Init else Step(Run(lines[..|lines| - 1]), lines[|lines| - 1])
  }

  /** The end-of-file read advances the line number once more. */
  function AtEof(st: ReaderState): (r: ReaderState)
    ensures r.curLineno == st.curLineno + 1
    ensures r.nerr == st.nerr && r.problem == st.problem
  {
    st.(curLineno := st.curLineno + 1)
  }

  /** read hands back the problem exactly when no line raised an error. */
  function ReadResult(lines: seq<LineRecord>): (r: Option<Problem>)
    ensures r.Some? <==> Run(lines).nerr == 0
    ensures r.Some? ==> r.value == Run(lines).problem
  {
    var st := Run(lines);
    if st.nerr == 0 then Some(st.problem) else None
  }

  // ---------------------------------------------------------------------
  // Sorting the layer list

  predicate IsSorted(s: seq<int>) {
    forall i, j :: 0 <= i < j < |s| ==> s[i] <= s[j]
  }

  function Insert(x: int, s: seq<int>): (r: seq<int>)
    requires IsSorted(s)
    ensures IsSorted(r) && |r| == |s| + 1 && (r[0] == x || (|s| > 0 && r[0] == s[0]))
  {
    if |s| == 0 then [x]
    else if x <= s[0] then [x] + s
    else [s[0]] + Insert(x, s[1..])
  }

  lemma {:induction false} InsertPermutes(x: int, s: seq<int>)
    requires IsSorted(s)
    ensures multiset(Insert(x, s)) == multiset(s) + multiset{x}
  {
    if |s| > 0 && x > s[0] {
      assert s == [s[0]] + s[1..];
      InsertPermutes(x, s[1..]);
    }
  }

  /** Sorts a list of integers into ascending order. */
  function SortInts(s: seq<int>): (r: seq<int>)
    ensures IsSorted(r) && |r| == |s|
  {
    if |s| == 0 then [] else Insert(s[|s| - 1], SortInts(s[..|s| - 1]))
  }

  /** Sorting only reorders the list. */
  lemma {:induction false} SortPermutes(s: seq<int>)
    ensures multiset(SortInts(s)) == multiset(s)
  {
    if |s| > 0 {
      assert s == s[..|s| - 1] + [s[|s| - 1]];
      SortPermutes(s[..|s| - 1]);
      InsertPermutes(s[|s| - 1], SortInts(s[..|s| - 1]));
    }
  }

  /** z is the lowest of zs. */
  predicate Least(zs: seq<int>, z: int) {
    (exists i :: 0 <= i < |zs| && zs[i] == z) && forall i :: 0 <= i < |zs| ==> z <= zs[i]
  }

  /** z is the highest of zs. */
  predicate Greatest(zs: seq<int>, z: int) {
    (exists i :: 0 <= i < |zs| && zs[i] == z) && forall i :: 0 <= i < |zs| ==> zs[i] <= z
  }

  lemma ExtremesUnique(zs: seq<int>, a: int, b: int)
    ensures Least(zs, a) && Least(zs, b) ==> a == b
    ensures Greatest(zs, a) && Greatest(zs, b) ==> a == b
  {
    if Least(zs, a) && Least(zs, b) {
      var i :| 0 <= i < |zs| && zs[i] == a;
      var j :| 0 <= j < |zs| && zs[j] == b;
    }
    if Greatest(zs, a) && Greatest(zs, b) {
      var i :| 0 <= i < |zs| && zs[i] == a;
      var j :| 0 <= j < |zs| && zs[j] == b;
    }
  }

  /** In a sorted permutation the first element is the least and the last
      the greatest of the original list. */
  lemma {:induction false} SortedEnds(s: seq<int>, r: seq<int>)
    requires |s| >= 1 && IsSorted(r) && multiset(r) == multiset(s)
    ensures |r| == |s| && Least(s, r[0]) && Greatest(s, r[|r| - 1])
  {
    assert |r| == |multiset(r)| == |multiset(s)| == |s|;
    assert r[0] in multiset(s) && r[|r| - 1] in multiset(s);
    assert r[0] in s && r[|r| - 1] in s;
    forall i | 0 <= i < |s|
      ensures r[0] <= s[i] <= r[|r| - 1]
    {
      assert s[i] in multiset(r);
      var k :| 0 <= k < |r| && r[k] == s[i];
    }
  }

  // ---------------------------------------------------------------------
  // The reader object

  class ADC2016Reader {
    var problem: Problem
    var nerr: nat
    var width: nat
    var height: nat
    var depth: nat
    var lineNum: nat
    var viaNum: nat
    var curLineno: nat
    var hasSize: bool
    var hasLineNum: bool
    var sizeLineno: nat
    var lineNumLineno: nat
    var netDict: map<nat, nat>
    var viaDict: map<string, nat>

    ghost function State(): ReaderState
      reads this
    {
      ReaderState(problem, nerr, width, height, depth, lineNum, curLineno, hasSize, hasLineNum,
                   sizeLineno, lineNumLineno, netDict, viaDict)
    }

    constructor ()
      ensures State() == Init && viaNum == 0
    {
      problem := EmptyProblem;
      nerr, width, height, depth, lineNum, viaNum, curLineno := 0, 0, 0, 0, 0, 0, 0;
      hasSize, hasLineNum := false, false;
      sizeLineno, lineNumLineno := 0, 0;
      netDict, viaDict := map[], map[];
    }

    /** Reads all lines; the problem comes back only when no line raised an error. */
    method Read(lines: seq<LineRecord>) returns (r: Option<Problem>)
      modifies this
      ensures State() == AtEof(Run(lines))
      ensures r == ReadResult(lines)
    {
      Reset();
      var i := 0;
      while i < |lines|
        invariant 0 <= i <= |lines|
        invariant State() == Run(lines[..i])
      {
        assert lines[..i + 1][..i] == lines[..i];
        ReadRecord(lines[i]);
        i := i + 1;
      }
      assert lines[..|lines|] == lines;
      curLineno := curLineno + 1;
      if nerr == 0 {
        r := Some(problem);
      } else {
        r := None;
      }
    }

    /** The fields read sets up before the first line. */
    method Reset()
      modifies this
      ensures State() == Init && viaNum == 0
    {
      Load(Init);
      viaNum := 0;
    }

    /** Sets every field of the state. */
    method Load(st: ReaderState)
      modifies this
      ensures State() == st
    {
      problem, nerr, width, height, depth := st.problem, st.nerr, st.width, st.height, st.depth;
      lineNum, curLineno := st.lineNum, st.curLineno;
      hasSize, hasLineNum := st.hasSize, st.hasLineNum;
      sizeLineno, lineNumLineno := st.sizeLineno, st.lineNumLineno;
      netDict, viaDict := st.netDict, st.viaDict;
    }

    /** One line: advance the line number and run the matching handler. */
    method ReadRecord(r: LineRecord)
      modifies this
      ensures State() == Step(old(State()), r)
    {
      ghost var pre := State();
      curLineno := curLineno + 1;
      ghost var s := State();
      match r
      case Blank =>
      case SizeLine(w, h, d) =>
        assert Step(pre, r) == SizeStep(s, w, h, d);
        ReadSize(w, h, d);
      case LineNumLine(n) =>
        assert Step(pre, r) == LineNumStep(s, n);
        ReadLineNum(n);
      case NetLine(id, first, rest) =>
        assert Step(pre, r) == NetStep(s, id, Points(first, rest));
        ReadLine(id, Points(first, rest));
      case ViaLine(viaName, first, rest) =>
        assert Step(pre, r) == ViaStep(s, viaName, Points(first, rest));
        ReadVia(viaName, Points(first, rest));
      case Unmatched =>
        Error();
    }

    method ReadSize(w: nat, h: nat, d: nat)
      modifies this
      ensures State() == SizeStep(old(State()), w, h, d)
    {
      if hasSize {
        Error();
        return;
      }
      problem := SetSize(problem, w, h, d);
      width, height, depth := w, h, d;
      hasSize := true;
      sizeLineno := curLineno;
    }

    method ReadLineNum(n: nat)
      modifies this
      ensures State() == LineNumStep(old(State()), n)
    {
      if hasLineNum {
        Error();
        return;
      }
      lineNum := n;
      hasLineNum := true;
      lineNumLineno := curLineno;
    }

    method ReadLine(id: nat, pts: seq<FilePoint>)
      modifies this
      ensures State() == NetStep(old(State()), id, pts)
    {
      if !hasSize {
        Error();
        return;
      }
      if !hasLineNum {
        Error();
        return;
      }
      if !(1 <= id <= lineNum) {
        Error();
        return;
      }
      if id in netDict {
        Error();
        return;
      }
      netDict := netDict[id := curLineno];
      ghost var st1 := State();
      var count := 0;
      var startPoint, endPoint := Point(0, 0, 0), Point(0, 0, 0);
      var i := 0;
      while i < |pts|
        invariant 0 <= i <= |pts| && i <= 2 && count == i
        invariant PointsOk(st1, pts, i)
        invariant i >= 1 ==> startPoint == ToPoint(pts[0])
        invariant i >= 2 ==> endPoint == ToPoint(pts[1])
        invariant State() == st1
      {
        var p := ToPoint(pts[i]);
        var ok := CheckPoint(p);
        if !ok {
          assert !PointsOk(st1, pts, Examined(pts));
          return;
        }
        if count == 0 {
          startPoint := p;
        } else if count == 1 {
          endPoint := p;
        } else {
          assert PointsOk(st1, pts, Examined(pts));
          break;
        }
        count := count + 1;
        i := i + 1;
      }
      if count != 2 {
        Error();
        return;
      }
      problem := AddNet(problem, id, startPoint, endPoint);
    }

    method ReadVia(viaName: string, pts: seq<FilePoint>)
      requires |pts| >= 1
      modifies this
      ensures State() == ViaStep(old(State()), viaName, pts)
    {
      if !hasSize {
        Error();
        return;
      }
      if viaName in viaDict {
        Error();
        return;
      }
      viaDict := viaDict[viaName := curLineno];
      var ok, x0, y0, zList := ReadViaPoints(pts);
      if !ok {
        return;
      }
      zList := SortInts(zList);
      var n := |zList|;
      var z1 := zList[0];
      var z2 := zList[n - 1];
      if z2 - z1 != n - 1 {
        Error();
        return;
      }
      problem := AddVia(problem, viaName, x0, y0, z1, z2);
    }

    /** The point loop of the VIA handler: every point must be in range
        and on the first point's column; collects the layers in file order. */
    method ReadViaPoints(pts: seq<FilePoint>) returns (ok: bool, x0: int, y0: int, zList: seq<int>)
      requires |pts| >= 1
      modifies this
      ensures ok <==> ColumnOk(old(State()), pts, |pts|)
      ensures ok ==> State() == old(State()) && x0 == pts[0].x && y0 == pts[0].y && zList == Layers(pts)
      ensures !ok ==> State() == WithError(old(State()))
    {
      ghost var st1 := State();
      var firstTime := true;
      x0, y0 := 0, 0;
      zList := [];
      var i := 0;
      while i < |pts|
        invariant 0 <= i <= |pts| && (firstTime <==> i == 0)
        invariant ColumnOk(st1, pts, i)
        invariant i >= 1 ==> x0 == pts[0].x && y0 == pts[0].y
        invariant zList == Layers(pts[..i])
        invariant State() == st1
      {
        var p := ToPoint(pts[i]);
        ok := CheckPoint(p);
        if !ok {
          return;
        }
        if firstTime {
          x0, y0 := p.x, p.y;
          firstTime := false;
        } else {
          if p.x != x0 {
            Error();
            return false, x0, y0, zList;
          }
          if p.y != y0 {
            Error();
            return false, x0, y0, zList;
          }
        }
        assert pts[..i + 1][..i] == pts[..i];
        zList := zList + [p.z];
        i := i + 1;
      }
      assert pts[..i] == pts;
      ok := true;
    }

    /** The range check: an error for the first axis out of range. */
    method CheckPoint(p: Point) returns (ok: bool)
      modifies this
      ensures ok <==> CheckRange(old(width), old(height), old(depth), p) == InRange
      ensures State() == if ok then old(State()) else WithError(old(State()))
    {
      if !(0 <= p.x < width) {
        Error();
        return false;
      }
      if !(0 <= p.y < height) {
        Error();
        return false;
      }
      if !(0 <= p.z < depth) {
        Error();
        return false;
      }
      return true;
    }

    method Error()
      modifies this
      ensures State() == WithError(old(State()))
    {
      nerr := nerr + 1;
    }
  }
}

/** Properties of the reader, stated on the step functions the reader
    methods are proved to follow. */
module Adc2016ReaderFacts {
  import opened NlProblem
  import opened Adc2016Reader

  /** A step raises at most one error and never takes one back. */
  lemma StepAddsAtMostOneError(st: ReaderState, r: LineRecord)
    ensures Step(st, r).nerr == st.nerr || Step(st, r).nerr == st.nerr + 1
  {
  }

  /** Whether line k of a file raises an error. */
  ghost predicate LineRaisesError(lines: seq<LineRecord>, k: nat)
    requires k < |lines|
  {
    Step(Run(lines[..k]), lines[k]).nerr != Run(lines[..k]).nerr
  }

  /** read hands back the problem exactly when no line raised an error. */
  lemma {:induction false} ReadSucceedsIffNoLineErrs(lines: seq<LineRecord>)
    ensures ReadResult(lines).Some? <==> forall k :: 0 <= k < |lines| ==> !LineRaisesError(lines, k)
  {
    if |lines| > 0 {
      var n := |lines| - 1;
      var prev := lines[..n];
      ReadSucceedsIffNoLineErrs(prev);
      StepAddsAtMostOneError(Run(prev), lines[n]);
      assert Run(lines) == Step(Run(prev), lines[n]);
      assert LineRaisesError(lines, n) <==> Run(lines).nerr != Run(prev).nerr;
      forall k | 0 <= k < n
        ensures LineRaisesError(lines, k) == LineRaisesError(prev, k)
      {
        assert lines[..k] == prev[..k];
      }
    }
  }

  /** The error count of a prefix never exceeds that of the whole file. */
  lemma {:induction false} ErrorsNeverDecrease(lines: seq<LineRecord>, k: nat)
    requires k <= |lines|
    ensures Run(lines[..k]).nerr <= Run(lines).nerr
  {
    if k < |lines| {
      var n := |lines| - 1;
      assert lines[..n][..k] == lines[..k];
      ErrorsNeverDecrease(lines[..n], k);
      StepAddsAtMostOneError(Run(lines[..n]), lines[n]);
    } else {
      assert lines[..k] == lines;
    }
  }

  /** A line that no handler takes adds exactly one error and changes
      nothing else but the line number, so the whole read fails. */
  lemma UnmatchedLineFailsRead(before: seq<LineRecord>, after: seq<LineRecord>)
    ensures Step(Run(before), Unmatched).nerr == Run(before).nerr + 1
    ensures Step(Run(before), Unmatched).problem == Run(before).problem
    ensures ReadResult(before + [Unmatched] + after).None?
  {
    var lines := before + [Unmatched] + after;
    var k := |before| + 1;
    assert lines[..k] == before + [Unmatched];
    assert (before + [Unmatched])[..|before|] == before;
    ErrorsNeverDecrease(lines, k);
  }

  /** Two states that differ at most in the line numbers they record. */
  ghost predicate SameButLineNumbers(s1: ReaderState, s2: ReaderState) {
    s1.problem == s2.problem && s1.nerr == s2.nerr &&
    s1.width == s2.width && s1.height == s2.height && s1.depth == s2.depth &&
    s1.lineNum == s2.lineNum && s1.hasSize == s2.hasSize && s1.hasLineNum == s2.hasLineNum &&
    s1.netDict.Keys == s2.netDict.Keys && s1.viaDict.Keys == s2.viaDict.Keys
  }

  lemma NetStepIgnoresLineNumbers(t1: ReaderState, t2: ReaderState, id: nat, pts: seq<FilePoint>)
    requires SameButLineNumbers(t1, t2)
    ensures SameButLineNumbers(NetStep(t1, id, pts), NetStep(t2, id, pts))
  {
    if t1.hasSize && t1.hasLineNum && 1 <= id <= t1.lineNum && id !in t1.netDict {
      var u1 := t1.(netDict := t1.netDict[id := t1.curLineno]);
      var u2 := t2.(netDict := t2.netDict[id := t2.curLineno]);
      assert PointsOk(u1, pts, Examined(pts)) == PointsOk(u2, pts, Examined(pts));
      assert NetEnds(u1, pts) == NetEnds(u2, pts);
    }
  }

  lemma ViaStepIgnoresLineNumbers(t1: ReaderState, t2: ReaderState, viaName: string, pts: seq<FilePoint>)
    requires SameButLineNumbers(t1, t2) && |pts| >= 1
    ensures SameButLineNumbers(ViaStep(t1, viaName, pts), ViaStep(t2, viaName, pts))
  {
    if t1.hasSize && viaName !in t1.viaDict {
      var u1 := t1.(viaDict := t1.viaDict[viaName := t1.curLineno]);
      var u2 := t2.(viaDict := t2.viaDict[viaName := t2.curLineno]);
      assert ColumnOk(u1, pts, |pts|) == ColumnOk(u2, pts, |pts|);
    }
  }

  lemma NetLineIgnoresLineNumbers(s1: ReaderState, s2: ReaderState, id: nat, first: FilePoint, rest: seq<FilePoint>)
    requires SameButLineNumbers(s1, s2)
    ensures SameButLineNumbers(Step(s1, NetLine(id, first, rest)), Step(s2, NetLine(id, first, rest)))
  {
    var t1 := s1.(curLineno := s1.curLineno + 1);
    var t2 := s2.(curLineno := s2.curLineno + 1);
    assert Step(s1, NetLine(id, first, rest)) == NetStep(t1, id, Points(first, rest));
    assert Step(s2, NetLine(id, first, rest)) == NetStep(t2, id, Points(first, rest));
    NetStepIgnoresLineNumbers(t1, t2, id, Points(first, rest));
  }

  lemma ViaLineIgnoresLineNumbers(s1: ReaderState, s2: ReaderState, viaName: string, first: FilePoint, rest: seq<FilePoint>)
    requires SameButLineNumbers(s1, s2)
    ensures SameButLineNumbers(Step(s1, ViaLine(viaName, first, rest)), Step(s2, ViaLine(viaName, first, rest)))
  {
    var t1 := s1.(curLineno := s1.curLineno + 1);
    var t2 := s2.(curLineno := s2.curLineno + 1);
    assert Step(s1, ViaLine(viaName, first, rest)) == ViaStep(t1, viaName, Points(first, rest));
    assert Step(s2, ViaLine(viaName, first, rest)) == ViaStep(t2, viaName, Points(first, rest));
    ViaStepIgnoresLineNumbers(t1, t2, viaName, Points(first, rest));
  }

  lemma StepIgnoresLineNumbers(s1: ReaderState, s2: ReaderState, r: LineRecord)
    requires SameButLineNumbers(s1, s2)
    ensures SameButLineNumbers(Step(s1, r), Step(s2, r))
  {
    var t1 := s1.(curLineno := s1.curLineno + 1);
    var t2 := s2.(curLineno := s2.curLineno + 1);
    match r
    case NetLine(id, first, rest) =>
      NetLineIgnoresLineNumbers(s1, s2, id, first, rest);
    case ViaLine(viaName, first, rest) =>
      ViaLineIgnoresLineNumbers(s1, s2, viaName, first, rest);
    case SizeLine(w, h, d) =>
      assert Step(s1, r) == SizeStep(t1, w, h, d);
      assert Step(s2, r) == SizeStep(t2, w, h, d);
    case LineNumLine(n) =>
      assert Step(s1, r) == LineNumStep(t1, n);
      assert Step(s2, r) == LineNumStep(t2, n);
    case Blank =>
    case Unmatched =>
  }

  lemma {:induction false} RunSkipsBlank(before: seq<LineRecord>, after: seq<LineRecord>)
    ensures SameButLineNumbers(Run(before + [Blank] + after), Run(before + after))
  {
    if |after| == 0 {
      assert before + [Blank] + after == before + [Blank];
      assert (before + [Blank])[..|before|] == before;
      assert before + after == before;
    } else {
      var n := |after| - 1;
      var a1 := before + [Blank] + after;
      var a2 := before + after;
      var p1 := before + [Blank] + after[..n];
      var p2 := before + after[..n];
      assert a1[..|a1| - 1] == p1 && a1[|a1| - 1] == after[n];
      assert a2[..|a2| - 1] == p2 && a2[|a2| - 1] == after[n];
      assert Run(a1) == Step(Run(p1), after[n]);
      assert Run(a2) == Step(Run(p2), after[n]);
      RunSkipsBlank(before, after[..n]);
      StepIgnoresLineNumbers(Run(p1), Run(p2), after[n]);
    }
  }

  /** A blank line anywhere in the file leaves the result of read unchanged. */
  lemma ReadIgnoresBlankLines(before: seq<LineRecord>, after: seq<LineRecord>)
    ensures ReadResult(before + [Blank] + after) == ReadResult(before + after)
  {
    RunSkipsBlank(before, after);
  }

  /** The header fields a state carries. */
  ghost predicate HeadersKept(st: ReaderState, s: ReaderState) {
    (st.hasSize ==> s.hasSize && s.width == st.width && s.height == st.height && s.depth == st.depth) &&
    (st.hasLineNum ==> s.hasLineNum && s.lineNum == st.lineNum)
  }

  lemma NetLineKeepsHeaders(st: ReaderState, id: nat, first: FilePoint, rest: seq<FilePoint>)
    ensures HeadersKept(st, Step(st, NetLine(id, first, rest)))
  {
    var t := st.(curLineno := st.curLineno + 1);
    assert Step(st, NetLine(id, first, rest)) == NetStep(t, id, Points(first, rest));
  }

  lemma ViaLineKeepsHeaders(st: ReaderState, viaName: string, first: FilePoint, rest: seq<FilePoint>)
    ensures HeadersKept(st, Step(st, ViaLine(viaName, first, rest)))
  {
    var t := st.(curLineno := st.curLineno + 1);
    assert Step(st, ViaLine(viaName, first, rest)) == ViaStep(t, viaName, Points(first, rest));
  }

  lemma StepKeepsHeaders(st: ReaderState, r: LineRecord)
    ensures var s := Step(st, r);
            (st.hasSize ==> s.hasSize && s.width == st.width && s.height == st.height && s.depth == st.depth) &&
            (st.hasLineNum ==> s.hasLineNum && s.lineNum == st.lineNum)
  {
    var t := st.(curLineno := st.curLineno + 1);
    match r
    case NetLine(id, first, rest) =>
      NetLineKeepsHeaders(st, id, first, rest);
    case ViaLine(viaName, first, rest) =>
      ViaLineKeepsHeaders(st, viaName, first, rest);
    case SizeLine(w, h, d) =>
      assert Step(st, r) == SizeStep(t, w, h, d);
    case LineNumLine(n) =>
      assert Step(st, r) == LineNumStep(t, n);
    case Blank =>
    case Unmatched =>
  }

  /** Once a SIZE line has been taken, the size never changes: a later SIZE
      line is an error that keeps the first values. */
  lemma {:induction false} SizeKeptOnceSet(lines: seq<LineRecord>, k: nat)
    requires k <= |lines| && Run(lines[..k]).hasSize
    ensures Run(lines).hasSize
    ensures Run(lines).width == Run(lines[..k]).width
    ensures Run(lines).height == Run(lines[..k]).height
    ensures Run(lines).depth == Run(lines[..k]).depth
  {
    if k < |lines| {
      var n := |lines| - 1;
      assert lines[..n][..k] == lines[..k];
      SizeKeptOnceSet(lines[..n], k);
      StepKeepsHeaders(Run(lines[..n]), lines[n]);
    } else {
      assert lines[..k] == lines;
    }
  }

  /** Likewise the LINE_NUM value is kept once it has been read. */
  lemma {:induction false} LineNumKeptOnceSet(lines: seq<LineRecord>, k: nat)
    requires k <= |lines| && Run(lines[..k]).hasLineNum
    ensures Run(lines).hasLineNum && Run(lines).lineNum == Run(lines[..k]).lineNum
  {
    if k < |lines| {
      var n := |lines| - 1;
      assert lines[..n][..k] == lines[..k];
      LineNumKeptOnceSet(lines[..n], k);
      StepKeepsHeaders(Run(lines[..n]), lines[n]);
    } else {
      assert lines[..k] == lines;
    }
  }

  /** A second SIZE or LINE_NUM line is one error and keeps the first values. */
  lemma DuplicateHeaderKeepsFirst(st: ReaderState, w: nat, h: nat, d: nat, n: nat)
    ensures st.hasSize ==> Step(st, SizeLine(w, h, d)) == WithError(st.(curLineno := st.curLineno + 1))
    ensures st.hasLineNum ==> Step(st, LineNumLine(n)) == WithError(st.(curLineno := st.curLineno + 1))
  {
  }

  /** A LINE before the SIZE line or before the LINE_NUM line is an error
      and adds no net. */
  lemma NetBeforeHeadersRejected(st: ReaderState, id: nat, first: FilePoint, rest: seq<FilePoint>)
    requires !st.hasSize || !st.hasLineNum
    ensures Step(st, NetLine(id, first, rest)) == WithError(st.(curLineno := st.curLineno + 1))
  {
  }

  /** The header and id checks a LINE passes before its points are looked at. */
  ghost predicate NetIdAccepted(st: ReaderState, id: nat) {
    st.hasSize && st.hasLineNum && 1 <= id <= st.lineNum && id !in st.netDict
  }

  /** A LINE whose id is out of range or already seen is an error and adds
      no net; a LINE whose id is accepted records the id before its points
      are checked, so a second LINE with that id fails even when the first
      one's points were rejected. */
  lemma NetIdChecks(st: ReaderState, id: nat, first: FilePoint, rest: seq<FilePoint>,
                    first2: FilePoint, rest2: seq<FilePoint>)
    ensures st.hasSize && st.hasLineNum && !NetIdAccepted(st, id) ==>
              Step(st, NetLine(id, first, rest)) == WithError(st.(curLineno := st.curLineno + 1))
    ensures NetIdAccepted(st, id) ==>
              var s1 := Step(st, NetLine(id, first, rest));
              id in s1.netDict &&
              Step(s1, NetLine(id, first2, rest2)) == WithError(s1.(curLineno := s1.curLineno + 1))
  {
  }

  /** The first two points of a LINE become its ends, with the layer made
      0-based; a third point is range-checked and the rest are ignored. */
  lemma NetPointsUsed(st: ReaderState, id: nat, a: FilePoint, b: FilePoint, c: FilePoint, more: seq<FilePoint>)
    requires NetIdAccepted(st.(curLineno := st.curLineno + 1), id)
    ensures var s := Step(st, NetLine(id, a, [b, c] + more));
            var ok := PointOk(st, a) && PointOk(st, b) && PointOk(st, c);
            (ok ==> s.nerr == st.nerr &&
                    s.problem.nets == st.problem.nets + [NetDef(id, Point(a.x, a.y, a.z - 1), Point(b.x, b.y, b.z - 1))]) &&
            (!ok ==> s.nerr == st.nerr + 1 && s.problem == st.problem)
  {
    var pts := Points(a, [b, c] + more);
    assert pts[0] == a && pts[1] == b && pts[2] == c;
    assert Examined(pts) == 3;
    if !(PointOk(st, a) && PointOk(st, b) && PointOk(st, c)) {
      var s1 := st.(curLineno := st.curLineno + 1);
      var i :| 0 <= i < 3 && !PointOk(s1, pts[i]);
    }
  }

  /** A LINE of exactly two points in range, after both headers and with a
      new id within 1 .. LINE_NUM, is accepted and adds the net joining
      them, with the layers made 0-based. */
  lemma TwoPointNetAccepted(st: ReaderState, id: nat, a: FilePoint, b: FilePoint)
    requires NetIdAccepted(st.(curLineno := st.curLineno + 1), id)
    requires PointOk(st, a) && PointOk(st, b)
    ensures var s := Step(st, NetLine(id, a, [b]));
            s.nerr == st.nerr &&
            s.problem.nets == st.problem.nets + [NetDef(id, Point(a.x, a.y, a.z - 1), Point(b.x, b.y, b.z - 1))] &&
            s.problem.vias == st.problem.vias
  {
    var pts := Points(a, [b]);
    assert pts[0] == a && pts[1] == b;
    assert Examined(pts) == 2;
  }

  /** A LINE with a single point is an error and adds no net. */
  lemma NetNeedsTwoPoints(st: ReaderState, id: nat, a: FilePoint)
    ensures Step(st, NetLine(id, a, [])).problem == st.problem
    ensures Step(st, NetLine(id, a, [])).nerr == st.nerr + 1
  {
  }

  /** The sorted layer list starts with the lowest and ends with the
      highest layer. */
  lemma SortedLayerEnds(pts: seq<FilePoint>, z1: int, z2: int)
    requires |pts| >= 1 && Least(Layers(pts), z1) && Greatest(Layers(pts), z2)
    ensures var zs := SortInts(Layers(pts)); zs[0] == z1 && zs[|zs| - 1] == z2
  {
    var ls := Layers(pts);
    var zs := SortInts(ls);
    SortPermutes(ls);
    SortedEnds(ls, zs);
    ExtremesUnique(ls, z1, zs[0]);
    ExtremesUnique(ls, z2, zs[|zs| - 1]);
  }

  /** The column check looks only at the grid size. */
  lemma ColumnOkSameGrid(s1: ReaderState, s2: ReaderState, pts: seq<FilePoint>)
    requires |pts| >= 1 && s1.width == s2.width && s1.height == s2.height && s1.depth == s2.depth
    ensures ColumnOk(s1, pts, |pts|) == ColumnOk(s2, pts, |pts|)
  {
    assert forall i :: 0 <= i < |pts| ==> PointOk(s1, pts[i]) == PointOk(s2, pts[i]);
  }

  lemma ViaStepAccepted(t: ReaderState, viaName: string, pts: seq<FilePoint>, z1: int, z2: int)
    requires |pts| >= 1 && t.hasSize && viaName !in t.viaDict && ColumnOk(t, pts, |pts|)
    requires Least(Layers(pts), z1) && Greatest(Layers(pts), z2)
    ensures var s := ViaStep(t, viaName, pts);
            var s1 := t.(viaDict := t.viaDict[viaName := t.curLineno]);
            s == if z2 - z1 == |pts| - 1 then s1.(problem := AddVia(t.problem, viaName, pts[0].x, pts[0].y, z1, z2))
                 else WithError(s1)
  {
    var s1 := t.(viaDict := t.viaDict[viaName := t.curLineno]);
    ColumnOkSameGrid(t, s1, pts);
    SortedLayerEnds(pts, z1, z2);
  }

  /** A VIA whose points are in range and on one column is accepted iff its
      highest layer minus its lowest equals the point count minus one; the
      via added spans the lowest through the highest layer. */
  lemma ViaAccepted(st: ReaderState, viaName: string, first: FilePoint, rest: seq<FilePoint>, z1: int, z2: int)
    requires st.hasSize && viaName !in st.viaDict
    requires ColumnOk(st, Points(first, rest), 1 + |rest|)
    requires Least(Layers(Points(first, rest)), z1) && Greatest(Layers(Points(first, rest)), z2)
    ensures var s := Step(st, ViaLine(viaName, first, rest));
            (s.nerr == st.nerr <==> z2 - z1 == |rest|) &&
            (z2 - z1 == |rest| ==> s.problem.vias == st.problem.vias + [ViaDef(viaName, first.x, first.y, z1, z2)]) &&
            (z2 - z1 != |rest| ==> s.problem == st.problem)
  {
    var pts := Points(first, rest);
    var t := st.(curLineno := st.curLineno + 1);
    var s := Step(st, ViaLine(viaName, first, rest));
    assert s == ViaStep(t, viaName, pts);
    assert |pts| == 1 + |rest| && pts[0] == first;
    ColumnOkSameGrid(st, t, pts);
    ViaStepAccepted(t, viaName, pts, z1, z2);
    var s1 := t.(viaDict := t.viaDict[viaName := t.curLineno]);
    if z2 - z1 == |rest| {
      assert s == s1.(problem := AddVia(st.problem, viaName, first.x, first.y, z1, z2));
    } else {
      assert s == WithError(s1);
    }
  }

  /** A VIA before the SIZE line, with a label already seen, or with a
      point off the grid or off the first point's column is an error and
      adds no via. */
  lemma ViaRejected(st: ReaderState, viaName: string, first: FilePoint, rest: seq<FilePoint>)
    requires !st.hasSize || viaName in st.viaDict || !ColumnOk(st, Points(first, rest), 1 + |rest|)
    ensures Step(st, ViaLine(viaName, first, rest)).nerr == st.nerr + 1
    ensures Step(st, ViaLine(viaName, first, rest)).problem == st.problem
  {
    var pts := Points(first, rest);
    if st.hasSize && viaName !in st.viaDict {
      var s1 := st.(curLineno := st.curLineno + 1).(viaDict := st.viaDict[viaName := st.curLineno + 1]);
      var i :| 0 <= i < |pts| && !(PointOk(st, pts[i]) && pts[i].x == pts[0].x && pts[i].y == pts[0].y);
      assert !ColumnOk(s1, pts, |pts|);
    }
  }

  /** The layer check compares only the span with the count, so a list
      naming one layer twice and skipping another is accepted: layers 1, 1
      and 3 of a three-layer grid give a via over all three layers. */
  lemma ViaRepeatedLayerAccepted()
    ensures var st := Init.(hasSize := true, width := 1, height := 1, depth := 3,
                            problem := SetSize(EmptyProblem, 1, 1, 3));
            var s := Step(st, ViaLine("a", FilePoint(0, 0, 1), [FilePoint(0, 0, 1), FilePoint(0, 0, 3)]));
            s.nerr == 0 && s.problem.vias == [ViaDef("a", 0, 0, 0, 2)]
  {
    var st := Init.(hasSize := true, width := 1, height := 1, depth := 3,
                    problem := SetSize(EmptyProblem, 1, 1, 3));
    var first, rest := FilePoint(0, 0, 1), [FilePoint(0, 0, 1), FilePoint(0, 0, 3)];
    var ls := Layers(Points(first, rest));
    assert ls == [0, 0, 2];
    assert ls[0] == 0 && ls[2] == 2;
    assert Least(ls, 0) && Greatest(ls, 2);
    assert ColumnOk(st, Points(first, rest), 3);
    ViaAccepted(st, "a", first, rest, 0, 2);
  }

  /** The nets read so far: after both header lines, on the grid, with
      distinct recorded ids within 1..LINE_NUM. */
  ghost predicate NetsConsistent(st: ReaderState) {
    var nets := st.problem.nets;
    (!st.hasLineNum || !st.hasSize ==> nets == []) &&
    (forall k :: 0 <= k < |nets| ==>
       InBox(st.width, st.height, st.depth, nets[k].startPoint) &&
       InBox(st.width, st.height, st.depth, nets[k].endPoint)) &&
    (forall k :: 0 <= k < |nets| ==> 1 <= nets[k].id <= st.lineNum && nets[k].id in st.netDict) &&
    (forall k, l :: 0 <= k < l < |nets| ==> nets[k].id != nets[l].id)
  }

  /** The vias read so far: after the SIZE line, on the grid, with distinct
      recorded labels. */
  ghost predicate ViasConsistent(st: ReaderState) {
    var vias := st.problem.vias;
    (!st.hasSize ==> vias == []) &&
    (forall v :: 0 <= v < |vias| ==>
       0 <= vias[v].x < st.width && 0 <= vias[v].y < st.height && 0 <= vias[v].z1 <= vias[v].z2 < st.depth) &&
    (forall v :: 0 <= v < |vias| ==> vias[v].name in st.viaDict) &&
    (forall v, u :: 0 <= v < u < |vias| ==> vias[v].name != vias[u].name)
  }

  /** What holds of the reader's state after every line: the problem's
      size is the size read, and the nets and vias are consistent. */
  ghost predicate Consistent(st: ReaderState) {
    st.problem.width == st.width && st.problem.height == st.height && st.problem.depth == st.depth &&
    NetsConsistent(st) && ViasConsistent(st)
  }

  lemma ConsistentWellFormed(st: ReaderState)
    requires Consistent(st)
    ensures WellFormed(st.problem)
  {
  }

  /** Recording one more id or label keeps the state consistent. */
  lemma RecordConsistent(st: ReaderState, id: nat, viaName: string, line: nat)
    requires Consistent(st)
    ensures Consistent(st.(netDict := st.netDict[id := line]))
    ensures Consistent(st.(viaDict := st.viaDict[viaName := line]))
  {
  }

  lemma AddNetConsistent(st: ReaderState, id: nat, line: nat, s: Point, e: Point)
    requires Consistent(st) && st.hasSize && st.hasLineNum && 1 <= id <= st.lineNum && id !in st.netDict
    requires InBox(st.width, st.height, st.depth, s) && InBox(st.width, st.height, st.depth, e)
    ensures Consistent(st.(netDict := st.netDict[id := line], problem := AddNet(st.problem, id, s, e)))
  {
    var pr := st.problem;
    var pr2 := AddNet(pr, id, s, e);
    assert pr2.nets[|pr.nets|] == NetDef(id, s, e);
    assert forall k :: 0 <= k < |pr.nets| ==> pr2.nets[k] == pr.nets[k];
  }

  lemma AddViaConsistent(st: ReaderState, viaName: string, line: nat, x: int, y: int, z1: int, z2: int)
    requires Consistent(st) && st.hasSize && viaName !in st.viaDict
    requires 0 <= x < st.width && 0 <= y < st.height && 0 <= z1 <= z2 < st.depth
    ensures Consistent(st.(viaDict := st.viaDict[viaName := line], problem := AddVia(st.problem, viaName, x, y, z1, z2)))
  {
    var pr := st.problem;
    var pr2 := AddVia(pr, viaName, x, y, z1, z2);
    assert pr2.vias[|pr.vias|] == ViaDef(viaName, x, y, z1, z2);
    assert forall v :: 0 <= v < |pr.vias| ==> pr2.vias[v] == pr.vias[v];
  }

  lemma NetStepConsistent(st: ReaderState, id: nat, pts: seq<FilePoint>)
    requires Consistent(st)
    ensures Consistent(NetStep(st, id, pts))
  {
    if NetIdAccepted(st, id) {
      var st1 := st.(netDict := st.netDict[id := st.curLineno]);
      match NetEnds(st1, pts)
      case None =>
        RecordConsistent(st, id, "", st.curLineno);
      case Some(ends) =>
        assert PointOk(st1, pts[0]) && PointOk(st1, pts[1]);
        AddNetConsistent(st, id, st.curLineno, ends.0, ends.1);
        assert st1.(problem := AddNet(st1.problem, id, ends.0, ends.1)) ==
               st.(netDict := st.netDict[id := st.curLineno], problem := AddNet(st.problem, id, ends.0, ends.1));
    }
  }

  /** The lowest and highest layer of a VIA that passed the column check
      lie on the grid. */
  lemma SortedLayersInRange(st: ReaderState, pts: seq<FilePoint>)
    requires |pts| >= 1 && ColumnOk(st, pts, |pts|)
    ensures var zs := SortInts(Layers(pts));
            0 <= zs[0] <= zs[|zs| - 1] < st.depth && PointOk(st, pts[0])
  {
    var ls := Layers(pts);
    var zs := SortInts(ls);
    SortPermutes(ls);
    SortedEnds(ls, zs);
    var k1 :| 0 <= k1 < |ls| && ls[k1] == zs[0];
    var k2 :| 0 <= k2 < |ls| && ls[k2] == zs[|zs| - 1];
    assert PointOk(st, pts[k1]) && PointOk(st, pts[k2]);
    assert zs[0] <= ls[k2];
  }

  lemma ViaStepConsistent(st: ReaderState, viaName: string, pts: seq<FilePoint>)
    requires Consistent(st) && |pts| >= 1
    ensures Consistent(ViaStep(st, viaName, pts))
  {
    if st.hasSize && viaName !in st.viaDict {
      var st1 := st.(viaDict := st.viaDict[viaName := st.curLineno]);
      if ColumnOk(st1, pts, |pts|) {
        var zs := SortInts(Layers(pts));
        SortedLayersInRange(st1, pts);
        AddViaConsistent(st, viaName, st.curLineno, pts[0].x, pts[0].y, zs[0], zs[|zs| - 1]);
        assert st1.(problem := AddVia(st1.problem, viaName, pts[0].x, pts[0].y, zs[0], zs[|zs| - 1])) ==
               st.(viaDict := st.viaDict[viaName := st.curLineno],
                   problem := AddVia(st.problem, viaName, pts[0].x, pts[0].y, zs[0], zs[|zs| - 1]));
      } else {
        RecordConsistent(st, 0, viaName, st.curLineno);
      }
    }
  }

  /** Counting a line or an error leaves the state consistent. */
  lemma CountersConsistent(st: ReaderState)
    requires Consistent(st)
    ensures Consistent(st.(curLineno := st.curLineno + 1)) && Consistent(WithError(st))
  {
  }

  lemma SizeLineConsistent(st: ReaderState, w: nat, h: nat, d: nat)
    requires Consistent(st)
    ensures Consistent(Step(st, SizeLine(w, h, d)))
  {
    CountersConsistent(st);
  }

  lemma LineNumLineConsistent(st: ReaderState, n: nat)
    requires Consistent(st)
    ensures Consistent(Step(st, LineNumLine(n)))
  {
    CountersConsistent(st);
  }

  lemma NetLineConsistent(st: ReaderState, id: nat, first: FilePoint, rest: seq<FilePoint>)
    requires Consistent(st)
    ensures Consistent(Step(st, NetLine(id, first, rest)))
  {
    var s := st.(curLineno := st.curLineno + 1);
    assert Step(st, NetLine(id, first, rest)) == NetStep(s, id, Points(first, rest));
    NetStepConsistent(s, id, Points(first, rest));
  }

  lemma ViaLineConsistent(st: ReaderState, viaName: string, first: FilePoint, rest: seq<FilePoint>)
    requires Consistent(st)
    ensures Consistent(Step(st, ViaLine(viaName, first, rest)))
  {
    var s := st.(curLineno := st.curLineno + 1);
    assert Step(st, ViaLine(viaName, first, rest)) == ViaStep(s, viaName, Points(first, rest));
    ViaStepConsistent(s, viaName, Points(first, rest));
  }

  lemma StepConsistent(st: ReaderState, r: LineRecord)
    requires Consistent(st)
    ensures Consistent(Step(st, r))
  {
    match r
    case NetLine(id, first, rest) => NetLineConsistent(st, id, first, rest);
    case ViaLine(viaName, first, rest) => ViaLineConsistent(st, viaName, first, rest);
    case SizeLine(w, h, d) => SizeLineConsistent(st, w, h, d);
    case LineNumLine(n) => LineNumLineConsistent(st, n);
    case Blank => CountersConsistent(st);
    case Unmatched =>
      CountersConsistent(st);
      CountersConsistent(st.(curLineno := st.curLineno + 1));
  }

  lemma {:induction false} RunConsistent(lines: seq<LineRecord>)
    ensures Consistent(Run(lines))
  {
    if |lines| > 0 {
      RunConsistent(lines[..|lines| - 1]);
      StepConsistent(Run(lines[..|lines| - 1]), lines[|lines| - 1]);
    }
  }

  /** A problem read without errors has every terminal and via on the grid,
      distinct net ids within 1..LINE_NUM and distinct via labels. */
  lemma ReadProblemWellFormed(lines: seq<LineRecord>)
    requires ReadResult(lines).Some?
    ensures var pr := ReadResult(lines).value;
            WellFormed(pr) &&
            (forall k :: 0 <= k < |pr.nets| ==> 1 <= pr.nets[k].id <= Run(lines).lineNum) &&
            (forall k, l :: 0 <= k < l < |pr.nets| ==> pr.nets[k].id != pr.nets[l].id) &&
            (forall v, u :: 0 <= v < u < |pr.vias| ==> pr.vias[v].name != pr.vias[u].name)
  {
    RunConsistent(lines);
    ConsistentWellFormed(Run(lines));
  }
}
