/**
 * The "Save to file" action: the finalised model as the records of a
 * triangulator's .poly file (point lines, segment lines, hole lines),
 * plus a reader that recovers the loops and holes from those records.
 */
module PolyExport {
  import opened Wrappers
  import opened Geometry
  import opened Editor

  /** A numbered coordinate line, `<index> <x> <y>`: a vertex or a hole. */
  datatype NumberedPoint = NumberedPoint(index: nat, x: real, y: real)

  /** A segment line, `<index> <start vertex> <end vertex>`. */
  datatype SegmentLine = SegmentLine(index: nat, startIndex: nat, endIndex: nat)

  /**
   * The whole file. The header `<numPoints> 2 0 0` carries the dimension and
   * the numbers of attributes and boundary markers; the segment header
   * `<numSegments> 0` carries the number of boundary markers.
   */
  datatype PolyFile = PolyFile(
    numPoints: nat, dimension: nat, attributes: nat, boundaryMarkers: nat,
    vertices: seq<NumberedPoint>,
    numSegments: nat, segmentMarkers: nat,
    segments: seq<SegmentLine>,
    numHoles: nat,
    holes: seq<NumberedPoint>)

  /** The message box "Please finish current loop first". */
  datatype SaveError = IncompleteLoop

  /** Sum of the loop lengths: the number of vertices and of segments. */
  function TotalLength(loops: seq<seq<Point>>): nat
  {
    if |loops| == 0 then 0 else |loops[0]| + TotalLength(loops[1..])
  }

  /** All loop vertices, loop by loop, in loop order. */
  function Flatten(loops: seq<seq<Point>>): (r: seq<Point>)
    ensures |r| == TotalLength(loops)
  {
    if |loops| == 0 then [] else loops[0] + Flatten(loops[1..])
  }

  /** Number of vertices in the loops before loop k. */
  function Offset(loops: seq<seq<Point>>, k: nat): nat
    requires k <= |loops|
  {
    if k == 0 then 0 else |loops[0]| + Offset(loops[1..], k - 1)
  }

  /** Numbers points consecutively from `first`, keeping their coordinates. */
  function Number(ps: seq<Point>, first: nat): (r: seq<NumberedPoint>)
    ensures |r| == |ps|
    ensures forall g :: 0 <= g < |ps| ==> r[g] == NumberedPoint(first + g, ps[g].x, ps[g].y)
    decreases |ps|
  {
    if |ps| == 0 then []
    else [NumberedPoint(first, ps[0].x, ps[0].y)] + Number(ps[1..], first + 1)
  }

  /** The segments of one loop of length n whose first vertex is number i:
      segment j joins vertex i+j to vertex i + ((j+1) mod n). */
  function RingSegments(n: nat, i: nat): (r: seq<SegmentLine>)
    ensures |r| == n
    ensures forall g :: 0 <= g < n ==> r[g].index == r[g].startIndex == i + g
    ensures forall g :: 0 <= g < n ==> i <= r[g].endIndex < i + n
    ensures forall g :: 0 <= g < n - 1 ==> r[g].endIndex == r[g].startIndex + 1
    ensures n > 0 ==> r[n - 1].endIndex == i
  {
    seq(n, j requires 0 <= j < n => SegmentLine(i + j, i + j, i + RingNext(j, n)))
  }

  /** The segments of all loops, numbered consecutively from i. */
  function Segments(loops: seq<seq<Point>>, i: nat): (r: seq<SegmentLine>)
    ensures |r| == TotalLength(loops)
    ensures forall g :: 0 <= g < |r| ==> r[g].index == r[g].startIndex == i + g
    ensures forall g :: 0 <= g < |r| ==> i <= r[g].endIndex < i + |r|
    decreases |loops|
  {
    if |loops| == 0 then []
    else RingSegments(|loops[0]|, i) + Segments(loops[1..], i + |loops[0]|)
  }

  /**
   * The records written for a model with no loop in progress. Vertices and
   * segments are numbered 1..n with n the total loop length, vertex g+1
   * holds the g-th loop vertex in loop order, every segment starts at the
   * vertex of its own number and ends at an existing vertex, and holes are
   * numbered 1..h in insertion order.
   */
  function Export(loops: seq<seq<Point>>, holes: seq<Point>): (f: PolyFile)
    ensures var n := TotalLength(loops);
      && f.numPoints == n && |f.vertices| == n
      && f.numSegments == n && |f.segments| == n
      && (f.dimension, f.attributes, f.boundaryMarkers, f.segmentMarkers) == (2, 0, 0, 0)
      && (forall g :: 0 <= g < n ==>
            f.vertices[g] == NumberedPoint(g + 1, Flatten(loops)[g].x, Flatten(loops)[g].y))
      && (forall g :: 0 <= g < n ==>
            && f.segments[g].index == f.segments[g].startIndex == g + 1
            && 1 <= f.segments[g].endIndex <= n)
      && f.numHoles == |holes| && |f.holes| == |holes|
      && (forall h :: 0 <= h < |holes| ==>
            f.holes[h] == NumberedPoint(h + 1, holes[h].x, holes[h].y))
  {
    var n := TotalLength(loops);
    PolyFile(n, 2, 0, 0, Number(Flatten(loops), 1),
             n, 0, Segments(loops, 1),
             |holes|, Number(holes, 1))
  }

  /**
   * Save: refused while a loop is in progress, otherwise the file records
   * of the finalised loops and the standalone points, with the numbering
   * `Export` guarantees.
   */
  function Save(s: State): (r: Result<PolyFile, SaveError>)
    ensures r.Failure? <==> |s.current| > 0
    ensures r.Success? ==>
      var f := r.value;
      var n := TotalLength(s.loops);
      && f.numPoints == n && |f.vertices| == n
      && f.numSegments == n && |f.segments| == n
      && (f.dimension, f.attributes, f.boundaryMarkers, f.segmentMarkers) == (2, 0, 0, 0)
      && (forall g :: 0 <= g < n ==>
            f.vertices[g] == NumberedPoint(g + 1, Flatten(s.loops)[g].x, Flatten(s.loops)[g].y))
      && (forall g :: 0 <= g < n ==>
            && f.segments[g].index == f.segments[g].startIndex == g + 1
            && 1 <= f.segments[g].endIndex <= n)
      && f.numHoles == |s.points| && |f.holes| == |s.points|
      && (forall h :: 0 <= h < |s.points| ==>
            f.holes[h] == NumberedPoint(h + 1, s.points[h].x, s.points[h].y))
  {
    if |s.current| > 0 then Failure(IncompleteLoop)
    else Success(Export(s.loops, s.points))
  }

  // ---------------------------------------------------------------------
  // Reading the records back

  function Coords(ps: seq<NumberedPoint>): (r: seq<Point>)
    ensures |r| == |ps|
    ensures forall g :: 0 <= g < |ps| ==> r[g] == Point(ps[g].x, ps[g].y)
  {
    seq(|ps|, g requires 0 <= g < |ps| => Point(ps[g].x, ps[g].y))
  }

  /**
   * Splits the vertices into loops along the segments: the segment leaving
   * a vertex either goes on to the next vertex or jumps back, closing the
   * loop accumulated in `acc`.
   */
  function ReadLoops(pts: seq<Point>, segs: seq<SegmentLine>, acc: seq<Point>): seq<seq<Point>>
    requires |pts| == |segs|
    decreases |pts|
  {
    if |pts| == 0 then (if acc == [] then [] else [acc])
    else if ClosesLoop(segs[0]) then
      [acc + [pts[0]]] + ReadLoops(pts[1..], segs[1..], [])
    else ReadLoops(pts[1..], segs[1..], acc + [pts[0]])
  }

  /** The loops and holes a reader of the file sees; None for a file whose
      vertex and segment counts disagree. */
  function Read(f: PolyFile): Option<(seq<seq<Point>>, seq<Point>)>
  {
    if |f.vertices| != |f.segments| then None
    else Some((ReadLoops(Coords(f.vertices), f.segments, []), Coords(f.holes)))
  }

  // ---------------------------------------------------------------------
  // Properties

  lemma {:induction false} OffsetBounds(loops: seq<seq<Point>>, k: nat)
    requires k < |loops|
    ensures Offset(loops, k) + |loops[k]| <= TotalLength(loops)
    decreases k
  {
    if k > 0 { OffsetBounds(loops[1..], k - 1); }
  }

  /** Vertex j of loop k is vertex Offset(k) + j of the flattened list. */
  lemma {:induction false} FlattenAt(loops: seq<seq<Point>>, k: nat, j: nat)
    requires k < |loops| && j < |loops[k]|
    ensures Offset(loops, k) + j < |Flatten(loops)|
    ensures Flatten(loops)[Offset(loops, k) + j] == loops[k][j]
    decreases k
  {
    OffsetBounds(loops, k);
    if k > 0 { FlattenAt(loops[1..], k - 1, j); }
  }

  /** Segment Offset(k) + j is edge j of loop k, with the closing edge wrapping. */
  lemma {:induction false} SegmentsAt(loops: seq<seq<Point>>, i: nat, k: nat, j: nat)
    requires k < |loops| && j < |loops[k]|
    ensures Offset(loops, k) + j < |Segments(loops, i)|
    ensures var o := Offset(loops, k);
            Segments(loops, i)[o + j] == SegmentLine(i + o + j, i + o + j, i + o + RingNext(j, |loops[k]|))
    decreases k
  {
    OffsetBounds(loops, k);
    var n := |loops[0]|;
    var next := RingNext(j, |loops[k]|);
    if k == 0 {
      SegmentsHead(loops, i, j);
      RingSegmentAt(n, i, j);
    } else {
      var rest := loops[1..];
      assert rest[k - 1] == loops[k];
      SegmentsAt(rest, i + n, k - 1, j);
      var o' := Offset(rest, k - 1);
      assert Offset(loops, k) == n + o';
      SegmentsTail(loops, i, n + o' + j);
    }
  }

  /** The first loop's segments open the list of all segments. */
  lemma SegmentsHead(loops: seq<seq<Point>>, i: nat, g: nat)
    requires |loops| > 0 && g < |loops[0]|
    ensures g < |Segments(loops, i)|
    ensures Segments(loops, i)[g] == RingSegments(|loops[0]|, i)[g]
  {
    var head := RingSegments(|loops[0]|, i);
    var tail := Segments(loops[1..], i + |loops[0]|);
    assert Segments(loops, i) == head + tail;
  }

  /** After the first loop's segments come those of the other loops. */
  lemma SegmentsTail(loops: seq<seq<Point>>, i: nat, g: nat)
    requires |loops| > 0 && |loops[0]| <= g < |Segments(loops, i)|
    ensures Segments(loops, i)[g] == Segments(loops[1..], i + |loops[0]|)[g - |loops[0]|]
  {
    var head := RingSegments(|loops[0]|, i);
    var tail := Segments(loops[1..], i + |loops[0]|);
    assert Segments(loops, i) == head + tail;
  }

  /** Segment j of a single loop joins vertex i+j to vertex i + ((j+1) mod n). */
  lemma RingSegmentAt(n: nat, i: nat, j: nat)
    requires j < n
    ensures RingSegments(n, i)[j] == SegmentLine(i + j, i + j, i + RingNext(j, n))
  {
  }

  /**
   * Every loop edge is a segment of the file: segment Offset(k)+j+1 runs
   * from the vertex line holding loops[k][j] to the vertex line holding
   * loops[k][(j+1) mod |loops[k]|]. `ExportSegmentsComeFromLoops` gives the
   * converse.
   */
  lemma ExportSegmentsAreRingEdges(loops: seq<seq<Point>>, holes: seq<Point>, k: nat, j: nat)
    requires k < |loops| && j < |loops[k]|
    ensures var f := Export(loops, holes);
            var g := Offset(loops, k) + j;
            var j' := RingNext(j, |loops[k]|);
            && g < |f.segments|
            && f.segments[g] == SegmentLine(g + 1, g + 1, Offset(loops, k) + j' + 1)
            && Coords(f.vertices)[g] == loops[k][j]
            && Coords(f.vertices)[Offset(loops, k) + j'] == loops[k][j']
  {
    var f := Export(loops, holes);
    assert f.segments == Segments(loops, 1);
    CoordsOfNumber(Flatten(loops), 1);
    assert Coords(f.vertices) == Flatten(loops);
    SegmentsAt(loops, 1, k, j);
    FlattenAt(loops, k, j);
    FlattenAt(loops, k, RingNext(j, |loops[k]|));
  }

  /** Every global vertex position lies in the range of some loop. */
  lemma {:induction false} SegmentOrigin(loops: seq<seq<Point>>, g: nat)
    requires g < TotalLength(loops)
    ensures exists k :: 0 <= k < |loops| && Offset(loops, k) <= g < Offset(loops, k) + |loops[k]|
    decreases |loops|
  {
    if g >= |loops[0]| {
      SegmentOrigin(loops[1..], g - |loops[0]|);
      var k' :| 0 <= k' < |loops[1..]|
                && Offset(loops[1..], k') <= g - |loops[0]| < Offset(loops[1..], k') + |loops[1..][k']|;
      assert Offset(loops, k' + 1) == |loops[0]| + Offset(loops[1..], k');
      assert loops[1..][k'] == loops[k' + 1];
    } else {
      assert Offset(loops, 0) == 0;
    }
  }

  /**
   * Segment line Offset(k)+j+1 of f is edge j of loop k: it starts at the
   * vertex line holding loops[k][j] and ends at the vertex line holding the
   * next vertex of that loop, wrapping back to its first.
   */
  ghost predicate IsLoopEdge(f: PolyFile, loops: seq<seq<Point>>, k: nat, j: nat)
  {
    && k < |loops| && j < |loops[k]|
    && var o := Offset(loops, k);
       var j' := RingNext(j, |loops[k]|);
       && o + j < |f.segments| && o + j < |f.vertices| && o + j' < |f.vertices|
       && f.segments[o + j] == SegmentLine(o + j + 1, o + j + 1, o + j' + 1)
       && Coords(f.vertices)[o + j] == loops[k][j]
       && Coords(f.vertices)[o + j'] == loops[k][j']
  }

  /** Every segment of the file is an edge of a loop: segment g+1 is edge j
      of some loop k with g = Offset(k)+j. */
  lemma ExportSegmentsComeFromLoops(loops: seq<seq<Point>>, holes: seq<Point>, g: nat)
    requires g < |Export(loops, holes).segments|
    ensures exists k, j :: IsLoopEdge(Export(loops, holes), loops, k, j) && g == Offset(loops, k) + j
  {
    SegmentOrigin(loops, g);
    var k :| 0 <= k < |loops| && Offset(loops, k) <= g < Offset(loops, k) + |loops[k]|;
    var j := g - Offset(loops, k);
    ExportSegmentsAreRingEdges(loops, holes, k, j);
    assert IsLoopEdge(Export(loops, holes), loops, k, j);
  }

  /** A segment that jumps back (end not after start) closes a loop. */
  predicate ClosesLoop(seg: SegmentLine)
  {
    seg.endIndex <= seg.startIndex
  }

  /** Reading a run of vertices whose segments all continue except the last,
      which jumps back, closes exactly that run as one loop. */
  lemma {:induction false} ReadRun(run: seq<Point>, runSegs: seq<SegmentLine>, acc: seq<Point>,
                                   pts: seq<Point>, segs: seq<SegmentLine>)
    requires |run| == |runSegs| > 0 && |pts| == |segs|
    requires forall g :: 0 <= g < |runSegs| - 1 ==> !ClosesLoop(runSegs[g])
    requires ClosesLoop(runSegs[|runSegs| - 1])
    ensures ReadLoops(run + pts, runSegs + segs, acc) == [acc + run] + ReadLoops(pts, segs, [])
    decreases |run|
  {
    var P := run + pts;
    var S := runSegs + segs;
    assert P[0] == run[0] && S[0] == runSegs[0];
    if |run| == 1 {
      assert P[1..] == pts && S[1..] == segs;
      assert run == [run[0]];
    } else {
      assert P[1..] == run[1..] + pts && S[1..] == runSegs[1..] + segs;
      ReadRun(run[1..], runSegs[1..], acc + [run[0]], pts, segs);
      assert acc + [run[0]] + run[1..] == acc + run;
    }
  }

  /** Reading the segments of all loops gives the loops back. */
  lemma {:induction false} ReadAll(loops: seq<seq<Point>>, i: nat)
    requires forall k :: 0 <= k < |loops| ==> |loops[k]| > 0
    ensures ReadLoops(Flatten(loops), Segments(loops, i), []) == loops
    decreases |loops|
  {
    if |loops| > 0 {
      var ring := loops[0];
      var ringSegs := RingSegments(|ring|, i);
      var pts := Flatten(loops[1..]);
      var segs := Segments(loops[1..], i + |ring|);
      ReadAll(loops[1..], i + |ring|);
      assert Flatten(loops) == ring + pts;
      assert Segments(loops, i) == ringSegs + segs;
      ReadRun(ring, ringSegs, [], pts, segs);
      assert [] + ring == ring;
      assert [ring] + loops[1..] == loops;
    }
  }

  lemma CoordsOfNumber(ps: seq<Point>, first: nat)
    ensures Coords(Number(ps, first)) == ps
  {
  }

  /**
   * Round trip: the written file determines the model. Reading it back
   * yields the finalised loops (each loop non-empty, as every loop the
   * editor finalises is) and the holes in their order.
   */
  lemma ExportReadBack(loops: seq<seq<Point>>, holes: seq<Point>)
    requires forall k :: 0 <= k < |loops| ==> |loops[k]| > 0
    ensures Read(Export(loops, holes)) == Some((loops, holes))
  {
    var f := Export(loops, holes);
    CoordsOfNumber(Flatten(loops), 1);
    CoordsOfNumber(holes, 1);
    ReadAll(loops, 1);
  }

  /** Any model the editor reaches and can save reads back to itself. */
  lemma SaveReadBack(events: seq<Event>)
    ensures var s := Run(Reset(), events);
            Save(s).Success? ==> Read(Save(s).value) == Some((s.loops, s.points))
  {
    var s := Run(Reset(), events);
    RunPreservesWellFormed(Reset(), events);
    ExportReadBack(s.loops, s.points);
  }
}
