/**
 * The click state machine of the drawing widget: standalone points ("holes"),
 * finalised loops and the loop under construction, and what one release of
 * the mouse does to them under the active mode.
 */
module Editor {
  import opened Wrappers
  import opened Geometry

  datatype Mode = LoopMode | PointMode

  /** points: standalone points; loops: finalised loops in creation order;
      current: the loop being drawn (empty when idle). */
  datatype State = State(points: seq<Point>, loops: seq<seq<Point>>, current: seq<Point>)

  /** The message box "Segments should not intersect". */
  datatype EditError = SegmentsIntersect

  /** The reset button: an empty model. */
  function Reset(): (s: State)
    ensures s.points == [] && s.loops == [] && s.current == []
    ensures WellFormed(s)
  {
    State([], [], [])
  }

  /** Every finalised loop is a polygon: at least three vertices. */
  ghost predicate WellFormed(s: State)
  {
    forall k :: 0 <= k < |s.loops| ==> |s.loops[k]| >= 3
  }

  /**
   * The candidate edge p0-p1 is illegal against edge a-b: the two segments
   * meet, and not within tolerance of the candidate's start p0.
   */
  predicate Blocks(p0: Point, p1: Point, a: Point, b: Point)
  {
    match Intersection(p0, p1, a, b)
    case None => false
    case Some(ii) => SqDist(p0, ii) > Tol
  }

  /** Edge j -> (j+1) mod n of a closed ring blocks the candidate p0-p1. */
  predicate RingEdgeBlocks(p0: Point, p1: Point, ring: seq<Point>, j: nat)
    requires j < |ring|
  {
    Blocks(p0, p1, ring[j], ring[RingNext(j, |ring|)])
  }

  /** Edge j -> j+1 of an open path blocks the candidate p0-p1. */
  predicate PathEdgeBlocks(p0: Point, p1: Point, path: seq<Point>, j: nat)
    requires j + 1 < |path|
  {
    Blocks(p0, p1, path[j], path[j + 1])
  }

  /** The click p closes the loop being drawn. */
  predicate Closes(s: State, p: Point)
  {
    |s.current| >= 3 && SqDist(p, s.current[0]) < Tol
  }

  /** Reference definition of a rejected loop-mode click: the edge from the
      last vertex to p is blocked by an edge of a finalised loop (closing edge
      included) or by an edge i -> i+1 of the loop being drawn. */
  ghost predicate Violates(s: State, p: Point)
  {
    && |s.current| > 0
    && var p0 := s.current[|s.current| - 1];
       || (exists k, j :: 0 <= k < |s.loops| && 0 <= j < |s.loops[k]|
             && RingEdgeBlocks(p0, p, s.loops[k], j))
       || (exists j :: 0 <= j < |s.current| - 1 && PathEdgeBlocks(p0, p, s.current, j))
  }

  /** Scans the ring edges j -> (j+1) mod |ring| for j >= i. */
  function RingHit(p0: Point, p1: Point, ring: seq<Point>, i: nat): (r: bool)
    requires i <= |ring|
    ensures r <==> exists j :: i <= j < |ring| && RingEdgeBlocks(p0, p1, ring, j)
    decreases |ring| - i
  {
    if i == |ring| then false
    else if RingEdgeBlocks(p0, p1, ring, i) then true
    else RingHit(p0, p1, ring, i + 1)
  }

  /** Scans every edge of the finalised loops from loop k on. */
  function LoopsHit(p0: Point, p1: Point, loops: seq<seq<Point>>, k: nat): (r: bool)
    requires k <= |loops|
    ensures r <==> exists k', j :: k <= k' < |loops| && 0 <= j < |loops[k']|
                     && RingEdgeBlocks(p0, p1, loops[k'], j)
    decreases |loops| - k
  {
    if k == |loops| then false
    else if RingHit(p0, p1, loops[k], 0) then true
    else LoopsHit(p0, p1, loops, k + 1)
  }

  /** Scans the edges i -> (i+1) mod n of the loop being drawn for i from
      start up to n-2; the modulus never wraps in that range. */
  function PathHit(p0: Point, p1: Point, path: seq<Point>, i: nat): (r: bool)
    requires i <= |path|
    ensures r <==> exists j :: i <= j < |path| - 1 && PathEdgeBlocks(p0, p1, path, j)
    decreases |path| - i
  {
    if i + 1 >= |path| then false
    else if Blocks(p0, p1, path[i], path[RingNext(i, |path|)]) then
      assert PathEdgeBlocks(p0, p1, path, i);
      true
    else PathHit(p0, p1, path, i + 1)
  }

  /**
   * One mouse release at normalised point p under mode m. A rejection carries
   * no state: the caller keeps the state it had.
   */
  function Step(s: State, m: Mode, p: Point): (r: Result<State, EditError>)
    ensures m == PointMode ==> r == Success(State(s.points + [p], s.loops, s.current))
    ensures m == LoopMode && Closes(s, p) ==>
              r == Success(State(s.points, s.loops + [s.current], []))
    ensures m == LoopMode && !Closes(s, p) && Violates(s, p) ==> r == Failure(SegmentsIntersect)
    ensures m == LoopMode && !Closes(s, p) && !Violates(s, p) ==>
              r == Success(State(s.points, s.loops, s.current + [p]))
    ensures r.Failure? <==> m == LoopMode && !Closes(s, p) && Violates(s, p)
  {
    match m
    case PointMode => Success(s.(points := s.points + [p]))
    case LoopMode =>
      if |s.current| >= 3 && SqDist(p, s.current[0]) < Tol then
        Success(State(s.points, s.loops + [s.current], []))
      else if |s.current| > 0 then
        var p0 := s.current[|s.current| - 1];
        if LoopsHit(p0, p, s.loops, 0) then Failure(SegmentsIntersect)
        else if |s.current| > 1 && PathHit(p0, p, s.current, 0) then Failure(SegmentsIntersect)
        else Success(s.(current := s.current + [p]))
      else
        Success(s.(current := s.current + [p]))
  }

  /** The model after a click: a refused click leaves it as it was, any
      other click changes exactly one of the three collections. */
  function Apply(s: State, m: Mode, p: Point): (t: State)
    ensures m == PointMode ==> t == State(s.points + [p], s.loops, s.current)
    ensures m == LoopMode && Closes(s, p) ==> t == State(s.points, s.loops + [s.current], [])
    ensures m == LoopMode && !Closes(s, p) && Violates(s, p) ==> t == s
    ensures m == LoopMode && !Closes(s, p) && !Violates(s, p) ==>
              t == State(s.points, s.loops, s.current + [p])
  {
    match Step(s, m, p)
    case Success(t) => t
    case Failure(_) => s
  }

  /** User actions reaching the model: a click (carrying the mode selected by
      the radio buttons at that moment) or the reset button. */
  datatype Event = Click(mode: Mode, at: Point) | ResetButton

  function Run(s: State, events: seq<Event>): State
    decreases |events|
  {
    if |events| == 0 then s
    else
      var next := match events[0]
        case Click(m, p) => Apply(s, m, p)
        case ResetButton => Reset();
      Run(next, events[1..])
  }

  // ---------------------------------------------------------------------
  // Properties

  /** Only loops with at least three vertices are ever finalised. */
  lemma StepPreservesWellFormed(s: State, m: Mode, p: Point)
    requires WellFormed(s)
    ensures WellFormed(Apply(s, m, p))
  {
    if m == LoopMode && Closes(s, p) {
      var t := Apply(s, m, p);
      assert t.loops == s.loops + [s.current];
      forall k | 0 <= k < |t.loops|
        ensures |t.loops[k]| >= 3
      {
        if k < |s.loops| { assert t.loops[k] == s.loops[k]; }
      }
    }
  }

  /** From any well-formed model, whatever the user clicks, every finalised
      loop keeps at least three vertices. */
  lemma {:induction false} RunPreservesWellFormed(s: State, events: seq<Event>)
    requires WellFormed(s)
    ensures WellFormed(Run(s, events))
    decreases |events|
  {
    if |events| > 0 {
      match events[0]
      case Click(m, p) =>
        StepPreservesWellFormed(s, m, p);
        RunPreservesWellFormed(Apply(s, m, p), events[1..]);
      case ResetButton =>
        RunPreservesWellFormed(Reset(), events[1..]);
    }
  }

  /** With no finalised loop, the second edge of a loop is always accepted:
      the only edge drawn so far ends where the new one starts. */
  lemma SecondEdgeAccepted(pts: seq<Point>, a: Point, b: Point, c: Point)
    ensures Apply(State(pts, [], [a, b]), LoopMode, c) == State(pts, [], [a, b, c])
  {
    SharedVertexNeverBlocks(b, c, a);
    assert !PathEdgeBlocks(b, c, [a, b], 0);
    assert !Violates(State(pts, [], [a, b]), c);
  }

  /** An edge blocks the candidate exactly when the two closed segments
      cross properly (non-parallel) at a point farther than the tolerance
      from the candidate's start. */
  lemma BlocksIsFarCrossing(p0: Point, p1: Point, a: Point, b: Point)
    ensures Blocks(p0, p1, a, b) <==>
              exists q :: && Det(p0, p1, a, b) != 0.0
                          && OnSegment(q, p0, p1) && OnSegment(q, a, b)
                          && SqDist(p0, q) > Tol
  {
    forall q
      ensures (Intersection(p0, p1, a, b) == Some(q))
          <==> Det(p0, p1, a, b) != 0.0 && OnSegment(q, p0, p1) && OnSegment(q, a, b)
    {
      IntersectionIsCrossing(p0, p1, a, b, q);
    }
  }

  /** A segment that starts at p0 or ends at p0 never blocks a candidate
      starting at p0: touching at the shared vertex is legal. */
  lemma SharedVertexNeverBlocks(p0: Point, p1: Point, a: Point)
    ensures !Blocks(p0, p1, a, p0)
    ensures !Blocks(p0, p1, p0, a)
  {
    SharedEndpointMeetsThere(p0, p1, a);
    MeetingAtStartNeverBlocks(p0, p1, a, p0);
    MeetingAtStartNeverBlocks(p0, p1, p0, a);
  }

  lemma MeetingAtStartNeverBlocks(p0: Point, p1: Point, a: Point, b: Point)
    requires Intersection(p0, p1, a, b) == None || Intersection(p0, p1, a, b) == Some(p0)
    ensures !Blocks(p0, p1, a, b)
  {
    assert SqDist(p0, p0) == 0.0;
  }

  /**
   * Checking the loop being drawn as a closed ring (closing edge
   * last -> first included) gives the same verdict as checking its open
   * path only: the extra edge starts at the candidate's own start.
   */
  lemma RingCheckEqualsPathCheck(path: seq<Point>, p0: Point, p: Point)
    requires |path| > 0 && p0 == path[|path| - 1]
    ensures (exists j :: 0 <= j < |path| && RingEdgeBlocks(p0, p, path, j))
        <==> (exists j :: 0 <= j < |path| - 1 && PathEdgeBlocks(p0, p, path, j))
  {
    var n := |path|;
    SharedVertexNeverBlocks(p0, p, path[0]);
    assert !RingEdgeBlocks(p0, p, path, n - 1);
    assert forall j :: 0 <= j < n - 1 ==> RingEdgeBlocks(p0, p, path, j) == PathEdgeBlocks(p0, p, path, j);
  }
}
