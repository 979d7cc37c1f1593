/**
 * Worked sessions of the editor: a triangle drawn and saved, a crossing
 * edge refused, a save refused mid-loop, numbering across two loops and a
 * hole, and a close whose closing edge is never checked.
 */
module Scenarios {
  import opened Wrappers
  import opened Geometry
  import opened Editor
  import opened PolyExport

  /** Draw (0,0), (1,0), (1,1) and click near (0,0): one triangle, saved as
      three numbered vertices, the segments 1-2, 2-3, 3-1 and no hole. */
  lemma TriangleSession()
    ensures var s := Run(Reset(), [Click(LoopMode, Point(0.0, 0.0)), Click(LoopMode, Point(1.0, 0.0)),
                                   Click(LoopMode, Point(1.0, 1.0)), Click(LoopMode, Point(0.01, 0.01))]);
            && s == State([], [[Point(0.0, 0.0), Point(1.0, 0.0), Point(1.0, 1.0)]], [])
            && Save(s) == Success(PolyFile(
                 3, 2, 0, 0,
                 [NumberedPoint(1, 0.0, 0.0), NumberedPoint(2, 1.0, 0.0), NumberedPoint(3, 1.0, 1.0)],
                 3, 0,
                 [SegmentLine(1, 1, 2), SegmentLine(2, 2, 3), SegmentLine(3, 3, 1)],
                 0, []))
  {
    TriangleDrawn();
    TriangleSaved();
  }

  lemma TriangleDrawn()
    ensures Run(Reset(), [Click(LoopMode, Point(0.0, 0.0)), Click(LoopMode, Point(1.0, 0.0)),
                          Click(LoopMode, Point(1.0, 1.0)), Click(LoopMode, Point(0.01, 0.01))])
         == State([], [[Point(0.0, 0.0), Point(1.0, 0.0), Point(1.0, 1.0)]], [])
  {
    var a, b, c, d := Point(0.0, 0.0), Point(1.0, 0.0), Point(1.0, 1.0), Point(0.01, 0.01);
    var events := [Click(LoopMode, a), Click(LoopMode, b), Click(LoopMode, c), Click(LoopMode, d)];
    var s1 := State([], [], [a]);
    var s2 := State([], [], [a, b]);
    var s3 := State([], [], [a, b, c]);
    var s4 := State([], [[a, b, c]], []);
    assert Run(s4, events[4..]) == s4;
    TriangleClose();
    assert Run(s3, events[3..]) == s4;
    TriangleThirdVertex();
    assert Run(s2, events[2..]) == s4;
    assert Apply(s1, LoopMode, b) == s2;
    assert Run(s1, events[1..]) == s4;
    assert Apply(Reset(), LoopMode, a) == s1;
  }

  lemma TriangleThirdVertex()
    ensures var a, b, c := Point(0.0, 0.0), Point(1.0, 0.0), Point(1.0, 1.0);
            Apply(State([], [], [a, b]), LoopMode, c) == State([], [], [a, b, c])
  {
    SecondEdgeAccepted([], Point(0.0, 0.0), Point(1.0, 0.0), Point(1.0, 1.0));
  }

  lemma TriangleClose()
    ensures var a, b, c := Point(0.0, 0.0), Point(1.0, 0.0), Point(1.0, 1.0);
            Apply(State([], [], [a, b, c]), LoopMode, Point(0.01, 0.01)) == State([], [[a, b, c]], [])
  {
    var a, b, c := Point(0.0, 0.0), Point(1.0, 0.0), Point(1.0, 1.0);
    assert Closes(State([], [], [a, b, c]), Point(0.01, 0.01));
  }

  lemma TriangleSaved()
    ensures var a, b, c := Point(0.0, 0.0), Point(1.0, 0.0), Point(1.0, 1.0);
            Save(State([], [[a, b, c]], [])) == Success(PolyFile(
                 3, 2, 0, 0,
                 [NumberedPoint(1, 0.0, 0.0), NumberedPoint(2, 1.0, 0.0), NumberedPoint(3, 1.0, 1.0)],
                 3, 0,
                 [SegmentLine(1, 1, 2), SegmentLine(2, 2, 3), SegmentLine(3, 3, 1)],
                 0, []))
  {
    var a, b, c := Point(0.0, 0.0), Point(1.0, 0.0), Point(1.0, 1.0);
    assert Flatten([[a, b, c]]) == [a, b, c];
    assert TotalLength([[a, b, c]]) == 3;
    assert Number([a, b, c], 1)
        == [NumberedPoint(1, 0.0, 0.0), NumberedPoint(2, 1.0, 0.0), NumberedPoint(3, 1.0, 1.0)];
    assert Number([], 1) == [];
    assert Segments([[a, b, c]], 1) == [SegmentLine(1, 1, 2), SegmentLine(2, 2, 3), SegmentLine(3, 3, 1)];
  }

  /** With the triangle (0,0), (1,0), (1,1) still open, the edge from (1,1)
      to (0.5,-0.5) crosses the first edge at (2/3, 0): refused, nothing changes. */
  lemma CrossingEdgeRefused()
    ensures var s := State([], [], [Point(0.0, 0.0), Point(1.0, 0.0), Point(1.0, 1.0)]);
            && Step(s, LoopMode, Point(0.5, -0.5)) == Failure(SegmentsIntersect)
            && Apply(s, LoopMode, Point(0.5, -0.5)) == s
  {
    var s := State([], [], [Point(0.0, 0.0), Point(1.0, 0.0), Point(1.0, 1.0)]);
    var p := Point(0.5, -0.5);
    CrossingAtTwoThirds();
    assert PathEdgeBlocks(Point(1.0, 1.0), p, s.current, 0);
    assert s.current[|s.current| - 1] == Point(1.0, 1.0);
    assert Violates(s, p);
    assert !Closes(s, p);
  }

  lemma CrossingAtTwoThirds()
    ensures Blocks(Point(1.0, 1.0), Point(0.5, -0.5), Point(0.0, 0.0), Point(1.0, 0.0))
  {
    var p0, p1, a, b := Point(1.0, 1.0), Point(0.5, -0.5), Point(0.0, 0.0), Point(1.0, 0.0);
    assert Det(p0, p1, a, b) == 1.5;
    assert LineMeet(p0, p1, a, b) == Point(2.0 / 3.0, 0.0);
    assert InBox(Point(2.0 / 3.0, 0.0), p0, p1) && InBox(Point(2.0 / 3.0, 0.0), a, b);
    assert Intersection(p0, p1, a, b) == Some(Point(2.0 / 3.0, 0.0));
    assert SqDist(p0, Point(2.0 / 3.0, 0.0)) > Tol;
  }

  /** Saving with a loop in progress is refused. */
  lemma SaveMidLoopRefused()
    ensures Save(State([Point(0.5, 0.5)], [], [Point(0.0, 0.0)])) == Failure(IncompleteLoop)
  {
  }

  /** Two triangles and one hole: vertices and segments are numbered 1..6
      straight through both loops, the second loop's closing segment goes
      back to vertex 4, and the hole is number 1. */
  lemma TwoLoopsAndHoleNumbering()
    ensures var t1 := [Point(-0.9, -0.9), Point(-0.5, -0.9), Point(-0.5, -0.5)];
            var t2 := [Point(0.5, 0.5), Point(0.9, 0.5), Point(0.9, 0.9)];
            var f := Export([t1, t2], [Point(0.0, 0.0)]);
            && f.numPoints == 6 && f.numSegments == 6
            && f.segments == [SegmentLine(1, 1, 2), SegmentLine(2, 2, 3), SegmentLine(3, 3, 1),
                              SegmentLine(4, 4, 5), SegmentLine(5, 5, 6), SegmentLine(6, 6, 4)]
            && f.numHoles == 1 && f.holes == [NumberedPoint(1, 0.0, 0.0)]
  {
    var t1 := [Point(-0.9, -0.9), Point(-0.5, -0.9), Point(-0.5, -0.5)];
    var t2 := [Point(0.5, 0.5), Point(0.9, 0.5), Point(0.9, 0.9)];
    assert [t1, t2][1..] == [t2];
    assert Segments([t2], 4) == [SegmentLine(4, 4, 5), SegmentLine(5, 5, 6), SegmentLine(6, 6, 4)];
    assert Segments([t1, t2], 1) == RingSegments(3, 1) + Segments([t2], 4);
  }

  /** The triangle A and the square of the session below. */
  const Tri: seq<Point> := [Point(0.5, -0.5), Point(0.6, 0.5), Point(0.4, 0.5)]
  const Square: seq<Point> := [Point(0.0, 0.0), Point(0.0, 1.0), Point(1.0, 1.0), Point(1.0, 0.0)]

  /**
   * The close branch checks nothing. Draw and close the triangle A, then
   * draw the square (0,0), (0,1), (1,1), (1,0) and click on (0,0): every
   * click is accepted and both loops are finalised, although the square's
   * closing edge (1,0)-(0,0) crosses the edge (0.5,-0.5)-(0.6,0.5) of A at
   * (0.55, 0), far from (1,0).
   */
  lemma CloseSkipsCrossingCheck()
    ensures var events := [Click(LoopMode, Tri[0]), Click(LoopMode, Tri[1]), Click(LoopMode, Tri[2]),
                           Click(LoopMode, Tri[0]),
                           Click(LoopMode, Square[0]), Click(LoopMode, Square[1]),
                           Click(LoopMode, Square[2]), Click(LoopMode, Square[3]),
                           Click(LoopMode, Square[0])];
            && Run(Reset(), events) == State([], [Tri, Square], [])
            && Blocks(Square[3], Square[0], Tri[0], Tri[1])
  {
    var events := [Click(LoopMode, Tri[0]), Click(LoopMode, Tri[1]), Click(LoopMode, Tri[2]),
                   Click(LoopMode, Tri[0]),
                   Click(LoopMode, Square[0]), Click(LoopMode, Square[1]),
                   Click(LoopMode, Square[2]), Click(LoopMode, Square[3]),
                   Click(LoopMode, Square[0])];
    var fin := State([], [Tri, Square], []);
    SquareSession(events[4..]);
    TriangleDrawnAndClosed();
    assert Run(State([], [], Tri), events[3..]) == fin;
    assert Run(State([], [], Tri[..2]), events[2..]) == fin;
    assert Run(State([], [], Tri[..1]), events[1..]) == fin;
    ClosingEdgeCrossesTriangle();
  }

  /** With the triangle finalised, the square's clicks finalise the square too. */
  lemma SquareSession(events: seq<Event>)
    requires events == [Click(LoopMode, Square[0]), Click(LoopMode, Square[1]),
                        Click(LoopMode, Square[2]), Click(LoopMode, Square[3]),
                        Click(LoopMode, Square[0])]
    ensures Run(State([], [Tri], []), events) == State([], [Tri, Square], [])
  {
    var fin := State([], [Tri, Square], []);
    SquareDrawnAndClosed();
    assert Run(fin, events[5..]) == fin;
    assert Run(State([], [Tri], Square), events[4..]) == fin;
    assert Run(State([], [Tri], Square[..3]), events[3..]) == fin;
    assert Run(State([], [Tri], Square[..2]), events[2..]) == fin;
    assert Run(State([], [Tri], Square[..1]), events[1..]) == fin;
  }

  /** The three vertex clicks and the closing click of the triangle. */
  lemma TriangleDrawnAndClosed()
    ensures Apply(Reset(), LoopMode, Tri[0]) == State([], [], Tri[..1])
    ensures Apply(State([], [], Tri[..1]), LoopMode, Tri[1]) == State([], [], Tri[..2])
    ensures Apply(State([], [], Tri[..2]), LoopMode, Tri[2]) == State([], [], Tri)
    ensures Apply(State([], [], Tri), LoopMode, Tri[0]) == State([], [Tri], [])
  {
    assert Tri[..1] + [Tri[1]] == Tri[..2];
    assert Tri[..2] + [Tri[2]] == Tri;
    assert Tri[..2] == [Tri[0], Tri[1]] && Tri == [Tri[0], Tri[1], Tri[2]];
    SecondEdgeAccepted([], Tri[0], Tri[1], Tri[2]);
    assert Closes(State([], [], Tri), Tri[0]);
  }

  /** A candidate edge whose box is apart from the triangle's is never blocked by it. */
  lemma ApartFromTriangle(p0: Point, p: Point)
    requires Max(p0.x, p.x) < 0.4 || Min(p0.x, p.x) > 0.6 || Min(p0.y, p.y) > 0.5
    ensures forall k, j :: 0 <= k < |[Tri]| && 0 <= j < |[Tri][k]| ==> !RingEdgeBlocks(p0, p, [Tri][k], j)
  {
    ApartBoxesNeverMeet(p0, p, Tri[0], Tri[1]);
    ApartBoxesNeverMeet(p0, p, Tri[1], Tri[2]);
    ApartBoxesNeverMeet(p0, p, Tri[2], Tri[0]);
    assert !RingEdgeBlocks(p0, p, Tri, 0);
    assert !RingEdgeBlocks(p0, p, Tri, 1);
    assert !RingEdgeBlocks(p0, p, Tri, 2);
  }

  /** The four vertex clicks and the closing click of the square. */
  lemma SquareDrawnAndClosed()
    ensures Apply(State([], [Tri], []), LoopMode, Square[0]) == State([], [Tri], Square[..1])
    ensures Apply(State([], [Tri], Square[..1]), LoopMode, Square[1]) == State([], [Tri], Square[..2])
    ensures Apply(State([], [Tri], Square[..2]), LoopMode, Square[2]) == State([], [Tri], Square[..3])
    ensures Apply(State([], [Tri], Square[..3]), LoopMode, Square[3]) == State([], [Tri], Square)
    ensures Apply(State([], [Tri], Square), LoopMode, Square[0]) == State([], [Tri, Square], [])
  {
    SquareSecondVertex();
    SquareThirdVertex();
    SquareFourthVertex();
    assert Closes(State([], [Tri], Square), Square[0]);
    assert [Tri] + [Square] == [Tri, Square];
  }

  /** (0,0) -> (0,1) passes left of the triangle; there is no builder edge yet. */
  lemma SquareSecondVertex()
    ensures Apply(State([], [Tri], Square[..1]), LoopMode, Square[1]) == State([], [Tri], Square[..2])
  {
    assert Square[..1] + [Square[1]] == Square[..2];
    ApartFromTriangle(Square[0], Square[1]);
    assert !Violates(State([], [Tri], Square[..1]), Square[1]);
  }

  /** (0,1) -> (1,1) passes above the triangle; the builder edge ends at (0,1). */
  lemma SquareThirdVertex()
    ensures Apply(State([], [Tri], Square[..2]), LoopMode, Square[2]) == State([], [Tri], Square[..3])
  {
    assert Square[..2] + [Square[2]] == Square[..3];
    ApartFromTriangle(Square[1], Square[2]);
    SharedVertexNeverBlocks(Square[1], Square[2], Square[0]);
    assert !PathEdgeBlocks(Square[1], Square[2], Square[..2], 0);
    assert !Violates(State([], [Tri], Square[..2]), Square[2]);
  }

  /** (1,1) -> (1,0) passes right of the triangle and of the edge (0,0)-(0,1);
      the builder edge (0,1)-(1,1) ends at (1,1). */
  lemma SquareFourthVertex()
    ensures Apply(State([], [Tri], Square[..3]), LoopMode, Square[3]) == State([], [Tri], Square)
  {
    assert Square[..3] + [Square[3]] == Square;
    ApartFromTriangle(Square[2], Square[3]);
    FourthVertexPathClear();
    assert !Violates(State([], [Tri], Square[..3]), Square[3]);
  }

  /** Neither builder edge (0,0)-(0,1) nor (0,1)-(1,1) blocks (1,1) -> (1,0). */
  lemma FourthVertexPathClear()
    ensures forall j :: 0 <= j < 2 ==> !PathEdgeBlocks(Square[2], Square[3], Square[..3], j)
  {
    var path := Square[..3];
    assert path[0] == Point(0.0, 0.0) && path[1] == Point(0.0, 1.0) && path[2] == Point(1.0, 1.0);
    FarEdgeClear();
    SharedVertexNeverBlocks(Square[2], Square[3], Square[1]);
    assert !PathEdgeBlocks(Square[2], Square[3], path, 0);
    assert !PathEdgeBlocks(Square[2], Square[3], path, 1);
  }

  /** The edge (0,0)-(0,1) lies left of (1,1) -> (1,0). */
  lemma FarEdgeClear()
    ensures !Blocks(Point(1.0, 1.0), Point(1.0, 0.0), Point(0.0, 0.0), Point(0.0, 1.0))
  {
    ApartBoxesNeverMeet(Point(1.0, 1.0), Point(1.0, 0.0), Point(0.0, 0.0), Point(0.0, 1.0));
  }

  /** The square's closing edge crosses the triangle's first edge at (0.55, 0). */
  lemma ClosingEdgeCrossesTriangle()
    ensures Blocks(Square[3], Square[0], Tri[0], Tri[1])
  {
    var p0, q, a, b := Point(1.0, 0.0), Point(0.0, 0.0), Point(0.5, -0.5), Point(0.6, 0.5);
    assert Det(p0, q, a, b) == -1.0;
    assert LineMeet(p0, q, a, b) == Point(0.55, 0.0);
    assert InBox(Point(0.55, 0.0), p0, q) && InBox(Point(0.55, 0.0), a, b);
    assert Intersection(p0, q, a, b) == Some(Point(0.55, 0.0));
    assert SqDist(p0, Point(0.55, 0.0)) > Tol;
  }

  /** A loop whose closing edge crosses one of its own edges. */
  const Bent: seq<Point> := [Point(0.0, 0.0), Point(1.0, 0.0), Point(1.0, 1.0), Point(2.0, 0.5)]

  /**
   * The close branch does not check the closing edge against the loop's
   * own edges either. Click (0,0), (1,0), (1,1), (2,0.5) and then (0,0):
   * every click is accepted and the loop is finalised, although its closing
   * edge (2,0.5)-(0,0) crosses its own edge (1,0)-(1,1) at (1, 0.25).
   */
  lemma CloseSkipsSelfCrossingCheck()
    ensures var events := [Click(LoopMode, Bent[0]), Click(LoopMode, Bent[1]), Click(LoopMode, Bent[2]),
                           Click(LoopMode, Bent[3]), Click(LoopMode, Bent[0])];
            && Run(Reset(), events) == State([], [Bent], [])
            && Blocks(Bent[3], Bent[0], Bent[1], Bent[2])
  {
    var events := [Click(LoopMode, Bent[0]), Click(LoopMode, Bent[1]), Click(LoopMode, Bent[2]),
                   Click(LoopMode, Bent[3]), Click(LoopMode, Bent[0])];
    var fin := State([], [Bent], []);
    BentDrawnAndClosed();
    assert Run(fin, events[5..]) == fin;
    assert Run(State([], [], Bent), events[4..]) == fin;
    assert Run(State([], [], Bent[..3]), events[3..]) == fin;
    assert Run(State([], [], Bent[..2]), events[2..]) == fin;
    assert Run(State([], [], Bent[..1]), events[1..]) == fin;
    BentClosingEdgeCrossesItself();
  }

  /** The four vertex clicks and the closing click of the bent loop. */
  lemma BentDrawnAndClosed()
    ensures Apply(Reset(), LoopMode, Bent[0]) == State([], [], Bent[..1])
    ensures Apply(State([], [], Bent[..1]), LoopMode, Bent[1]) == State([], [], Bent[..2])
    ensures Apply(State([], [], Bent[..2]), LoopMode, Bent[2]) == State([], [], Bent[..3])
    ensures Apply(State([], [], Bent[..3]), LoopMode, Bent[3]) == State([], [], Bent)
    ensures Apply(State([], [], Bent), LoopMode, Bent[0]) == State([], [Bent], [])
  {
    assert Bent[..1] + [Bent[1]] == Bent[..2];
    BentThirdVertex();
    BentFourthVertex();
    assert Closes(State([], [], Bent), Bent[0]);
  }

  /** (1,0) -> (1,1) only touches the builder edge (0,0)-(1,0) at (1,0). */
  lemma BentThirdVertex()
    ensures Apply(State([], [], Bent[..2]), LoopMode, Bent[2]) == State([], [], Bent[..3])
  {
    assert Bent[..2] == [Bent[0], Bent[1]] && Bent[..3] == [Bent[0], Bent[1], Bent[2]];
    SecondEdgeAccepted([], Bent[0], Bent[1], Bent[2]);
  }

  /** (1,1) -> (2,0.5) lies above (0,0)-(1,0) and only touches (1,0)-(1,1) at (1,1). */
  lemma BentFourthVertex()
    ensures Apply(State([], [], Bent[..3]), LoopMode, Bent[3]) == State([], [], Bent)
  {
    assert Bent[..3] + [Bent[3]] == Bent;
    assert !Closes(State([], [], Bent[..3]), Bent[3]);
    BentFourthVertexPathClear();
    assert !Violates(State([], [], Bent[..3]), Bent[3]);
  }

  /** Neither builder edge blocks (1,1) -> (2,0.5). */
  lemma BentFourthVertexPathClear()
    ensures forall j :: 0 <= j < 2 ==> !PathEdgeBlocks(Bent[2], Bent[3], Bent[..3], j)
  {
    var path := Bent[..3];
    assert path[0] == Point(0.0, 0.0) && path[1] == Point(1.0, 0.0) && path[2] == Point(1.0, 1.0);
    ApartBoxesNeverMeet(Point(1.0, 1.0), Point(2.0, 0.5), Point(0.0, 0.0), Point(1.0, 0.0));
    SharedVertexNeverBlocks(Bent[2], Bent[3], Bent[1]);
    assert !PathEdgeBlocks(Bent[2], Bent[3], path, 0);
    assert !PathEdgeBlocks(Bent[2], Bent[3], path, 1);
  }

  /** The closing edge (2,0.5)-(0,0) crosses the loop's own edge (1,0)-(1,1) at (1, 0.25). */
  lemma BentClosingEdgeCrossesItself()
    ensures Blocks(Bent[3], Bent[0], Bent[1], Bent[2])
  {
    BentIntersection();
    assert SqDist(Point(2.0, 0.5), Point(1.0, 0.25)) > Tol;
  }

  lemma BentIntersection()
    ensures Intersection(Point(2.0, 0.5), Point(0.0, 0.0), Point(1.0, 0.0), Point(1.0, 1.0))
         == Some(Point(1.0, 0.25))
  {
    var p0, q, a, b := Point(2.0, 0.5), Point(0.0, 0.0), Point(1.0, 0.0), Point(1.0, 1.0);
    BentMeetPoint();
    assert InBox(Point(1.0, 0.25), p0, q) && InBox(Point(1.0, 0.25), a, b);
  }

  lemma BentMeetPoint()
    ensures Det(Point(2.0, 0.5), Point(0.0, 0.0), Point(1.0, 0.0), Point(1.0, 1.0)) == -2.0
    ensures LineMeet(Point(2.0, 0.5), Point(0.0, 0.0), Point(1.0, 0.0), Point(1.0, 1.0)) == Point(1.0, 0.25)
  {
    var p0, q, a, b := Point(2.0, 0.5), Point(0.0, 0.0), Point(1.0, 0.0), Point(1.0, 1.0);
    assert Det(p0, q, a, b) == -2.0;
  }
}
