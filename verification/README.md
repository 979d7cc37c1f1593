# PSLG editor core, modelled in Dafny

The program is a small geometry editor. It builds a planar straight-line graph (PSLG): closed polygonal loops plus standalone "hole" points. It then writes the graph as a `.poly` file for a triangulator. This project models the editor's core with exact `real` coordinates:

- `geometry.dfy` (module `Geometry`): points and the segment-segment `intersection` test. It rejects parallel or collinear pairs (zero determinant). It solves the two line equations and keeps the result only when it lies in the closed bounding box of both segments.
- `editor.dfy` (module `Editor`): the mouse-release state machine of the drawing widget as a pure transition `Step(state, mode, p)`. The state is (standalone points, finalised loops, loop in progress). `Step` returns the new state or the "segments should not intersect" error. The module also holds `Reset` and a session driver `Run` over clicks and reset presses.
- `poly_export.dfy` (module `PolyExport`): the save action. It yields structured records instead of text: a numbered vertex line per loop vertex, a segment line per loop edge, and a numbered line per hole. A reader `Read` recovers the loops and holes from those records. It is the inverse of `Export`, used by the round-trip lemma `ExportReadBack`.
- `scenarios.dfy` (module `Scenarios`): concrete sessions. A triangle is drawn and saved. A crossing edge is refused. A save is refused mid-loop. Numbering runs across two loops and a hole. A close finalises a loop whose closing edge crosses another loop, and one whose closing edge crosses the loop itself.
- `wrappers.dfy` (module `Wrappers`): `Option` and `Result`.

Modelling decisions:

- The tolerance 1e-3 on squared distance is the exact real `0.001`.
- The cyclic successor `(j + 1) % n` is one function, `Geometry.RingNext`. The crossing scans and the segment export both use it.
- A rejected click returns `Failure` and carries no state. `Editor.Apply` keeps the previous state, as the source's early `return` does.
- Checking the loop in progress as a closed ring would add the edge from its last vertex back to its first. The code loops over `xrange(len - 1)`, so it checks only the open path `i -> i+1` and the `% len` never wraps. The model follows the code. `Editor.RingCheckEqualsPathCheck` proves that the two readings always give the same verdict: the extra ring edge starts at the candidate's own start vertex, and such an edge never blocks (`Editor.SharedVertexNeverBlocks`).
- The close branch performs no crossing check. The model keeps it that way, and `Scenarios.CloseSkipsCrossingCheck` shows a finalised loop whose closing edge crosses another loop. A finalised loop can also cross itself: `Scenarios.CloseSkipsSelfCrossingCheck` finalises a loop whose closing edge crosses one of its own non-adjacent edges. So neither "no two finalised loops cross" nor "a finalised loop does not cross itself" holds for the code, and neither is claimed.

## Model

| member | source | states |
|---|---|---|
| Geometry.Intersection | v3_1/Generate.py:12-42 | No point when the determinant of the two directions is zero. A returned point lies in both closed x-intervals and both closed y-intervals, and satisfies the equations of both lines |
| Geometry.IntersectionIsCrossing | v3_1/Generate.py:24-42 | For every q: the test returns q exactly when the segments are not parallel and q lies on both closed segments (both directions) |
| Geometry.LineMeetOnBothLines | v3_1/Generate.py:29-33 | The determinant formula for x and y gives a point on both infinite lines |
| Geometry.LinesMeetOnce | v3_1/Generate.py:24-33 | With a non-zero determinant, any point on both lines is the formula's point |
| Geometry.ApartBoxesNeverMeet | v3_1/Generate.py:35-39 | Segments whose bounding boxes are separated along x or along y never meet |
| Geometry.SharedEndpointMeetsThere | v3_1/Generate.py:24-42 | A segment starting or ending at a meets a segment starting at a nowhere but at a |
| Geometry.RingNext | v3_1/Generate.py:124 | `(j + 1) % n` is the next ring index: j+1 below the last vertex, 0 after it |
| Editor.Reset | v3_1/Generate.py:146-149 | Reset empties points, loops and the loop in progress; the result is well formed |
| Editor.BlocksIsFarCrossing | v3_1/Generate.py:125-126 | An edge blocks the candidate p0-p1 exactly when the two are not parallel and some point lies on both closed segments at squared distance more than 1e-3 from p0 (both directions) |
| Editor.Step | v3_1/Generate.py:103-144 | Point mode appends p to the standalone points only. Loop mode closes when the builder has at least 3 vertices and p is within squared distance 1e-3 of its first vertex: the builder moves unchanged into the loops and the click is dropped. Otherwise a click that `Violates` is refused, and any other click (including the first on an empty builder) is appended to the builder alone. Refusal happens exactly in that case |
| Editor.Apply | v3_1/Generate.py:103-144 | The click's effect on the editor, as the early `return`s leave it: point mode appends p to the standalone points; a loop-mode click that `Closes` moves the builder into the loops and empties it; one that `Violates` leaves points, loops and builder unchanged; any other loop-mode click appends p to the builder |
| Editor.RingHit | v3_1/Generate.py:122-130 | Scanning one finalised loop finds a block exactly when some ring edge j -> (j+1) mod n, closing edge included, blocks the candidate |
| Editor.LoopsHit | v3_1/Generate.py:121-130 | Scanning all finalised loops finds a block exactly when some edge of some loop blocks the candidate |
| Editor.PathHit | v3_1/Generate.py:131-140 | Scanning the builder finds a block exactly when some open-path edge i -> i+1 blocks the candidate; the modulus never wraps |
| Editor.StepPreservesWellFormed | v3_1/Generate.py:109-115 | A click keeps every finalised loop at 3 or more vertices |
| Editor.RunPreservesWellFormed | v3_1/Generate.py:103-149 | Any sequence of clicks in either mode and reset presses keeps every finalised loop at 3 or more vertices |
| Editor.SecondEdgeAccepted | v3_1/Generate.py:117-142 | With no finalised loop, any loop-mode click on a loop in progress of two vertices is appended: the only edge drawn so far ends where the new edge starts, so it cannot block |
| Editor.SharedVertexNeverBlocks | v3_1/Generate.py:126 | An edge that starts or ends at the candidate's start p0 never blocks it: a touch at p0 is legal |
| Editor.RingCheckEqualsPathCheck | v3_1/Generate.py:131-140 | Checking the builder as a closed ring and as an open path give the same verdict (both directions) |
| PolyExport.Export | v3_1/Generate.py:158-189 | The records of a model with no loop in progress: point count = segment count = total loop length; header constants 2, 0, 0 and 0; vertex g+1 carries the g-th loop vertex in loop order; segment g+1 starts at vertex g+1 and ends at a vertex in 1..n; holes are numbered 1..h in insertion order |
| PolyExport.Save | v3_1/Generate.py:151-189 | Refused exactly when a loop is in progress. Otherwise the records of the finalised loops and the standalone points (holes), with the counts, header constants 2, 0, 0 and 0, vertex, segment and hole numbering that `Export` guarantees |
| PolyExport.Number | v3_1/Generate.py:166-170 | Points are numbered consecutively from the given first number, keeping their coordinates and order |
| PolyExport.RingSegments | v3_1/Generate.py:178-179 | A loop of n vertices starting at number i yields n segments numbered i.., all ending in i..i+n-1. Each continues to the next vertex except the last, which returns to i |
| PolyExport.Segments | v3_1/Generate.py:175-180 | The segments of all loops are numbered consecutively, and every endpoint is a vertex number in range |
| PolyExport.Flatten | v3_1/Generate.py:160-170 | The flattened vertex list is as long as the sum of loop lengths |
| PolyExport.FlattenAt | v3_1/Generate.py:166-170 | Vertex j of loop k sits at position Offset(k)+j of the global numbering |
| PolyExport.SegmentsAt | v3_1/Generate.py:176-180 | Segment Offset(k)+j joins vertex Offset(k)+j to Offset(k) + ((j+1) mod length of loop k) |
| PolyExport.ExportSegmentsAreRingEdges | v3_1/Generate.py:165-180 | Each loop edge loops[k][j] -> loops[k][(j+1) mod n] is segment line Offset(k)+j+1, running from the vertex line holding loops[k][j] to the vertex line holding its ring successor, closing edge included |
| PolyExport.SegmentOrigin | v3_1/Generate.py:176-180 | Every global position below the total loop length lies in the vertex range Offset(k) .. Offset(k)+n-1 of some loop k |
| PolyExport.ExportSegmentsComeFromLoops | v3_1/Generate.py:165-180 | Conversely, every segment line g+1 of the file is edge j of some loop k with g = Offset(k)+j (`IsLoopEdge`). With `ExportSegmentsAreRingEdges`, the file's segments are exactly the loop edges |
| PolyExport.ExportReadBack | v3_1/Generate.py:158-189 | Reading the records back gives the loops (all non-empty) and the holes unchanged |
| PolyExport.SaveReadBack | v3_1/Generate.py:151-189 | Every saveable model the editor can reach reads back from its saved records to its own loops and holes |
| Scenarios.TriangleSession | v3_1/Generate.py:109-179 | Clicking (0,0), (1,0), (1,1), (0.01,0.01) finalises one 3-vertex loop. It saves as 3 vertices, segments 1-2, 2-3, 3-1 and no holes |
| Scenarios.CrossingEdgeRefused | v3_1/Generate.py:131-140 | The edge from (1,1) to (0.5,-0.5) crosses the open triangle's first edge and is refused with the state unchanged |
| Scenarios.SaveMidLoopRefused | v3_1/Generate.py:152-156 | Save with a loop in progress is refused |
| Scenarios.TwoLoopsAndHoleNumbering | v3_1/Generate.py:172-189 | Two triangles and a hole give segments numbered 1..6 straight through, the second closing back to vertex 4, and hole number 1 |
| Scenarios.CloseSkipsCrossingCheck | v3_1/Generate.py:109-144 | A session from `Reset` draws and closes a triangle, then draws a square around three of its sides and closes it: both loops are finalised, although the square's closing edge crosses the triangle's first edge far from its start |
| Scenarios.CloseSkipsSelfCrossingCheck | v3_1/Generate.py:109-144 | A session from `Reset` clicks (0,0), (1,0), (1,1), (2,0.5) and then (0,0): every click is accepted and the loop is finalised, although its closing edge crosses its own edge (1,0)-(1,1) at (1, 0.25), far from its start |

## Left out

- Rendering and widget lifecycle (`initializeGL`, `paintGL`, `resizeGL`, lines 53-97): pure drawing, no effect on the model.
- Pixel-to-normalised mapping (lines 100-101): each click is taken as an already normalised point. Inside the widget the mapping yields x in [-1, 1) and y in (-1, 1]; the model puts no bound on the coordinates and accepts any reals.
- Message boxes: the refusals are the error values `SegmentsIntersect` and `IncompleteLoop`. The "Saved successfully." box is not modelled.
- The `Form2` window, its buttons, the file dialog and `__main__` (lines 195-252). The radio buttons only select the mode, so each click carries its mode; the reset button is the `ResetButton` event.
- The file handling in `save` (open, `write`, `str()` of floats, write failures): the output is the list of records the writes would produce.
- Python version: the code is read as Python 2, so `xrange` (lines 122, 132, 178) is taken as `range`. Under Python 3 those lines raise `NameError` in two places. The first is a loop-mode click that does not close the loop, while the loop in progress is non-empty, once a finalised loop exists (line 122) or the loop in progress has two or more vertices (line 132). The second is a save that is not refused, once a finalised loop exists (line 178). The model does not model that failure.
- Number formatting: Python 2's `str()` of a float keeps 12 significant digits, so the written text of a coordinate need not read back to the same value. `PolyExport.ExportReadBack` and `PolyExport.SaveReadBack` are about the records, not about that text.
- The unused `determinant` helper (lines 9-10): it is never called.
- Mode values other than loop and point: the widget only ever sets these two.
- Geometry.Intersection: computes with exact reals. The source computes with IEEE-754 doubles, whose rounding can move a point just across a bounding-box edge or turn a tiny determinant into zero.
- Editor.Step: uses exact real arithmetic for the two tolerance comparisons against 1e-3. The source compares rounded doubles against the double nearest to 1e-3.
