/** The four fixed face tables from which the motion-lines node can build
    an eight-point box: quads, triangles, and each with its faces wound the
    other way. */
module CubeTopology {

  /** A face table, face by face: each face lists its corners as indices
      into the eight box points. The mesh call's `faceCounts` and
      `faceConnects` arrays are the face sizes and the faces concatenated. */
  datatype Table = Table(faces: seq<seq<int>>)

  const NumPoints: int := 8

  const Quads: Table := Table(
    [[0, 1, 2, 3],
     [4, 5, 6, 7],
     [3, 2, 6, 5],
     [0, 3, 5, 4],
     [0, 4, 7, 1],
     [1, 7, 6, 2]])

  const ReverseQuads: Table := Table(
    [[0, 3, 2, 1],
     [4, 7, 6, 5],
     [3, 5, 6, 2],
     [0, 4, 5, 3],
     [0, 1, 7, 4],
     [1, 2, 6, 7]])

  const Tris: Table := Table(
    [[0, 1, 2],
     [2, 3, 0],
     [4, 5, 6],
     [6, 7, 4],
     [3, 2, 6],
     [6, 5, 3],
     [0, 3, 5],
     [5, 4, 0],
     [0, 4, 7],
     [7, 1, 0],
     [1, 7, 6],
     [6, 2, 1]])

  const ReverseTris: Table := Table(
    [[0, 2, 1],
     [2, 0, 3],
     [4, 6, 5],
     [6, 4, 7],
     [3, 6, 2],
     [6, 3, 5],
     [0, 5, 3],
     [5, 0, 4],
     [0, 7, 4],
     [7, 0, 1],
     [1, 6, 7],
     [6, 1, 2]])

  /** The `faceCounts` array. */
  function FaceCounts(t: Table): (r: seq<int>)
    ensures |r| == |t.faces|
    ensures forall f :: 0 <= f < |r| ==> r[f] == |t.faces[f]|
  {
    seq(|t.faces|, f requires 0 <= f < |t.faces| => |t.faces[f]|)
  }

  /** The `faceConnects` array. */
  function FaceConnects(t: Table): seq<int>
    decreases |t.faces|
  {
    if |t.faces| == 0 then [] else FaceConnects(Table(t.faces[..|t.faces| - 1])) + t.faces[|t.faces| - 1]
  }

  /** Every face has `size` corners. */
  ghost predicate Uniform(t: Table, size: int)
  {
    size > 0 && forall f :: 0 <= f < |t.faces| ==> |t.faces[f]| == size
  }

  /** Every corner names one of the points. */
  ghost predicate IndicesInRange(t: Table)
  {
    forall f, k :: 0 <= f < |t.faces| && 0 <= k < |t.faces[f]| ==> 0 <= t.faces[f][k] < NumPoints
  }

  /** Whole faces of `size` corners lie between consecutive face starts. */
  lemma {:induction false} FaceStartsApart(size: int, a: int, b: int)
    requires size > 0 && a < b
    ensures size * a + size <= size * b
    decreases b - a
  {
    assert size * (a + 1) == size * a + size;
    if a + 1 < b {
      FaceStartsApart(size, a + 1, b);
    }
  }

  /** With faces of one size, `faceConnects` holds `size` entries per face. */
  lemma {:induction false} ConnectsLength(t: Table, size: int)
    requires Uniform(t, size)
    ensures |FaceConnects(t)| == size * |t.faces|
    decreases |t.faces|
  {
    if |t.faces| > 0 {
      var n := |t.faces| - 1;
      ConnectsLength(Table(t.faces[..n]), size);
      assert size * (n + 1) == size * n + size;
    }
  }

  /** With faces of one size, corner `k` of face `f` sits at position `size * f + k` of `faceConnects`. */
  lemma {:induction false} ConnectsAt(t: Table, size: int, f: int, k: int)
    requires Uniform(t, size) && 0 <= f < |t.faces| && 0 <= k < size
    ensures size * f + k < |FaceConnects(t)| && FaceConnects(t)[size * f + k] == t.faces[f][k]
    decreases |t.faces|
  {
    var n := |t.faces| - 1;
    var front := Table(t.faces[..n]);
    var head := FaceConnects(front);
    ConnectsLength(front, size);
    assert FaceConnects(t) == head + t.faces[n];
    if f < n {
      ConnectsAt(front, size, f, k);
      FaceStartsApart(size, f, n);
      assert front.faces[f] == t.faces[f];
    }
  }

  /** All four tables have faces of one size, name only the eight points,
      and pass the mesh call arrays of the lengths it is told. */
  lemma QuadsWellFormed()
    ensures Uniform(Quads, 4) && IndicesInRange(Quads)
    ensures FaceCounts(Quads) == [4, 4, 4, 4, 4, 4] && |FaceConnects(Quads)| == 24
  {
    ConnectsLength(Quads, 4);
  }

  lemma ReverseQuadsWellFormed()
    ensures Uniform(ReverseQuads, 4) && IndicesInRange(ReverseQuads)
    ensures FaceCounts(ReverseQuads) == [4, 4, 4, 4, 4, 4] && |FaceConnects(ReverseQuads)| == 24
  {
    ConnectsLength(ReverseQuads, 4);
  }

  lemma TrisWellFormed()
    ensures Uniform(Tris, 3) && IndicesInRange(Tris)
    ensures FaceCounts(Tris) == [3, 3, 3, 3, 3, 3, 3, 3, 3, 3, 3, 3] && |FaceConnects(Tris)| == 36
  {
    ConnectsLength(Tris, 3);
  }

  lemma ReverseTrisWellFormed()
    ensures Uniform(ReverseTris, 3) && IndicesInRange(ReverseTris)
    ensures FaceCounts(ReverseTris) == [3, 3, 3, 3, 3, 3, 3, 3, 3, 3, 3, 3] && |FaceConnects(ReverseTris)| == 36
  {
    ConnectsLength(ReverseTris, 3);
  }

  // ---------------------------------------------------------------------
  // Edges and closedness
  // ---------------------------------------------------------------------

  /** Corner `k` of face `f` exists. */
  predicate IsCorner(t: Table, f: int, k: int)
  {
    0 <= f < |t.faces| && 0 <= k < |t.faces[f]|
  }

  /** The corner after `k` around a face of `size` corners. */
  function Succ(k: int, size: int): int
  {
    if k + 1 == size then 0 else k + 1
  }

  datatype Edge = Edge(from: int, to: int)

  function Flip(e: Edge): Edge { Edge(e.to, e.from) }

  /** The directed edge leaving corner `k` of face `f`. */
  function FaceEdge(t: Table, f: int, k: int): Edge
    requires IsCorner(t, f, k)
  {
    Edge(t.faces[f][k], t.faces[f][Succ(k, |t.faces[f]|)])
  }

  /** Some corner's edge runs opposite to the edge leaving corner `k` of face `f`. */
  ghost predicate HasReverse(t: Table, f: int, k: int)
    requires IsCorner(t, f, k)
  {
    exists g, m :: IsCorner(t, g, m) && FaceEdge(t, g, m) == Flip(FaceEdge(t, f, k))
  }

  /** No directed edge is used by two corners. */
  ghost predicate EdgesDistinct(t: Table)
  {
    forall f1, k1, f2, k2 ::
      (IsCorner(t, f1, k1) && IsCorner(t, f2, k2) && FaceEdge(t, f1, k1) == FaceEdge(t, f2, k2))
      ==> f1 == f2 && k1 == k2
  }

  /** A closed surface with consistent winding: every directed edge is used
      once and is matched by its reverse, so each edge joins exactly two
      faces that traverse it in opposite directions. */
  ghost predicate ClosedAndConsistent(t: Table)
  {
    && EdgesDistinct(t)
    && (forall f, k :: IsCorner(t, f, k) ==> HasReverse(t, f, k))
  }

  /** An edge between points as one number. */
  function EdgeCode(e: Edge): int { NumPoints * e.from + e.to }

  datatype Corner = Corner(face: int, corner: int)

  /** `slot` names, for the code of every edge, the corner it leaves from. */
  ghost predicate SlotsFindOwnCorner(t: Table, slot: int -> Corner)
  {
    forall f, k :: IsCorner(t, f, k) ==> slot(EdgeCode(FaceEdge(t, f, k))) == Corner(f, k)
  }

  /** `slot` names, for the code of every reversed edge, a corner holding it. */
  ghost predicate SlotsFindReverse(t: Table, slot: int -> Corner)
  {
    forall f, k :: IsCorner(t, f, k) ==>
      var c := slot(EdgeCode(Flip(FaceEdge(t, f, k))));
      IsCorner(t, c.face, c.corner) && FaceEdge(t, c.face, c.corner) == Flip(FaceEdge(t, f, k))
  }

  /** A lookup from edge code to corner that finds every edge and every
      reversed edge shows a table closed and consistently wound. */
  lemma ClosedBySlots(t: Table, slot: int -> Corner)
    requires SlotsFindOwnCorner(t, slot) && SlotsFindReverse(t, slot)
    ensures ClosedAndConsistent(t)
  {
    forall f, k | IsCorner(t, f, k) ensures HasReverse(t, f, k) {
      var c := slot(EdgeCode(Flip(FaceEdge(t, f, k))));
      assert IsCorner(t, c.face, c.corner);
    }
  }

  /** The corner of the quad table each edge code leaves from. */
  function QuadSlot(code: int): Corner
  {
    match code
      case 1 => Corner(0, 0)
      case 3 => Corner(3, 0)
      case 4 => Corner(4, 0)
      case 8 => Corner(4, 3)
      case 10 => Corner(0, 1)
      case 15 => Corner(5, 0)
      case 17 => Corner(5, 3)
      case 19 => Corner(0, 2)
      case 22 => Corner(2, 1)
      case 24 => Corner(0, 3)
      case 26 => Corner(2, 0)
      case 29 => Corner(3, 1)
      case 32 => Corner(3, 3)
      case 37 => Corner(1, 0)
      case 39 => Corner(4, 1)
      case 43 => Corner(2, 3)
      case 44 => Corner(3, 2)
      case 46 => Corner(1, 1)
      case 50 => Corner(5, 2)
      case 53 => Corner(2, 2)
      case 55 => Corner(1, 2)
      case 57 => Corner(4, 2)
      case 60 => Corner(1, 3)
      case 62 => Corner(5, 1)
      case _ => Corner(-1, -1)
  }

  /** The corner of the tri table each edge code leaves from. */
  function TriSlot(code: int): Corner
  {
    match code
      case 1 => Corner(0, 0)
      case 2 => Corner(1, 2)
      case 3 => Corner(6, 0)
      case 4 => Corner(8, 0)
      case 5 => Corner(7, 2)
      case 7 => Corner(9, 2)
      case 8 => Corner(9, 1)
      case 10 => Corner(0, 1)
      case 14 => Corner(11, 2)
      case 15 => Corner(10, 0)
      case 16 => Corner(0, 2)
      case 17 => Corner(11, 1)
      case 19 => Corner(1, 0)
      case 22 => Corner(4, 1)
      case 24 => Corner(1, 1)
      case 26 => Corner(4, 0)
      case 29 => Corner(6, 1)
      case 30 => Corner(5, 2)
      case 32 => Corner(7, 1)
      case 37 => Corner(2, 0)
      case 38 => Corner(3, 2)
      case 39 => Corner(8, 1)
      case 40 => Corner(6, 2)
      case 43 => Corner(5, 1)
      case 44 => Corner(7, 0)
      case 46 => Corner(2, 1)
      case 49 => Corner(10, 2)
      case 50 => Corner(11, 0)
      case 51 => Corner(4, 2)
      case 52 => Corner(2, 2)
      case 53 => Corner(5, 0)
      case 55 => Corner(3, 0)
      case 56 => Corner(8, 2)
      case 57 => Corner(9, 0)
      case 60 => Corner(3, 1)
      case 62 => Corner(10, 1)
      case _ => Corner(-1, -1)
  }

  /** The quad table is checked three faces at a time. */
  lemma QuadSlotsFindOwnCornerLow()
    ensures forall f, k :: IsCorner(Quads, f, k) && f < 3 ==> QuadSlot(EdgeCode(FaceEdge(Quads, f, k))) == Corner(f, k)
  {
  }

  lemma QuadSlotsFindOwnCornerHigh()
    ensures forall f, k :: IsCorner(Quads, f, k) && 3 <= f ==> QuadSlot(EdgeCode(FaceEdge(Quads, f, k))) == Corner(f, k)
  {
  }

  lemma QuadSlotsFindReverseLow()
    ensures forall f, k :: IsCorner(Quads, f, k) && f < 3 ==>
      var c := QuadSlot(EdgeCode(Flip(FaceEdge(Quads, f, k))));
      IsCorner(Quads, c.face, c.corner) && FaceEdge(Quads, c.face, c.corner) == Flip(FaceEdge(Quads, f, k))
  {
  }

  lemma QuadSlotsFindReverseHigh()
    ensures forall f, k :: IsCorner(Quads, f, k) && 3 <= f ==>
      var c := QuadSlot(EdgeCode(Flip(FaceEdge(Quads, f, k))));
      IsCorner(Quads, c.face, c.corner) && FaceEdge(Quads, c.face, c.corner) == Flip(FaceEdge(Quads, f, k))
  {
  }

  /** The quad box is closed and consistently wound. */
  lemma QuadsClosed()
    ensures ClosedAndConsistent(Quads)
  {
    QuadSlotsFindOwnCornerLow();
    QuadSlotsFindOwnCornerHigh();
    QuadSlotsFindReverseLow();
    QuadSlotsFindReverseHigh();
    ClosedBySlots(Quads, QuadSlot);
  }

  /** The triangle table is checked six faces at a time. */
  lemma TriSlotsFindOwnCornerLow()
    ensures forall f, k :: IsCorner(Tris, f, k) && f < 6 ==> TriSlot(EdgeCode(FaceEdge(Tris, f, k))) == Corner(f, k)
  {
  }

  lemma TriSlotsFindOwnCornerHigh()
    ensures forall f, k :: IsCorner(Tris, f, k) && 6 <= f ==> TriSlot(EdgeCode(FaceEdge(Tris, f, k))) == Corner(f, k)
  {
  }

  lemma TriSlotsFindReverseLow()
    ensures forall f, k :: IsCorner(Tris, f, k) && f < 6 ==>
      var c := TriSlot(EdgeCode(Flip(FaceEdge(Tris, f, k))));
      IsCorner(Tris, c.face, c.corner) && FaceEdge(Tris, c.face, c.corner) == Flip(FaceEdge(Tris, f, k))
  {
  }

  lemma TriSlotsFindReverseHigh()
    ensures forall f, k :: IsCorner(Tris, f, k) && 6 <= f ==>
      var c := TriSlot(EdgeCode(Flip(FaceEdge(Tris, f, k))));
      IsCorner(Tris, c.face, c.corner) && FaceEdge(Tris, c.face, c.corner) == Flip(FaceEdge(Tris, f, k))
  {
  }

  /** The triangle box is closed and consistently wound. */
  lemma TrisClosed()
    ensures ClosedAndConsistent(Tris)
  {
    TriSlotsFindOwnCornerLow();
    TriSlotsFindOwnCornerHigh();
    TriSlotsFindReverseLow();
    TriSlotsFindReverseHigh();
    ClosedBySlots(Tris, TriSlot);
  }

  // ---------------------------------------------------------------------
  // Reversed winding
  // ---------------------------------------------------------------------

  /** The corner a reversed face takes its `k`-th corner from: the first
      corner stays, the rest run backwards. */
  function Mirror(k: int, size: int): int
  {
    if k == 0 then 0 else size - k
  }

  /** `r` lists the faces of `c` in the same order, each wound the other way. */
  ghost predicate IsReversal(r: Table, c: Table)
  {
    && |r.faces| == |c.faces|
    && (forall f :: 0 <= f < |c.faces| ==> |r.faces[f]| == |c.faces[f]|)
    && forall f, k :: IsCorner(c, f, k) ==> r.faces[f][k] == c.faces[f][Mirror(k, |c.faces[f]|)]
  }

  /** Each edge of a reversed face is an edge of the original face run backwards. */
  lemma ReversedEdge(r: Table, c: Table, f: int, k: int)
    requires IsReversal(r, c) && IsCorner(c, f, k)
    ensures IsCorner(c, f, Mirror(Succ(k, |c.faces[f]|), |c.faces[f]|))
    ensures FaceEdge(r, f, k) == Flip(FaceEdge(c, f, Mirror(Succ(k, |c.faces[f]|), |c.faces[f]|)))
  {
    assert IsCorner(c, f, Succ(k, |c.faces[f]|));
  }

  /** Winding every face the other way keeps a closed, consistent surface closed and consistent. */
  lemma ReversalKeepsClosed(r: Table, c: Table)
    requires ClosedAndConsistent(c) && IsReversal(r, c)
    ensures ClosedAndConsistent(r)
  {
    forall f1, k1, f2, k2 |
      IsCorner(r, f1, k1) && IsCorner(r, f2, k2) && FaceEdge(r, f1, k1) == FaceEdge(r, f2, k2)
      ensures f1 == f2 && k1 == k2
    {
      ReversedEdge(r, c, f1, k1);
      ReversedEdge(r, c, f2, k2);
    }
    forall f, k | IsCorner(r, f, k) ensures HasReverse(r, f, k) {
      ReversedEdge(r, c, f, k);
      var j := Mirror(Succ(k, |c.faces[f]|), |c.faces[f]|);
      assert HasReverse(c, f, j);
      var g, m :| IsCorner(c, g, m) && FaceEdge(c, g, m) == Flip(FaceEdge(c, f, j));
      var size := |c.faces[g]|;
      var m' := if Mirror(m, size) == 0 then size - 1 else Mirror(m, size) - 1;
      ReversedEdge(r, c, g, m');
      assert IsCorner(r, g, m');
    }
  }

  /** The reversed quad table winds each quad face backwards. */
  lemma ReverseQuadsReversesQuads()
    ensures IsReversal(ReverseQuads, Quads)
  {
  }

  /** The reversed tri table winds each triangle backwards. */
  lemma ReverseTrisReversesTris()
    ensures IsReversal(ReverseTris, Tris)
  {
  }

  /** Both reversed boxes are closed and consistently wound. */
  lemma ReversedTablesClosed()
    ensures ClosedAndConsistent(ReverseQuads) && ClosedAndConsistent(ReverseTris)
  {
    QuadsClosed();
    ReverseQuadsReversesQuads();
    ReversalKeepsClosed(ReverseQuads, Quads);
    TrisClosed();
    ReverseTrisReversesTris();
    ReversalKeepsClosed(ReverseTris, Tris);
  }

  // ---------------------------------------------------------------------
  // Triangulation
  // ---------------------------------------------------------------------

  /** Quad `f` = (a, b, c, d) becomes triangles `2f` = (a, b, c) and `2f + 1` = (c, d, a). */
  ghost predicate SplitsQuads(tris: Table, quads: Table)
  {
    && |tris.faces| == 2 * |quads.faces|
    && forall f :: 0 <= f < |quads.faces| && |quads.faces[f]| == 4 ==>
         var q := quads.faces[f];
         tris.faces[2 * f] == [q[0], q[1], q[2]] && tris.faces[2 * f + 1] == [q[2], q[3], q[0]]
  }

  /** The tri table splits each quad, in quad order, along its a-c diagonal. */
  lemma TrisSplitQuads()
    ensures SplitsQuads(Tris, Quads)
  {
  }
}
