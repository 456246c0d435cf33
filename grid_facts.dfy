/** Properties of the board topology: the adjacency queries are mutually
    inverse, vertex degrees, the perimeter, the sliding windows, and the
    sizes of the three dictionaries. */
module GridFacts {
  import opened Py
  import opened Grid

  /** A face lists an edge exactly when the edge lists the face. */
  lemma FaceEdgeInverse(b: Board, fi: CellIdx, k: EdgeIdx)
    requires b.Valid() && FaceInRange(b.nR, b.nC, fi)
    ensures Face(fi.0, fi.1) in b.EdgeToFaces(k) <==> Edge(k.0, k.1, k.2) in b.FaceToEdges(fi)
  {
    var x := Face(fi.0, fi.1);
    assert x.Idx() == fi;
  }

  /** A face lists a corner exactly when the corner lists the face. */
  lemma FaceVertexInverse(b: Board, fi: CellIdx, vi: CellIdx)
    requires b.Valid() && FaceInRange(b.nR, b.nC, fi)
    ensures Vertex(vi.0, vi.1) in b.FaceToVertices(fi) <==> Face(fi.0, fi.1) in b.VertexToFaces(vi)
  {
    var x := Face(fi.0, fi.1);
    assert x.Idx() == fi;
    var cands := [(vi.0 - 1, vi.1 - 1), (vi.0 - 1, vi.1), (vi.0, vi.1), (vi.0, vi.1 - 1)];
    assert b.VertexToFaces(vi) == b.FacesAt(cands);
    assert x in b.FacesAt(cands) <==> fi in cands;
    assert fi in cands <==> fi.0 <= vi.0 <= fi.0 + 1 && fi.1 <= vi.1 <= fi.1 + 1;
  }

  /** `edge_to_edges` lists exactly the existing perpendicular edges that
      share an endpoint with the given one. */
  lemma EdgeToEdgesTouching(b: Board, k: EdgeIdx, x: Edge)
    requires b.Valid()
    ensures x in b.EdgeToEdges(k) <==>
      EdgeInRange(b.nR, b.nC, x.Idx()) && x.dir != k.0 && Endpoints(x.Idx()) * Endpoints(k) != {}
  {
    var (d, r, c) := k;
    var cands := if d == H then [(V, r, c), (V, r, c + 1), (V, r - 1, c), (V, r - 1, c + 1)]
                 else [(H, r, c), (H, r + 1, c), (H, r, c - 1), (H, r + 1, c - 1)];
    assert b.EdgeToEdges(k) == b.EdgesAt(cands);
    TouchingCandidates(k, x);
  }

  /** The four candidates `edge_to_edges` looks up are the perpendicular edges sharing an endpoint. */
  lemma TouchingCandidates(k: EdgeIdx, x: Edge)
    ensures var (d, r, c) := k;
            x.Idx() in (if d == H then [(V, r, c), (V, r, c + 1), (V, r - 1, c), (V, r - 1, c + 1)]
                        else [(H, r, c), (H, r + 1, c), (H, r, c - 1), (H, r + 1, c - 1)]) <==>
            x.dir != d && Endpoints(x.Idx()) * Endpoints(k) != {}
  {
    var (d, r, c) := k;
    if x.dir != d && Endpoints(x.Idx()) * Endpoints(k) != {} {
      var p :| p in Endpoints(x.Idx()) * Endpoints(k);
    }
    if d == H && x.dir == V && (x.r == r || x.r == r - 1) && (x.c == c || x.c == c + 1) {
      assert (r, x.c) in Endpoints(x.Idx()) * Endpoints(k);
    }
    if d == V && x.dir == H && (x.r == r || x.r == r + 1) && (x.c == c || x.c == c - 1) {
      assert (x.r, c) in Endpoints(x.Idx()) * Endpoints(k);
    }
  }


  /** `vertex_to_edges` lists exactly the existing edges that end at the vertex. */
  lemma VertexToEdgesIncident(b: Board, vi: CellIdx, x: Edge)
    requires b.Valid()
    ensures x in b.VertexToEdges(vi) <==> EdgeInRange(b.nR, b.nC, x.Idx()) && vi in Endpoints(x.Idx())
  {
  }

  /** The edge a single step from u to w runs along. */
  function EdgeBetween(u: CellIdx, w: CellIdx): EdgeIdx
  {
    if u.0 == w.0 then (H, u.0, if u.1 < w.1 then u.1 else w.1)
    else (V, if u.0 < w.0 then u.0 else w.0, u.1)
  }

  /** A unit step runs along the edge between its two points. */
  lemma StepEdge(nR: int, nC: int, u: CellIdx, w: CellIdx)
    requires OneStep(u, w) && VertexInRange(nR, nC, u) && VertexInRange(nR, nC, w)
    ensures u != w && EdgeInRange(nR, nC, EdgeBetween(u, w)) && Endpoints(EdgeBetween(u, w)) == {u, w}
  {
    var k := EdgeBetween(u, w);
    if u.0 == w.0 {
      if u.1 < w.1 {
        assert k == (H, u.0, u.1) && w == (u.0, u.1 + 1);
      } else {
        assert k == (H, u.0, w.1) && u == (u.0, w.1 + 1);
      }
    } else {
      if u.0 < w.0 {
        assert k == (V, u.0, u.1) && w == (u.0 + 1, u.1);
      } else {
        assert k == (V, w.0, u.1) && u == (w.0 + 1, u.1);
      }
    }
  }

  /** Neighbours in `vertex_to_vertices` are joined by an existing edge... */
  lemma NeighbourEdge(b: Board, u: CellIdx, w: CellIdx)
    requires b.Valid() && VertexInRange(b.nR, b.nC, u)
    requires Vertex(w.0, w.1) in b.VertexToVertices(u)
    ensures u != w && EdgeInRange(b.nR, b.nC, EdgeBetween(u, w)) && Endpoints(EdgeBetween(u, w)) == {u, w}
  {
    assert OneStep(u, w) && VertexInRange(b.nR, b.nC, w);
    StepEdge(b.nR, b.nC, u, w);
  }

  /** ...and the two ends of an existing edge are neighbours. */
  lemma EdgeNeighbours(b: Board, u: CellIdx, w: CellIdx)
    requires b.Valid() && VertexInRange(b.nR, b.nC, u)
    requires u != w && EdgeInRange(b.nR, b.nC, EdgeBetween(u, w)) && Endpoints(EdgeBetween(u, w)) == {u, w}
    ensures Vertex(w.0, w.1) in b.VertexToVertices(u)
  {
    var k := EdgeBetween(u, w);
    assert u in Endpoints(k) && w in Endpoints(k);
    assert OneStep(u, w);
    assert VertexInRange(b.nR, b.nC, w);
  }

  /** Two grid points are neighbours in `vertex_to_vertices` exactly when
      an existing edge joins them. */
  lemma NeighboursJoinedByEdge(b: Board, u: CellIdx, w: CellIdx)
    requires b.Valid() && VertexInRange(b.nR, b.nC, u)
    ensures Vertex(w.0, w.1) in b.VertexToVertices(u) <==>
      u != w && EdgeInRange(b.nR, b.nC, EdgeBetween(u, w)) && Endpoints(EdgeBetween(u, w)) == {u, w}
  {
    if Vertex(w.0, w.1) in b.VertexToVertices(u) {
      NeighbourEdge(b, u, w);
    }
    if u != w && EdgeInRange(b.nR, b.nC, EdgeBetween(u, w)) && Endpoints(EdgeBetween(u, w)) == {u, w} {
      EdgeNeighbours(b, u, w);
    }
  }

  /** When every index is in range nothing is skipped. */
  lemma {:induction false} FacesAtAll(b: Board, idxs: seq<CellIdx>)
    requires b.Valid()
    requires forall i :: 0 <= i < |idxs| ==> FaceInRange(b.nR, b.nC, idxs[i])
    ensures b.FacesAt(idxs) == seq(|idxs|, i requires 0 <= i < |idxs| => Face(idxs[i].0, idxs[i].1))
  {
    if idxs != [] {
      FacesAtAll(b, idxs[1..]);
    }
  }

  /** The face queries of a board depend only on its dimensions. */
  lemma {:induction false} FacesAtIn(b: Board, idxs: seq<CellIdx>)
    requires b.Valid()
    ensures b.FacesAt(idxs) == FacesIn(b.nR, b.nC, idxs)
  {
    if idxs != [] {
      FacesAtIn(b, idxs[1..]);
    }
  }

  lemma FaceToFacesIn(b: Board, idx: CellIdx, includeDiagonals: bool)
    requires b.Valid()
    ensures b.FaceToFaces(idx, includeDiagonals) == FacesIn(b.nR, b.nC, FaceNeighbourIdxs(idx, includeDiagonals))
  {
    FacesAtIn(b, FaceNeighbourIdxs(idx, includeDiagonals));
  }

  /** A face away from the border has all its neighbours, in the order up,
      down, left, right, then the diagonals. */
  lemma FaceToFacesInterior(b: Board, fi: CellIdx, includeDiagonals: bool)
    requires b.Valid() && 1 <= fi.0 < b.nR - 1 && 1 <= fi.1 < b.nC - 1
    ensures var (r, c) := fi;
      b.FaceToFaces(fi, includeDiagonals) ==
        [Face(r - 1, c), Face(r + 1, c), Face(r, c - 1), Face(r, c + 1)] +
        (if includeDiagonals then [Face(r - 1, c - 1), Face(r - 1, c + 1), Face(r + 1, c - 1), Face(r + 1, c + 1)] else [])
  {
    FacesAtAll(b, FaceNeighbourIdxs(fi, includeDiagonals));
  }

  /** How many of `idxs` name an existing edge. */
  function InRangeEdges(b: Board, idxs: seq<EdgeIdx>): nat
  {
    if idxs == [] then 0 else (if EdgeInRange(b.nR, b.nC, idxs[0]) then 1 else 0) + InRangeEdges(b, idxs[1..])
  }

  lemma {:induction false} EdgesAtLength(b: Board, idxs: seq<EdgeIdx>)
    requires b.Valid()
    ensures |b.EdgesAt(idxs)| == InRangeEdges(b, idxs)
  {
    if idxs != [] {
      EdgesAtLength(b, idxs[1..]);
    }
  }

  /** Every grid point of a non-empty board has two edges at a corner, three
      on a side and four inside. */
  lemma VertexDegree(b: Board, vi: CellIdx)
    requires b.Valid() && b.nR >= 1 && b.nC >= 1 && VertexInRange(b.nR, b.nC, vi)
    ensures |b.VertexToEdges(vi)| ==
      (if 0 < vi.0 < b.nR then 2 else 1) + (if 0 < vi.1 < b.nC then 2 else 1)
  {
    var (r, c) := vi;
    var idxs := [(H, r, c - 1), (H, r, c), (V, r - 1, c), (V, r, c)];
    assert b.VertexToEdges(vi) == b.EdgesAt(idxs);
    EdgesAtLength(b, idxs);
    var left := if 1 <= c <= b.nC then 1 else 0;
    var right := if 0 <= c < b.nC then 1 else 0;
    var up := if 1 <= r <= b.nR then 1 else 0;
    var down := if 0 <= r < b.nR then 1 else 0;
    assert InRangeEdges(b, [(V, r, c)]) == down;
    assert InRangeEdges(b, [(V, r - 1, c), (V, r, c)]) == up + down by {
      assert [(V, r - 1, c), (V, r, c)][1..] == [(V, r, c)];
    }
    assert InRangeEdges(b, [(H, r, c), (V, r - 1, c), (V, r, c)]) == right + up + down by {
      assert [(H, r, c), (V, r - 1, c), (V, r, c)][1..] == [(V, r - 1, c), (V, r, c)];
    }
    assert idxs[1..] == [(H, r, c), (V, r - 1, c), (V, r, c)];
  }

  function InRangeFaces(b: Board, idxs: seq<CellIdx>): nat
  {
    if idxs == [] then 0 else (if FaceInRange(b.nR, b.nC, idxs[0]) then 1 else 0) + InRangeFaces(b, idxs[1..])
  }

  lemma {:induction false} FacesAtLength(b: Board, idxs: seq<CellIdx>)
    requires b.Valid()
    ensures |b.FacesAt(idxs)| == InRangeFaces(b, idxs)
  {
    if idxs != [] {
      FacesAtLength(b, idxs[1..]);
    }
  }

  predicate OnBorder(b: Board, k: EdgeIdx)
  {
    if k.0 == V then k.2 == 0 || k.2 == b.nC else k.1 == 0 || k.1 == b.nR
  }

  /** An edge of a non-empty board has one face exactly when it lies on
      the outer border, and two otherwise. */
  lemma EdgeFaceCount(b: Board, k: EdgeIdx)
    requires b.Valid() && b.nR >= 1 && b.nC >= 1 && EdgeInRange(b.nR, b.nC, k)
    ensures |b.EdgeToFaces(k)| == if OnBorder(b, k) then 1 else 2
  {
    var (d, r, c) := k;
    var idxs := if d == H then [(r - 1, c), (r, c)] else [(r, c - 1), (r, c)];
    FacesAtLength(b, idxs);
    assert idxs[1..][1..] == [];
  }

  lemma HalfOf(k: int, q: int, bit: int)
    requires k == 2 * q + bit && 0 <= bit <= 1
    ensures k / 2 == q && k % 2 == bit
  {
  }

  /** `iter_boundary_edges` yields each border edge... */
  lemma BorderEdgeYielded(b: Board, x: Edge)
    requires b.Valid() && b.nR >= 0 && b.nC >= 0
    requires EdgeInRange(b.nR, b.nC, x.Idx()) && OnBorder(b, x.Idx())
    ensures x in b.IterBoundaryEdges()
  {
    var s := b.IterBoundaryEdges();
    var R := 2 * b.nR;
    assert |s| == R + 2 * b.nC;
    if x.dir == V {
      var bit := if x.c == 0 then 0 else 1;
      var k := 2 * x.r + bit;
      HalfOf(k, x.r, bit);
      assert s[k] == x;
    } else {
      var bit := if x.r == 0 then 0 else 1;
      var k := 2 * x.c + bit;
      HalfOf(k, x.c, bit);
      assert s[R + k] == x;
    }
  }

  /** ...and only those. */
  lemma YieldedEdgeOnBorder(b: Board, i: int)
    requires b.Valid() && b.nR >= 0 && b.nC >= 0
    requires 0 <= i < |b.IterBoundaryEdges()|
    ensures var x := b.IterBoundaryEdges()[i];
      EdgeInRange(b.nR, b.nC, x.Idx()) && OnBorder(b, x.Idx())
  {
    var s := b.IterBoundaryEdges();
    var R := 2 * b.nR;
    if i < R {
      assert s[i] == Edge(V, i / 2, if i % 2 == 0 then 0 else b.nC);
    } else {
      assert s[i] == Edge(H, if (i - R) % 2 == 0 then 0 else b.nR, (i - R) / 2);
    }
  }

  lemma BoundaryEdgesAreBorder(b: Board, x: Edge)
    requires b.Valid() && b.nR >= 0 && b.nC >= 0
    ensures x in b.IterBoundaryEdges() <==> EdgeInRange(b.nR, b.nC, x.Idx()) && OnBorder(b, x.Idx())
  {
    if EdgeInRange(b.nR, b.nC, x.Idx()) && OnBorder(b, x.Idx()) {
      BorderEdgeYielded(b, x);
    }
    var s := b.IterBoundaryEdges();
    if x in s {
      var i :| 0 <= i < |s| && s[i] == x;
      YieldedEdgeOnBorder(b, i);
    }
  }

  /** The edge at position i of `iter_boundary_edges`. */
  lemma BoundaryEdgeAt(b: Board, i: int)
    requires b.Valid() && b.nR >= 0 && b.nC >= 0
    requires 0 <= i < |b.IterBoundaryEdges()|
    ensures var R := 2 * b.nR;
      b.IterBoundaryEdges()[i] ==
        if i < R then Edge(V, i / 2, if i % 2 == 0 then 0 else b.nC)
        else Edge(H, if (i - R) % 2 == 0 then 0 else b.nR, (i - R) / 2)
  {
  }

  /** On a non-empty board the border has 2 nR + 2 nC edges, each yielded
      once. */
  lemma BoundaryEdgesDistinct(b: Board)
    requires b.Valid() && b.nR >= 1 && b.nC >= 1
    ensures var s := b.IterBoundaryEdges();
      |s| == 2 * b.nR + 2 * b.nC &&
      forall i, j :: 0 <= i < j < |s| ==> s[i] != s[j]
  {
    var s := b.IterBoundaryEdges();
    forall i, j | 0 <= i < j < |s| ensures s[i] != s[j] {
      BoundaryEdgeAt(b, i);
      BoundaryEdgeAt(b, j);
    }
  }

  /** A run of n faces along row r starting at column c. */
  predicate RowRunAt(w: seq<Face>, r: int, c: int, n: int)
  {
    |w| == (if n < 0 then 0 else n) && forall i :: 0 <= i < |w| ==> w[i] == Face(r, c + i)
  }

  predicate ColRunAt(w: seq<Face>, r: int, c: int, n: int)
  {
    |w| == (if n < 0 then 0 else n) && forall i :: 0 <= i < |w| ==> w[i] == Face(r + i, c)
  }

  /** Quotient and remainder of a position in a row-major double loop. */
  lemma DivModAnchor(q: int, W: int, rem: int)
    requires W >= 1 && 0 <= rem < W
    ensures (q * W + rem) / W == q && (q * W + rem) % W == rem
  {
    var x := q * W + rem;
    if x / W > q {
      MulStep(q, x / W, W);
      assert false;
    } else if x / W < q {
      MulStep(x / W, q, W);
      assert false;
    }
  }

  /** The row windows come row by row, left to right: window number
      r * W + c is the run of n faces from (r, c), all of which exist. */
  lemma RowWindowsInOrder(b: Board, n: int, r: int, c: int)
    requires b.Valid() && 0 <= r < b.nR && 0 <= c < Board.Windows(b.nC, n)
    ensures var W := Board.Windows(b.nC, n);
      var k := r * W + c;
      k < |b.RowWindows(n)| &&
      RowRunAt(b.RowWindows(n)[k], r, c, n) &&
      forall i :: 0 <= i < |b.RowWindows(n)[k]| ==> b.RowWindows(n)[k][i].Idx() in b.f
  {
    var W := Board.Windows(b.nC, n);
    var k := r * W + c;
    MulStep(r, b.nR, W);
    DivModAnchor(r, W, c);
    var ws := b.RowWindows(n);
    assert Board.RowOf(k, W, b.nR) == r;
    var w := ws[k];
    forall i | 0 <= i < |w| ensures w[i] == Face(r, c + i) && w[i].Idx() in b.f {
      assert (r, c + i) in b.f;
    }
  }

  lemma ColWindowsInOrder(b: Board, n: int, r: int, c: int)
    requires b.Valid() && 0 <= c < b.nC && 0 <= r < Board.Windows(b.nR, n)
    ensures var W := Board.Windows(b.nR, n);
      var k := c * W + r;
      k < |b.ColWindows(n)| &&
      ColRunAt(b.ColWindows(n)[k], r, c, n) &&
      forall i :: 0 <= i < |b.ColWindows(n)[k]| ==> b.ColWindows(n)[k][i].Idx() in b.f
  {
    var W := Board.Windows(b.nR, n);
    var k := c * W + r;
    MulStep(c, b.nC, W);
    DivModAnchor(c, W, r);
    var ws := b.ColWindows(n);
    assert Board.RowOf(k, W, b.nC) == c;
    var w := ws[k];
    forall i | 0 <= i < |w| ensures w[i] == Face(r + i, c) && w[i].Idx() in b.f {
      assert (r + i, c) in b.f;
    }
  }

  /** Any direction other than 'row', 'col' or 'both' is a ValueError;
      'both' gives all row windows followed by all column windows. */
  lemma ConsecutiveFacesDirections(b: Board, n: int, direction: string)
    requires b.Valid()
    ensures b.IterConsecutiveFaces(n, direction).Err? <==> direction != "row" && direction != "col" && direction != "both"
    ensures direction == "both" ==> b.IterConsecutiveFaces(n, direction) == Ok(b.RowWindows(n) + b.ColWindows(n))
    ensures direction == "row" ==> b.IterConsecutiveFaces(n, direction) == Ok(b.RowWindows(n))
    ensures direction == "col" ==> b.IterConsecutiveFaces(n, direction) == Ok(b.ColWindows(n))
  {
    if direction == "row" {
      assert direction != "both" && direction != "col";
      assert b.RowWindows(n) + [] == b.RowWindows(n);
    } else if direction == "col" {
      assert direction != "both";
      assert [] + b.ColWindows(n) == b.ColWindows(n);
    }
  }

  /** The cells of an a x w rectangle. */
  function Rect(a: int, w: int): set<CellIdx>
  {
    set i, j | 0 <= i < a && 0 <= j < w :: (i, j)
  }

  function RowCells(i: int, w: int): set<CellIdx>
  {
    set j | 0 <= j < w :: (i, j)
  }

  lemma {:induction false} RowCellsCard(i: int, w: nat)
    ensures |RowCells(i, w)| == w
  {
    if w > 0 {
      RowCellsCard(i, w - 1);
      forall p | p in RowCells(i, w) ensures p in RowCells(i, w - 1) + {(i, w - 1)} {
        if p.1 < w - 1 { assert p in RowCells(i, w - 1); }
      }
      assert RowCells(i, w) == RowCells(i, w - 1) + {(i, w - 1)};
      assert (i, w - 1) !in RowCells(i, w - 1);
    } else {
      assert RowCells(i, w) == {};
    }
  }

  lemma RectSplit(a: int, w: int)
    requires a >= 1
    ensures Rect(a, w) == Rect(a - 1, w) + RowCells(a - 1, w)
    ensures Rect(a - 1, w) !! RowCells(a - 1, w)
  {
    forall p | p in Rect(a, w) ensures p in Rect(a - 1, w) + RowCells(a - 1, w) {
      if p.0 < a - 1 { assert p in Rect(a - 1, w); } else { assert p in RowCells(a - 1, w); }
    }
  }

  lemma {:induction false} RectCard(a: nat, w: nat)
    ensures |Rect(a, w)| == a * w
  {
    if a > 0 {
      RectCard(a - 1, w);
      RowCellsCard(a - 1, w);
      RectSplit(a, w);
      assert a * w == (a - 1) * w + w;
    } else {
      assert Rect(a, w) == {};
    }
  }

  /** Tagging cells with a direction keeps their number. */
  lemma {:induction false} TaggedCard(d: EDir, s: set<CellIdx>)
    ensures |Tagged(d, s)| == |s|
  {
    if s != {} {
      var p :| p in s;
      TaggedCard(d, s - {p});
      assert Tagged(d, s) == Tagged(d, s - {p}) + {(d, p.0, p.1)};
    } else {
      assert Tagged(d, s) == {};
    }
  }

  function Tagged(d: EDir, s: set<CellIdx>): set<EdgeIdx>
  {
    set p | p in s :: (d, p.0, p.1)
  }

  /** The board holds nR nC faces. */
  lemma FaceCount(b: Board)
    requires b.Valid() && b.nR >= 0 && b.nC >= 0
    ensures |b.f| == b.nR * b.nC
  {
    assert b.f.Keys == Rect(b.nR, b.nC);
    RectCard(b.nR, b.nC);
  }

  /** The board holds (nR + 1)(nC + 1) vertices. */
  lemma VertexCount(b: Board)
    requires b.Valid() && b.nR >= 0 && b.nC >= 0
    ensures |b.v| == (b.nR + 1) * (b.nC + 1)
  {
    assert b.v.Keys == Rect(b.nR + 1, b.nC + 1);
    RectCard(b.nR + 1, b.nC + 1);
  }

  lemma EdgeKeys(b: Board)
    requires b.Valid() && b.nR >= 0 && b.nC >= 0
    ensures b.e.Keys == EdgeIdxs(b.nR, b.nC)
  {
    var nR, nC := b.nR, b.nC;
    forall k | k in b.e.Keys
      ensures k in (Tagged(V, Rect(nR, nC + 1))) + (Tagged(H, Rect(nR + 1, nC)))
    {
      if k.0 == V { assert (k.1, k.2) in Rect(nR, nC + 1); } else { assert (k.1, k.2) in Rect(nR + 1, nC); }
    }
  }

  /** The vertical and horizontal edge indices of an nR x nC board. */
  function EdgeIdxs(nR: int, nC: int): set<EdgeIdx>
  {
    (Tagged(V, Rect(nR, nC + 1))) + (Tagged(H, Rect(nR + 1, nC)))
  }

  lemma EdgeIdxsCard(nR: nat, nC: nat)
    ensures |EdgeIdxs(nR, nC)| == nR * (nC + 1) + (nR + 1) * nC
  {
    var vs := Tagged(V, Rect(nR, nC + 1));
    var hs := Tagged(H, Rect(nR + 1, nC));
    DisjointCard(vs, hs);
    TaggedCard(V, Rect(nR, nC + 1));
    TaggedCard(H, Rect(nR + 1, nC));
    RectCard(nR, nC + 1);
    RectCard(nR + 1, nC);
    assert |vs| == nR * (nC + 1);
    assert |hs| == (nR + 1) * nC;
    assert EdgeIdxs(nR, nC) == vs + hs;
  }

  /** The board holds nR (nC + 1) vertical and (nR + 1) nC horizontal edges. */
  lemma EdgeCount(b: Board)
    requires b.Valid() && b.nR >= 0 && b.nC >= 0
    ensures |b.e| == b.nR * (b.nC + 1) + (b.nR + 1) * b.nC
  {
    EdgeKeys(b);
    EdgeMapCard(b.e, b.nR, b.nC);
  }

  lemma EdgeMapCard(m: map<EdgeIdx, Edge>, nR: nat, nC: nat)
    requires m.Keys == EdgeIdxs(nR, nC)
    ensures |m| == nR * (nC + 1) + (nR + 1) * nC
  {
    EdgeIdxsCard(nR, nC);
    assert |m| == |m.Keys|;
  }

  lemma DisjointCard(vs: set<EdgeIdx>, hs: set<EdgeIdx>)
    requires forall k :: k in vs ==> k.0 == V
    requires forall k :: k in hs ==> k.0 == H
    ensures |vs + hs| == |vs| + |hs|
  {
    assert vs !! hs;
  }
}
