/** The rectangular board topology shared by the puzzles: an nR x nC grid of
    faces, the vertical and horizontal edges between them, the vertices at
    the grid points, the adjacency queries between these three kinds of
    entity, sliding windows of faces, the perimeter, and the ASCII picture. */
module Grid {
  import opened Py

  datatype EDir = V | H

  /** An edge; a vertical edge (V, r, c) runs from vertex (r, c) down to
      (r + 1, c), a horizontal edge (H, r, c) from (r, c) right to (r, c + 1). */
  datatype Edge = Edge(dir: EDir, r: int, c: int)
  {
    function Idx(): EdgeIdx { (dir, r, c) }
  }

  datatype Face = Face(r: int, c: int)
  {
    function Idx(): CellIdx { (r, c) }
  }

  datatype Vertex = Vertex(r: int, c: int)

  type EdgeIdx = (EDir, int, int)
  type CellIdx = (int, int)

  /** The default `__str__` of the three entities. */
  function EdgeStr(e: Edge): string { if e.dir == H then "-" else "|" }
  function FaceStr(f: Face): string { " " }
  function VertexStr(v: Vertex): string { "+" }

  predicate FaceInRange(nR: int, nC: int, k: CellIdx) { 0 <= k.0 < nR && 0 <= k.1 < nC }
  predicate VertexInRange(nR: int, nC: int, k: CellIdx) { 0 <= k.0 <= nR && 0 <= k.1 <= nC }
  predicate EdgeInRange(nR: int, nC: int, k: EdgeIdx)
  {
    match k.0
    case V => 0 <= k.1 < nR && 0 <= k.2 <= nC
    case H => 0 <= k.1 <= nR && 0 <= k.2 < nC
  }

  /** Each face of the window is the right-hand neighbour of the one before. */
  predicate RowRun(w: seq<Face>)
  {
    forall i :: 0 < i < |w| ==> w[i] == Face(w[i - 1].r, w[i - 1].c + 1)
  }

  /** Each face of the window is just below the one before. */
  predicate ColRun(w: seq<Face>)
  {
    forall i :: 0 < i < |w| ==> w[i] == Face(w[i - 1].r + 1, w[i - 1].c)
  }

  /** The two grid points an edge joins. */
  function Endpoints(k: EdgeIdx): set<CellIdx>
  {
    if k.0 == H then {(k.1, k.2), (k.1, k.2 + 1)} else {(k.1, k.2), (k.1 + 1, k.2)}
  }

  /** Grid points one unit step apart. */
  predicate OneStep(a: CellIdx, b: CellIdx)
  {
    (a.0 == b.0 && (a.1 == b.1 + 1 || a.1 + 1 == b.1)) || (a.1 == b.1 && (a.0 == b.0 + 1 || a.0 + 1 == b.0))
  }

  /** The candidate neighbours of a face: up, down, left, right, and then
      the four diagonals when they are asked for. */
  function FaceNeighbourIdxs(idx: CellIdx, includeDiagonals: bool): seq<CellIdx>
  {
    var (r, c) := idx;
    [(r - 1, c), (r + 1, c), (r, c - 1), (r, c + 1)]
    + (if includeDiagonals then [(r - 1, c - 1), (r - 1, c + 1), (r + 1, c - 1), (r + 1, c + 1)] else [])
  }

  /** The vertical edges of `Board.__init__`'s first loop nest. */
  method VerticalEdges(nR: int, nC: int) returns (em: map<EdgeIdx, Edge>)
    ensures forall k :: k in em <==> k.0 == V && 0 <= k.1 < nR && 0 <= k.2 <= nC
    ensures forall k | k in em :: em[k] == Edge(k.0, k.1, k.2)
  {
    // `range(n)` is empty for negative n
    var R := if nR < 0 then 0 else nR;
    var C := if nC < 0 then 0 else nC;
    em := map[];
    var r := 0;
    while r < R
      invariant 0 <= r <= R
      invariant forall k :: k in em <==> k.0 == V && 0 <= k.1 < r && 0 <= k.2 <= nC
      invariant forall k | k in em :: em[k] == Edge(k.0, k.1, k.2)
    {
      var c := 0;
      while c < nC + 1
        invariant 0 <= c <= C + 1
        invariant c <= nC + 1 || c == 0
        invariant forall k :: k in em <==> k.0 == V && ((0 <= k.1 < r && 0 <= k.2 <= nC) || (k.1 == r && 0 <= k.2 < c))
        invariant forall k | k in em :: em[k] == Edge(k.0, k.1, k.2)
      {
        em := em[(V, r, c) := Edge(V, r, c)];
        c := c + 1;
      }
      r := r + 1;
    }
  }

  /** The horizontal edges of the second loop nest, added to the vertical ones. */
  method AddHorizontalEdges(nR: int, nC: int, em0: map<EdgeIdx, Edge>) returns (em: map<EdgeIdx, Edge>)
    requires forall k :: k in em0 <==> k.0 == V && 0 <= k.1 < nR && 0 <= k.2 <= nC
    requires forall k | k in em0 :: em0[k] == Edge(k.0, k.1, k.2)
    ensures forall k :: k in em <==> EdgeInRange(nR, nC, k)
    ensures forall k | k in em :: em[k] == Edge(k.0, k.1, k.2)
  {
    var R := if nR < 0 then 0 else nR;
    var C := if nC < 0 then 0 else nC;
    em := em0;
    var r := 0;
    while r < nR + 1
      invariant 0 <= r <= R + 1
      invariant r <= nR + 1 || r == 0
      invariant forall k :: k in em <==> (k.0 == V && 0 <= k.1 < nR && 0 <= k.2 <= nC) || (k.0 == H && 0 <= k.1 < r && 0 <= k.2 < nC)
      invariant forall k | k in em :: em[k] == Edge(k.0, k.1, k.2)
    {
      var c := 0;
      while c < C
        invariant 0 <= c <= C
        invariant forall k :: k in em <==> (k.0 == V && 0 <= k.1 < nR && 0 <= k.2 <= nC) || (k.0 == H && ((0 <= k.1 < r && 0 <= k.2 < nC) || (k.1 == r && 0 <= k.2 < c)))
        invariant forall k | k in em :: em[k] == Edge(k.0, k.1, k.2)
      {
        em := em[(H, r, c) := Edge(H, r, c)];
        c := c + 1;
      }
      r := r + 1;
    }
  }

  /** The faces of the third loop nest. */
  method BoardFaces(nR: int, nC: int) returns (fm: map<CellIdx, Face>)
    ensures forall k :: k in fm <==> FaceInRange(nR, nC, k)
    ensures forall k | k in fm :: fm[k] == Face(k.0, k.1)
  {
    var R := if nR < 0 then 0 else nR;
    var C := if nC < 0 then 0 else nC;
    fm := map[];
    var r := 0;
    while r < R
      invariant 0 <= r <= R
      invariant forall k :: k in fm <==> 0 <= k.0 < r && 0 <= k.1 < nC
      invariant forall k | k in fm :: fm[k] == Face(k.0, k.1)
    {
      var c := 0;
      while c < C
        invariant 0 <= c <= C
        invariant forall k :: k in fm <==> (0 <= k.0 < r && 0 <= k.1 < nC) || (k.0 == r && 0 <= k.1 < c)
        invariant forall k | k in fm :: fm[k] == Face(k.0, k.1)
      {
        fm := fm[(r, c) := Face(r, c)];
        c := c + 1;
      }
      r := r + 1;
    }
  }

  /** The vertices of the last loop nest. */
  method BoardVertices(nR: int, nC: int) returns (vm: map<CellIdx, Vertex>)
    ensures forall k :: k in vm <==> VertexInRange(nR, nC, k)
    ensures forall k | k in vm :: vm[k] == Vertex(k.0, k.1)
  {
    var R := if nR < 0 then 0 else nR;
    var C := if nC < 0 then 0 else nC;
    vm := map[];
    var r := 0;
    while r < nR + 1
      invariant 0 <= r <= R + 1
      invariant r <= nR + 1 || r == 0
      invariant forall k :: k in vm <==> 0 <= k.0 < r && 0 <= k.1 <= nC
      invariant forall k | k in vm :: vm[k] == Vertex(k.0, k.1)
    {
      var c := 0;
      while c < nC + 1
        invariant 0 <= c <= C + 1
        invariant c <= nC + 1 || c == 0
        invariant forall k :: k in vm <==> (0 <= k.0 < r && 0 <= k.1 <= nC) || (k.0 == r && 0 <= k.1 < c)
        invariant forall k | k in vm :: vm[k] == Vertex(k.0, k.1)
      {
        vm := vm[(r, c) := Vertex(r, c)];
        c := c + 1;
      }
      r := r + 1;
    }
  }

  /** The faces of an nR x nC board at the given indices, in order,
      skipping the indices off the board. */
  function FacesIn(nR: int, nC: int, idxs: seq<CellIdx>): (r: seq<Face>)
    ensures |r| <= |idxs|
    ensures forall x {:trigger x in r} :: x in r <==> x.Idx() in idxs && FaceInRange(nR, nC, x.Idx())
  {
    if idxs == [] then []
    else
      var rest := FacesIn(nR, nC, idxs[1..]);
      assert forall x: Face :: x.Idx() in idxs <==> x.Idx() == idxs[0] || x.Idx() in idxs[1..];
      if FaceInRange(nR, nC, idxs[0]) then [Face(idxs[0].0, idxs[0].1)] + rest else rest
  }

  class Board {
    const nR: int
    const nC: int
    const e: map<EdgeIdx, Edge>
    const f: map<CellIdx, Face>
    const v: map<CellIdx, Vertex>

    /** Every index in range is stored, under its own key, and nothing else is. */
    ghost predicate Valid()
    {
      (forall k :: k in e <==> EdgeInRange(nR, nC, k)) &&
      (forall k | k in e :: e[k] == Edge(k.0, k.1, k.2)) &&
      (forall k :: k in f <==> FaceInRange(nR, nC, k)) &&
      (forall k | k in f :: f[k] == Face(k.0, k.1)) &&
      (forall k :: k in v <==> VertexInRange(nR, nC, k)) &&
      (forall k | k in v :: v[k] == Vertex(k.0, k.1))
    }

    /** `Board.__init__`: fills the edge, face and vertex dictionaries in
        nested loops (vertical edges, horizontal edges, faces, vertices). */
    constructor (nR: int, nC: int)
      ensures this.nR == nR && this.nC == nC
      ensures Valid()
    {
      this.nR := nR;
      this.nC := nC;
      var em := VerticalEdges(nR, nC);
      em := AddHorizontalEdges(nR, nC, em);
      var fm := BoardFaces(nR, nC);
      var vm := BoardVertices(nR, nC);
      e := em;
      f := fm;
      v := vm;
    }

    /** The boundary hooks; a puzzle may override them, by default they
        supply no entity. */
    function BoundaryFace(idx: CellIdx): Option<Face> { None }
    function BoundaryEdge(idx: EdgeIdx): Option<Edge> { None }
    function BoundaryVertex(idx: CellIdx): Option<Vertex> { None }

    /** `get_face`: the stored face when in range, else the hook's answer;
        never an error. */
    function GetFace(idx: CellIdx): (r: Option<Face>)
      requires Valid()
      ensures r.Some? <==> FaceInRange(nR, nC, idx)
      ensures r.Some? ==> r.value == Face(idx.0, idx.1)
    {
      if idx in f then Some(f[idx]) else BoundaryFace(idx)
    }

    function GetEdge(idx: EdgeIdx): (r: Option<Edge>)
      requires Valid()
      ensures r.Some? <==> EdgeInRange(nR, nC, idx)
      ensures r.Some? ==> r.value == Edge(idx.0, idx.1, idx.2)
    {
      if idx in e then Some(e[idx]) else BoundaryEdge(idx)
    }

    function GetVertex(idx: CellIdx): (r: Option<Vertex>)
      requires Valid()
      ensures r.Some? <==> VertexInRange(nR, nC, idx)
      ensures r.Some? ==> r.value == Vertex(idx.0, idx.1)
    {
      if idx in v then Some(v[idx]) else BoundaryVertex(idx)
    }

    /** The faces `get_face` finds at the given indices, in order, skipping
        the missing ones (the walrus-filtered loops of the queries). */
    function FacesAt(idxs: seq<CellIdx>): (r: seq<Face>)
      requires Valid()
      ensures |r| <= |idxs|
      ensures forall x :: x in r <==> x.Idx() in idxs && FaceInRange(nR, nC, x.Idx())
    {
      if idxs == [] then []
      else
        var rest := FacesAt(idxs[1..]);
        assert forall x: Face :: x.Idx() in idxs <==> x.Idx() == idxs[0] || x.Idx() in idxs[1..];
        match GetFace(idxs[0])
        case Some(x) => [x] + rest
        case None => rest
    }

    function EdgesAt(idxs: seq<EdgeIdx>): (r: seq<Edge>)
      requires Valid()
      ensures |r| <= |idxs|
      ensures forall x :: x in r <==> x.Idx() in idxs && EdgeInRange(nR, nC, x.Idx())
    {
      if idxs == [] then []
      else
        var rest := EdgesAt(idxs[1..]);
        assert forall x: Edge :: x.Idx() in idxs <==> x.Idx() == idxs[0] || x.Idx() in idxs[1..];
        match GetEdge(idxs[0])
        case Some(x) => [x] + rest
        case None => rest
    }

    function VerticesAt(idxs: seq<CellIdx>): (r: seq<Vertex>)
      requires Valid()
      ensures |r| <= |idxs|
      ensures forall x: Vertex :: x in r <==> (x.r, x.c) in idxs && VertexInRange(nR, nC, (x.r, x.c))
    {
      if idxs == [] then []
      else
        var rest := VerticesAt(idxs[1..]);
        assert forall x: Vertex :: (x.r, x.c) in idxs <==> (x.r, x.c) == idxs[0] || (x.r, x.c) in idxs[1..];
        match GetVertex(idxs[0])
        case Some(x) => [x] + rest
        case None => rest
    }

    /** `face_to_faces`: the in-range faces among up, down, left, right (and
        the diagonals), in that order. */
    function FaceToFaces(idx: CellIdx, includeDiagonals: bool): (r: seq<Face>)
      requires Valid()
      ensures |r| <= if includeDiagonals then 8 else 4
      ensures forall x :: x in r <==> FaceInRange(nR, nC, x.Idx()) && x.Idx() in FaceNeighbourIdxs(idx, includeDiagonals)
    {
      FacesAt(FaceNeighbourIdxs(idx, includeDiagonals))
    }

    /** `face_to_edges`: top, right, bottom, left. Indexing `self.e`
        directly, it needs the face to be in range. */
    function FaceToEdges(idx: CellIdx): (r: seq<Edge>)
      requires Valid() && FaceInRange(nR, nC, idx)
      ensures r == [Edge(H, idx.0, idx.1), Edge(V, idx.0, idx.1 + 1), Edge(H, idx.0 + 1, idx.1), Edge(V, idx.0, idx.1)]
    {
      var (r, c) := idx;
      [e[(H, r, c)], e[(V, r, c + 1)], e[(H, r + 1, c)], e[(V, r, c)]]
    }

    /** `face_to_vertices`: the four corners clockwise from the top left. */
    function FaceToVertices(idx: CellIdx): (r: seq<Vertex>)
      requires Valid() && FaceInRange(nR, nC, idx)
      ensures |r| == 4
      ensures forall x :: x in r <==> VertexInRange(nR, nC, (x.r, x.c)) && idx.0 <= x.r <= idx.0 + 1 && idx.1 <= x.c <= idx.1 + 1
    {
      var (r, c) := idx;
      [v[(r, c)], v[(r, c + 1)], v[(r + 1, c + 1)], v[(r + 1, c)]]
    }

    /** `edge_to_faces`: the face above and below a horizontal edge, or left
        and right of a vertical one, those that exist. */
    function EdgeToFaces(idx: EdgeIdx): (r: seq<Face>)
      requires Valid()
      ensures |r| <= 2
    {
      var (dir, r, c) := idx;
      FacesAt(if dir == H then [(r - 1, c), (r, c)] else [(r, c - 1), (r, c)])
    }

    /** `edge_to_edges`: the four perpendicular edges at the two ends, those
        that exist. */
    function EdgeToEdges(idx: EdgeIdx): (r: seq<Edge>)
      requires Valid()
      ensures |r| <= 4
    {
      var (dir, r, c) := idx;
      EdgesAt(
        if dir == H then [(V, r, c), (V, r, c + 1), (V, r - 1, c), (V, r - 1, c + 1)]
        else [(H, r, c), (H, r + 1, c), (H, r, c - 1), (H, r + 1, c - 1)])
    }

    /** `edge_to_vertices`: the two endpoints; it indexes `self.v` directly. */
    function EdgeToVertices(idx: EdgeIdx): (r: seq<Vertex>)
      requires Valid() && EdgeInRange(nR, nC, idx)
      ensures |r| == 2 && r[0] != r[1]
      ensures forall x: Vertex :: x in r <==> (x.r, x.c) in Endpoints(idx)
    {
      var (dir, r, c) := idx;
      if dir == H then [v[(r, c)], v[(r, c + 1)]] else [v[(r, c)], v[(r + 1, c)]]
    }

    /** `vertex_to_faces`: the up-to-four faces with this corner. */
    function VertexToFaces(idx: CellIdx): (r: seq<Face>)
      requires Valid()
      ensures |r| <= 4
    {
      var (r, c) := idx;
      FacesAt([(r - 1, c - 1), (r - 1, c), (r, c), (r, c - 1)])
    }

    /** `vertex_to_edges`: left, right, up, down, those that exist. */
    function VertexToEdges(idx: CellIdx): (r: seq<Edge>)
      requires Valid()
      ensures |r| <= 4
    {
      var (r, c) := idx;
      EdgesAt([(H, r, c - 1), (H, r, c), (V, r - 1, c), (V, r, c)])
    }

    /** `vertex_to_vertices`: the grid points one edge away. */
    function VertexToVertices(idx: CellIdx): (r: seq<Vertex>)
      requires Valid()
      ensures |r| <= 4
      ensures forall x: Vertex :: x in r <==> VertexInRange(nR, nC, (x.r, x.c)) && OneStep(idx, (x.r, x.c))
    {
      var (r, c) := idx;
      VerticesAt([(r - 1, c), (r + 1, c), (r, c - 1), (r, c + 1)])
    }

    /** The number of windows of n consecutive cells in a line of `len` cells
        (`range(len - n + 1)`). */
    static function Windows(len: int, n: int): nat
    {
      if len - n + 1 < 0 then 0 else len - n + 1
    }

    /** `iter_consecutive_faces`: every row window, then every column window;
        a direction other than 'row', 'col' or 'both' raises ValueError. */
    function IterConsecutiveFaces(n: int, direction: string): (r: Result<seq<seq<Face>>>)
      requires Valid()
      ensures r.Err? <==> direction != "row" && direction != "col" && direction != "both"
      ensures r.Ok? ==> forall k :: 0 <= k < |r.value| ==>
        && Window(r.value[k], n)
        && (direction == "row" ==> RowRun(r.value[k]))
        && (direction == "col" ==> ColRun(r.value[k]))
        && (direction == "both" ==> RowRun(r.value[k]) || ColRun(r.value[k]))
    {
      if direction != "row" && direction != "col" && direction != "both" then Err(ValueError)
      else
        var rows := if direction == "row" || direction == "both" then RowWindows(n) else [];
        var cols := if direction == "col" || direction == "both" then ColWindows(n) else [];
        Ok(rows + cols)
    }

    /** A window of the board: n faces (none when n is negative), all on the board. */
    ghost predicate Window(w: seq<Face>, n: int)
    {
      |w| == (if n < 0 then 0 else n) && forall i :: 0 <= i < |w| ==> FaceInRange(nR, nC, w[i].Idx())
    }

    function RowWindows(n: int): (r: seq<seq<Face>>)
      requires Valid()
      ensures |r| == (if nR < 0 then 0 else nR) * Windows(nC, n)
      ensures forall k :: 0 <= k < |r| ==> Window(r[k], n) && RowRun(r[k])
    {
      var W := Windows(nC, n);
      var R := if nR < 0 then 0 else nR;
      seq(R * W, k requires 0 <= k < R * W => RowWindowAt(RowOf(k, W, R), k % W, n))
    }

    /** The n faces of row `row` from column `col` on. */
    function RowWindowAt(row: int, col: int, n: int): (w: seq<Face>)
      requires Valid() && 0 <= row < nR && 0 <= col < Windows(nC, n)
      ensures Window(w, n) && RowRun(w)
    {
      var w := seq(if n < 0 then 0 else n, i requires 0 <= i < (if n < 0 then 0 else n) => f[(row, col + i)]);
      assert forall i :: 0 <= i < |w| ==> w[i] == Face(row, col + i);
      w
    }

    function ColWindows(n: int): (r: seq<seq<Face>>)
      requires Valid()
      ensures |r| == (if nC < 0 then 0 else nC) * Windows(nR, n)
      ensures forall k :: 0 <= k < |r| ==> Window(r[k], n) && ColRun(r[k])
    {
      var W := Windows(nR, n);
      var C := if nC < 0 then 0 else nC;
      seq(C * W, k requires 0 <= k < C * W => ColWindowAt(k % W, RowOf(k, W, C), n))
    }

    /** The n faces of column `col` from row `row` on. */
    function ColWindowAt(row: int, col: int, n: int): (w: seq<Face>)
      requires Valid() && 0 <= col < nC && 0 <= row < Windows(nR, n)
      ensures Window(w, n) && ColRun(w)
    {
      var w := seq(if n < 0 then 0 else n, i requires 0 <= i < (if n < 0 then 0 else n) => f[(row + i, col)]);
      assert forall i :: 0 <= i < |w| ==> w[i] == Face(row + i, col);
      w
    }

    /** The outer loop's counter of the k-th window of a double loop over
        `count` lines with `W` windows each. */
    static function RowOf(k: int, W: int, count: int): (r: int)
      requires count >= 0 && 0 <= k < count * W
      ensures 0 <= r < count && 0 <= k % W && r * W + k % W == k
    {
      DivBound(k, W, count);
      k / W
    }

    /** `iter_boundary_edges`: the left and right edge of every row, then the
        top and bottom edge of every column. Indexing `self.e` directly, it
        raises KeyError unless those edges exist. */
    function IterBoundaryEdges(): (r: seq<Edge>)
      requires Valid()
      requires nR <= 0 || nC >= 0
      requires nC <= 0 || nR >= 0
      ensures nR >= 0 && nC >= 0 ==> |r| == 2 * nR + 2 * nC
      ensures forall i :: 0 <= i < |r| ==>
        && EdgeInRange(nR, nC, r[i].Idx())
        && if r[i].dir == V then r[i].c == 0 || r[i].c == nC else r[i].r == 0 || r[i].r == nR
    {
      var R := if nR < 0 then 0 else nR;
      var C := if nC < 0 then 0 else nC;
      SideEdges(R) + EndEdges(C)
    }

    /** The left and right edge of each of the first R rows. */
    function SideEdges(R: int): (s: seq<Edge>)
      requires Valid() && 0 <= R && (R == 0 || (R <= nR && nC >= 0))
      ensures |s| == 2 * R
      ensures forall k :: 0 <= k < |s| ==> s[k] == Edge(V, k / 2, if k % 2 == 0 then 0 else nC)
    {
      seq(2 * R, k requires 0 <= k < 2 * R => e[(V, k / 2, if k % 2 == 0 then 0 else nC)])
    }

    /** The top and bottom edge of each of the first C columns. */
    function EndEdges(C: int): (s: seq<Edge>)
      requires Valid() && 0 <= C && (C == 0 || (C <= nC && nR >= 0))
      ensures |s| == 2 * C
      ensures forall k :: 0 <= k < |s| ==> s[k] == Edge(H, if k % 2 == 0 then 0 else nR, k / 2)
    {
      seq(2 * C, k requires 0 <= k < 2 * C => e[(H, if k % 2 == 0 then 0 else nR, k / 2)])
    }

    /** `pretty`: a character grid of `h_len`-wide, `v_len`-high cells into
        which the vertices, then the edges (vertical ones first, as the edge
        dictionary holds them), then the faces are written in place, joined
        into lines. The entities' `__str__` are parameters because the
        puzzle boards override them. */
    method Pretty(hLen: int, vLen: int, vStr: CellIdx -> string, eStr: EdgeIdx -> string, fStr: CellIdx -> string)
      returns (s: string, lines: seq<string>)
      requires Valid() && hLen >= 1 && vLen >= 1 && nR >= 0 && nC >= 0
      ensures s == Join(lines, "\n")
      ensures |lines| == nR * vLen + 1
      ensures Fits(hLen, vStr, eStr, fStr) ==>
        forall i :: 0 <= i < |lines| ==> |lines[i]| == nC * hLen + 1
      ensures Fits(hLen, vStr, eStr, fStr) && OneChar(vStr, eStr, fStr) && vLen >= 2 ==>
        Drawn(lines, nR + 1, nC + 1, vLen, hLen, 0, 0, vStr) &&
        Drawn(lines, nR, nC + 1, vLen, hLen, vLen / 2, 0, Along(eStr, V)) &&
        Drawn(lines, nR + 1, nC, vLen, hLen, 0, hLen / 2, Along(eStr, H)) &&
        Drawn(lines, nR, nC, vLen, hLen, vLen / 2, hLen / 2, fStr)
      ensures Fits(hLen, vStr, eStr, fStr) ==> Written(lines, nR, nC, vLen, hLen, vLen / 2, hLen / 2, fStr)
      ensures Unbroken(vStr) && Unbroken(Along(eStr, V)) && Unbroken(Along(eStr, H)) && Unbroken(fStr) ==> OneLine(lines)
    {
      var rows := TemplateRows(hLen, vLen);
      var drawn := DrawEntities(rows, nR, nC, hLen, vLen, vStr, eStr, fStr);
      lines := drawn;
      s := Join(drawn, "\n");
    }

    /** The blank grid: an edge row, `v_len - 1` face rows per row of faces,
        and a closing edge row. */
    method TemplateRows(hLen: int, vLen: int) returns (rows: seq<string>)
      requires hLen >= 1 && vLen >= 1 && nR >= 0 && nC >= 0
      ensures |rows| == nR * vLen + 1
      ensures forall i :: 0 <= i < |rows| ==> |rows[i]| == nC * hLen + 1
      ensures OneLine(rows)
    {
      var hSpace := hLen - 1;
      var edgeRow := Repeat("+" + Repeat("-", hSpace), nC) + "+";
      var faceRow := Repeat("|" + Repeat(" ", hSpace), nC) + "|";
      var W := nC * hLen + 1;
      assert |edgeRow| == W && |faceRow| == W;
      assert '\n' !in edgeRow && '\n' !in faceRow;
      rows := [];
      var r := 0;
      while r < nR
        invariant 0 <= r <= nR
        invariant |rows| == r * vLen
        invariant forall i :: 0 <= i < |rows| ==> |rows[i]| == W
        invariant forall i :: 0 <= i < |rows| ==> '\n' !in rows[i]
      {
        rows := rows + [edgeRow];
        var k := 0;
        while k < vLen - 1
          invariant 0 <= k <= vLen - 1
          invariant |rows| == r * vLen + 1 + k
          invariant forall i :: 0 <= i < |rows| ==> |rows[i]| == W
          invariant forall i :: 0 <= i < |rows| ==> '\n' !in rows[i]
        {
          rows := rows + [faceRow];
          k := k + 1;
        }
        assert (r + 1) * vLen == r * vLen + vLen;
        r := r + 1;
      }
      rows := rows + [edgeRow];
    }
  }

  /** The drawing part of `pretty`: on the blank grid, the vertices, then
      the edges (vertical ones first), then the faces, each written in place
      at its lattice position. */
  method DrawEntities(rows: seq<string>, nR: int, nC: int, hLen: int, vLen: int,
                      vStr: CellIdx -> string, eStr: EdgeIdx -> string, fStr: CellIdx -> string)
    returns (lines: seq<string>)
    requires hLen >= 1 && vLen >= 1 && nR >= 0 && nC >= 0
    requires |rows| == nR * vLen + 1 && OneLine(rows)
    requires forall i :: 0 <= i < |rows| ==> |rows[i]| == nC * hLen + 1
    ensures |lines| == nR * vLen + 1
    ensures Fits(hLen, vStr, eStr, fStr) ==>
      forall i :: 0 <= i < |lines| ==> |lines[i]| == nC * hLen + 1
    ensures Fits(hLen, vStr, eStr, fStr) && OneChar(vStr, eStr, fStr) && vLen >= 2 ==>
      Drawn(lines, nR + 1, nC + 1, vLen, hLen, 0, 0, vStr) &&
      Drawn(lines, nR, nC + 1, vLen, hLen, vLen / 2, 0, Along(eStr, V)) &&
      Drawn(lines, nR + 1, nC, vLen, hLen, 0, hLen / 2, Along(eStr, H)) &&
      Drawn(lines, nR, nC, vLen, hLen, vLen / 2, hLen / 2, fStr)
    ensures Fits(hLen, vStr, eStr, fStr) ==> Written(lines, nR, nC, vLen, hLen, vLen / 2, hLen / 2, fStr)
    ensures Unbroken(vStr) && Unbroken(Along(eStr, V)) && Unbroken(Along(eStr, H)) && Unbroken(fStr) ==> OneLine(lines)
  {
    ghost var fits := Fits(hLen, vStr, eStr, fStr);
    assert nR * vLen < |rows|;
    assert (nR - 1) * vLen + vLen / 2 < |rows| by { assert (nR - 1) * vLen == nR * vLen - vLen; }
    if fits {
      AlongOneChar(eStr);
      LatticeWithin(rows, nC, hLen, nC + 1, 0, vStr, 1);
    }
    var rows1 := DrawLattice(rows, nR + 1, nC + 1, vLen, hLen, 0, 0, vStr, 1);
    if fits {
      LatticeWithin(rows1, nC, hLen, nC + 1, 0, Along(eStr, V), 1);
    }
    var rows2 := DrawLattice(rows1, nR, nC + 1, vLen, hLen, vLen / 2, 0, Along(eStr, V), 1);
    if fits {
      LatticeWithin(rows2, nC, hLen, nC, hLen / 2, Along(eStr, H), 1);
    }
    var rows3 := DrawLattice(rows2, nR + 1, nC, vLen, hLen, 0, hLen / 2, Along(eStr, H), 1);
    if fits {
      LatticeWithin(rows3, nC, hLen, nC, hLen / 2, fStr, 2);
    }
    var rows4 := DrawLattice(rows3, nR, nC, vLen, hLen, vLen / 2, hLen / 2, fStr, 2);
    if fits && OneChar(vStr, eStr, fStr) && vLen >= 2 {
      AllKept(rows1, rows2, rows3, rows4, nR, nC, vLen, hLen, vStr, eStr, fStr);
    }
    lines := rows4;
  }

  /** The edge strings of one direction are one character when all are. */
  lemma AlongOneChar(eStr: EdgeIdx -> string)
    requires forall k :: |eStr(k)| == 1
    ensures forall k :: |Along(eStr, V)(k)| == 1 && |Along(eStr, H)(k)| == 1
  {
    forall k: CellIdx
      ensures |Along(eStr, V)(k)| == 1 && |Along(eStr, H)(k)| == 1
    {
      assert Along(eStr, V)(k) == eStr((V, k.0, k.1));
      assert Along(eStr, H)(k) == eStr((H, k.0, k.1));
    }
  }

  /** On lines `nC * hLen + 1` wide, the vertex lattice (nC + 1 columns at
      offset 0, one character) and the face lattice (nC columns at the cell
      centre, up to two characters) stay within the line. */
  lemma LatticeWithin(rows: seq<string>, nC: int, hLen: int, cols: int, colOff: int, str: CellIdx -> string, maxLen: int)
    requires hLen >= 2 && nC >= 0 && 1 <= maxLen <= 2
    requires forall i :: 0 <= i < |rows| ==> |rows[i]| == nC * hLen + 1
    requires forall k :: |str(k)| <= maxLen
    requires (cols == nC + 1 && colOff == 0 && maxLen == 1) || (cols == nC && colOff == hLen / 2)
    ensures LatticeFits(rows, cols, hLen, colOff, str, maxLen)
  {
    if cols == nC && nC > 0 {
      assert (nC - 1) * hLen == nC * hLen - hLen;
    }
  }

  /** Each lattice drawn after another sits at other offsets, so the last
      grid still shows all four. */
  lemma AllKept(rows1: seq<string>, rows2: seq<string>, rows3: seq<string>, rows4: seq<string>, nR: int, nC: int,
                vLen: int, hLen: int, vStr: CellIdx -> string, eStr: EdgeIdx -> string, fStr: CellIdx -> string)
    requires vLen >= 2 && hLen >= 2
    requires Drawn(rows1, nR + 1, nC + 1, vLen, hLen, 0, 0, vStr)
    requires Drawn(rows2, nR, nC + 1, vLen, hLen, vLen / 2, 0, Along(eStr, V))
    requires Drawn(rows3, nR + 1, nC, vLen, hLen, 0, hLen / 2, Along(eStr, H))
    requires Drawn(rows4, nR, nC, vLen, hLen, vLen / 2, hLen / 2, fStr)
    requires SameOffLattice(rows2, rows1, vLen, hLen, vLen / 2, 0)
    requires SameOffLattice(rows3, rows2, vLen, hLen, 0, hLen / 2)
    requires SameOffLattice(rows4, rows3, vLen, hLen, vLen / 2, hLen / 2)
    ensures Drawn(rows4, nR + 1, nC + 1, vLen, hLen, 0, 0, vStr)
    ensures Drawn(rows4, nR, nC + 1, vLen, hLen, vLen / 2, 0, Along(eStr, V))
    ensures Drawn(rows4, nR + 1, nC, vLen, hLen, 0, hLen / 2, Along(eStr, H))
  {
    KeptOffLattice(rows1, rows2, nR + 1, nC + 1, vLen, hLen, 0, 0, vStr, vLen / 2, 0);
    KeptOffLattice(rows2, rows3, nR + 1, nC + 1, vLen, hLen, 0, 0, vStr, 0, hLen / 2);
    KeptOffLattice(rows3, rows4, nR + 1, nC + 1, vLen, hLen, 0, 0, vStr, vLen / 2, hLen / 2);
    KeptOffLattice(rows2, rows3, nR, nC + 1, vLen, hLen, vLen / 2, 0, Along(eStr, V), 0, hLen / 2);
    KeptOffLattice(rows3, rows4, nR, nC + 1, vLen, hLen, vLen / 2, 0, Along(eStr, V), vLen / 2, hLen / 2);
    KeptOffLattice(rows3, rows4, nR + 1, nC, vLen, hLen, 0, hLen / 2, Along(eStr, H), vLen / 2, hLen / 2);
  }

  /** No line holds a line break. */
  ghost predicate OneLine(rows: seq<string>)
  {
    forall i, j :: 0 <= i < |rows| && 0 <= j < |rows[i]| ==> rows[i][j] != '\n'
  }

  /** No string of the lattice holds a line break. */
  ghost predicate Unbroken(str: CellIdx -> string)
  {
    forall k, j :: 0 <= j < |str(k)| ==> str(k)[j] != '\n'
  }

  /** The whole string of lattice point (r, c) is written from its anchor on. */
  ghost predicate TextAt(rows: seq<string>, r: int, c: int, vLen: int, hLen: int, lineOff: int, colOff: int, str: CellIdx -> string)
  {
    var i := r * vLen + lineOff;
    var j := c * hLen + colOff;
    var s := str((r, c));
    0 <= i < |rows| && 0 <= j && j + |s| <= |rows[i]| && rows[i][j..j + |s|] == s
  }

  /** Every point of a `lines` x `cols` lattice shows its whole string. */
  ghost predicate Written(rows: seq<string>, lines: int, cols: int, vLen: int, hLen: int, lineOff: int, colOff: int, str: CellIdx -> string)
  {
    forall r, c | 0 <= r < lines && 0 <= c < cols :: TextAt(rows, r, c, vLen, hLen, lineOff, colOff, str)
  }

  /** The lattice points before (r, c) in row-major order show their whole strings. */
  ghost predicate WrittenBefore(rows: seq<string>, r: int, c: int, cols: int, vLen: int, hLen: int, lineOff: int, colOff: int,
                                str: CellIdx -> string)
  {
    forall r', c' | (0 <= r' < r && 0 <= c' < cols) || (r' == r && 0 <= c' < c) ::
      TextAt(rows, r', c', vLen, hLen, lineOff, colOff, str)
  }

  /** The cell of lattice point (r, c) holds the first character of its string. */
  ghost predicate DrawnCell(rows: seq<string>, r: int, c: int, vLen: int, hLen: int, lineOff: int, colOff: int, str: CellIdx -> string)
  {
    var i := r * vLen + lineOff;
    var j := c * hLen + colOff;
    0 <= i < |rows| && 0 <= j < |rows[i]| && |str((r, c))| >= 1 && rows[i][j] == str((r, c))[0]
  }

  /** Every point of a `lines` x `cols` lattice of cells, offset by
      (lineOff, colOff) inside each cell, shows its string. */
  ghost predicate Drawn(rows: seq<string>, lines: int, cols: int, vLen: int, hLen: int, lineOff: int, colOff: int, str: CellIdx -> string)
  {
    forall r, c | 0 <= r < lines && 0 <= c < cols :: DrawnCell(rows, r, c, vLen, hLen, lineOff, colOff, str)
  }

  /** The two grids agree except at the lattice positions (lineOff, colOff). */
  ghost predicate SameOffLattice(a: seq<string>, b: seq<string>, vLen: int, hLen: int, lineOff: int, colOff: int)
    requires vLen >= 1 && hLen >= 1
  {
    |a| == |b| &&
    (forall i :: 0 <= i < |a| ==> |a[i]| == |b[i]|) &&
    forall i, j | 0 <= i < |a| && 0 <= j < |a[i]| && !(i % vLen == lineOff && j % hLen == colOff) :: a[i][j] == b[i][j]
  }

  /** Each string of the lattice is at most `maxLen` <= 2 characters (so it
      starts at its anchor) and the rightmost one ends inside every row. */
  ghost predicate LatticeFits(rows: seq<string>, cols: int, hLen: int, colOff: int, str: CellIdx -> string, maxLen: int)
  {
    maxLen <= 2 && (forall k :: |str(k)| <= maxLen) &&
    (cols == 0 || forall i :: 0 <= i < |rows| ==> (cols - 1) * hLen + colOff + maxLen <= |rows[i]|)
  }

  /** The writes of one kind of entity in `pretty`: the string of lattice
      point (r, c) is centred on line r * vLen + lineOff, column
      c * hLen + colOff, row by row. */
  method DrawLattice(rows: seq<string>, lines: int, cols: int, vLen: int, hLen: int, lineOff: int, colOff: int,
                     str: CellIdx -> string, ghost maxLen: int)
    returns (out: seq<string>)
    requires vLen >= 1 && hLen >= 1 && 0 <= lineOff < vLen && 0 <= colOff < hLen && lines >= 0 && cols >= 0
    requires lines == 0 || (lines - 1) * vLen + lineOff < |rows|
    ensures |out| == |rows|
    ensures LatticeFits(rows, cols, hLen, colOff, str, maxLen) ==>
      forall i :: 0 <= i < |out| ==> |out[i]| == |rows[i]|
    ensures LatticeFits(rows, cols, hLen, colOff, str, maxLen) && (forall k :: |str(k)| == 1) ==>
      Drawn(out, lines, cols, vLen, hLen, lineOff, colOff, str) &&
      SameOffLattice(out, rows, vLen, hLen, lineOff, colOff)
    ensures LatticeFits(rows, cols, hLen, colOff, str, maxLen) && maxLen <= hLen ==>
      Written(out, lines, cols, vLen, hLen, lineOff, colOff, str)
    ensures OneLine(rows) && Unbroken(str) ==> OneLine(out)
  {
    ghost var fit := LatticeFits(rows, cols, hLen, colOff, str, maxLen);
    ghost var one := fit && forall k :: |str(k)| == 1;
    ghost var whole := fit && maxLen <= hLen;
    ghost var flat := OneLine(rows) && Unbroken(str);
    out := rows;
    var r := 0;
    while r < lines
      invariant 0 <= r <= lines
      invariant |out| == |rows|
      invariant fit ==> RowsLike(out, rows)
      invariant one ==> DrawnBefore(out, r, 0, cols, vLen, hLen, lineOff, colOff, str)
      invariant one ==> SameOffLattice(out, rows, vLen, hLen, lineOff, colOff)
      invariant whole ==> WrittenBefore(out, r, 0, cols, vLen, hLen, lineOff, colOff, str)
      invariant flat ==> OneLine(out)
    {
      var c := 0;
      while c < cols
        invariant 0 <= c <= cols
        invariant |out| == |rows|
        invariant fit ==> RowsLike(out, rows)
        invariant one ==> DrawnBefore(out, r, c, cols, vLen, hLen, lineOff, colOff, str)
        invariant one ==> SameOffLattice(out, rows, vLen, hLen, lineOff, colOff)
        invariant whole ==> WrittenBefore(out, r, c, cols, vLen, hLen, lineOff, colOff, str)
        invariant flat ==> OneLine(out)
      {
        var s := str((r, c));
        MulMono(r, lines - 1, vLen);
        var line := r * vLen + lineOff;
        var start := CenterStart(c * hLen + colOff, s);
        ghost var before := out;
        out := out[line := SliceAssign(out[line], start, start + |s|, s)];
        if fit {
          FitStep(rows, before, out, lines, cols, vLen, hLen, lineOff, colOff, str, maxLen, r, c);
        }
        if one {
          DrawStep(rows, before, out, cols, vLen, hLen, lineOff, colOff, str, r, c);
        }
        if whole {
          WriteStep(rows, before, out, lines, cols, vLen, hLen, lineOff, colOff, str, maxLen, r, c);
        }
        if flat {
          SliceUnbroken(before, out, line, start, start + |s|, s);
        }
        c := c + 1;
      }
      if one {
        DrawnRowEnd(out, r, cols, vLen, hLen, lineOff, colOff, str);
      }
      r := r + 1;
    }
  }

  /** The two grids have the same number of rows, each of the same length. */
  ghost predicate RowsLike(a: seq<string>, b: seq<string>)
  {
    |a| == |b| && forall i :: 0 <= i < |a| ==> |a[i]| == |b[i]|
  }

  /** The lattice points before (r, c) in row-major order show their strings. */
  ghost predicate DrawnBefore(rows: seq<string>, r: int, c: int, cols: int, vLen: int, hLen: int, lineOff: int, colOff: int,
                              str: CellIdx -> string)
  {
    forall r', c' | (0 <= r' < r && 0 <= c' < cols) || (r' == r && 0 <= c' < c) ::
      DrawnCell(rows, r', c', vLen, hLen, lineOff, colOff, str)
  }

  lemma DrawnRowEnd(rows: seq<string>, r: int, cols: int, vLen: int, hLen: int, lineOff: int, colOff: int, str: CellIdx -> string)
    requires DrawnBefore(rows, r, cols, cols, vLen, hLen, lineOff, colOff, str)
    ensures DrawnBefore(rows, r + 1, 0, cols, vLen, hLen, lineOff, colOff, str)
  {
  }

  /** A string of at most two characters written at its anchor keeps every row's length. */
  lemma FitStep(rows: seq<string>, before: seq<string>, out: seq<string>, lines: int, cols: int, vLen: int, hLen: int,
                lineOff: int, colOff: int, str: CellIdx -> string, maxLen: int, r: int, c: int)
    requires vLen >= 1 && hLen >= 1 && 0 <= lineOff < vLen && 0 <= colOff < hLen
    requires 0 <= r < lines && 0 <= c < cols && r * vLen + lineOff < |rows|
    requires LatticeFits(rows, cols, hLen, colOff, str, maxLen) && RowsLike(before, rows)
    requires var s := str((r, c));
             var line := r * vLen + lineOff;
             var start := CenterStart(c * hLen + colOff, s);
             out == before[line := SliceAssign(before[line], start, start + |s|, s)]
    ensures RowsLike(out, rows)
  {
    var s, line := str((r, c)), r * vLen + lineOff;
    var start := c * hLen + colOff;
    AnchorWithin(rows, before, line, cols, hLen, colOff, str, maxLen, r, c);
    assert CenterStart(start, s) == start;
    SameLengths(before, out, line, start, s);
  }

  /** Writing `s` over as many characters keeps every row's length. */
  lemma SameLengths(before: seq<string>, out: seq<string>, line: int, start: int, s: string)
    requires 0 <= line < |before| && 0 <= start && start + |s| <= |before[line]|
    requires out == before[line := SliceAssign(before[line], start, start + |s|, s)]
    ensures RowsLike(out, before)
  {
  }

  /** Writing a string of at most hLen characters at lattice point (r, c) leaves
      the whole strings written before it on that line, which end at or before its anchor. */
  lemma WriteStep(rows: seq<string>, before: seq<string>, out: seq<string>, lines: int, cols: int, vLen: int, hLen: int,
                  lineOff: int, colOff: int, str: CellIdx -> string, maxLen: int, r: int, c: int)
    requires vLen >= 1 && hLen >= 1 && 0 <= lineOff < vLen && 0 <= colOff < hLen
    requires 0 <= r < lines && 0 <= c < cols && r * vLen + lineOff < |rows|
    requires LatticeFits(rows, cols, hLen, colOff, str, maxLen) && maxLen <= hLen && RowsLike(before, rows)
    requires WrittenBefore(before, r, c, cols, vLen, hLen, lineOff, colOff, str)
    requires var s := str((r, c));
             var line := r * vLen + lineOff;
             var start := CenterStart(c * hLen + colOff, s);
             out == before[line := SliceAssign(before[line], start, start + |s|, s)]
    ensures WrittenBefore(out, r, c + 1, cols, vLen, hLen, lineOff, colOff, str)
  {
    var s, line := str((r, c)), r * vLen + lineOff;
    var start := c * hLen + colOff;
    AnchorWithin(rows, before, line, cols, hLen, colOff, str, maxLen, r, c);
    assert CenterStart(start, s) == start;
    forall r', c' | (0 <= r' < r && 0 <= c' < cols) || (r' == r && 0 <= c' <= c)
      ensures TextAt(out, r', c', vLen, hLen, lineOff, colOff, str)
    {
      if r' == r && c' == c {
        TextPlaced(before, out, line, start, s);
      } else {
        EarlierKept(before, out, r, c, s, r', c', vLen, hLen, lineOff, colOff, str);
      }
    }
  }

  /** The anchor of lattice point (r, c) and its string lie within the line. */
  lemma AnchorWithin(rows: seq<string>, before: seq<string>, line: int, cols: int, hLen: int, colOff: int,
                     str: CellIdx -> string, maxLen: int, r: int, c: int)
    requires hLen >= 1 && 0 <= colOff && 0 <= c < cols && 0 <= line < |rows|
    requires LatticeFits(rows, cols, hLen, colOff, str, maxLen) && RowsLike(before, rows)
    ensures 0 <= c * hLen + colOff && c * hLen + colOff + |str((r, c))| <= |before[line]|
  {
    MulMono(c, cols - 1, hLen);
  }

  /** Writing `s` at `start` shows it there. */
  lemma TextPlaced(before: seq<string>, out: seq<string>, line: int, start: int, s: string)
    requires 0 <= line < |before| && 0 <= start && start + |s| <= |before[line]|
    requires out == before[line := SliceAssign(before[line], start, start + |s|, s)]
    ensures out[line][start..start + |s|] == s
  {
  }

  /** A string written at an earlier lattice point (r', c') than (r, c)
      survives the write at (r, c). */
  lemma EarlierKept(before: seq<string>, out: seq<string>, r: int, c: int, s: string,
                    r': int, c': int, vLen: int, hLen: int, lineOff: int, colOff: int, str: CellIdx -> string)
    requires vLen >= 1 && hLen >= 1 && 0 <= lineOff < vLen
    requires r' < r || (r' == r && c' < c)
    requires var line, start := r * vLen + lineOff, c * hLen + colOff;
      0 <= line < |before| && 0 <= start && start + |s| <= |before[line]| &&
      out == before[line := SliceAssign(before[line], start, start + |s|, s)]
    requires TextAt(before, r', c', vLen, hLen, lineOff, colOff, str) && |str((r', c'))| <= hLen
    ensures TextAt(out, r', c', vLen, hLen, lineOff, colOff, str)
  {
    if r' != r {
      MulInj(r', r, vLen);
    } else {
      MulStep(c', c, hLen);
    }
    TextKept(before, out, r * vLen + lineOff, c * hLen + colOff, s, r', c', vLen, hLen, lineOff, colOff, str);
  }

  /** A string shown on another line, or ending before `start`, is still
      shown after `s` is written at `start`. */
  lemma TextKept(before: seq<string>, out: seq<string>, line: int, start: int, s: string,
                 r: int, c: int, vLen: int, hLen: int, lineOff: int, colOff: int, str: CellIdx -> string)
    requires 0 <= line < |before| && 0 <= start && start + |s| <= |before[line]|
    requires out == before[line := SliceAssign(before[line], start, start + |s|, s)]
    requires TextAt(before, r, c, vLen, hLen, lineOff, colOff, str)
    requires r * vLen + lineOff != line || c * hLen + colOff + |str((r, c))| <= start
    ensures TextAt(out, r, c, vLen, hLen, lineOff, colOff, str)
  {
    var i, j, t := r * vLen + lineOff, c * hLen + colOff, str((r, c));
    if i == line {
      assert out[i][j..j + |t|] == before[i][j..j + |t|];
    }
  }

  /** A slice assignment of a string without line breaks into a row without them keeps the rows unbroken. */
  lemma SliceUnbroken(before: seq<string>, out: seq<string>, line: int, start: int, stop: int, s: string)
    requires 0 <= line < |before| && OneLine(before) && forall j :: 0 <= j < |s| ==> s[j] != '\n'
    requires out == before[line := SliceAssign(before[line], start, stop, s)]
    ensures OneLine(out)
  {
    var row := before[line];
    assert forall j :: 0 <= j < |row| ==> row[j] != '\n';
    var lo := Clamp(if start < 0 then start + |row| else start, |row|);
    var hi0 := Clamp(if stop < 0 then stop + |row| else stop, |row|);
    var hi := if hi0 < lo then lo else hi0;
    assert '\n' !in row[..lo] && '\n' !in s && '\n' !in row[hi..];
    assert '\n' !in out[line];
  }

  /** Writing a one-character string at lattice point (r, c) draws it and disturbs nothing else. */
  lemma DrawStep(rows: seq<string>, before: seq<string>, out: seq<string>, cols: int, vLen: int, hLen: int,
                 lineOff: int, colOff: int, str: CellIdx -> string, r: int, c: int)
    requires vLen >= 1 && hLen >= 1 && 0 <= lineOff < vLen && 0 <= colOff < hLen && r >= 0 && 0 <= c < cols
    requires (forall k :: |str(k)| == 1) && RowsLike(out, rows) && RowsLike(before, rows)
    requires r * vLen + lineOff < |rows| && c * hLen + colOff < |rows[r * vLen + lineOff]|
    requires DrawnBefore(before, r, c, cols, vLen, hLen, lineOff, colOff, str)
    requires SameOffLattice(before, rows, vLen, hLen, lineOff, colOff)
    requires var line := r * vLen + lineOff;
             var start := c * hLen + colOff;
             out == before[line := SliceAssign(before[line], start, start + 1, str((r, c)))]
    ensures DrawnBefore(out, r, c + 1, cols, vLen, hLen, lineOff, colOff, str)
    ensures SameOffLattice(out, rows, vLen, hLen, lineOff, colOff)
  {
    var line, start, x := r * vLen + lineOff, c * hLen + colOff, str((r, c));
    forall r', c' | (0 <= r' < r && 0 <= c' < cols) || (r' == r && 0 <= c' <= c)
      ensures DrawnCell(out, r', c', vLen, hLen, lineOff, colOff, str)
    {
      if r' == r && c' == c {
        TextPlaced(before, out, line, start, x);
      } else {
        EarlierDrawn(before, out, r, c, x, r', c', vLen, hLen, lineOff, colOff, str);
      }
    }
    OffLatticeStep(rows, before, out, r, c, x, vLen, hLen, lineOff, colOff);
  }

  /** A cell drawn at an earlier lattice point (r', c') than (r, c)
      survives the write at (r, c). */
  lemma EarlierDrawn(before: seq<string>, out: seq<string>, r: int, c: int, x: string,
                     r': int, c': int, vLen: int, hLen: int, lineOff: int, colOff: int, str: CellIdx -> string)
    requires vLen >= 1 && hLen >= 1
    requires r' < r || (r' == r && c' < c)
    requires var line, start := r * vLen + lineOff, c * hLen + colOff;
      0 <= line < |before| && 0 <= start && start + |x| <= |before[line]| &&
      out == before[line := SliceAssign(before[line], start, start + |x|, x)]
    requires DrawnCell(before, r', c', vLen, hLen, lineOff, colOff, str)
    ensures DrawnCell(out, r', c', vLen, hLen, lineOff, colOff, str)
  {
    if r' != r {
      MulInj(r', r, vLen);
    } else {
      MulInj(c', c, hLen);
    }
  }

  /** A one-character write at a point of the lattice (lineOff, colOff)
      leaves every other cell as it was. */
  lemma OffLatticeStep(rows: seq<string>, before: seq<string>, out: seq<string>, r: int, c: int, x: string,
                       vLen: int, hLen: int, lineOff: int, colOff: int)
    requires vLen >= 1 && hLen >= 1 && 0 <= lineOff < vLen && 0 <= colOff < hLen && |x| == 1
    requires var line, start := r * vLen + lineOff, c * hLen + colOff;
      0 <= line < |before| && 0 <= start && start + 1 <= |before[line]| &&
      out == before[line := SliceAssign(before[line], start, start + 1, x)]
    requires SameOffLattice(before, rows, vLen, hLen, lineOff, colOff)
    ensures SameOffLattice(out, rows, vLen, hLen, lineOff, colOff)
  {
    ModAnchor(r, vLen, lineOff);
    ModAnchor(c, hLen, colOff);
  }

  /** What a later lattice leaves alone: drawn points of an earlier lattice
      survive when the two lattices differ in their offsets. */
  lemma KeptOffLattice(a: seq<string>, b: seq<string>, lines: int, cols: int, vLen: int, hLen: int,
                       lineOff: int, colOff: int, str: CellIdx -> string, lineOff': int, colOff': int)
    requires vLen >= 1 && hLen >= 1 && 0 <= lineOff < vLen && 0 <= colOff < hLen
    requires lineOff != lineOff' || colOff != colOff'
    requires Drawn(a, lines, cols, vLen, hLen, lineOff, colOff, str)
    requires SameOffLattice(b, a, vLen, hLen, lineOff', colOff')
    ensures Drawn(b, lines, cols, vLen, hLen, lineOff, colOff, str)
  {
    forall r, c | 0 <= r < lines && 0 <= c < cols
      ensures DrawnCell(b, r, c, vLen, hLen, lineOff, colOff, str)
    {
      assert DrawnCell(a, r, c, vLen, hLen, lineOff, colOff, str);
      ModAnchorAny(r, vLen, lineOff);
      ModAnchorAny(c, hLen, colOff);
    }
  }

  /** Every string has at most the width that keeps the row lengths: one
      character for vertices and edges, at most two for faces. */
  ghost predicate Fits(hLen: int, vStr: CellIdx -> string, eStr: EdgeIdx -> string, fStr: CellIdx -> string)
  {
    hLen >= 2 &&
    (forall k :: |vStr(k)| == 1) && (forall k :: |eStr(k)| == 1) && (forall k :: |fStr(k)| <= 2)
  }

  /** The strings of the edges of one direction, indexed by their grid position. */
  function Along(eStr: EdgeIdx -> string, d: EDir): CellIdx -> string
  {
    (k: CellIdx) => eStr((d, k.0, k.1))
  }

  ghost predicate OneChar(vStr: CellIdx -> string, eStr: EdgeIdx -> string, fStr: CellIdx -> string)
  {
    (forall k :: |vStr(k)| == 1) && (forall k :: |eStr(k)| == 1) && (forall k :: |fStr(k)| == 1)
  }

  /** `center_str`: a string of one or two characters starts at the anchor,
      a longer one a column to its left. */
  function CenterStart(pos: int, s: string): (start: int)
    ensures |s| <= 2 ==> start == pos
    ensures |s| >= 3 ==> start == pos - 1
  {
    if |s| <= 1 then pos else if |s| == 2 then pos else pos - 1
  }

  /** Python's slice assignment `row[start:stop] = s` on a list: indices are
      counted from the end when negative, clamped to the list, and the slice
      is replaced by `s` (so the list grows when `s` is longer). */
  function SliceAssign(row: string, start: int, stop: int, s: string): (r: string)
    ensures 0 <= start <= stop <= |row| && stop - start == |s| ==>
      |r| == |row| &&
      (forall j :: 0 <= j < |row| && !(start <= j < stop) ==> r[j] == row[j]) &&
      (forall j :: start <= j < stop ==> r[j] == s[j - start])
  {
    var lo := Clamp(if start < 0 then start + |row| else start, |row|);
    var hi0 := Clamp(if stop < 0 then stop + |row| else stop, |row|);
    var hi := if hi0 < lo then lo else hi0;
    row[..lo] + s + row[hi..]
  }

  function Clamp(i: int, len: nat): (k: nat)
    ensures k <= len
    ensures 0 <= i <= len ==> k == i
  {
    if i < 0 then 0 else if i > len then len else i
  }

  lemma DivBound(k: int, W: int, count: int)
    requires count >= 0 && 0 <= k < count * W
    ensures W > 0 && 0 <= k / W < count && (k / W) * W + k % W == k
  {
    if W <= 0 {
      MulMono(0, count, -W);
      assert false;
    }
    if k / W >= count {
      MulMono(count, k / W, W);
    }
  }

  lemma MulMono(a: int, b: int, m: int)
    requires a <= b && m >= 0
    ensures a * m <= b * m
  {
    assert b * m - a * m == (b - a) * m;
  }

  lemma MulStep(a: int, b: int, m: int)
    requires a < b && m >= 0
    ensures a * m + m <= b * m
  {
    MulMono(a + 1, b, m);
    assert (a + 1) * m == a * m + m;
  }

  lemma MulInj(a: int, b: int, m: int)
    requires a != b && m >= 1
    ensures a * m != b * m
  {
    if a < b {
      MulMono(a + 1, b, m);
      assert (a + 1) * m == a * m + m;
    } else {
      MulMono(b + 1, a, m);
      assert (b + 1) * m == b * m + m;
    }
  }

  /** The remainder of a lattice position is its offset. */
  lemma ModAnchor(r: int, m: int, off: int)
    requires m >= 1 && 0 <= off < m
    ensures (r * m + off) % m == off
  {
    var x := r * m + off;
    var q := x / m;
    var s := x % m;
    assert q * m + s == r * m + off;
    if q > r {
      MulStep(r, q, m);
      assert false;
    } else if q < r {
      MulStep(q, r, m);
      assert false;
    }
  }

  lemma ModAnchorAny(r: int, m: int, off: int)
    requires m >= 1 && 0 <= off < m
    ensures forall j :: j == r * m + off ==> j % m == off
  {
    ModAnchor(r, m, off);
  }
}
