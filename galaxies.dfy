/** The Galaxies board: an nR by nC grid whose vertices are listed in
    row-major order and whose edges join each vertex to its upper and left
    neighbours, so that every pair of orthogonal neighbours is listed once. */
module Galaxies {
  import opened Py

  type Pos = (int, int)

  datatype Vertex = Vertex(r: int, c: int)

  datatype Board = Board(nR: nat, nC: nat)

  /** `Board(nR, nC)`: both sizes must be positive. */
  function New(nR: int, nC: int): (res: Result<Board>)
    ensures res.Ok? <==> nR > 0 && nC > 0
    ensures res.Ok? ==> res.value.nR == nR && res.value.nC == nC
    ensures res.Err? ==> res.error == AssertionError
  {
    if nR > 0 && nC > 0 then Ok(Board(nR, nC)) else Err(AssertionError)
  }

  /** The first c vertices of row r. */
  function RowVertices(r: int, c: nat): (vs: seq<Vertex>)
    ensures |vs| == c
  {
    if c == 0 then [] else RowVertices(r, c - 1) + [Vertex(r, c - 1)]
  }

  /** `enum_vertices` over the first r rows of nC columns. */
  function VerticesOf(r: nat, nC: nat): seq<Vertex>
  {
    if r == 0 then [] else VerticesOf(r - 1, nC) + RowVertices(r - 1, nC)
  }

  /** `enum_vertices`. */
  function Vertices(b: Board): seq<Vertex>
  {
    VerticesOf(b.nR, b.nC)
  }

  lemma {:induction false} RowVerticesAt(r: int, c: nat, j: nat)
    requires j < c
    ensures RowVertices(r, c)[j] == Vertex(r, j)
  {
    if j < c - 1 {
      RowVerticesAt(r, c - 1, j);
    }
  }

  /** There are r·nC vertices in the first r rows. */
  lemma {:induction false} VerticesCount(r: nat, nC: nat)
    ensures |VerticesOf(r, nC)| == r * nC
  {
    if r > 0 {
      VerticesCount(r - 1, nC);
      assert (r - 1) * nC + nC == r * nC;
    }
  }

  /** Row-major order: vertex (i, j) is at position i·nC + j. */
  lemma {:induction false} VerticesAt(r: nat, nC: nat, i: nat, j: nat)
    requires i < r && j < nC
    ensures i * nC + j < |VerticesOf(r, nC)|
    ensures VerticesOf(r, nC)[i * nC + j] == Vertex(i, j)
  {
    VerticesCount(r, nC);
    VerticesCount(r - 1, nC);
    assert (r - 1) * nC + nC == r * nC;
    if i < r - 1 {
      VerticesAt(r - 1, nC, i, j);
      assert i * nC + j < (r - 1) * nC by {
        assert i * nC <= (r - 2) * nC;
        assert (r - 2) * nC + nC == (r - 1) * nC;
      }
    } else {
      RowVerticesAt(i, nC, j);
    }
  }

  /** The vertices are exactly the grid points, each listed once, nR·nC in all. */
  lemma VerticesMeans(b: Board)
    ensures |Vertices(b)| == b.nR * b.nC
    ensures forall v :: v in Vertices(b) <==> 0 <= v.r < b.nR && 0 <= v.c < b.nC
    ensures NoDup(Vertices(b))
  {
    VerticesCount(b.nR, b.nC);
    VerticesRange(b.nR, b.nC);
  }

  lemma {:induction false} VerticesRange(r: nat, nC: nat)
    ensures forall v :: v in VerticesOf(r, nC) <==> 0 <= v.r < r && 0 <= v.c < nC
    ensures NoDup(VerticesOf(r, nC))
  {
    if r > 0 {
      VerticesRange(r - 1, nC);
      RowRange(r - 1, nC);
      var a, b := VerticesOf(r - 1, nC), RowVertices(r - 1, nC);
      forall i, j | 0 <= i < j < |a + b|
        ensures (a + b)[i] != (a + b)[j]
      {
        if i < |a| && j >= |a| {
          assert (a + b)[i] in a && (a + b)[j] in b;
        }
      }
    }
  }

  lemma {:induction false} RowRange(r: int, c: nat)
    ensures forall v :: v in RowVertices(r, c) <==> v.r == r && 0 <= v.c < c
    ensures NoDup(RowVertices(r, c))
  {
    if c > 0 {
      RowRange(r, c - 1);
      var a := RowVertices(r, c - 1);
      forall i | 0 <= i < |a|
        ensures a[i].c < c - 1
      {
        assert a[i] in a;
      }
    }
  }

  /** What `enum_edges` yields at (r, c): the edge up, then the edge left, when those neighbours exist. */
  function EdgesAt(r: int, c: int): seq<(Pos, Pos)>
  {
    (if r > 0 then [((r, c), (r - 1, c))] else []) + (if c > 0 then [((r, c), (r, c - 1))] else [])
  }

  /** The edges yielded for the first c columns of row r. */
  function RowEdges(r: int, c: nat): seq<(Pos, Pos)>
  {
    if c == 0 then [] else RowEdges(r, c - 1) + EdgesAt(r, c - 1)
  }

  /** `enum_edges` over the first r rows of nC columns. */
  function EdgesOf(r: nat, nC: nat): seq<(Pos, Pos)>
  {
    if r == 0 then [] else EdgesOf(r - 1, nC) + RowEdges(r - 1, nC)
  }

  /** `enum_edges`. */
  function Edges(b: Board): seq<(Pos, Pos)>
  {
    EdgesOf(b.nR, b.nC)
  }

  /** Orthogonal neighbours. */
  predicate Adjacent(a: Pos, b: Pos)
  {
    (a.0 == b.0 && (a.1 == b.1 + 1 || b.1 == a.1 + 1)) || (a.1 == b.1 && (a.0 == b.0 + 1 || b.0 == a.0 + 1))
  }

  /** b is the upper or left neighbour of a. */
  predicate UpOrLeft(a: Pos, b: Pos)
  {
    (a.0 == b.0 + 1 && a.1 == b.1) || (a.0 == b.0 && a.1 == b.1 + 1)
  }

  predicate InGrid(p: Pos, nR: int, nC: int)
  {
    0 <= p.0 < nR && 0 <= p.1 < nC
  }

  lemma {:induction false} RowEdgesMeans(r: nat, c: nat)
    ensures forall e :: e in RowEdges(r, c) <==> e.0.0 == r && 0 <= e.0.1 < c && UpOrLeft(e.0, e.1) && e.1.0 >= 0 && e.1.1 >= 0
    ensures NoDup(RowEdges(r, c))
  {
    if c > 0 {
      RowEdgesMeans(r, c - 1);
      var a, b := RowEdges(r, c - 1), EdgesAt(r, c - 1);
      forall i, j | 0 <= i < j < |a + b|
        ensures (a + b)[i] != (a + b)[j]
      {
        if i < |a| && j >= |a| {
          assert (a + b)[i] in a;
        }
      }
    }
  }

  /** The edges of the first r rows: each joins a grid point to its upper or left
      neighbour inside the grid, and each such pair is listed once. */
  lemma {:induction false} EdgesMeans(r: nat, nC: nat)
    ensures forall e :: e in EdgesOf(r, nC) <==> InGrid(e.0, r, nC) && InGrid(e.1, r, nC) && UpOrLeft(e.0, e.1)
    ensures NoDup(EdgesOf(r, nC))
  {
    if r > 0 {
      EdgesMeans(r - 1, nC);
      RowEdgesMeans(r - 1, nC);
      var a, b := EdgesOf(r - 1, nC), RowEdges(r - 1, nC);
      forall i, j | 0 <= i < j < |a + b|
        ensures (a + b)[i] != (a + b)[j]
      {
        if i < |a| && j >= |a| {
          assert (a + b)[i] in a && (a + b)[j] in b;
        }
      }
    }
  }

  /** Row r yields an edge up from each column when r > 0 and an edge left from each column but the first. */
  lemma {:induction false} RowEdgesCount(r: nat, c: nat)
    ensures |RowEdges(r, c)| == if c == 0 then 0 else (if r > 0 then c else 0) + c - 1
  {
    if c > 0 {
      RowEdgesCount(r, c - 1);
    }
  }

  /** The first r rows yield (r−1)·nC edges up and r·(nC−1) edges left. */
  lemma {:induction false} EdgesCount(r: nat, nC: nat)
    requires r > 0 && nC > 0
    ensures |EdgesOf(r, nC)| == (r - 1) * nC + r * (nC - 1)
  {
    RowEdgesCount(r - 1, nC);
    if r > 1 {
      EdgesCount(r - 1, nC);
      assert (r - 2) * nC + nC == (r - 1) * nC;
      assert (r - 1) * (nC - 1) + (nC - 1) == r * (nC - 1);
    }
  }

  /** Every pair of orthogonal neighbours in the grid is listed exactly once, in
      exactly one orientation, and no other pair is listed. */
  lemma EdgesOnce(b: Board, p: Pos, q: Pos)
    requires b.nR > 0 && b.nC > 0
    ensures |Edges(b)| == (b.nR - 1) * b.nC + b.nR * (b.nC - 1)
    ensures (p, q) in Edges(b) || (q, p) in Edges(b) <==> InGrid(p, b.nR, b.nC) && InGrid(q, b.nR, b.nC) && Adjacent(p, q)
    ensures !((p, q) in Edges(b) && (q, p) in Edges(b))
    ensures NoDup(Edges(b))
  {
    EdgesMeans(b.nR, b.nC);
    EdgesCount(b.nR, b.nC);
  }
}
