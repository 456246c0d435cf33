/**
 * The island graph of logicpuzzles/broken/bridges/bridges.py.
 *
 * `solve` turns a board of clue numbers (0 for water) into a graph: every
 * nonzero cell is an island; from each island a downward scan and a
 * rightward scan each reach the first island in that direction, and that
 * pair becomes a bridge slot with an SMT variable of width
 * `(4*maxB).bit_length()`. `v_to_e` lists, per island, the indices of the
 * slots that touch it. Two slots cross when their segments meet without a
 * shared endpoint. The SMT variables are represented by the slot indices.
 */
module Bridges {
  import opened Py
  import Smt

  type Cell = (int, int)

  /** A bridge slot `(v0, v1, var)` without its variable: v0 is the scanning island. */
  datatype Slot = Slot(v0: Cell, v1: Cell)

  /** The graph built by `solve`: `vs`, the slots of `edges`, and `v_to_e`. */
  datatype Graph = Graph(islands: map<Cell, int>, slots: seq<Slot>, incident: map<Cell, seq<nat>>)

  /** `NC = len(board[0])` and `assert all(NC == len(b) for b in board)`. */
  predicate Rectangular(board: seq<seq<int>>)
  {
    |board| > 0 && forall r :: 0 <= r < |board| ==> |board[r]| == |board[0]|
  }

  predicate Island(board: seq<seq<int>>, p: Cell)
  {
    0 <= p.0 < |board| && 0 <= p.1 < |board[p.0]| && board[p.0][p.1] != 0
  }

  /** The first row from r down with a nonzero cell in column c. */
  function Below(board: seq<seq<int>>, c: nat, r: nat): (k: Option<nat>)
    requires Rectangular(board) && c < |board[0]|
    ensures k.Some? ==> r <= k.value < |board| && board[k.value][c] != 0 && forall m :: r <= m < k.value ==> board[m][c] == 0
    ensures k.None? ==> forall m :: r <= m < |board| ==> board[m][c] == 0
    decreases |board| - r
  {
    if r >= |board| then None
    else if board[r][c] != 0 then Some(r)
    else Below(board, c, r + 1)
  }

  /** The first column from c rightwards with a nonzero cell in row r. */
  function Beside(board: seq<seq<int>>, r: nat, c: nat): (k: Option<nat>)
    requires Rectangular(board) && r < |board|
    ensures k.Some? ==> c <= k.value < |board[0]| && board[r][k.value] != 0 && forall m :: c <= m < k.value ==> board[r][m] == 0
    ensures k.None? ==> forall m :: c <= m < |board[0]| ==> board[r][m] == 0
    decreases |board[0]| - c
  {
    if c >= |board[0]| then None
    else if board[r][c] != 0 then Some(c)
    else Beside(board, r, c + 1)
  }

  /**
   * A slot the construction can make: two islands in one column (v0
   * above) or in one row (v0 left), with only water between them.
   */
  predicate Spans(board: seq<seq<int>>, s: Slot)
    requires Rectangular(board)
  {
    && Island(board, s.v0) && Island(board, s.v1)
    && (|| (s.v0.1 == s.v1.1 && s.v0.0 < s.v1.0 && forall m :: s.v0.0 < m < s.v1.0 ==> board[m][s.v0.1] == 0)
        || (s.v0.0 == s.v1.0 && s.v0.1 < s.v1.1 && forall m :: s.v0.1 < m < s.v1.1 ==> board[s.v0.0][m] == 0))
  }

  /** The slots scanned from one cell: down first, then right. */
  function CellSlots(board: seq<seq<int>>, r: nat, c: nat): seq<Slot>
    requires Rectangular(board) && r < |board| && c < |board[0]|
  {
    if board[r][c] == 0 then []
    else
      (match Below(board, c, r + 1) case Some(k) => [Slot((r, c), (k, c))] case None => [])
      + (match Beside(board, r, c + 1) case Some(k) => [Slot((r, c), (r, k))] case None => [])
  }

  /** The slots scanned from the first n cells of row r. */
  function RowSlots(board: seq<seq<int>>, r: nat, n: nat): seq<Slot>
    requires Rectangular(board) && r < |board| && n <= |board[0]|
  {
    if n == 0 then [] else RowSlots(board, r, n - 1) + CellSlots(board, r, n - 1)
  }

  /** The slots scanned from the first n rows. */
  function GridSlots(board: seq<seq<int>>, n: nat): seq<Slot>
    requires Rectangular(board) && n <= |board|
  {
    if n == 0 then [] else GridSlots(board, n - 1) + RowSlots(board, n - 1, |board[0]|)
  }

  /** A slot is among those scanned from cell (r, c) exactly when it spans from there. */
  lemma CellSlotIn(board: seq<seq<int>>, r: nat, c: nat, s: Slot)
    requires Rectangular(board) && r < |board| && c < |board[0]|
    ensures s in CellSlots(board, r, c) <==> Spans(board, s) && s.v0.0 == r && s.v0.1 == c
  {
    if Spans(board, s) && s.v0.0 == r && s.v0.1 == c {
      if s.v0.1 == s.v1.1 && s.v0.0 < s.v1.0 {
        BelowIs(board, c, r + 1, s.v1.0);
      } else {
        BesideIs(board, r, c + 1, s.v1.1);
      }
    }
  }

  /** The scan stops at the first island: an island with only water before it is what it finds. */
  lemma {:induction false} BelowIs(board: seq<seq<int>>, c: nat, r: nat, k: nat)
    requires Rectangular(board) && c < |board[0]|
    requires r <= k < |board| && board[k][c] != 0 && forall m :: r <= m < k ==> board[m][c] == 0
    ensures Below(board, c, r) == Some(k)
    decreases k - r
  {
    if r < k {
      BelowIs(board, c, r + 1, k);
    }
  }

  lemma {:induction false} BesideIs(board: seq<seq<int>>, r: nat, c: nat, k: nat)
    requires Rectangular(board) && r < |board|
    requires c <= k < |board[0]| && board[r][k] != 0 && forall m :: c <= m < k ==> board[r][m] == 0
    ensures Beside(board, r, c) == Some(k)
    decreases k - c
  {
    if c < k {
      BesideIs(board, r, c + 1, k);
    }
  }

  lemma RowSlotsMeans(board: seq<seq<int>>, r: nat, n: nat)
    requires Rectangular(board) && r < |board| && n <= |board[0]|
    ensures forall s :: s in RowSlots(board, r, n) <==> Spans(board, s) && s.v0.0 == r && s.v0.1 < n
  {
    forall s: Slot
      ensures s in RowSlots(board, r, n) <==> Spans(board, s) && s.v0.0 == r && s.v0.1 < n
    {
      RowSlotIn(board, r, n, s);
    }
  }

  /** One slot is among the first n cells' slots of row r exactly when it spans from one of them. */
  lemma {:induction false} RowSlotIn(board: seq<seq<int>>, r: nat, n: nat, s: Slot)
    requires Rectangular(board) && r < |board| && n <= |board[0]|
    ensures s in RowSlots(board, r, n) <==> Spans(board, s) && s.v0.0 == r && s.v0.1 < n
  {
    if n > 0 {
      var a, b := RowSlots(board, r, n - 1), CellSlots(board, r, n - 1);
      RowSlotIn(board, r, n - 1, s);
      CellSlotIn(board, r, n - 1, s);
      JoinIn(RowSlots(board, r, n), a, b, s,
             Spans(board, s) && s.v0.0 == r && s.v0.1 < n - 1,
             Spans(board, s) && s.v0.0 == r && s.v0.1 == n - 1);
    }
  }

  lemma GridSlotsMeans(board: seq<seq<int>>, n: nat)
    requires Rectangular(board) && n <= |board|
    ensures forall s :: s in GridSlots(board, n) <==> Spans(board, s) && s.v0.0 < n
  {
    forall s: Slot
      ensures s in GridSlots(board, n) <==> Spans(board, s) && s.v0.0 < n
    {
      GridSlotIn(board, n, s);
    }
  }

  /** One slot is among the first n rows' slots exactly when it spans from one of them. */
  lemma GridSlotIn(board: seq<seq<int>>, n: nat, s: Slot)
    requires Rectangular(board) && n <= |board|
    ensures s in GridSlots(board, n) <==> Spans(board, s) && s.v0.0 < n
  {
    GridListed(board, n, s);
  }

  /** `s in GridSlots(board, n)`, kept behind a call so that only one unfolding is in view. */
  predicate InGrid(board: seq<seq<int>>, n: nat, s: Slot)
    requires Rectangular(board) && n <= |board|
  {
    s in GridSlots(board, n)
  }

  predicate InRow(board: seq<seq<int>>, r: nat, s: Slot)
    requires Rectangular(board) && r < |board|
  {
    s in RowSlots(board, r, |board[0]|)
  }

  lemma {:induction false} GridListed(board: seq<seq<int>>, n: nat, s: Slot)
    requires Rectangular(board) && n <= |board|
    ensures InGrid(board, n, s) <==> Spans(board, s) && s.v0.0 < n
  {
    if n > 0 {
      GridListed(board, n - 1, s);
      RowListed(board, n - 1, s);
      SpanOnBoard(board, s);
      GridStep(board, n, s);
    }
  }

  lemma RowListed(board: seq<seq<int>>, r: nat, s: Slot)
    requires Rectangular(board) && r < |board|
    ensures InRow(board, r, s) <==> Spans(board, s) && s.v0.0 == r && s.v0.1 < |board[0]|
  {
    RowSlotIn(board, r, |board[0]|, s);
  }

  /** The slots of the first n rows are those of the first n - 1 and those of row n - 1. */
  lemma GridStep(board: seq<seq<int>>, n: nat, s: Slot)
    requires Rectangular(board) && 0 < n <= |board|
    ensures InGrid(board, n, s) <==> InGrid(board, n - 1, s) || InRow(board, n - 1, s)
  {
  }

  /** Membership in a concatenation, from membership in its parts. */
  lemma JoinIn(g: seq<Slot>, a: seq<Slot>, b: seq<Slot>, s: Slot, inA: bool, inB: bool)
    requires g == a + b && (s in a <==> inA) && (s in b <==> inB)
    ensures s in g <==> inA || inB
  {
  }

  /** A slot starts on the board. */
  lemma SpanOnBoard(board: seq<seq<int>>, s: Slot)
    requires Rectangular(board)
    ensures Spans(board, s) ==> 0 <= s.v0.0 < |board| && 0 <= s.v0.1 < |board[0]|
  {
    if Spans(board, s) {
      assert Island(board, s.v0);
    }
  }

  /**
   * The whole board's slots are exactly the pairs of islands in one row or
   * column with only water between them.
   */
  lemma SlotsMeans(board: seq<seq<int>>)
    requires Rectangular(board)
    ensures forall s :: s in GridSlots(board, |board|) <==> Spans(board, s)
  {
    GridSlotsMeans(board, |board|);
  }

  /** `v_to_e.setdefault(v, [])`. */
  function Get(m: map<Cell, seq<nat>>, v: Cell): seq<nat>
  {
    if v in m then m[v] else []
  }

  predicate Touches(s: Slot, v: Cell)
  {
    s.v0 == v || s.v1 == v
  }

  /** The indices of the slots that touch island v, in the order they were appended. */
  function Incident(slots: seq<Slot>, v: Cell): seq<nat>
  {
    if slots == [] then []
    else
      var n := |slots| - 1;
      Incident(slots[..n], v) + (if Touches(slots[n], v) then [n] else [])
  }

  /** `v_to_e` holds the incidence list of every touched island, and no other key. */
  ghost predicate Lists(incident: map<Cell, seq<nat>>, slots: seq<Slot>)
  {
    forall v :: Get(incident, v) == Incident(slots, v) && (v in incident ==> Incident(slots, v) != [])
  }

  /**
   * The list of an island holds, in ascending order, exactly the indices
   * of the slots that touch it.
   */
  lemma {:induction false} IncidentMeans(slots: seq<Slot>, v: Cell)
    ensures forall i :: i in Incident(slots, v) <==> 0 <= i < |slots| && Touches(slots[i], v)
    ensures Ascending(Incident(slots, v))
  {
    if slots != [] {
      var n := |slots| - 1;
      var init := slots[..n];
      IncidentMeans(init, v);
      var g := Incident(init, v);
      forall i
        ensures i in Incident(slots, v) <==> 0 <= i < |slots| && Touches(slots[i], v)
      {
        if 0 <= i < n {
          assert init[i] == slots[i];
        }
      }
      forall a | 0 <= a < |g|
        ensures g[a] < n
      {
        var x := g[a];
        assert x in g;
      }
    }
  }

  predicate Before(p: Cell, r: int, c: int)
  {
    p.0 < r || (p.0 == r && p.1 < c)
  }

  /** `vs` holds the islands before cell (r, c) in row-major order, with their numbers. */
  ghost predicate Recorded(board: seq<seq<int>>, vs: map<Cell, int>, r: int, c: int)
  {
    && (forall p :: p in vs <==> Island(board, p) && Before(p, r, c))
    && (forall p :: p in vs ==> Island(board, p) && vs[p] == board[p.0][p.1])
  }

  lemma RecordStep(board: seq<seq<int>>, vs: map<Cell, int>, r: nat, c: nat)
    requires Rectangular(board) && r < |board| && c < |board[0]| && Recorded(board, vs, r, c)
    ensures Recorded(board, if board[r][c] != 0 then vs[(r, c) := board[r][c]] else vs, r, c + 1)
  {
  }

  lemma RecordRow(board: seq<seq<int>>, vs: map<Cell, int>, r: nat)
    requires Rectangular(board) && r < |board| && Recorded(board, vs, r, |board[0]|)
    ensures Recorded(board, vs, r + 1, 0)
  {
  }

  /** The first island in column ci below row ri: the `while True` scan over r. */
  method ScanDown(board: seq<seq<int>>, ri: nat, ci: nat) returns (k: Option<nat>)
    requires Rectangular(board) && ri < |board| && ci < |board[0]|
    ensures k == Below(board, ci, ri + 1)
  {
    var r := ri;
    while true
      invariant ri <= r < |board|
      invariant Below(board, ci, ri + 1) == Below(board, ci, r + 1)
      decreases |board| - r
    {
      r := r + 1;
      if r >= |board| {
        return None;
      }
      if board[r][ci] == 0 {
        continue;
      }
      return Some(r);
    }
  }

  /** The first island in row ri right of column ci: the `while True` scan over c. */
  method ScanRight(board: seq<seq<int>>, ri: nat, ci: nat) returns (k: Option<nat>)
    requires Rectangular(board) && ri < |board| && ci < |board[0]|
    ensures k == Beside(board, ri, ci + 1)
  {
    var c := ci;
    while true
      invariant ci <= c < |board[0]|
      invariant Beside(board, ri, ci + 1) == Beside(board, ri, c + 1)
      decreases |board[0]| - c
    {
      c := c + 1;
      if c >= |board[0]| {
        return None;
      }
      if board[ri][c] == 0 {
        continue;
      }
      return Some(c);
    }
  }

  /** `edges.append(data)` and the two `v_to_e` appends of index ei. */
  method AddSlot(slots: seq<Slot>, incident: map<Cell, seq<nat>>, s: Slot) returns (slots': seq<Slot>, incident': map<Cell, seq<nat>>)
    requires Lists(incident, slots) && s.v0 != s.v1
    ensures slots' == slots + [s] && Lists(incident', slots')
  {
    var ei := |slots|;
    incident' := incident[s.v0 := Get(incident, s.v0) + [ei]];
    incident' := incident'[s.v1 := Get(incident', s.v1) + [ei]];
    slots' := slots + [s];
    assert slots'[..ei] == slots;
    forall v
      ensures Get(incident', v) == Incident(slots', v) && (v in incident' ==> Incident(slots', v) != [])
    {
      assert Incident(slots', v) == Incident(slots, v) + (if Touches(s, v) then [ei] else []);
    }
  }

  /** The slots scanned from one island, appended in order. */
  method VisitIsland(board: seq<seq<int>>, ri: nat, ci: nat, slots: seq<Slot>, incident: map<Cell, seq<nat>>)
    returns (slots': seq<Slot>, incident': map<Cell, seq<nat>>)
    requires Rectangular(board) && ri < |board| && ci < |board[0]| && board[ri][ci] != 0
    requires Lists(incident, slots)
    ensures slots' == slots + CellSlots(board, ri, ci) && Lists(incident', slots')
  {
    slots', incident' := slots, incident;
    var down := ScanDown(board, ri, ci);
    if down.Some? {
      slots', incident' := AddSlot(slots', incident', Slot((ri, ci), (down.value, ci)));
    }
    var right := ScanRight(board, ri, ci);
    if right.Some? {
      slots', incident' := AddSlot(slots', incident', Slot((ri, ci), (ri, right.value)));
    }
  }

  /** One cell of the row loop: water is skipped, an island is recorded and scanned from. */
  method VisitCell(board: seq<seq<int>>, ri: nat, ci: nat, vs: map<Cell, int>, slots: seq<Slot>, incident: map<Cell, seq<nat>>)
    returns (vs': map<Cell, int>, slots': seq<Slot>, incident': map<Cell, seq<nat>>)
    requires Rectangular(board) && ri < |board| && ci < |board[0]| && Recorded(board, vs, ri, ci)
    requires Lists(incident, slots)
    ensures Recorded(board, vs', ri, ci + 1)
    ensures slots' == slots + CellSlots(board, ri, ci) && Lists(incident', slots')
  {
    RecordStep(board, vs, ri, ci);
    if board[ri][ci] == 0 {
      return vs, slots, incident;
    }
    vs' := vs[(ri, ci) := board[ri][ci]];
    slots', incident' := VisitIsland(board, ri, ci, slots, incident);
  }

  /** `for ci, v in enumerate(row)` over row ri. */
  method VisitRow(board: seq<seq<int>>, ri: nat, vs: map<Cell, int>, slots: seq<Slot>, incident: map<Cell, seq<nat>>)
    returns (vs': map<Cell, int>, slots': seq<Slot>, incident': map<Cell, seq<nat>>)
    requires Rectangular(board) && ri < |board| && Recorded(board, vs, ri, 0)
    requires Lists(incident, slots)
    ensures Recorded(board, vs', ri + 1, 0)
    ensures slots' == slots + RowSlots(board, ri, |board[0]|) && Lists(incident', slots')
  {
    vs', slots', incident' := vs, slots, incident;
    for ci := 0 to |board[0]|
      invariant Recorded(board, vs', ri, ci)
      invariant slots' == slots + RowSlots(board, ri, ci) && Lists(incident', slots')
    {
      vs', slots', incident' := VisitCell(board, ri, ci, vs', slots', incident');
      RowSlotsStep(board, ri, ci, slots);
    }
    RecordRow(board, vs', ri);
  }

  /** Appending the slots of cell c extends those of the row's first c cells. */
  lemma RowSlotsStep(board: seq<seq<int>>, r: nat, c: nat, slots: seq<Slot>)
    requires Rectangular(board) && r < |board| && c < |board[0]|
    ensures slots + RowSlots(board, r, c + 1) == (slots + RowSlots(board, r, c)) + CellSlots(board, r, c)
  {
    assert RowSlots(board, r, c + 1) == RowSlots(board, r, c) + CellSlots(board, r, c);
  }

  /** Appending the slots of row n extends those of the first n rows. */
  lemma GridSlotsStep(board: seq<seq<int>>, n: nat)
    requires Rectangular(board) && n < |board|
    ensures GridSlots(board, n + 1) == GridSlots(board, n) + RowSlots(board, n, |board[0]|)
  {
  }

  /**
   * The graph construction of `solve`. An empty board fails on
   * `board[0]` (IndexError) and a ragged one on the row-length assert
   * (AssertionError). Otherwise the islands are the nonzero cells with
   * their numbers, the slots are those scanned in row-major order, and
   * `v_to_e` is their incidence lists.
   */
  method BuildGraph(board: seq<seq<int>>) returns (r: Result<Graph>)
    ensures board == [] ==> r == Err(IndexError)
    ensures board != [] && !Rectangular(board) ==> r == Err(AssertionError)
    ensures Rectangular(board) ==> r.Ok?
    ensures r.Ok? ==>
              && Rectangular(board)
              && (forall p :: p in r.value.islands <==> Island(board, p))
              && (forall p :: p in r.value.islands ==> Island(board, p) && r.value.islands[p] == board[p.0][p.1])
              && r.value.slots == GridSlots(board, |board|)
              && Lists(r.value.incident, r.value.slots)
  {
    if board == [] {
      return Err(IndexError);
    }
    if !Rectangular(board) {
      return Err(AssertionError);
    }
    var vs: map<Cell, int> := map[];
    var slots: seq<Slot> := [];
    var incident: map<Cell, seq<nat>> := map[];
    for ri := 0 to |board|
      invariant Recorded(board, vs, ri, 0)
      invariant slots == GridSlots(board, ri) && Lists(incident, slots)
    {
      vs, slots, incident := VisitRow(board, ri, vs, slots, incident);
      GridSlotsStep(board, ri);
    }
    return Ok(Graph(vs, slots, incident));
  }

  // ---------------------------------------------------------------------
  // Crossing slots
  // ---------------------------------------------------------------------

  /** `any(all_v.count(v) > 1 for v in all_v)` over the four endpoints. */
  predicate SharedPoint(a0: Cell, a1: Cell, b0: Cell, b1: Cell)
  {
    a0 == a1 || a0 == b0 || a0 == b1 || a1 == b0 || a1 == b1 || b0 == b1
  }

  /** `all_v.count(v)`. */
  function Count(all: seq<Cell>, v: Cell): nat
  {
    if all == [] then 0 else (if all[0] == v then 1 else 0) + Count(all[1..], v)
  }

  /** The pre-check is true exactly when some endpoint occurs more than once among the four. */
  lemma SharedPointMeans(a0: Cell, a1: Cell, b0: Cell, b1: Cell)
    ensures SharedPoint(a0, a1, b0, b1) <==> exists v :: v in [a0, a1, b0, b1] && Count([a0, a1, b0, b1], v) > 1
  {
    var all := [a0, a1, b0, b1];
    assert all[1..] == [a1, b0, b1] && all[2..] == [b0, b1] && all[3..] == [b1] && all[4..] == [];
    forall v
      ensures Count(all, v) == (if a0 == v then 1 else 0) + (if a1 == v then 1 else 0) + (if b0 == v then 1 else 0) + (if b1 == v then 1 else 0)
    {
      assert Count(all[3..], v) == (if b1 == v then 1 else 0) + Count(all[4..], v);
      assert Count(all[2..], v) == (if b0 == v then 1 else 0) + Count(all[3..], v);
      assert Count(all[1..], v) == (if a1 == v then 1 else 0) + Count(all[2..], v);
    }
    if SharedPoint(a0, a1, b0, b1) {
      var v := if a0 == a1 || a0 == b0 || a0 == b1 then a0 else if a1 == b0 || a1 == b1 then a1 else b0;
      assert v in all && Count(all, v) > 1;
    } else {
      forall v | v in all
        ensures Count(all, v) <= 1
      {
      }
    }
  }

  /** A segment along one row or one column. */
  predicate Axis(a0: Cell, a1: Cell)
  {
    a0.0 == a1.0 || a0.1 == a1.1
  }

  function Min(a: int, b: int): int { if a <= b then a else b }

  function Max(a: int, b: int): int { if a <= b then b else a }

  /** The point p lies on the closed segment from a0 to a1 along a row or column. */
  predicate OnSegment(p: Cell, a0: Cell, a1: Cell)
  {
    Min(a0.0, a1.0) <= p.0 <= Max(a0.0, a1.0) && Min(a0.1, a1.1) <= p.1 <= Max(a0.1, a1.1)
  }

  /** `LineString([a0, a1]).intersects(LineString([b0, b1]))` for segments along rows or columns. */
  predicate Meet(a0: Cell, a1: Cell, b0: Cell, b1: Cell)
    requires Axis(a0, a1) && Axis(b0, b1)
  {
    && Min(a0.0, a1.0) <= Max(b0.0, b1.0) && Min(b0.0, b1.0) <= Max(a0.0, a1.0)
    && Min(a0.1, a1.1) <= Max(b0.1, b1.1) && Min(b0.1, b1.1) <= Max(a0.1, a1.1)
  }

  /** Two axis-parallel segments meet exactly when some grid point lies on both. */
  lemma MeetMeans(a0: Cell, a1: Cell, b0: Cell, b1: Cell)
    requires Axis(a0, a1) && Axis(b0, b1)
    ensures Meet(a0, a1, b0, b1) <==> exists p :: OnSegment(p, a0, a1) && OnSegment(p, b0, b1)
  {
    if Meet(a0, a1, b0, b1) {
      var p := (Max(Min(a0.0, a1.0), Min(b0.0, b1.0)), Max(Min(a0.1, a1.1), Min(b0.1, b1.1)));
      assert OnSegment(p, a0, a1) && OnSegment(p, b0, b1);
    }
  }

  /** `intersects(v0_a, v1_a, v0_b, v1_b)`: segments that meet without sharing an endpoint. */
  predicate Intersects(a: Slot, b: Slot)
    requires Axis(a.v0, a.v1) && Axis(b.v0, b.v1)
  {
    if SharedPoint(a.v0, a.v1, b.v0, b.v1) then false else Meet(a.v0, a.v1, b.v0, b.v1)
  }

  lemma IntersectsSymmetric(a: Slot, b: Slot)
    requires Axis(a.v0, a.v1) && Axis(b.v0, b.v1)
    ensures Intersects(a, b) == Intersects(b, a)
  {
  }

  predicate Vertical(s: Slot)
  {
    s.v0.1 == s.v1.1
  }

  /**
   * Two slots of the board that cross are one vertical and one
   * horizontal: parallel slots meeting without a shared endpoint would
   * have an island strictly between the ends of one of them.
   */
  lemma CrossingsArePerpendicular(board: seq<seq<int>>, a: Slot, b: Slot)
    requires Rectangular(board) && Spans(board, a) && Spans(board, b)
    ensures Axis(a.v0, a.v1) && Axis(b.v0, b.v1)
    ensures Intersects(a, b) ==> Vertical(a) != Vertical(b)
  {
    if Intersects(a, b) && Vertical(a) && Vertical(b) {
    } else if Intersects(a, b) && !Vertical(a) && !Vertical(b) {
    }
  }

  predicate LexLess(p: (nat, nat), q: (nat, nat))
  {
    p.0 < q.0 || (p.0 == q.0 && p.1 < q.1)
  }

  /**
   * The loop over `it.combinations(edges, 2)` that adds a constraint for
   * every crossing pair: the index pairs i < j of crossing slots, in the
   * order `combinations` produces them.
   */
  method Crossings(slots: seq<Slot>) returns (pairs: seq<(nat, nat)>)
    requires forall i :: 0 <= i < |slots| ==> Axis(slots[i].v0, slots[i].v1)
    ensures forall i, j :: (i, j) in pairs <==> 0 <= i < j < |slots| && Intersects(slots[i], slots[j])
    ensures forall a, b :: 0 <= a < b < |pairs| ==> LexLess(pairs[a], pairs[b])
  {
    pairs := [];
    for i := 0 to |slots|
      invariant Found(slots, pairs, i, i + 1) && Ordered(pairs) && AllBefore(pairs, i, i + 1)
    {
      for j := i + 1 to |slots|
        invariant Found(slots, pairs, i, j) && Ordered(pairs) && AllBefore(pairs, i, j)
      {
        CrossStep(slots, pairs, i, j);
        if Intersects(slots[i], slots[j]) {
          pairs := pairs + [(i, j)];
        }
      }
      RowDone(slots, pairs, i);
    }
  }

  /** The crossing pairs (a, b) with a < b that come before (i, j) in the order of `combinations`. */
  ghost predicate Found(slots: seq<Slot>, pairs: seq<(nat, nat)>, i: nat, j: nat)
    requires forall i :: 0 <= i < |slots| ==> Axis(slots[i].v0, slots[i].v1)
  {
    forall a: nat, b: nat :: (a, b) in pairs <==> a < b < |slots| && (a < i || (a == i && b < j)) && Intersects(slots[a], slots[b])
  }

  predicate Ordered(pairs: seq<(nat, nat)>)
  {
    forall a, b :: 0 <= a < b < |pairs| ==> LexLess(pairs[a], pairs[b])
  }

  predicate AllBefore(pairs: seq<(nat, nat)>, i: nat, j: nat)
  {
    forall k :: 0 <= k < |pairs| ==> LexLess(pairs[k], (i, j))
  }

  /** One pass of the inner loop keeps the pairs found, ordered and before the next pair. */
  lemma CrossStep(slots: seq<Slot>, pairs: seq<(nat, nat)>, i: nat, j: nat)
    requires forall i :: 0 <= i < |slots| ==> Axis(slots[i].v0, slots[i].v1)
    requires i < j < |slots| && Found(slots, pairs, i, j) && Ordered(pairs) && AllBefore(pairs, i, j)
    ensures var p := if Intersects(slots[i], slots[j]) then pairs + [(i, j)] else pairs;
            Found(slots, p, i, j + 1) && Ordered(p) && AllBefore(p, i, j + 1)
  {
    if Intersects(slots[i], slots[j]) {
      var p := pairs + [(i, j)];
      forall a: nat, b: nat
        ensures (a, b) in p <==> a < b < |slots| && (a < i || (a == i && b < j + 1)) && Intersects(slots[a], slots[b])
      {
        InAppend(pairs, [(i, j)], (a, b));
        assert (a, b) in [(i, j)] <==> a == i && b == j;
      }
      forall a, b | 0 <= a < b < |p|
        ensures LexLess(p[a], p[b])
      {
        assert p[a] == pairs[a];
        if b < |pairs| {
          assert p[b] == pairs[b];
        }
      }
      forall k | 0 <= k < |p|
        ensures LexLess(p[k], (i, j + 1))
      {
        if k < |pairs| {
          assert p[k] == pairs[k];
        }
      }
    } else {
      forall a: nat, b: nat
        ensures (a, b) in pairs <==> a < b < |slots| && (a < i || (a == i && b < j + 1)) && Intersects(slots[a], slots[b])
      {
      }
    }
  }

  /** The end of the inner loop is the start of the next row of pairs. */
  lemma RowDone(slots: seq<Slot>, pairs: seq<(nat, nat)>, i: nat)
    requires forall i :: 0 <= i < |slots| ==> Axis(slots[i].v0, slots[i].v1)
    requires i < |slots| && Found(slots, pairs, i, |slots|) && AllBefore(pairs, i, |slots|)
    ensures Found(slots, pairs, i + 1, i + 2) && AllBefore(pairs, i + 1, i + 2)
  {
  }

  // ---------------------------------------------------------------------
  // Bit width of the bridge variables
  // ---------------------------------------------------------------------

  /** Python's `n.bit_length()` for n >= 0. */
  function BitLength(n: nat): nat
  {
    if n == 0 then 0 else 1 + BitLength(n / 2)
  }

  /** `(4*maxB).bit_length()`: Python counts the bits of the magnitude. */
  function Width(maxB: int): nat
  {
    BitLength(if maxB < 0 then -4 * maxB else 4 * maxB)
  }

  /** `bit_length` is the least width whose range holds n. */
  lemma {:induction false} BitLengthBounds(n: nat)
    ensures n < Smt.Pow2(BitLength(n))
    ensures n > 0 ==> Smt.Pow2(BitLength(n) - 1) <= n
  {
    if n > 0 {
      BitLengthBounds(n / 2);
    }
  }

  /** The last island in column c above row r. */
  function Above(board: seq<seq<int>>, c: nat, r: int): (k: Option<nat>)
    requires Rectangular(board) && c < |board[0]| && r <= |board|
    ensures k.Some? ==> k.value < r && board[k.value][c] != 0
    decreases r
  {
    if r <= 0 then None
    else if board[r - 1][c] != 0 then Some(r - 1)
    else Above(board, c, r - 1)
  }

  /** The last island in row r left of column c. */
  function Left(board: seq<seq<int>>, r: nat, c: int): (k: Option<nat>)
    requires Rectangular(board) && r < |board| && c <= |board[0]|
    ensures k.Some? ==> k.value < c && board[r][k.value] != 0
    decreases c
  {
    if c <= 0 then None
    else if board[r][c - 1] != 0 then Some(c - 1)
    else Left(board, r, c - 1)
  }

  lemma {:induction false} AboveIs(board: seq<seq<int>>, c: nat, r: int, k: nat)
    requires Rectangular(board) && c < |board[0]| && r <= |board|
    requires k < r && board[k][c] != 0 && forall m :: k < m < r ==> board[m][c] == 0
    ensures Above(board, c, r) == Some(k)
    decreases r
  {
    if k < r - 1 {
      AboveIs(board, c, r - 1, k);
    }
  }

  lemma {:induction false} LeftIs(board: seq<seq<int>>, r: nat, c: int, k: nat)
    requires Rectangular(board) && r < |board| && c <= |board[0]|
    requires k < c && board[r][k] != 0 && forall m :: k < m < c ==> board[r][m] == 0
    ensures Left(board, r, c) == Some(k)
    decreases c
  {
    if k < c - 1 {
      LeftIs(board, r, c - 1, k);
    }
  }

  function OptionSlot(k: Option<nat>, f: nat -> Slot): seq<Slot>
  {
    match k case Some(x) => [f(x)] case None => []
  }

  /** The at most four slots an island can have: down, right, up and left. */
  function Candidates(board: seq<seq<int>>, v: Cell): (cs: seq<Slot>)
    requires Rectangular(board)
    ensures |cs| <= 4
  {
    if !Island(board, v) then []
    else
      var (r, c) := v;
      OptionSlot(Below(board, c, r + 1), k => Slot(v, (k, c)))
      + OptionSlot(Beside(board, r, c + 1), k => Slot(v, (r, k)))
      + OptionSlot(Above(board, c, r), k => Slot((k, c), v))
      + OptionSlot(Left(board, r, c), k => Slot((r, k), v))
  }

  /** Every slot touching an island is one of its candidates. */
  lemma InCandidates(board: seq<seq<int>>, s: Slot, v: Cell)
    requires Rectangular(board) && Spans(board, s) && Touches(s, v)
    ensures s in Candidates(board, v)
  {
    var (r, c) := v;
    if s.v0 == v && Vertical(s) {
      BelowIs(board, c, r + 1, s.v1.0);
    } else if s.v0 == v {
      BesideIs(board, r, c + 1, s.v1.1);
    } else if Vertical(s) {
      AboveIs(board, c, r, s.v0.0);
    } else {
      LeftIs(board, r, c, s.v0.1);
    }
  }

  lemma NoDupConcat<T>(a: seq<T>, b: seq<T>)
    requires NoDup(a) && NoDup(b) && forall x :: x in a ==> x !in b
    ensures NoDup(a + b)
  {
    forall i, j | 0 <= i < j < |a + b|
      ensures (a + b)[i] != (a + b)[j]
    {
      if i < |a| && j >= |a| {
        assert (a + b)[i] in a && (a + b)[j] == b[j - |a|];
      }
    }
  }

  lemma CellSlotsFrom(board: seq<seq<int>>, r: nat, c: nat)
    requires Rectangular(board) && r < |board| && c < |board[0]|
    ensures forall x :: x in CellSlots(board, r, c) ==> x.v0 == (r, c)
  {
  }

  lemma RowSlotsFrom(board: seq<seq<int>>, r: nat, n: nat)
    requires Rectangular(board) && r < |board| && n <= |board[0]|
    ensures forall x :: x in RowSlots(board, r, n) ==> x.v0.0 == r && x.v0.1 < n
  {
    forall x | x in RowSlots(board, r, n)
      ensures x.v0.0 == r && x.v0.1 < n
    {
      RowSlotIn(board, r, n, x);
    }
  }

  lemma GridSlotsFrom(board: seq<seq<int>>, n: nat)
    requires Rectangular(board) && n <= |board|
    ensures forall x :: x in GridSlots(board, n) ==> x.v0.0 < n
  {
    forall x | x in GridSlots(board, n)
      ensures x.v0.0 < n
    {
      GridSlotIn(board, n, x);
    }
  }

  lemma CellSlotsDistinct(board: seq<seq<int>>, r: nat, c: nat)
    requires Rectangular(board) && r < |board| && c < |board[0]|
    ensures NoDup(CellSlots(board, r, c))
  {
  }

  lemma RowSlotsDistinct(board: seq<seq<int>>, r: nat, n: nat)
    requires Rectangular(board) && r < |board| && n <= |board[0]|
    ensures NoDup(RowSlots(board, r, n))
  {
    RowUnique(board, r, n);
  }

  /** `NoDup(RowSlots(board, r, n))`, kept behind a call so that only one unfolding is in view. */
  ghost predicate RowNoDup(board: seq<seq<int>>, r: nat, n: nat)
    requires Rectangular(board) && r < |board| && n <= |board[0]|
  {
    NoDup(RowSlots(board, r, n))
  }

  ghost predicate GridNoDup(board: seq<seq<int>>, n: nat)
    requires Rectangular(board) && n <= |board|
  {
    NoDup(GridSlots(board, n))
  }

  lemma {:induction false} RowUnique(board: seq<seq<int>>, r: nat, n: nat)
    requires Rectangular(board) && r < |board| && n <= |board[0]|
    ensures RowNoDup(board, r, n)
  {
    if n > 0 {
      RowUnique(board, r, n - 1);
      CellSlotsDistinct(board, r, n - 1);
      RowCellApart(board, r, n - 1);
      NoDupConcat(RowSlots(board, r, n - 1), CellSlots(board, r, n - 1));
    }
  }

  /** The slots of the first c cells of a row do not start at cell c. */
  lemma RowCellApart(board: seq<seq<int>>, r: nat, c: nat)
    requires Rectangular(board) && r < |board| && c < |board[0]|
    ensures forall x :: x in RowSlots(board, r, c) ==> x !in CellSlots(board, r, c)
  {
    RowSlotsFrom(board, r, c);
    CellSlotsFrom(board, r, c);
  }

  lemma GridSlotsDistinct(board: seq<seq<int>>, n: nat)
    requires Rectangular(board) && n <= |board|
    ensures NoDup(GridSlots(board, n))
  {
    GridUnique(board, n);
  }

  lemma {:induction false} GridUnique(board: seq<seq<int>>, n: nat)
    requires Rectangular(board) && n <= |board|
    ensures GridNoDup(board, n)
  {
    if n > 0 {
      GridUnique(board, n - 1);
      RowSlotsDistinct(board, n - 1, |board[0]|);
      GridRowApart(board, n - 1);
      NoDupConcat(GridSlots(board, n - 1), RowSlots(board, n - 1, |board[0]|));
    }
  }

  /** The slots of the first n rows do not start in row n. */
  lemma GridRowApart(board: seq<seq<int>>, n: nat)
    requires Rectangular(board) && n < |board|
    ensures forall x :: x in GridSlots(board, n) ==> x !in RowSlots(board, n, |board[0]|)
  {
    GridSlotsFrom(board, n);
    RowSlotsFrom(board, n, |board[0]|);
  }

  /** No island of the built graph touches more than four slots. */
  lemma DegreeAtMostFour(board: seq<seq<int>>, v: Cell)
    requires Rectangular(board)
    ensures |Incident(GridSlots(board, |board|), v)| <= 4
  {
    var slots := GridSlots(board, |board|);
    SlotsMeans(board);
    GridSlotsDistinct(board, |board|);
    IncidentMeans(slots, v);
    var inc := Incident(slots, v);
    assert forall k :: 0 <= k < |inc| ==> inc[k] in inc;
    var q := seq(|inc|, k requires 0 <= k < |inc| => slots[inc[k]]);
    var cands := Candidates(board, v);
    forall x | x in Elements(q)
      ensures x in Elements(cands)
    {
      var k :| 0 <= k < |q| && q[k] == x;
      assert slots[inc[k]] in slots;
      InCandidates(board, x, v);
      ElementsIn(cands);
    }
    DistinctCard(q);
    ElementsBound(cands);
    SubsetCard(Elements(q), Elements(cands));
  }

  /** `sum([edges[ei][2] for ei in eis], BV0)` in width w: the bridge counts added modulo 2^w. */
  function BVSum(w: nat, counts: seq<nat>, eis: seq<nat>): (r: int)
    requires forall k :: 0 <= k < |eis| ==> eis[k] < |counts|
  {
    Smt.ToBV(w, Sum(counts, eis))
  }

  function Sum(counts: seq<nat>, eis: seq<nat>): nat
    requires forall k :: 0 <= k < |eis| ==> eis[k] < |counts|
  {
    if eis == [] then 0 else counts[eis[0]] + Sum(counts, eis[1..])
  }

  lemma {:induction false} SumBound(counts: seq<nat>, eis: seq<nat>, maxB: nat, n: nat)
    requires forall k :: 0 <= k < |eis| ==> eis[k] < |counts| && counts[eis[k]] <= maxB
    requires |eis| <= n
    ensures Sum(counts, eis) <= n * maxB
  {
    if eis != [] {
      SumBound(counts, eis[1..], maxB, n - 1);
      assert (n - 1) * maxB + maxB == n * maxB;
    }
  }

  /**
   * The width `(4*maxB).bit_length()` is enough: with every bridge count
   * at most maxB, the bit-vector sum at any island of the built graph is
   * the true sum, so the island constraints do not wrap around.
   */
  lemma IslandSumExact(board: seq<seq<int>>, maxB: nat, counts: seq<nat>, v: Cell)
    requires Rectangular(board)
    requires |counts| == |GridSlots(board, |board|)| && forall i :: 0 <= i < |counts| ==> counts[i] <= maxB
    ensures forall k :: 0 <= k < |Incident(GridSlots(board, |board|), v)| ==> Incident(GridSlots(board, |board|), v)[k] < |counts|
    ensures BVSum(Width(maxB), counts, Incident(GridSlots(board, |board|), v)) == Sum(counts, Incident(GridSlots(board, |board|), v))
  {
    var slots := GridSlots(board, |board|);
    var inc := Incident(slots, v);
    IncidentMeans(slots, v);
    assert forall k :: 0 <= k < |inc| ==> inc[k] in inc;
    DegreeAtMostFour(board, v);
    SumBound(counts, inc, maxB, 4);
    BitLengthBounds(4 * maxB);
    Smt.ToBVFits(Width(maxB), Sum(counts, inc));
  }
}
