/** What a reader of a route layout may rely on. */
module RouteLayoutProperties {
  import opened Graph
  import opened Grouping
  import opened RouteLayout
  import UnionFind

  /** Later blocks start past a spacer column after earlier ones. */
  lemma {:induction false} BlocksAscend(pointIds: seq<Id>, depth: map<Id, nat>, group: map<Id, nat>, blocks: seq<Block>, i: nat, j: nat)
    requires BlocksLaid(pointIds, depth, group, blocks) && i < j < |blocks|
    ensures blocks[i].End() < blocks[j].base
    decreases j
  {
    if i < j - 1 {
      BlocksAscend(pointIds, depth, group, blocks, i, j - 1);
    }
  }

  /** The block of a point, and where in it the point sits. */
  lemma PlacedIn(pointIds: seq<Id>, edges: seq<LayeringEdge>, split: bool, plan: Plan, layout: Layout, id: Id) returns (block: Block)
    requires IsLayout(pointIds, edges, split, plan, layout) && id in pointIds
    ensures id in plan.group && id in plan.index && id in layout.nodes && plan.group[id] < |plan.blocks|
    ensures block == plan.blocks[plan.group[id]]
    ensures block.base <= layout.nodes[id].col < block.End()
    ensures NodeIn(Bucket(pointIds, plan.group, plan.group[id]), plan.depth, block, id, plan.index[id], layout.nodes[id])
    ensures DepthRanks(Bucket(pointIds, plan.group, plan.group[id]), plan.depth, block.depths)
  {
    assert id in plan.group;
    if split {
      assert plan.index[id] < layout.componentCount;
    }
    assert NodePlaced(pointIds, plan.depth, plan.group, plan.index, plan.blocks, layout.nodes, id);
    block := plan.blocks[plan.group[id]];
  }

  lemma GroupsLeftToRight(pointIds: seq<Id>, edges: seq<LayeringEdge>, split: bool, plan: Plan, layout: Layout, u: Id, v: Id)
    requires IsLayout(pointIds, edges, split, plan, layout) && u in pointIds && v in pointIds
    requires u in plan.group && v in plan.group && plan.group[u] < plan.group[v]
    ensures u in layout.nodes && v in layout.nodes && plan.group[u] < |plan.blocks|
    ensures layout.nodes[u].col < plan.blocks[plan.group[u]].End() < layout.nodes[v].col
  {
    var a := PlacedIn(pointIds, edges, split, plan, layout, u);
    var b := PlacedIn(pointIds, edges, split, plan, layout, v);
    BlocksAscend(pointIds, plan.depth, plan.group, plan.blocks, plan.group[u], plan.group[v]);
  }

  lemma OneNodePerCell(ids: seq<Id>, depth: map<Id, nat>, block: Block, u: Id, v: Id, j: nat, k: nat, a: Node, b: Node)
    requires NodeIn(ids, depth, block, u, j, a) && NodeIn(ids, depth, block, v, k, b)
    requires a.col == b.col && a.row == b.row
    ensures u == v
  {
  }

  /** Inside a block the columns compare as the depths do. */
  lemma ColumnsRankDepths(ids: seq<Id>, depth: map<Id, nat>, block: Block, u: Id, v: Id, j: nat, k: nat, a: Node, b: Node)
    requires NodeIn(ids, depth, block, u, j, a) && NodeIn(ids, depth, block, v, k, b) && DepthRanks(ids, depth, block.depths)
    ensures depth[u] < depth[v] <==> a.col < b.col
  {
    var x, y := a.col - block.base, b.col - block.base;
    assert block.depths[x] == depth[u] && block.depths[y] == depth[v];
  }

  lemma ColumnOfDepth(ids: seq<Id>, depth: map<Id, nat>, block: Block, id: Id, k: nat, node: Node, x: nat)
    requires NodeIn(ids, depth, block, id, k, node) && DepthRanks(ids, depth, block.depths)
    requires x < |block.depths| && depth[id] == block.depths[x]
    ensures node.col == block.base + x
  {
    var y := node.col - block.base;
    assert block.depths[y] == depth[id];
  }

  lemma ColumnHasMember(pointIds: seq<Id>, depth: map<Id, nat>, group: map<Id, nat>, blocks: seq<Block>, i: nat, x: nat) returns (id: Id)
    requires BlocksLaid(pointIds, depth, group, blocks) && i < |blocks| && x < |blocks[i].depths|
    ensures id in pointIds && id in group && group[id] == i && id in depth && depth[id] == blocks[i].depths[x]
  {
    var ids, depths := Bucket(pointIds, group, i), blocks[i].depths;
    assert DepthRanks(ids, depth, depths);
    var d := depths[x];
    assert d in depths;
    assert d in KeysOf(ids, depth);
    id :| id in ids && id in depth && depth[id] == d;
  }

  /** No two points share a cell of the grid. */
  lemma NoSharedCell(pointIds: seq<Id>, edges: seq<LayeringEdge>, split: bool, plan: Plan, layout: Layout, u: Id, v: Id)
    requires IsLayout(pointIds, edges, split, plan, layout) && u in pointIds && v in pointIds && u != v
    ensures u in layout.nodes && v in layout.nodes
    ensures layout.nodes[u].col != layout.nodes[v].col || layout.nodes[u].row != layout.nodes[v].row
  {
    var a := PlacedIn(pointIds, edges, split, plan, layout, u);
    var b := PlacedIn(pointIds, edges, split, plan, layout, v);
    if plan.group[u] < plan.group[v] {
      GroupsLeftToRight(pointIds, edges, split, plan, layout, u, v);
    } else if plan.group[v] < plan.group[u] {
      GroupsLeftToRight(pointIds, edges, split, plan, layout, v, u);
    } else if layout.nodes[u].col == layout.nodes[v].col && layout.nodes[u].row == layout.nodes[v].row {
      OneNodePerCell(Bucket(pointIds, plan.group, plan.group[u]), plan.depth, a, u, v,
                     plan.index[u], plan.index[v], layout.nodes[u], layout.nodes[v]);
    }
  }

  /** Two points carry the same component number exactly when edges join them, and in a split layout
      a smaller component lies entirely left of a larger one, with an empty column between. */
  lemma ComponentsAreBlocks(pointIds: seq<Id>, edges: seq<LayeringEdge>, split: bool, plan: Plan, layout: Layout, u: Id, v: Id)
    requires IsLayout(pointIds, edges, split, plan, layout) && u in pointIds && v in pointIds
    ensures u in layout.nodes && v in layout.nodes && layout.nodes[u].component < layout.componentCount
    ensures layout.nodes[u].component == layout.nodes[v].component
        <==> UnionFind.Connected(UnionFind.Links(Points(pointIds), edges), u, v)
    ensures split && layout.nodes[u].component < layout.nodes[v].component
        ==> exists c :: c in layout.breakCols && layout.nodes[u].col < c < layout.nodes[v].col
  {
    var a := PlacedIn(pointIds, edges, split, plan, layout, u);
    var b := PlacedIn(pointIds, edges, split, plan, layout, v);
    assert Connected(UnionFind.Links(Points(pointIds), edges), u, v) <==> plan.index[u] == plan.index[v];
    if split && layout.nodes[u].component < layout.nodes[v].component {
      GroupsLeftToRight(pointIds, edges, split, plan, layout, u, v);
      var c := layout.breakCols[plan.group[u]];
      assert c in layout.breakCols;
    }
  }

  /** The component numbers in use are exactly 0..componentCount-1. */
  lemma EveryComponentIsUsed(pointIds: seq<Id>, edges: seq<LayeringEdge>, split: bool, plan: Plan, layout: Layout, k: nat)
    requires IsLayout(pointIds, edges, split, plan, layout)
    ensures k < layout.componentCount
        <==> exists id :: id in pointIds && id in layout.nodes && layout.nodes[id].component == k
  {
    if k < layout.componentCount {
      assert k in KeysOf(pointIds, plan.index);
      var id :| id in pointIds && id in plan.index && plan.index[id] == k;
      var b := PlacedIn(pointIds, edges, split, plan, layout, id);
    }
    if exists id :: id in pointIds && id in layout.nodes && layout.nodes[id].component == k {
      var id :| id in pointIds && id in layout.nodes && layout.nodes[id].component == k;
      var b := PlacedIn(pointIds, edges, split, plan, layout, id);
    }
  }

  ghost predicate Occupied(pointIds: seq<Id>, layout: Layout, c: int) {
    exists id :: id in pointIds && id in layout.nodes && layout.nodes[id].col == c
  }

  /** Up to the end of block n-1 every column is inside a block or is the spacer after one. */
  lemma {:induction false} ColumnHasPlace(pointIds: seq<Id>, depth: map<Id, nat>, group: map<Id, nat>, blocks: seq<Block>, n: nat, c: nat)
    returns (i: nat)
    requires BlocksLaid(pointIds, depth, group, blocks) && 0 < n <= |blocks| && c < blocks[n - 1].End()
    ensures i < n
    ensures blocks[i].base <= c < blocks[i].End() || (i < n - 1 && c == blocks[i].End())
  {
    if c >= blocks[n - 1].base {
      i := n - 1;
    } else if c == blocks[n - 2].End() {
      i := n - 2;
    } else {
      i := ColumnHasPlace(pointIds, depth, group, blocks, n - 1, c);
    }
  }

  /** Every column of a block holds a point. */
  lemma BlockColumnIsOccupied(pointIds: seq<Id>, edges: seq<LayeringEdge>, split: bool, plan: Plan, layout: Layout, i: nat, c: nat)
    requires IsLayout(pointIds, edges, split, plan, layout)
    requires i < |plan.blocks| && plan.blocks[i].base <= c < plan.blocks[i].End()
    ensures Occupied(pointIds, layout, c)
  {
    var id := ColumnHasMember(pointIds, plan.depth, plan.group, plan.blocks, i, c - plan.blocks[i].base);
    var block := PlacedIn(pointIds, edges, split, plan, layout, id);
    ColumnOfDepth(Bucket(pointIds, plan.group, i), plan.depth, block, id, plan.index[id], layout.nodes[id], c - block.base);
  }

  lemma BreakIsVacant(pointIds: seq<Id>, edges: seq<LayeringEdge>, split: bool, plan: Plan, layout: Layout, k: nat)
    requires IsLayout(pointIds, edges, split, plan, layout) && k < |layout.breakCols|
    ensures !Occupied(pointIds, layout, layout.breakCols[k]) && layout.breakCols[k] < layout.colCount
  {
    var c := layout.breakCols[k];
    BlocksAscend(pointIds, plan.depth, plan.group, plan.blocks, k, |plan.blocks| - 1);
    forall id | id in pointIds
      ensures id in layout.nodes && layout.nodes[id].col != c
    {
      var b := PlacedIn(pointIds, edges, split, plan, layout, id);
      var g := plan.group[id];
      if g < k {
        BlocksAscend(pointIds, plan.depth, plan.group, plan.blocks, g, k);
      } else if g > k {
        BlocksAscend(pointIds, plan.depth, plan.group, plan.blocks, k, g);
      }
    }
  }

  /** The columns 0..colCount-1 are exactly the occupied columns and the break columns, and no
      column is both; there is one break fewer than there are components when split, none otherwise. */
  lemma ColumnsAreOccupiedOrBreaks(pointIds: seq<Id>, edges: seq<LayeringEdge>, split: bool, plan: Plan, layout: Layout, c: int)
    requires IsLayout(pointIds, edges, split, plan, layout)
    ensures 0 <= c < layout.colCount <==> Occupied(pointIds, layout, c) || c in layout.breakCols
    ensures !(Occupied(pointIds, layout, c) && c in layout.breakCols)
    ensures |layout.breakCols| == if split && layout.componentCount > 0 then layout.componentCount - 1 else 0
  {
    if 0 <= c < layout.colCount {
      var i := ColumnHasPlace(pointIds, plan.depth, plan.group, plan.blocks, |plan.blocks|, c);
      if c < plan.blocks[i].End() {
        BlockColumnIsOccupied(pointIds, edges, split, plan, layout, i, c);
      } else {
        assert c == layout.breakCols[i];
      }
    }
    if c in layout.breakCols {
      var k :| 0 <= k < |layout.breakCols| && layout.breakCols[k] == c;
      BreakIsVacant(pointIds, edges, split, plan, layout, k);
    }
    if Occupied(pointIds, layout, c) {
      var id :| id in pointIds && id in layout.nodes && layout.nodes[id].col == c;
      var b := PlacedIn(pointIds, edges, split, plan, layout, id);
      if plan.group[id] < |plan.blocks| - 1 {
        BlocksAscend(pointIds, plan.depth, plan.group, plan.blocks, plan.group[id], |plan.blocks| - 1);
      }
    }
  }

  /** Points of one group compare by depth exactly as their columns compare. */
  lemma DeeperIsFurtherRight(pointIds: seq<Id>, edges: seq<LayeringEdge>, split: bool, plan: Plan, layout: Layout, u: Id, v: Id)
    requires IsLayout(pointIds, edges, split, plan, layout) && u in pointIds && v in pointIds
    requires u in plan.group && v in plan.group && plan.group[u] == plan.group[v]
    ensures u in plan.depth && v in plan.depth && u in layout.nodes && v in layout.nodes
    ensures plan.depth[u] < plan.depth[v] <==> layout.nodes[u].col < layout.nodes[v].col
  {
    var a := PlacedIn(pointIds, edges, split, plan, layout, u);
    var b := PlacedIn(pointIds, edges, split, plan, layout, v);
    ColumnsRankDepths(Bucket(pointIds, plan.group, plan.group[u]), plan.depth, a, u, v,
                      plan.index[u], plan.index[v], layout.nodes[u], layout.nodes[v]);
  }

  lemma EdgeEnds(points: set<Id>, edges: seq<LayeringEdge>, e: LayeringEdge)
    requires e in edges && UnionFind.Joins(points, e)
    ensures (e.originId.value, e.destinationId.value) in Arcs(edges)
    ensures UnionFind.Connected(UnionFind.Links(points, edges), e.originId.value, e.destinationId.value)
    ensures e.originId.value in Touched(edges) && e.destinationId.value in Touched(edges)
  {
    UnionFind.ConnectedByLink(UnionFind.Links(points, edges), e.originId.value, e.destinationId.value);
  }

  lemma ArcDeepens(arcs: set<Arc>, u: Id, v: Id, j: nat, k: nat)
    requires LongestTo(arcs, u, j) && LongestTo(arcs, v, k) && (u, v) in arcs
    ensures j < k
  {
    ExtendWitness(arcs, u, v, j);
    var p :| WalkTo(arcs, p, v) && |p| == j + 2;
  }

  /** On an acyclic graph every edge between two of the points goes strictly rightwards. */
  lemma EdgesGoRight(pointIds: seq<Id>, edges: seq<LayeringEdge>, split: bool, plan: Plan, layout: Layout, e: LayeringEdge)
    requires IsLayout(pointIds, edges, split, plan, layout) && Acyclic(Arcs(edges))
    requires e in edges && UnionFind.Joins(Points(pointIds), e)
    ensures e.originId.value in layout.nodes && e.destinationId.value in layout.nodes
    ensures layout.nodes[e.originId.value].col < layout.nodes[e.destinationId.value].col
  {
    var u, v := e.originId.value, e.destinationId.value;
    assert u in pointIds && v in pointIds;
    EdgeEnds(Points(pointIds), edges, e);
    assert Connected(UnionFind.Links(Points(pointIds), edges), u, v) <==> plan.index[u] == plan.index[v];
    ArcDeepens(Arcs(edges), u, v, plan.depth[u], plan.depth[v]);
    DeeperIsFurtherRight(pointIds, edges, split, plan, layout, u, v);
  }

  /** Unsplit, a point no edge touches lies right of every point an edge touches. */
  lemma OrphansTrail(pointIds: seq<Id>, edges: seq<LayeringEdge>, plan: Plan, layout: Layout, orphan: Id, id: Id)
    requires IsLayout(pointIds, edges, false, plan, layout) && orphan in pointIds && id in pointIds
    requires orphan !in Touched(edges) && id in Touched(edges)
    ensures orphan in layout.nodes && id in layout.nodes && layout.nodes[id].col < layout.nodes[orphan].col
  {
    assert plan.group[id] == plan.group[orphan];
    DeeperIsFurtherRight(pointIds, edges, false, plan, layout, id, orphan);
  }

  /** Every row is below maxRows. */
  lemma RowsAreBounded(pointIds: seq<Id>, edges: seq<LayeringEdge>, split: bool, plan: Plan, layout: Layout, id: Id)
    requires IsLayout(pointIds, edges, split, plan, layout) && id in pointIds
    ensures id in layout.nodes && layout.nodes[id].row < layout.maxRows
  {
    var b := PlacedIn(pointIds, edges, split, plan, layout, id);
    var ids := Bucket(pointIds, plan.group, plan.group[id]);
    assert BlockRowsAtMost(ids, plan.depth, b.depths, layout.maxRows);
    var d := b.depths[layout.nodes[id].col - b.base];
    assert d in b.depths;
  }

  lemma {:induction false} BucketNoRepeat(ids: seq<Id>, key: map<Id, int>, k: int)
    requires NoRepeat(ids)
    ensures NoRepeat(Bucket(ids, key, k))
  {
    if ids != [] {
      var n := |ids| - 1;
      BucketNoRepeat(ids[..n], key, k);
      assert forall id :: id in Bucket(ids[..n], key, k) ==> id in ids[..n];
      assert ids[n] !in ids[..n];
    }
  }

  /** maxRows is no more than needed: with distinct ids, some point is in the last row. */
  lemma LastRowIsReached(pointIds: seq<Id>, edges: seq<LayeringEdge>, split: bool, plan: Plan, layout: Layout) returns (id: Id)
    requires IsLayout(pointIds, edges, split, plan, layout) && NoRepeat(pointIds) && layout.maxRows > 0
    ensures id in pointIds && id in layout.nodes && layout.nodes[id].row == layout.maxRows - 1
  {
    var i := TallestBlock(pointIds, plan.depth, plan.group, plan.blocks, layout.maxRows);
    id := LastOfTallest(Bucket(pointIds, plan.group, i), plan.depth, plan.blocks[i].depths, layout.maxRows);
    MemberIsAtItsPlace(pointIds, edges, split, plan, layout, i, id, layout.maxRows - 1);
  }

  lemma MemberIsAtItsPlace(pointIds: seq<Id>, edges: seq<LayeringEdge>, split: bool, plan: Plan, layout: Layout, i: nat, id: Id, place: nat)
    requires IsLayout(pointIds, edges, split, plan, layout) && NoRepeat(pointIds) && id in Bucket(pointIds, plan.group, i) && id in plan.depth
    requires var column := Bucket(Bucket(pointIds, plan.group, i), plan.depth, plan.depth[id]); place < |column| && column[place] == id
    ensures id in layout.nodes && layout.nodes[id].row == place
  {
    var b := PlacedIn(pointIds, edges, split, plan, layout, id);
    BucketNoRepeat(pointIds, plan.group, i);
    RowIsPlace(Bucket(pointIds, plan.group, i), plan.depth, b, id, plan.index[id], layout.nodes[id], place);
  }

  lemma TallestBlock(pointIds: seq<Id>, depth: map<Id, nat>, group: map<Id, nat>, blocks: seq<Block>, maxRows: nat) returns (i: nat)
    requires RowsOf(pointIds, depth, group, blocks, maxRows) && maxRows > 0
    ensures i < |blocks| && Tallest(Bucket(pointIds, group, i), depth, blocks[i].depths, maxRows)
  {
    i :| i < |blocks| && Tallest(Bucket(pointIds, group, i), depth, blocks[i].depths, maxRows);
  }

  lemma LastOfTallest(ids: seq<Id>, depth: map<Id, nat>, depths: seq<nat>, rows: nat) returns (id: Id)
    requires Tallest(ids, depth, depths, rows) && rows > 0
    ensures id in ids && id in depth && |Bucket(ids, depth, depth[id])| == rows && Bucket(ids, depth, depth[id])[rows - 1] == id
  {
    var d :| d in depths && |Bucket(ids, depth, d)| == rows;
    id := Bucket(ids, depth, d)[rows - 1];
    assert id in Bucket(ids, depth, d);
  }

  lemma RowIsPlace(ids: seq<Id>, depth: map<Id, nat>, block: Block, id: Id, k: nat, node: Node, place: nat)
    requires NodeIn(ids, depth, block, id, k, node) && NoRepeat(ids)
    requires place < |Bucket(ids, depth, depth[id])| && Bucket(ids, depth, depth[id])[place] == id
    ensures node.row == place
  {
    BucketNoRepeat(ids, depth, depth[id]);
  }

  // Rows and component numbers follow the input.

  /** u is listed at a place before one of v. */
  ghost predicate ListedBefore(ids: seq<Id>, u: Id, v: Id) {
    exists x, y :: 0 <= x < y < |ids| && ids[x] == u && ids[y] == v
  }

  lemma ListedBeforeInMore(ids: seq<Id>, u: Id, v: Id)
    requires ids != [] && ListedBefore(ids[..|ids| - 1], u, v)
    ensures ListedBefore(ids, u, v)
  {
    var x, y :| 0 <= x < y < |ids| - 1 && ids[..|ids| - 1][x] == u && ids[..|ids| - 1][y] == v;
    assert ids[x] == u && ids[y] == v;
  }

  lemma {:induction false} BucketKeepsOrder(ids: seq<Id>, key: map<Id, int>, k: int, p: nat, q: nat)
    requires p < q < |Bucket(ids, key, k)|
    ensures ListedBefore(ids, Bucket(ids, key, k)[p], Bucket(ids, key, k)[q])
  {
    var n := |ids| - 1;
    var rest := Bucket(ids[..n], key, k);
    if q < |rest| {
      BucketKeepsOrder(ids[..n], key, k, p, q);
      ListedBeforeInMore(ids, rest[p], rest[q]);
    } else {
      assert rest[p] in rest && rest[p] in ids[..n];
      var x :| 0 <= x < n && ids[..n][x] == rest[p];
      assert ids[x] == rest[p] && ids[n] == Bucket(ids, key, k)[q];
    }
  }

  lemma BucketListsBefore(ids: seq<Id>, key: map<Id, int>, k: int, u: Id, v: Id)
    requires ListedBefore(Bucket(ids, key, k), u, v)
    ensures ListedBefore(ids, u, v)
  {
    var x, y :| 0 <= x < y < |Bucket(ids, key, k)| && Bucket(ids, key, k)[x] == u && Bucket(ids, key, k)[y] == v;
    BucketKeepsOrder(ids, key, k, x, y);
  }

  /** In a column the points stand in the order they were given in, top to bottom. */
  lemma RowsKeepInputOrder(pointIds: seq<Id>, edges: seq<LayeringEdge>, split: bool, plan: Plan, layout: Layout, u: Id, v: Id)
    requires IsLayout(pointIds, edges, split, plan, layout) && NoRepeat(pointIds) && u in pointIds && v in pointIds
    requires u in layout.nodes && v in layout.nodes && layout.nodes[u].col == layout.nodes[v].col
    ensures layout.nodes[u].row < layout.nodes[v].row <==> ListedBefore(pointIds, u, v)
  {
    if layout.nodes[u].row < layout.nodes[v].row {
      LowerIsListedLater(pointIds, edges, split, plan, layout, u, v);
    } else if ListedBefore(pointIds, u, v) {
      if u != v {
        NoSharedCell(pointIds, edges, split, plan, layout, u, v);
        LowerIsListedLater(pointIds, edges, split, plan, layout, v, u);
      }
      OneOrder(pointIds, u, v);
    }
  }

  lemma OneOrder(ids: seq<Id>, u: Id, v: Id)
    requires NoRepeat(ids) && ListedBefore(ids, u, v)
    ensures u != v && !ListedBefore(ids, v, u)
  {
  }

  lemma LowerInBlock(ids: seq<Id>, depth: map<Id, nat>, block: Block, u: Id, v: Id, j: nat, k: nat, a: Node, b: Node)
    requires NodeIn(ids, depth, block, u, j, a) && NodeIn(ids, depth, block, v, k, b) && a.col == b.col && a.row < b.row
    ensures ListedBefore(ids, u, v)
  {
    BucketKeepsOrder(ids, depth, depth[u], a.row, b.row);
  }

  lemma LowerIsListedLater(pointIds: seq<Id>, edges: seq<LayeringEdge>, split: bool, plan: Plan, layout: Layout, u: Id, v: Id)
    requires IsLayout(pointIds, edges, split, plan, layout) && u in pointIds && v in pointIds
    requires u in layout.nodes && v in layout.nodes && layout.nodes[u].col == layout.nodes[v].col
    requires layout.nodes[u].row < layout.nodes[v].row
    ensures ListedBefore(pointIds, u, v)
  {
    var a := PlacedIn(pointIds, edges, split, plan, layout, u);
    var b := PlacedIn(pointIds, edges, split, plan, layout, v);
    if plan.group[u] < plan.group[v] {
      GroupsLeftToRight(pointIds, edges, split, plan, layout, u, v);
    } else if plan.group[v] < plan.group[u] {
      GroupsLeftToRight(pointIds, edges, split, plan, layout, v, u);
    }
    LowerInBlock(Bucket(pointIds, plan.group, plan.group[u]), plan.depth, a, u, v,
                 plan.index[u], plan.index[v], layout.nodes[u], layout.nodes[v]);
    BucketListsBefore(pointIds, plan.group, plan.group[u], u, v);
  }

  lemma {:induction false} LeftmostIsLeast(ids: seq<Id>, col: map<Id, nat>)
    requires ids != [] && forall id :: id in ids ==> id in col
    ensures exists id :: id in ids && col[id] == LeftmostOf(ids, col)
    ensures forall id :: id in ids ==> LeftmostOf(ids, col) <= col[id]
  {
    var n := |ids| - 1;
    var last := ids[n];
    assert last in ids;
    if n > 0 {
      LeftmostIsLeast(ids[..n], col);
      assert forall id :: id in ids <==> id in ids[..n] || id == last;
      var least :| least in ids[..n] && col[least] == LeftmostOf(ids[..n], col);
      assert col[if col[last] < col[least] then last else least] == LeftmostOf(ids, col);
    }
  }

  /** a is one of the shallowest points of its component. */
  ghost predicate Shallowest(pointIds: seq<Id>, plan: Plan, a: Id)
    requires forall id :: id in pointIds ==> id in plan.depth && id in plan.index
  {
    a in pointIds && forall id :: id in pointIds && plan.index[id] == plan.index[a] ==> plan.depth[a] <= plan.depth[id]
  }

  /** Component j is not met before a point of component i has been. */
  ghost predicate MetBefore(pointIds: seq<Id>, plan: Plan, i: nat, j: nat) {
    exists x :: 0 <= x < |pointIds| && IsOf(plan, pointIds[x], i) && forall y :: 0 <= y <= x ==> !IsOf(plan, pointIds[y], j)
  }

  ghost predicate IsOf(plan: Plan, id: Id, component: nat) {
    id in plan.index && plan.index[id] == component
  }

  lemma GlobalColumnsRankDepths(pointIds: seq<Id>, depth: map<Id, nat>, globalCol: map<Id, nat>, u: Id, v: Id)
    requires GlobalGrid(pointIds, depth, globalCol) && u in pointIds && v in pointIds
    ensures u in globalCol && v in globalCol && u in depth && v in depth
    ensures globalCol[u] <= globalCol[v] <==> depth[u] <= depth[v]
  {
    var depths, row, rows :| IsGrid(pointIds, depth, depths, globalCol, row, rows);
    var block := Block(depths, 0);
    var a, b := Node(u, globalCol[u], row[u], 0), Node(v, globalCol[v], row[v], 0);
    ColumnsRankDepths(pointIds, depth, block, u, v, 0, 0, a, b);
    ColumnsRankDepths(pointIds, depth, block, v, u, 0, 0, b, a);
  }

  lemma ShallowestOf(pointIds: seq<Id>, edges: seq<LayeringEdge>, split: bool, plan: Plan, layout: Layout, i: nat) returns (a: Id)
    requires IsLayout(pointIds, edges, split, plan, layout) && i < layout.componentCount
    ensures forall id :: id in pointIds ==> id in plan.depth && id in plan.index && id in plan.globalCol
    ensures Shallowest(pointIds, plan, a) && plan.index[a] == i
    ensures Bucket(pointIds, plan.index, i) != [] && LeftmostOf(Bucket(pointIds, plan.index, i), plan.globalCol) == plan.globalCol[a]
  {
    var ids := Bucket(pointIds, plan.index, i);
    assert i in KeysOf(pointIds, plan.index);
    LeftmostIsLeast(ids, plan.globalCol);
    a :| a in ids && plan.globalCol[a] == LeftmostOf(ids, plan.globalCol);
    forall id | id in pointIds && plan.index[id] == plan.index[a]
      ensures plan.depth[a] <= plan.depth[id]
    {
      assert id in ids;
      GlobalColumnsRankDepths(pointIds, plan.depth, plan.globalCol, a, id);
    }
  }

  lemma FirstIsMetBefore(pointIds: seq<Id>, plan: Plan, i: nat, j: nat)
    requires i in KeysOf(pointIds, plan.index) && j in KeysOf(pointIds, plan.index)
    requires FirstIndex(pointIds, plan.index, i) < FirstIndex(pointIds, plan.index, j)
    ensures MetBefore(pointIds, plan, i, j)
  {
    var x := FirstIndex(pointIds, plan.index, i);
    assert HasKey(pointIds, plan.index, i, x);
    forall y | 0 <= y <= x
      ensures !IsOf(plan, pointIds[y], j)
    {
      assert !HasKey(pointIds, plan.index, j, y);
    }
  }

  /** Of two components the one with the smaller number starts at a smaller depth, or at the same depth
      and was met first. */
  lemma ComponentsComeByDepth(pointIds: seq<Id>, edges: seq<LayeringEdge>, split: bool, plan: Plan, layout: Layout, i: nat, j: nat)
    returns (a: Id, b: Id)
    requires IsLayout(pointIds, edges, split, plan, layout) && i < j < layout.componentCount
    ensures forall id :: id in pointIds ==> id in plan.depth && id in plan.index && id in layout.nodes && layout.nodes[id].component == plan.index[id]
    ensures Shallowest(pointIds, plan, a) && plan.index[a] == i && Shallowest(pointIds, plan, b) && plan.index[b] == j
    ensures plan.depth[a] < plan.depth[b] || (plan.depth[a] == plan.depth[b] && MetBefore(pointIds, plan, i, j))
  {
    forall id | id in pointIds
      ensures id in layout.nodes && id in plan.index && layout.nodes[id].component == plan.index[id]
    {
      var block := PlacedIn(pointIds, edges, split, plan, layout, id);
    }
    a := ShallowestOf(pointIds, edges, split, plan, layout, i);
    b := ShallowestOf(pointIds, edges, split, plan, layout, j);
    assert ClassBefore(pointIds, plan.globalCol, plan.index, i, j);
    GlobalColumnsRankDepths(pointIds, plan.depth, plan.globalCol, a, b);
    GlobalColumnsRankDepths(pointIds, plan.depth, plan.globalCol, b, a);
    if plan.depth[a] == plan.depth[b] {
      FirstIsMetBefore(pointIds, plan, i, j);
    }
  }
}
