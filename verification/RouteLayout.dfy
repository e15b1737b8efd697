/** packages/shared/src/route-layering.ts: computeRouteLayout. */
module RouteLayout {
  import opened Graph
  import opened Grouping
  import opened LongestPath
  import UnionFind

  datatype Node = Node(id: Id, col: nat, row: nat, component: nat)

  datatype Layout = Layout(nodes: map<Id, Node>, colCount: nat, maxRows: nat, componentCount: nat, breakCols: seq<nat>)

  /** The points some edge touches at either end. */
  ghost function Touched(edges: seq<LayeringEdge>): set<Id> {
    (set e | e in edges && e.originId.Some? :: e.originId.value)
    + (set e | e in edges && e.destinationId.Some? :: e.destinationId.value)
  }

  method TouchedPoints(edges: seq<LayeringEdge>) returns (touched: set<Id>)
    ensures touched == Touched(edges)
  {
    touched := {};
    for i := 0 to |edges|
      invariant touched == Touched(edges[..i])
    {
      var e := edges[i];
      assert edges[..i + 1] == edges[..i] + [e];
      assert Touched(edges[..i + 1]) == Touched(edges[..i]) + Touched([e]);
      if e.originId.Some? {
        touched := touched + {e.originId.value};
      }
      if e.destinationId.Some? {
        touched := touched + {e.destinationId.value};
      }
    }
    assert edges[..|edges|] == edges;
  }

  method MaxDepth(depth: map<Id, nat>) returns (m: nat)
    ensures forall v :: v in depth ==> depth[v] <= m
  {
    m := 0;
    var rest := depth.Values;
    while rest != {}
      invariant forall d :: d in depth.Values && d !in rest ==> d <= m
      decreases rest
    {
      var d :| d in rest;
      rest := rest - {d};
      if d > m {
        m := d;
      }
    }
    assert forall v :: v in depth ==> depth[v] in depth.Values;
  }

  /** The depths the grid is built from: the relaxed depth for points an edge touches, and one
      column past all of them (or 0 when there are no edges) for the rest. */
  ghost predicate GridDepths(pointIds: seq<Id>, edges: seq<LayeringEdge>, depth: map<Id, nat>) {
    && (forall v :: v in pointIds ==> v in depth)
    && (Acyclic(Arcs(edges)) ==> forall v :: v in pointIds && v in Touched(edges) ==> LongestTo(Arcs(edges), v, depth[v]))
    && (forall u, v :: u in pointIds && v in pointIds && u !in Touched(edges) && v in Touched(edges) ==> depth[v] < depth[u])
    && (edges == [] ==> forall v :: v in pointIds ==> depth[v] == 0)
  }

  method TrailOrphans(pointIds: seq<Id>, edges: seq<LayeringEdge>, relaxed: map<Id, nat>) returns (depth: map<Id, nat>)
    requires forall v :: v in pointIds ==> v in relaxed
    requires Acyclic(Arcs(edges)) ==> forall v :: LongestTo(Arcs(edges), v, DepthOf(relaxed, v))
    ensures GridDepths(pointIds, edges, depth)
  {
    var touched := TouchedPoints(edges);
    var maxDepth := MaxDepth(relaxed);
    var orphanDepth := if |edges| > 0 then maxDepth + 1 else 0;
    depth := relaxed;
    for i := 0 to |pointIds|
      invariant depth.Keys == relaxed.Keys
      invariant forall v :: v in depth ==> depth[v] == if v in pointIds[..i] && v !in touched then orphanDepth else relaxed[v]
    {
      var id := pointIds[i];
      assert pointIds[..i + 1] == pointIds[..i] + [id];
      assert id in pointIds;
      if id !in touched {
        depth := depth[id := orphanDepth];
      }
    }
    assert pointIds[..|pointIds|] == pointIds;
    forall v | v in pointIds && v in touched
      ensures Acyclic(Arcs(edges)) ==> LongestTo(Arcs(edges), v, depth[v])
    {
      if Acyclic(Arcs(edges)) {
        assert LongestTo(Arcs(edges), v, DepthOf(relaxed, v));
      }
    }
    if edges == [] {
      assert touched == {};
    }
  }

  /** id sits in the column of its depth, at a row that holds it. */
  ghost predicate InCell(ids: seq<Id>, depth: map<Id, nat>, depths: seq<nat>, id: Id, col: nat, row: nat)
    requires id in depth
  {
    && col < |depths| && depths[col] == depth[id]
    && row < |Bucket(ids, depth, depth[id])| && Bucket(ids, depth, depth[id])[row] == id
  }

  /** The occupied depths, ascending. */
  ghost predicate DepthRanks(ids: seq<Id>, depth: map<Id, nat>, depths: seq<nat>) {
    StrictlyIncreasing(depths) && forall d :: d in depths <==> d in KeysOf(ids, depth)
  }

  ghost predicate Celled(ids: seq<Id>, depth: map<Id, nat>, depths: seq<nat>, col: map<Id, nat>, row: map<Id, nat>, done: set<Id>)
    requires forall id :: id in done ==> id in depth
  {
    && col.Keys == row.Keys && done <= col.Keys
    && forall id :: id in done ==> InCell(ids, depth, depths, id, col[id], row[id])
  }

  /** One column: every id of the bucket gets the column and its row. */
  method PlaceColumn(ids: seq<Id>, depth: map<Id, nat>, depths: seq<nat>, c: nat, bucket: seq<Id>, col0: map<Id, nat>, row0: map<Id, nat>, ghost done: set<Id>)
    returns (col: map<Id, nat>, row: map<Id, nat>)
    requires c < |depths| && bucket == Bucket(ids, depth, depths[c])
    requires forall id :: id in done ==> id in depth
    requires Celled(ids, depth, depths, col0, row0, done)
    ensures Celled(ids, depth, depths, col, row, done + Elements(bucket))
    ensures col.Keys == col0.Keys + Elements(bucket)
  {
    col, row := col0, row0;
    for r := 0 to |bucket|
      invariant Celled(ids, depth, depths, col, row, done + Elements(bucket[..r]))
      invariant col.Keys == col0.Keys + Elements(bucket[..r])
    {
      var id := bucket[r];
      assert id in bucket;
      assert bucket[..r + 1] == bucket[..r] + [id];
      assert InCell(ids, depth, depths, id, c, r);
      col, row := col[id := c], row[id := r];
    }
    assert bucket[..|bucket|] == bucket;
  }

  /** A grid of the given ids: every id in the column ranked by its depth. */
  ghost predicate IsGrid(ids: seq<Id>, depth: map<Id, nat>, depths: seq<nat>, col: map<Id, nat>, row: map<Id, nat>, rows: nat)
    requires forall id :: id in ids ==> id in depth
  {
    && DepthRanks(ids, depth, depths)
    && col.Keys == Elements(ids) == row.Keys
    && (forall id :: id in ids ==> InCell(ids, depth, depths, id, col[id], row[id]))
    && Tallest(ids, depth, depths, rows)
  }

  /** rows is the largest number of ids stacked in one of the columns. */
  ghost predicate Tallest(ids: seq<Id>, depth: map<Id, nat>, depths: seq<nat>, rows: nat) {
    && (forall d :: d in depths ==> |Bucket(ids, depth, d)| <= rows)
    && (rows > 0 ==> exists d :: d in depths && |Bucket(ids, depth, d)| == rows)
  }

  lemma TallestOfOneMore(ids: seq<Id>, depth: map<Id, nat>, depths: seq<nat>, d: nat, rows: nat)
    requires Tallest(ids, depth, depths, rows)
    ensures Tallest(ids, depth, depths + [d], if |Bucket(ids, depth, d)| > rows then |Bucket(ids, depth, d)| else rows)
  {
    assert d in depths + [d];
    if rows > 0 {
      var e :| e in depths && |Bucket(ids, depth, e)| == rows;
      assert e in depths + [d];
    }
  }

  /** The first columns are placed: exactly the ids of their depths. */
  ghost predicate ColumnsPlaced(ids: seq<Id>, depth: map<Id, nat>, depths: seq<nat>, c: nat, col: map<Id, nat>, row: map<Id, nat>)
    requires c <= |depths| && forall id :: id in ids ==> id in depth
  {
    && (forall id :: id in col <==> id in ids && depth[id] in depths[..c])
    && Celled(ids, depth, depths, col, row, col.Keys)
  }

  lemma AllColumnsPlaced(ids: seq<Id>, depth: map<Id, nat>, depths: seq<nat>, col: map<Id, nat>, row: map<Id, nat>)
    requires forall id :: id in ids ==> id in depth
    requires DepthRanks(ids, depth, depths) && ColumnsPlaced(ids, depth, depths, |depths|, col, row)
    ensures col.Keys == Elements(ids) == row.Keys
    ensures forall id :: id in ids ==> InCell(ids, depth, depths, id, col[id], row[id])
  {
    assert depths[..|depths|] == depths;
    forall id | id in ids
      ensures id in col
    {
      var d := depth[id];
      assert d in KeysOf(ids, depth);
      assert d in depths;
    }
    forall id: Id
      ensures id in col.Keys <==> id in Elements(ids)
    {
    }
  }

  method PlaceColumns(ids: seq<Id>, depth: map<Id, nat>, depths: seq<nat>, c: nat, bucket: seq<Id>, col0: map<Id, nat>, row0: map<Id, nat>)
    returns (col: map<Id, nat>, row: map<Id, nat>)
    requires forall id :: id in ids ==> id in depth
    requires c < |depths| && bucket == Bucket(ids, depth, depths[c])
    requires ColumnsPlaced(ids, depth, depths, c, col0, row0)
    ensures ColumnsPlaced(ids, depth, depths, c + 1, col, row)
  {
    assert depths[..c + 1] == depths[..c] + [depths[c]];
    col, row := PlaceColumn(ids, depth, depths, c, bucket, col0, row0, col0.Keys);
  }

  /** The loop over the sorted depths. */
  method PlaceAllColumns(ids: seq<Id>, depth: map<Id, nat>, depths: seq<nat>, columns: map<int, seq<Id>>)
    returns (col: map<Id, nat>, row: map<Id, nat>, rows: nat)
    requires forall id :: id in ids ==> id in depth
    requires forall d :: d in depths ==> d in columns && columns[d] == Bucket(ids, depth, d)
    ensures ColumnsPlaced(ids, depth, depths, |depths|, col, row)
    ensures Tallest(ids, depth, depths, rows)
  {
    col, row, rows := map[], map[], 0;
    for c := 0 to |depths|
      invariant ColumnsPlaced(ids, depth, depths, c, col, row)
      invariant Tallest(ids, depth, depths[..c], rows)
    {
      var d := depths[c];
      assert d in depths;
      TallestOfOneMore(ids, depth, depths[..c], d, rows);
      assert depths[..c + 1] == depths[..c] + [d];
      col, row := PlaceColumns(ids, depth, depths, c, columns[d], col, row);
      if |columns[d]| > rows {
        rows := |columns[d]|;
      }
    }
    assert depths[..|depths|] == depths;
  }

  method PlaceGrid(ids: seq<Id>, depth: map<Id, nat>)
    returns (depths: seq<nat>, col: map<Id, nat>, row: map<Id, nat>, rows: nat)
    requires forall id :: id in ids ==> id in depth
    ensures IsGrid(ids, depth, depths, col, row, rows)
  {
    var order, columns := GroupBy(ids, depth);
    depths := SortedAscending(columns.Keys);
    col, row, rows := PlaceAllColumns(ids, depth, depths, columns);
    AllColumnsPlaced(ids, depth, depths, col, row);
  }

  /** The leftmost column any of the ids sits in. */
  ghost function LeftmostOf(ids: seq<Id>, col: map<Id, nat>): nat
    requires ids != [] && forall id :: id in ids ==> id in col
  {
    var n := |ids| - 1;
    var last := ids[n];
    assert last in ids;
    if n == 0 then col[last]
    else
      var rest := LeftmostOf(ids[..n], col);
      if col[last] < rest then col[last] else rest
  }

  method Leftmost(ids: seq<Id>, col: map<Id, nat>) returns (m: nat)
    requires ids != [] && forall id :: id in ids ==> id in col
    ensures m == LeftmostOf(ids, col)
  {
    var first := ids[0];
    assert first in ids;
    m := col[first];
    for i := 1 to |ids|
      invariant m == LeftmostOf(ids[..i], col)
    {
      assert ids[..i + 1][..i] == ids[..i];
      var id := ids[i];
      assert id in ids;
      if col[id] < m {
        m := col[id];
      }
    }
    assert ids[..|ids|] == ids;
  }

  /** Order of two classes of points: leftmost column first, then first encountered. */
  ghost predicate ClassBefore(pointIds: seq<Id>, globalCol: map<Id, nat>, key: map<Id, int>, k: int, l: int)
    requires globalCol.Keys == Elements(pointIds)
    requires k in KeysOf(pointIds, key) && l in KeysOf(pointIds, key)
    requires Bucket(pointIds, key, k) != [] && Bucket(pointIds, key, l) != []
  {
    var a, b := LeftmostOf(Bucket(pointIds, key, k), globalCol), LeftmostOf(Bucket(pointIds, key, l), globalCol);
    a < b || (a == b && FirstIndex(pointIds, key, k) < FirstIndex(pointIds, key, l))
  }

  lemma ClassHasMembers(pointIds: seq<Id>, key: map<Id, int>, k: int)
    requires k in KeysOf(pointIds, key)
    ensures Bucket(pointIds, key, k) != []
  {
    var id :| id in pointIds && id in key && key[id] == k;
    assert id in Bucket(pointIds, key, k);
  }

  /** The classes listed in component order. */
  ghost predicate InComponentOrder(pointIds: seq<Id>, globalCol: map<Id, nat>, key: map<Id, int>, classes: seq<int>)
    requires globalCol.Keys == Elements(pointIds)
  {
    && (forall k :: k in classes <==> k in KeysOf(pointIds, key))
    && (forall k :: k in classes ==> Bucket(pointIds, key, k) != [])
    && (forall i, j :: 0 <= i < j < |classes| ==> ClassBefore(pointIds, globalCol, key, classes[i], classes[j]))
  }

  ghost predicate SortKeyOf(pointIds: seq<Id>, globalCol: map<Id, nat>, key: map<Id, int>, k: int, sortKey: SortKey)
    requires globalCol.Keys == Elements(pointIds)
  {
    && k in KeysOf(pointIds, key) && Bucket(pointIds, key, k) != []
    && sortKey == (LeftmostOf(Bucket(pointIds, key, k), globalCol), 0)
  }

  method ClassKey(pointIds: seq<Id>, globalCol: map<Id, nat>, key: map<Id, int>, k: int, ids: seq<Id>) returns (sortKey: SortKey)
    requires globalCol.Keys == Elements(pointIds) && k in KeysOf(pointIds, key) && ids == Bucket(pointIds, key, k)
    ensures SortKeyOf(pointIds, globalCol, key, k, sortKey)
  {
    ClassHasMembers(pointIds, key, k);
    var m := Leftmost(ids, globalCol);
    sortKey := (m, 0);
  }

  ghost predicate KeyedUpTo(pointIds: seq<Id>, globalCol: map<Id, nat>, key: map<Id, int>, order: seq<int>, keys: seq<SortKey>)
    requires globalCol.Keys == Elements(pointIds) && |keys| <= |order|
  {
    forall j :: 0 <= j < |keys| ==> SortKeyOf(pointIds, globalCol, key, order[j], keys[j])
  }

  lemma KeyedOneMore(pointIds: seq<Id>, globalCol: map<Id, nat>, key: map<Id, int>, order: seq<int>, keys: seq<SortKey>, sortKey: SortKey)
    requires globalCol.Keys == Elements(pointIds) && |keys| < |order| && KeyedUpTo(pointIds, globalCol, key, order, keys)
    requires SortKeyOf(pointIds, globalCol, key, order[|keys|], sortKey)
    ensures KeyedUpTo(pointIds, globalCol, key, order, keys + [sortKey])
  {
  }

  /** The key each group sorts by. */
  method ClassKeys(pointIds: seq<Id>, globalCol: map<Id, nat>, key: map<Id, int>, order: seq<int>, groups: map<int, seq<Id>>)
    returns (keys: seq<SortKey>)
    requires globalCol.Keys == Elements(pointIds) && Grouped(pointIds, key, groups)
    requires forall k :: k in order ==> k in KeysOf(pointIds, key)
    ensures |keys| == |order| && KeyedUpTo(pointIds, globalCol, key, order, keys)
  {
    keys := [];
    for i := 0 to |order|
      invariant |keys| == i && KeyedUpTo(pointIds, globalCol, key, order, keys)
    {
      var k := order[i];
      assert k in order;
      var sortKey := ClassKey(pointIds, globalCol, key, k, groups[k]);
      KeyedOneMore(pointIds, globalCol, key, order, keys, sortKey);
      keys := keys + [sortKey];
    }
  }

  lemma ClassesInOrder(pointIds: seq<Id>, globalCol: map<Id, nat>, key: map<Id, int>, order: seq<int>,
                       keys: seq<SortKey>, perm: seq<nat>, classes: seq<int>)
    requires globalCol.Keys == Elements(pointIds) && InFirstEncounterOrder(pointIds, key, order)
    requires |keys| == |order| && KeyedUpTo(pointIds, globalCol, key, order, keys)
    requires IsStableOrder(keys, perm)
    requires |classes| == |perm| && forall i :: 0 <= i < |perm| ==> classes[i] == order[perm[i]]
    ensures InComponentOrder(pointIds, globalCol, key, classes)
  {
    forall k
      ensures k in classes <==> k in KeysOf(pointIds, key)
    {
      if k in KeysOf(pointIds, key) {
        assert k in order;
        var j :| 0 <= j < |order| && order[j] == k;
        assert j in perm;
        var i :| 0 <= i < |perm| && perm[i] == j;
        assert classes[i] == k;
      }
      if k in classes {
        var i :| 0 <= i < |classes| && classes[i] == k;
        assert SortKeyOf(pointIds, globalCol, key, order[perm[i]], keys[perm[i]]);
      }
    }
    forall k | k in classes
      ensures Bucket(pointIds, key, k) != []
    {
      ClassHasMembers(pointIds, key, k);
    }
    forall i, j | 0 <= i < j < |classes|
      ensures ClassBefore(pointIds, globalCol, key, classes[i], classes[j])
    {
      assert SortsBefore(keys, perm[i], perm[j]);
      assert SortKeyOf(pointIds, globalCol, key, order[perm[i]], keys[perm[i]]);
      assert SortKeyOf(pointIds, globalCol, key, order[perm[j]], keys[perm[j]]);
    }
  }

  /** Sorts the groups by their leftmost column, keeping first-encountered order on ties. */
  method OrderClasses(pointIds: seq<Id>, globalCol: map<Id, nat>, key: map<Id, int>, order: seq<int>, groups: map<int, seq<Id>>)
    returns (classes: seq<int>)
    requires globalCol.Keys == Elements(pointIds)
    requires Grouped(pointIds, key, groups) && InFirstEncounterOrder(pointIds, key, order)
    ensures InComponentOrder(pointIds, globalCol, key, classes)
  {
    var keys := ClassKeys(pointIds, globalCol, key, order, groups);
    var perm := StableSort(keys);
    classes := seq(|perm|, i requires 0 <= i < |perm| => order[perm[i]]);
    ClassesInOrder(pointIds, globalCol, key, order, keys, perm, classes);
  }

  /** componentIndex: every point gets the position of its class. */
  ghost predicate Indexed(pointIds: seq<Id>, key: map<Id, int>, classes: seq<int>, upTo: nat, index: map<Id, nat>)
    requires upTo <= |classes|
  {
    && (forall id :: id in index ==> id in pointIds && id in key && index[id] < upTo && classes[index[id]] == key[id])
    && (forall id :: id in pointIds && id in key && key[id] in classes[..upTo] ==> id in index)
  }

  method IndexClasses(pointIds: seq<Id>, key: map<Id, int>, classes: seq<int>, groups: map<int, seq<Id>>) returns (index: map<Id, nat>)
    requires forall k :: k in classes ==> k in groups && groups[k] == Bucket(pointIds, key, k)
    requires forall i, j :: 0 <= i < j < |classes| ==> classes[i] != classes[j]
    ensures Indexed(pointIds, key, classes, |classes|, index)
  {
    index := map[];
    for idx := 0 to |classes|
      invariant Indexed(pointIds, key, classes, idx, index)
    {
      var k := classes[idx];
      assert k in classes;
      assert classes[..idx + 1] == classes[..idx] + [k];
      var ids := groups[k];
      for r := 0 to |ids|
        invariant forall id :: id in index ==> id in pointIds && id in key && index[id] < idx + 1 && classes[index[id]] == key[id]
        invariant forall id :: id in pointIds && id in key && key[id] in classes[..idx] ==> id in index
        invariant forall id :: id in ids[..r] ==> id in index
      {
        var id := ids[r];
        assert id in ids;
        assert ids[..r + 1] == ids[..r] + [id];
        index := index[id := idx];
      }
      assert ids[..|ids|] == ids;
    }
  }

  /** Components are numbered 0..count-1, are the connectivity classes, and are in component order. */
  ghost predicate IsComponents(pointIds: seq<Id>, links: set<Arc>, globalCol: map<Id, nat>, index: map<Id, nat>, count: nat) {
    && globalCol.Keys == Elements(pointIds) == index.Keys
    && (forall id :: id in pointIds ==> index[id] < count)
    && (forall i: nat :: i < count ==> i in KeysOf(pointIds, index) && Bucket(pointIds, index, i) != [])
    && (forall u, v :: u in pointIds && v in pointIds ==> (index[u] == index[v] <==> Connected(links, u, v)))
    && (forall i, j :: 0 <= i < j < count ==> ClassBefore(pointIds, globalCol, index, i, j))
  }

  ghost predicate Connected(links: set<Arc>, u: Id, v: Id) {
    UnionFind.Connected(links, u, v)
  }

  lemma RenumberedClass(pointIds: seq<Id>, key: map<Id, int>, classes: seq<int>, index: map<Id, nat>, i: nat)
    requires i < |classes| && classes[i] in KeysOf(pointIds, key)
    requires forall a, b :: 0 <= a < b < |classes| ==> classes[a] != classes[b]
    requires Indexed(pointIds, key, classes, |classes|, index)
    ensures Bucket(pointIds, index, i) == Bucket(pointIds, key, classes[i])
    ensures i in KeysOf(pointIds, index) && FirstIndex(pointIds, index, i) == FirstIndex(pointIds, key, classes[i])
  {
    var k := classes[i];
    assert classes[..|classes|] == classes;
    forall id | id in pointIds
      ensures id in index && index[id] == i <==> id in key && key[id] == k
    {
      if id in key && key[id] == k {
        assert k in classes;
        assert id in index;
      }
    }
    BucketDependsOnMembers(pointIds, index, i, key, k);
    var f := FirstIndex(pointIds, key, k);
    forall j | 0 <= j < |pointIds|
      ensures HasKey(pointIds, index, i, j) <==> HasKey(pointIds, key, k, j)
    {
      var id := pointIds[j];
      assert id in pointIds;
    }
    FirstIndexUnique(pointIds, index, i, f);
  }

  lemma IndexIsComponents(pointIds: seq<Id>, links: set<Arc>, globalCol: map<Id, nat>, root: map<Id, Id>, classes: seq<int>, index: map<Id, nat>)
    requires globalCol.Keys == Elements(pointIds) == root.Keys
    requires UnionFind.Represents(root, links) && UnionFind.Symmetric(links)
    requires InComponentOrder(pointIds, globalCol, root, classes)
    requires forall a, b :: 0 <= a < b < |classes| ==> classes[a] != classes[b]
    requires Indexed(pointIds, root, classes, |classes|, index)
    ensures IsComponents(pointIds, links, globalCol, index, |classes|)
  {
    assert classes[..|classes|] == classes;
    forall id: Id
      ensures id in index.Keys <==> id in Elements(pointIds)
    {
      if id in pointIds {
        var k := root[id];
        assert k in KeysOf(pointIds, root);
        assert k in classes;
      }
    }
    forall i: nat | i < |classes|
      ensures i in KeysOf(pointIds, index) && Bucket(pointIds, index, i) != []
      ensures Bucket(pointIds, index, i) == Bucket(pointIds, root, classes[i])
      ensures FirstIndex(pointIds, index, i) == FirstIndex(pointIds, root, classes[i])
    {
      var k := classes[i];
      assert k in classes;
      RenumberedClass(pointIds, root, classes, index, i);
    }
    forall u, v | u in pointIds && v in pointIds
      ensures index[u] == index[v] <==> Connected(links, u, v)
    {
      UnionFind.ClassesAreConnectivity(root, links, u, v);
      assert index[u] == index[v] <==> root[u] == root[v];
    }
    forall i, j | 0 <= i < j < |classes|
      ensures ClassBefore(pointIds, globalCol, index, i, j)
    {
      assert ClassBefore(pointIds, globalCol, root, classes[i], classes[j]);
    }
  }

  /** The representatives, found one point at a time. */
  method FindAll(pointIds: seq<Id>, forest: UnionFind.Forest) returns (root: map<Id, Id>)
    requires forest.Valid() && forest.parent.Keys == Points(pointIds)
    modifies forest`parent
    ensures root == forest.root
  {
    root := map[];
    for i := 0 to |pointIds|
      invariant forest.Valid() && forest.parent.Keys == Points(pointIds)
      invariant root.Keys == Points(pointIds[..i])
      invariant forall id :: id in root ==> id in forest.root && root[id] == forest.root[id]
    {
      var id := pointIds[i];
      assert id in pointIds;
      assert pointIds[..i + 1] == pointIds[..i] + [id];
      var r := forest.Find(id);
      root := root[id := r];
    }
    assert pointIds[..|pointIds|] == pointIds;
    assert root.Keys == forest.root.Keys;
    SameMap(root, forest.root);
  }

  lemma SameMap(a: map<Id, Id>, b: map<Id, Id>)
    requires a.Keys == b.Keys && forall id :: id in a ==> a[id] == b[id]
    ensures a == b
  {
    forall id | id in a
      ensures id in b && a[id] == b[id]
    {
      assert id in a.Keys;
    }
  }

  lemma ClassesDiffer(pointIds: seq<Id>, globalCol: map<Id, nat>, key: map<Id, int>, classes: seq<int>)
    requires globalCol.Keys == Elements(pointIds) && InComponentOrder(pointIds, globalCol, key, classes)
    ensures forall i, j :: 0 <= i < j < |classes| ==> classes[i] != classes[j]
  {
    forall i, j | 0 <= i < j < |classes|
      ensures classes[i] != classes[j]
    {
      assert ClassBefore(pointIds, globalCol, key, classes[i], classes[j]);
    }
  }

  lemma ClassesAreGrouped(pointIds: seq<Id>, globalCol: map<Id, nat>, key: map<Id, int>, classes: seq<int>, groups: map<int, seq<Id>>)
    requires globalCol.Keys == Elements(pointIds) && InComponentOrder(pointIds, globalCol, key, classes)
    requires Grouped(pointIds, key, groups)
    ensures forall i :: 0 <= i < |classes| ==> classes[i] in groups && classes[i] in KeysOf(pointIds, key)
  {
    forall i | 0 <= i < |classes|
      ensures classes[i] in groups && classes[i] in KeysOf(pointIds, key)
    {
      var k := classes[i];
      assert k in classes;
    }
  }

  /** orderedComponents: the ids of every class, in component order. */
  method Components(pointIds: seq<Id>, edges: seq<LayeringEdge>, globalCol: map<Id, nat>)
    returns (components: seq<seq<Id>>, index: map<Id, nat>)
    requires globalCol.Keys == Elements(pointIds)
    ensures IsComponents(pointIds, UnionFind.Links(Points(pointIds), edges), globalCol, index, |components|)
    ensures forall i :: 0 <= i < |components| ==> components[i] == Bucket(pointIds, index, i)
  {
    var forest := UnionFind.UnionAll(pointIds, edges);
    var root := FindAll(pointIds, forest);
    var order, groups := GroupBy(pointIds, root);
    var classes := OrderClasses(pointIds, globalCol, root, order, groups);
    ClassesDiffer(pointIds, globalCol, root, classes);
    ClassesAreGrouped(pointIds, globalCol, root, classes, groups);
    index := IndexClasses(pointIds, root, classes, groups);
    components := seq(|classes|, i requires 0 <= i < |classes| && classes[i] in groups => groups[classes[i]]);
    IndexIsComponents(pointIds, UnionFind.Links(Points(pointIds), edges), globalCol, root, classes, index);
    forall i | 0 <= i < |components|
      ensures components[i] == Bucket(pointIds, index, i)
    {
      RenumberedClass(pointIds, root, classes, index, i);
    }
  }

  /** A run of columns: the depths it holds, ascending, and the column of the first. */
  datatype Block = Block(depths: seq<nat>, base: nat) {
    function End(): nat {
      base + |depths|
    }
  }

  /** The node of a point: inside the columns of its block, in the column of its depth. */
  ghost predicate NodeIn(ids: seq<Id>, depth: map<Id, nat>, block: Block, id: Id, component: nat, node: Node) {
    && id in depth && node.id == id && node.component == component
    && block.base <= node.col
    && InCell(ids, depth, block.depths, id, node.col - block.base, node.row)
  }

  /** The grid of one group of ids, from column `base` on. */
  method PlaceBlock(ids: seq<Id>, depth: map<Id, nat>, index: map<Id, nat>, base: nat, nodes0: map<Id, Node>)
    returns (nodes: map<Id, Node>, block: Block, rows: nat)
    requires forall id :: id in ids ==> id in depth && id in index
    ensures block.base == base && DepthRanks(ids, depth, block.depths) && Tallest(ids, depth, block.depths, rows)
    ensures nodes.Keys == nodes0.Keys + Elements(ids)
    ensures forall id :: id in ids ==> NodeIn(ids, depth, block, id, index[id], nodes[id])
    ensures forall id :: id in nodes0 && id !in ids ==> nodes[id] == nodes0[id]
  {
    var depths, col, row, r := PlaceGrid(ids, depth);
    rows, block := r, Block(depths, base);
    nodes := AddNodes(ids, index, base, col, row, nodes0);
    CellsAreNodes(ids, depth, block, index, col, row, nodes);
  }

  lemma CellsAreNodes(ids: seq<Id>, depth: map<Id, nat>, block: Block, index: map<Id, nat>, col: map<Id, nat>, row: map<Id, nat>, nodes: map<Id, Node>)
    requires forall id :: id in ids ==> id in depth && id in index && id in col && id in row && id in nodes
    requires forall id :: id in ids ==> InCell(ids, depth, block.depths, id, col[id], row[id])
    requires forall id :: id in ids ==> nodes[id] == Node(id, block.base + col[id], row[id], index[id])
    ensures forall id :: id in ids ==> NodeIn(ids, depth, block, id, index[id], nodes[id])
  {
    forall id | id in ids
      ensures NodeIn(ids, depth, block, id, index[id], nodes[id])
    {
      assert InCell(ids, depth, block.depths, id, col[id], row[id]);
    }
  }

  method AddNodes(ids: seq<Id>, index: map<Id, nat>, base: nat, col: map<Id, nat>, row: map<Id, nat>, nodes0: map<Id, Node>)
    returns (nodes: map<Id, Node>)
    requires forall id :: id in ids ==> id in index && id in col && id in row
    ensures nodes.Keys == nodes0.Keys + Elements(ids)
    ensures forall id :: id in ids ==> nodes[id] == Node(id, base + col[id], row[id], index[id])
    ensures forall id :: id in nodes0 && id !in ids ==> nodes[id] == nodes0[id]
  {
    nodes := nodes0;
    for i := 0 to |ids|
      invariant nodes.Keys == nodes0.Keys + Elements(ids[..i])
      invariant forall id :: id in ids[..i] ==> nodes[id] == Node(id, base + col[id], row[id], index[id])
      invariant forall id :: id in nodes0 && id !in ids ==> nodes[id] == nodes0[id]
    {
      var id := ids[i];
      assert id in ids;
      assert ids[..i + 1] == ids[..i] + [id];
      nodes := nodes[id := Node(id, base + col[id], row[id], index[id])];
    }
    assert ids[..|ids|] == ids;
  }

  /** One run of columns per group, each starting one empty column after the previous. */
  ghost predicate BlocksLaid(pointIds: seq<Id>, depth: map<Id, nat>, group: map<Id, nat>, blocks: seq<Block>) {
    && (forall i :: 0 <= i < |blocks| ==> DepthRanks(Bucket(pointIds, group, i), depth, blocks[i].depths))
    && (blocks != [] ==> blocks[0].base == 0)
    && (forall i :: 0 < i < |blocks| ==> blocks[i].base == blocks[i - 1].End() + 1)
  }

  ghost predicate NodePlaced(pointIds: seq<Id>, depth: map<Id, nat>, group: map<Id, nat>, index: map<Id, nat>, blocks: seq<Block>, nodes: map<Id, Node>, id: Id) {
    && id in nodes && id in group && id in index && group[id] < |blocks|
    && NodeIn(Bucket(pointIds, group, group[id]), depth, blocks[group[id]], id, index[id], nodes[id])
  }

  /** Every point whose group has a block is placed; nothing else is. */
  ghost predicate NodesPlaced(pointIds: seq<Id>, depth: map<Id, nat>, group: map<Id, nat>, index: map<Id, nat>, blocks: seq<Block>, nodes: map<Id, Node>) {
    && (forall id :: id in nodes ==> id in pointIds)
    && (forall id :: id in pointIds && id in group && group[id] < |blocks| ==> NodePlaced(pointIds, depth, group, index, blocks, nodes, id))
  }

  lemma NodesOfOneMoreBlock(pointIds: seq<Id>, depth: map<Id, nat>, group: map<Id, nat>, index: map<Id, nat>, blocks: seq<Block>,
                            nodes: map<Id, Node>, ids: seq<Id>, block: Block, nodes': map<Id, Node>)
    requires NodesPlaced(pointIds, depth, group, index, blocks, nodes) && ids == Bucket(pointIds, group, |blocks|)
    requires forall id :: id in ids ==> id in index
    requires nodes'.Keys == nodes.Keys + Elements(ids)
    requires forall id :: id in ids ==> NodeIn(ids, depth, block, id, index[id], nodes'[id])
    requires forall id :: id in nodes && id !in ids ==> nodes'[id] == nodes[id]
    ensures NodesPlaced(pointIds, depth, group, index, blocks + [block], nodes')
  {
    forall id | id in pointIds && id in group && group[id] < |blocks| + 1
      ensures NodePlaced(pointIds, depth, group, index, blocks + [block], nodes', id)
    {
      if group[id] < |blocks| {
        assert NodePlaced(pointIds, depth, group, index, blocks, nodes, id);
        assert id !in ids;
      } else {
        assert id in ids;
      }
    }
  }

  /** maxRows is the largest number of ids in one column of one block. */
  ghost predicate RowsOf(pointIds: seq<Id>, depth: map<Id, nat>, group: map<Id, nat>, blocks: seq<Block>, maxRows: nat) {
    && (forall i :: 0 <= i < |blocks| ==> BlockRowsAtMost(Bucket(pointIds, group, i), depth, blocks[i].depths, maxRows))
    && (maxRows > 0 ==> exists i :: 0 <= i < |blocks| && Tallest(Bucket(pointIds, group, i), depth, blocks[i].depths, maxRows))
  }

  ghost predicate BlockRowsAtMost(ids: seq<Id>, depth: map<Id, nat>, depths: seq<nat>, maxRows: nat) {
    forall d :: d in depths ==> |Bucket(ids, depth, d)| <= maxRows
  }

  lemma RowsOfOneMoreBlock(pointIds: seq<Id>, depth: map<Id, nat>, group: map<Id, nat>, blocks: seq<Block>, maxRows: nat, block: Block, rows: nat)
    requires RowsOf(pointIds, depth, group, blocks, maxRows)
    requires Tallest(Bucket(pointIds, group, |blocks|), depth, block.depths, rows)
    ensures RowsOf(pointIds, depth, group, blocks + [block], if rows > maxRows then rows else maxRows)
  {
    var blocks', max := blocks + [block], if rows > maxRows then rows else maxRows;
    forall i | 0 <= i < |blocks'|
      ensures BlockRowsAtMost(Bucket(pointIds, group, i), depth, blocks'[i].depths, max)
    {
      if i < |blocks| {
        assert BlockRowsAtMost(Bucket(pointIds, group, i), depth, blocks[i].depths, maxRows);
      }
    }
    if rows > maxRows {
      assert Tallest(Bucket(pointIds, group, |blocks|), depth, blocks'[|blocks|].depths, max);
    } else if maxRows > 0 {
      var i :| 0 <= i < |blocks| && Tallest(Bucket(pointIds, group, i), depth, blocks[i].depths, maxRows);
      assert Tallest(Bucket(pointIds, group, i), depth, blocks'[i].depths, max);
    }
  }

  /** One spacer column between every two neighbouring blocks. */
  ghost predicate BreaksBetween(blocks: seq<Block>, breakCols: seq<nat>) {
    && |breakCols| == (if blocks == [] then 0 else |blocks| - 1)
    && forall i :: 0 <= i < |breakCols| ==> breakCols[i] == blocks[i].End()
  }

  function EndOf(blocks: seq<Block>): nat {
    if blocks == [] then 0 else blocks[|blocks| - 1].End()
  }

  /** What the split loop has built from the components so far. */
  ghost predicate SplitSoFar(pointIds: seq<Id>, depth: map<Id, nat>, index: map<Id, nat>, blocks: seq<Block>,
                             nodes: map<Id, Node>, breakCols: seq<nat>, maxRows: nat) {
    && BlocksLaid(pointIds, depth, index, blocks)
    && NodesPlaced(pointIds, depth, index, index, blocks, nodes)
    && RowsOf(pointIds, depth, index, blocks, maxRows)
    && BreaksBetween(blocks, breakCols)
  }

  lemma BlocksOfOneMore(pointIds: seq<Id>, depth: map<Id, nat>, group: map<Id, nat>, blocks: seq<Block>, block: Block)
    requires BlocksLaid(pointIds, depth, group, blocks)
    requires DepthRanks(Bucket(pointIds, group, |blocks|), depth, block.depths)
    requires block.base == if blocks == [] then 0 else EndOf(blocks) + 1
    ensures BlocksLaid(pointIds, depth, group, blocks + [block])
  {
    var blocks' := blocks + [block];
    forall i | 0 <= i < |blocks'|
      ensures DepthRanks(Bucket(pointIds, group, i), depth, blocks'[i].depths)
    {
      if i < |blocks| {
        assert DepthRanks(Bucket(pointIds, group, i), depth, blocks[i].depths);
      }
    }
  }

  /** The body of the split loop. */
  method PlaceComponent(pointIds: seq<Id>, depth: map<Id, nat>, index: map<Id, nat>, ids: seq<Id>, ghost blocks: seq<Block>,
                        nodes0: map<Id, Node>, breakCols0: seq<nat>, maxRows0: nat, nextCol0: nat, first: bool)
    returns (ghost block: Block, nodes: map<Id, Node>, breakCols: seq<nat>, maxRows: nat, nextCol: nat)
    requires forall id :: id in pointIds ==> id in depth && id in index
    requires SplitSoFar(pointIds, depth, index, blocks, nodes0, breakCols0, maxRows0) && nextCol0 == EndOf(blocks)
    requires ids == Bucket(pointIds, index, |blocks|) && first == (blocks == [])
    ensures SplitSoFar(pointIds, depth, index, blocks + [block], nodes, breakCols, maxRows)
    ensures nextCol == EndOf(blocks + [block])
  {
    breakCols, nextCol := breakCols0, nextCol0;
    if !first {
      breakCols := breakCols + [nextCol];
      nextCol := nextCol + 1;
    }
    var b, rows;
    nodes, b, rows := PlaceBlock(ids, depth, index, nextCol, nodes0);
    block := b;
    maxRows := if rows > maxRows0 then rows else maxRows0;
    nextCol := nextCol + |b.depths|;
    BlocksOfOneMore(pointIds, depth, index, blocks, block);
    NodesOfOneMoreBlock(pointIds, depth, index, index, blocks, nodes0, ids, block, nodes);
    RowsOfOneMoreBlock(pointIds, depth, index, blocks, maxRows0, block, rows);
  }

  /** `splitComponents: true`: every component gets its own columns. */
  method PlaceSplit(pointIds: seq<Id>, depth: map<Id, nat>, index: map<Id, nat>, components: seq<seq<Id>>)
    returns (ghost blocks: seq<Block>, nodes: map<Id, Node>, breakCols: seq<nat>, maxRows: nat, nextCol: nat)
    requires forall id :: id in pointIds ==> id in depth && id in index
    requires forall i :: 0 <= i < |components| ==> components[i] == Bucket(pointIds, index, i)
    ensures SplitSoFar(pointIds, depth, index, blocks, nodes, breakCols, maxRows)
    ensures |blocks| == |components| && nextCol == EndOf(blocks)
  {
    blocks, nodes, breakCols, maxRows, nextCol := [], map[], [], 0, 0;
    for i := 0 to |components|
      invariant |blocks| == i && nextCol == EndOf(blocks)
      invariant SplitSoFar(pointIds, depth, index, blocks, nodes, breakCols, maxRows)
    {
      ghost var block;
      block, nodes, breakCols, maxRows, nextCol :=
        PlaceComponent(pointIds, depth, index, components[i], blocks, nodes, breakCols, maxRows, nextCol, i == 0);
      blocks := blocks + [block];
    }
  }

  /** How a layout came about: the depths, the grid that orders the components, the component of
      every point, and the runs of columns. */
  datatype Plan = Plan(depth: map<Id, nat>, globalCol: map<Id, nat>, index: map<Id, nat>, group: map<Id, nat>, blocks: seq<Block>)

  /** The global grid: the column of a point is the rank of its depth among all depths. */
  ghost predicate GlobalGrid(pointIds: seq<Id>, depth: map<Id, nat>, globalCol: map<Id, nat>) {
    && (forall id :: id in pointIds ==> id in depth)
    && exists depths, row, rows :: IsGrid(pointIds, depth, depths, globalCol, row, rows)
  }

  /** The nodes, columns and breaks of a layout are those of its plan: one run of columns per
      component when split, a single run otherwise. */
  ghost predicate Columned(pointIds: seq<Id>, split: bool, plan: Plan, layout: Layout) {
    && (forall id :: id in pointIds ==> id in plan.index && id in plan.group && plan.group[id] == (if split then plan.index[id] else 0))
    && |plan.blocks| == (if split then layout.componentCount else 1)
    && BlocksLaid(pointIds, plan.depth, plan.group, plan.blocks)
    && NodesPlaced(pointIds, plan.depth, plan.group, plan.index, plan.blocks, layout.nodes)
    && RowsOf(pointIds, plan.depth, plan.group, plan.blocks, layout.maxRows)
    && BreaksBetween(plan.blocks, layout.breakCols)
    && layout.colCount == EndOf(plan.blocks)
  }

  ghost predicate IsLayout(pointIds: seq<Id>, edges: seq<LayeringEdge>, split: bool, plan: Plan, layout: Layout) {
    && GridDepths(pointIds, edges, plan.depth) && GlobalGrid(pointIds, plan.depth, plan.globalCol)
    && IsComponents(pointIds, UnionFind.Links(Points(pointIds), edges), plan.globalCol, plan.index, layout.componentCount)
    && Columned(pointIds, split, plan, layout)
  }

  lemma {:induction false} OneGroup(ids: seq<Id>, group: map<Id, nat>)
    requires forall id :: id in ids ==> id in group && group[id] == 0
    ensures Bucket(ids, group, 0) == ids
  {
    if ids != [] {
      var n := |ids| - 1;
      OneGroup(ids[..n], group);
      var last := ids[n];
      assert last in ids;
      assert ids == ids[..n] + [last];
    }
  }

  /** The nodes of the global grid. */
  method GridNodes(pointIds: seq<Id>, index: map<Id, nat>, globalCol: map<Id, nat>, globalRow: map<Id, nat>) returns (nodes: map<Id, Node>)
    requires forall id :: id in pointIds ==> id in index && id in globalCol && id in globalRow
    ensures nodes.Keys == Elements(pointIds)
    ensures forall id :: id in nodes ==> id in pointIds && nodes[id] == Node(id, globalCol[id], globalRow[id], index[id])
  {
    nodes := map[];
    for i := 0 to |pointIds|
      invariant nodes.Keys == Elements(pointIds[..i])
      invariant forall id :: id in nodes ==> id in pointIds && nodes[id] == Node(id, globalCol[id], globalRow[id], index[id])
    {
      var id := pointIds[i];
      assert id in pointIds;
      assert pointIds[..i + 1] == pointIds[..i] + [id];
      nodes := nodes[id := Node(id, globalCol[id], globalRow[id], index[id])];
    }
    assert pointIds[..|pointIds|] == pointIds;
  }

  /** `splitComponents: false`: the global grid is the layout. */
  method PlaceWhole(pointIds: seq<Id>, depth: map<Id, nat>, index: map<Id, nat>, sortedDepths: seq<nat>,
                    globalCol: map<Id, nat>, globalRow: map<Id, nat>, rows: nat)
    returns (nodes: map<Id, Node>, ghost group: map<Id, nat>)
    requires forall id :: id in pointIds ==> id in depth && id in index
    requires IsGrid(pointIds, depth, sortedDepths, globalCol, globalRow, rows)
    ensures group == map id | id in pointIds :: 0
    ensures BlocksLaid(pointIds, depth, group, [Block(sortedDepths, 0)])
    ensures NodesPlaced(pointIds, depth, group, index, [Block(sortedDepths, 0)], nodes)
    ensures RowsOf(pointIds, depth, group, [Block(sortedDepths, 0)], rows)
  {
    nodes := GridNodes(pointIds, index, globalCol, globalRow);
    group := map id | id in pointIds :: 0;
    OneGroup(pointIds, group);
    WholeIsLaid(pointIds, depth, sortedDepths, group, rows);
    forall id | id in pointIds
      ensures NodePlaced(pointIds, depth, group, index, [Block(sortedDepths, 0)], nodes, id)
    {
      PlacedInWhole(pointIds, depth, index, sortedDepths, globalCol, globalRow, nodes, group, id);
    }
  }

  lemma PlacedInWhole(pointIds: seq<Id>, depth: map<Id, nat>, index: map<Id, nat>, sortedDepths: seq<nat>,
                      globalCol: map<Id, nat>, globalRow: map<Id, nat>, nodes: map<Id, Node>, group: map<Id, nat>, id: Id)
    requires id in pointIds && id in depth && id in index && id in group && group[id] == 0 && Bucket(pointIds, group, 0) == pointIds
    requires id in globalCol && id in globalRow && InCell(pointIds, depth, sortedDepths, id, globalCol[id], globalRow[id])
    requires id in nodes && nodes[id] == Node(id, globalCol[id], globalRow[id], index[id])
    ensures NodePlaced(pointIds, depth, group, index, [Block(sortedDepths, 0)], nodes, id)
  {
  }

  lemma WholeIsLaid(pointIds: seq<Id>, depth: map<Id, nat>, sortedDepths: seq<nat>, group: map<Id, nat>, rows: nat)
    requires Bucket(pointIds, group, 0) == pointIds
    requires DepthRanks(pointIds, depth, sortedDepths) && Tallest(pointIds, depth, sortedDepths, rows)
    ensures BlocksLaid(pointIds, depth, group, [Block(sortedDepths, 0)])
    ensures RowsOf(pointIds, depth, group, [Block(sortedDepths, 0)], rows)
  {
    var blocks := [Block(sortedDepths, 0)];
    assert Tallest(Bucket(pointIds, group, 0), depth, blocks[0].depths, rows);
  }

  /** The depths the grid is built from. */
  method LayoutDepths(pointIds: seq<Id>, edges: seq<LayeringEdge>) returns (depth: map<Id, nat>)
    ensures GridDepths(pointIds, edges, depth) && forall id :: id in pointIds ==> id in depth
  {
    ghost var settled;
    depth, settled := ComputeLongestPathDepth(pointIds, edges);
    depth := TrailOrphans(pointIds, edges, depth);
  }

  lemma IndexedPoints(pointIds: seq<Id>, edges: seq<LayeringEdge>, globalCol: map<Id, nat>, index: map<Id, nat>, count: nat)
    requires IsComponents(pointIds, UnionFind.Links(Points(pointIds), edges), globalCol, index, count)
    ensures forall id :: id in pointIds ==> id in index
  {
    assert forall id :: id in pointIds ==> id in Elements(pointIds);
  }

  /** The two branches on splitComponents. */
  method Place(pointIds: seq<Id>, edges: seq<LayeringEdge>, depth: map<Id, nat>, sortedDepths: seq<nat>, globalCol: map<Id, nat>,
               globalRow: map<Id, nat>, rows: nat, components: seq<seq<Id>>, index: map<Id, nat>, splitComponents: bool)
    returns (layout: Layout, ghost plan: Plan)
    requires forall id :: id in pointIds ==> id in depth && id in index
    requires IsGrid(pointIds, depth, sortedDepths, globalCol, globalRow, rows)
    requires forall i :: 0 <= i < |components| ==> components[i] == Bucket(pointIds, index, i)
    ensures plan.depth == depth && plan.globalCol == globalCol && plan.index == index && layout.componentCount == |components|
    ensures Columned(pointIds, splitComponents, plan, layout)
  {
    if !splitComponents {
      ghost var group;
      var nodes;
      nodes, group := PlaceWhole(pointIds, depth, index, sortedDepths, globalCol, globalRow, rows);
      layout := Layout(nodes, |sortedDepths|, rows, |components|, []);
      plan := Plan(depth, globalCol, index, group, [Block(sortedDepths, 0)]);
    } else {
      ghost var blocks;
      var nodes, breakCols, maxRows, colCount;
      blocks, nodes, breakCols, maxRows, colCount := PlaceSplit(pointIds, depth, index, components);
      layout := Layout(nodes, colCount, maxRows, |components|, breakCols);
      plan := Plan(depth, globalCol, index, index, blocks);
    }
  }

  /** The layout of these points and edges, by some plan. */
  ghost predicate IsRouteLayout(pointIds: seq<Id>, edges: seq<LayeringEdge>, split: bool, layout: Layout) {
    exists plan :: IsLayout(pointIds, edges, split, plan, layout)
  }

  method ComputeRouteLayout(pointIds: seq<Id>, edges: seq<LayeringEdge>, splitComponents: bool) returns (layout: Layout, ghost plan: Plan)
    ensures IsLayout(pointIds, edges, splitComponents, plan, layout)
    ensures IsRouteLayout(pointIds, edges, splitComponents, layout)
  {
    var depth := LayoutDepths(pointIds, edges);
    var sortedDepths, globalCol, globalRow, rows := PlaceGrid(pointIds, depth);
    var components, index := Components(pointIds, edges, globalCol);
    IndexedPoints(pointIds, edges, globalCol, index, |components|);
    assert GlobalGrid(pointIds, depth, globalCol);
    layout, plan := Place(pointIds, edges, depth, sortedDepths, globalCol, globalRow, rows, components, index, splitComponents);
    assert IsLayout(pointIds, edges, splitComponents, plan, layout);
  }
}
