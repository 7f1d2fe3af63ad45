/**
 * `LatticeMesh`: the graph's nodes and edges packed into data textures
 * (positions, colours, sizes, flag masks, edge widths and opacities) that the
 * node and edge shaders pull from, the key -> index caches, and the
 * `diff`/`patch` pair that brings the textures in line with the graph.
 *
 * A `Float32Array` store rounds its value with `Math.fround`; the rounding is
 * the parameter `fr` of every operation that stores or compares a float.
 */
module LatticeMesh {
  import opened Wrappers
  import opened Vectors
  import opened NodeFlags
  import TextureLayout

  datatype Node = Node(key: string, pos: Vec3, colour: Vec3, size: real,
                       hovered: bool, highlighted: bool, selected: bool)

  datatype Edge = Edge(key: string, source: int, target: int, width: real, opacity: real)

  datatype Graph = Graph(nodes: seq<Node>, edges: seq<Edge>)

  // ---------------------------------------------------------------------
  // unflatten

  /** `A[A.length - 1].push(n)` on an empty accumulator reads `undefined` and throws. */
  datatype UnflattenError = EmptyAccumulator

  function Concat<T>(chunks: seq<seq<T>>): seq<T>
    decreases |chunks|
  {
    if |chunks| == 0 then [] else Concat(chunks[..|chunks| - 1]) + chunks[|chunks| - 1]
  }

  lemma ConcatAppend<T>(chunks: seq<seq<T>>, c: seq<T>)
    ensures Concat(chunks + [c]) == Concat(chunks) + c
  {
    assert (chunks + [c])[..|chunks|] == chunks;
  }

  lemma ConcatGrowLast<T>(chunks: seq<seq<T>>, x: T)
    requires |chunks| > 0
    ensures var n := |chunks|;
            Concat(chunks[..n - 1] + [chunks[n - 1] + [x]]) == Concat(chunks) + [x]
  {
    var n := |chunks|;
    ConcatAppend(chunks[..n - 1], chunks[n - 1] + [x]);
  }

  /** Chunks of `n` consecutive items, the last one possibly shorter. */
  predicate Chunked<T>(chunks: seq<seq<T>>, n: nat) {
    (forall j :: 0 <= j < |chunks| - 1 ==> |chunks[j]| == n)
    && (|chunks| > 0 ==> 1 <= |chunks[|chunks| - 1]| <= n)
  }

  /**
   * The `reduce` of `unflatten(array, N)` over the first `k` items: item `idx`
   * starts a new chunk when `idx % N == 0` and joins the last chunk otherwise
   * (with `N == 0` the test is `NaN == 0`, false, and the first item throws).
   */
  function UnflattenPrefix<T>(a: seq<T>, n: nat, k: nat): (r: Result<seq<seq<T>>, UnflattenError>)
    requires k <= |a|
    ensures r.Err? <==> (n == 0 && k > 0)
    ensures r.Ok? ==> Concat(r.value) == a[..k] && Chunked(r.value, n)
    ensures r.Ok? && k == 0 ==> r.value == []
    ensures r.Ok? && k > 0 ==> |r.value[|r.value| - 1]| == (k - 1) % n + 1
    decreases k
  {
    if k == 0 then Ok([])
    else
      var acc := UnflattenPrefix(a, n, k - 1);
      if acc.Err? then acc
      else if n > 0 && (k - 1) % n == 0 then
        NewChunk(a, n, k, acc.value);
        Ok(acc.value + [[a[k - 1]]])
      else if |acc.value| == 0 then Err(EmptyAccumulator)
      else
        var A := acc.value;
        GrowChunk(a, n, k, A);
        Ok(A[..|A| - 1] + [A[|A| - 1] + [a[k - 1]]])
  }

  /** Item `k - 1` starts a new chunk after a full one: the chunking extends to `k` items. */
  lemma NewChunk<T>(a: seq<T>, n: nat, k: nat, chunks: seq<seq<T>>)
    requires n >= 1 && 1 <= k <= |a| && (k - 1) % n == 0
    requires Concat(chunks) == a[..k - 1] && Chunked(chunks, n)
    requires k == 1 ==> chunks == []
    requires k > 1 ==> |chunks| > 0 && |chunks[|chunks| - 1]| == (k - 2) % n + 1
    ensures var r := chunks + [[a[k - 1]]];
            Concat(r) == a[..k] && Chunked(r, n) && |r[|r| - 1]| == (k - 1) % n + 1
  {
    ModStep(k - 1, n);
    ConcatAppend(chunks, [a[k - 1]]);
    assert a[..k] == a[..k - 1] + [a[k - 1]];
  }

  /** Item `k - 1` joins a chunk that is not full: the chunking extends to `k` items. */
  lemma GrowChunk<T>(a: seq<T>, n: nat, k: nat, chunks: seq<seq<T>>)
    requires n >= 1 && 2 <= k <= |a| && (k - 1) % n != 0
    requires Concat(chunks) == a[..k - 1] && Chunked(chunks, n)
    requires |chunks| > 0 && |chunks[|chunks| - 1]| == (k - 2) % n + 1
    ensures var last := |chunks| - 1;
            var r := chunks[..last] + [chunks[last] + [a[k - 1]]];
            Concat(r) == a[..k] && Chunked(r, n) && |r[last]| == (k - 1) % n + 1
  {
    ModStep(k - 1, n);
    ConcatGrowLast(chunks, a[k - 1]);
    assert a[..k] == a[..k - 1] + [a[k - 1]];
  }

  /** How `(k - 1) % n` follows from `k % n`. */
  lemma ModStep(k: nat, n: nat)
    requires n >= 1
    ensures k >= 1 && k % n == 0 ==> (k - 1) % n == n - 1
    ensures k >= 1 && k % n != 0 ==> (k - 1) % n == k % n - 1
  {
    if k == 0 {
    } else if k % n == 0 {
      TextureLayout.DivModUnique(k - 1, n, k / n - 1, n - 1);
    } else {
      TextureLayout.DivModUnique(k - 1, n, k / n, k % n - 1);
    }
  }

  /**
   * `unflatten(array, N)`: consecutive chunks of `N` items whose concatenation
   * is the array; it throws only for `N == 0` on a non-empty array.
   */
  function Unflatten<T>(a: seq<T>, n: nat): (r: Result<seq<seq<T>>, UnflattenError>)
    ensures r.Err? <==> (n == 0 && |a| > 0)
    ensures r.Ok? ==> Concat(r.value) == a && Chunked(r.value, n)
  {
    assert a[..|a|] == a;
    UnflattenPrefix(a, n, |a|)
  }

  // ---------------------------------------------------------------------
  // key -> index caches

  /**
   * `indexOfNode` / `indexOfEdge`: the cache `new Map(items.map((x, i) => [x.key, i]))`
   * answers the last index holding the key; an absent key gives -1.
   */
  function IndexOf<K(==)>(keys: seq<K>, k: K): (r: int)
    ensures -1 <= r < |keys|
    ensures r == -1 <==> k !in keys
    ensures r >= 0 ==> keys[r] == k && forall j :: r < j < |keys| ==> keys[j] != k
    decreases |keys|
  {
    if |keys| == 0 then -1
    else if keys[|keys| - 1] == k then |keys| - 1
    else IndexOf(keys[..|keys| - 1], k)
  }

  predicate Distinct<K(==)>(keys: seq<K>) {
    forall i, j :: 0 <= i < j < |keys| ==> keys[i] != keys[j]
  }

  /** With unique keys, the cache maps each item's key back to its position. */
  lemma IndexOfDistinct<K>(keys: seq<K>, i: nat)
    requires Distinct(keys) && i < |keys|
    ensures IndexOf(keys, keys[i]) == i
  {
  }

  /** A key held at two positions resolves to the later one. */
  lemma IndexOfDuplicate<K>(keys: seq<K>, i: nat, j: nat)
    requires i < j < |keys| && keys[i] == keys[j]
    ensures IndexOf(keys, keys[i]) >= j
  {
  }

  function NodeKeys(nodes: seq<Node>): (ks: seq<string>)
    ensures |ks| == |nodes| && forall i :: 0 <= i < |nodes| ==> ks[i] == nodes[i].key
  {
    seq(|nodes|, i requires 0 <= i < |nodes| => nodes[i].key)
  }

  function EdgeKeys(edges: seq<Edge>): (ks: seq<string>)
    ensures |ks| == |edges| && forall i :: 0 <= i < |edges| ==> ks[i] == edges[i].key
  {
    seq(|edges|, i requires 0 <= i < |edges| => edges[i].key)
  }

  // ---------------------------------------------------------------------
  // data textures

  datatype Maps = Maps(
    position: TextureLayout.DataTexture<real>,
    colour: TextureLayout.DataTexture<real>,
    size: TextureLayout.DataTexture<real>,
    flags: TextureLayout.DataTexture<bv8>,
    edgeWidth: TextureLayout.DataTexture<real>,
    edgeOpacity: TextureLayout.DataTexture<real>)

  /**
   * The mesh: the graph it was built from (mutated in place by its owner),
   * the key caches taken at construction, the textures and the
   * `anyHighlighted` shader uniform.
   */
  datatype Mesh = Mesh(graph: Graph, nodeKeys: seq<string>, edgeKeys: seq<string>,
                       maps: Maps, anyHighlighted: bool)

  function Round(fr: real -> real, vs: seq<real>): (r: seq<real>)
    ensures |r| == |vs| && forall i :: 0 <= i < |vs| ==> r[i] == fr(vs[i])
  {
    seq(|vs|, i requires 0 <= i < |vs| => fr(vs[i]))
  }

  function RoundVec(fr: real -> real, v: Vec3): Vec3 {
    Vec3(fr(v.x), fr(v.y), fr(v.z))
  }

  function Positions(nodes: seq<Node>): (ps: seq<Vec3>)
    ensures |ps| == |nodes| && forall i :: 0 <= i < |nodes| ==> ps[i] == nodes[i].pos
  {
    seq(|nodes|, i requires 0 <= i < |nodes| => nodes[i].pos)
  }

  function Colours(nodes: seq<Node>): (cs: seq<Vec3>)
    ensures |cs| == |nodes| && forall i :: 0 <= i < |nodes| ==> cs[i] == nodes[i].colour
  {
    seq(|nodes|, i requires 0 <= i < |nodes| => nodes[i].colour)
  }

  function Sizes(nodes: seq<Node>): (ss: seq<real>)
    ensures |ss| == |nodes| && forall i :: 0 <= i < |nodes| ==> ss[i] == nodes[i].size
  {
    seq(|nodes|, i requires 0 <= i < |nodes| => nodes[i].size)
  }

  function Masks(nodes: seq<Node>): (ms: seq<bv8>)
    ensures |ms| == |nodes|
    ensures forall i :: 0 <= i < |nodes| ==>
              ms[i] == MaskOf(nodes[i].hovered, nodes[i].highlighted, nodes[i].selected)
  {
    seq(|nodes|, i requires 0 <= i < |nodes| =>
      MaskOf(nodes[i].hovered, nodes[i].highlighted, nodes[i].selected))
  }

  function Widths(edges: seq<Edge>): (ws: seq<real>)
    ensures |ws| == |edges| && forall i :: 0 <= i < |edges| ==> ws[i] == edges[i].width
  {
    seq(|edges|, i requires 0 <= i < |edges| => edges[i].width)
  }

  function Opacities(edges: seq<Edge>): (os: seq<real>)
    ensures |os| == |edges| && forall i :: 0 <= i < |edges| ==> os[i] == edges[i].opacity
  {
    seq(|edges|, i requires 0 <= i < |edges| => edges[i].opacity)
  }

  /** The textures are large enough for `n` nodes and `e` edges. */
  predicate Sized(maps: Maps, n: nat, e: nat) {
    3 * n <= |maps.position.data| && 3 * n <= |maps.colour.data|
    && n <= |maps.size.data| && n <= |maps.flags.data| && e <= |maps.edgeWidth.data|
  }

  /** What the textures hold for node `i`. */
  datatype Stored = Stored(pos: Vec3, colour: Vec3, size: real, flags: bv8)

  predicate HoldsNode(maps: Maps, i: nat) {
    3 * i + 2 < |maps.position.data| && 3 * i + 2 < |maps.colour.data|
    && i < |maps.size.data| && i < |maps.flags.data|
  }

  function StoredAt(maps: Maps, i: nat): Stored
    requires HoldsNode(maps, i)
  {
    Stored(TexelAt(maps.position.data, i), TexelAt(maps.colour.data, i),
           maps.size.data[i], maps.flags.data[i])
  }

  /** `createSharedMaps`: every texture filled from the graph, zero-padded. */
  function CreateMaps(g: Graph, fr: real -> real): (maps: Maps)
    ensures Sized(maps, |g.nodes|, |g.edges|)
    ensures maps.position.side == maps.colour.side == maps.size.side == maps.flags.side
    ensures maps.edgeWidth.side == maps.edgeOpacity.side
  {
    TextureLayout.PositionTextureSide(|g.nodes|);
    Maps(TextureLayout.CreateMap(Round(fr, Flatten(Positions(g.nodes))), 3, 0.0),
         TextureLayout.CreateMap(Round(fr, Flatten(Colours(g.nodes))), 3, 0.0),
         TextureLayout.CreateMap(Round(fr, Sizes(g.nodes)), 1, 0.0),
         TextureLayout.CreateMap(Masks(g.nodes), 1, 0 as bv8),
         TextureLayout.CreateMap(Round(fr, Widths(g.edges)), 1, 0.0),
         TextureLayout.CreateMap(Round(fr, Opacities(g.edges)), 1, 0.0))
  }

  /** The textures of a new mesh hold each node's rounded position, colour and size, and its mask. */
  lemma CreatedStored(g: Graph, fr: real -> real, i: nat)
    requires i < |g.nodes|
    ensures HoldsNode(CreateMaps(g, fr), i)
    ensures StoredAt(CreateMaps(g, fr), i)
            == Stored(RoundVec(fr, g.nodes[i].pos), RoundVec(fr, g.nodes[i].colour), fr(g.nodes[i].size),
                      MaskOf(g.nodes[i].hovered, g.nodes[i].highlighted, g.nodes[i].selected))
  {
    var maps := CreateMaps(g, fr);
    var ps := Round(fr, Flatten(Positions(g.nodes)));
    var cs := Round(fr, Flatten(Colours(g.nodes)));
    assert maps.position.data[3 * i] == ps[3 * i];
    assert maps.position.data[3 * i + 1] == ps[3 * i + 1];
    assert maps.position.data[3 * i + 2] == ps[3 * i + 2];
    assert maps.colour.data[3 * i] == cs[3 * i];
    assert maps.colour.data[3 * i + 1] == cs[3 * i + 1];
    assert maps.colour.data[3 * i + 2] == cs[3 * i + 2];
  }

  /** The width texture of a new mesh holds each edge's rounded width. */
  lemma CreatedWidth(g: Graph, fr: real -> real, i: nat)
    requires i < |g.edges|
    ensures i < |CreateMaps(g, fr).edgeWidth.data| && CreateMaps(g, fr).edgeWidth.data[i] == fr(g.edges[i].width)
  {
  }

  /**
   * Every node texture is a full `side x side` texture of the position
   * texture's side, the `columns` every shader uses for all of them, and the
   * edge textures share one side too.
   */
  predicate Textured(maps: Maps) {
    var s := maps.position.side;
    |maps.position.data| == s * s * 3
    && maps.colour.side == s && |maps.colour.data| == s * s * 3
    && maps.size.side == s && |maps.size.data| == s * s * 1
    && maps.flags.side == s && |maps.flags.data| == s * s * 1
    && maps.edgeWidth.side == maps.edgeOpacity.side
    && |maps.edgeWidth.data| == maps.edgeWidth.side * maps.edgeWidth.side * 1
    && |maps.edgeOpacity.data| == maps.edgeOpacity.side * maps.edgeOpacity.side * 1
  }

  lemma CreatedTextured(g: Graph, fr: real -> real)
    ensures Textured(CreateMaps(g, fr))
  {
  }

  /** The constructor: key caches, textures, and `anyHighlighted` initially false. */
  function Create(g: Graph, fr: real -> real): (m: Mesh)
    ensures m.graph == g && !m.anyHighlighted
    ensures m.nodeKeys == NodeKeys(g.nodes) && m.edgeKeys == EdgeKeys(g.edges)
    ensures Sized(m.maps, |g.nodes|, |g.edges|)
  {
    Mesh(g, NodeKeys(g.nodes), EdgeKeys(g.edges), CreateMaps(g, fr), false)
  }

  function IndexOfNode(m: Mesh, key: string): int {
    IndexOf(m.nodeKeys, key)
  }

  function IndexOfEdge(m: Mesh, key: string): int {
    IndexOf(m.edgeKeys, key)
  }

  // ---------------------------------------------------------------------
  // diff

  /**
   * The properties `diff` records for one node (`None`: not recorded).
   * A recorded position holds all of `x`, `y`, `z`, a colour all of `r`, `g`, `b`.
   */
  datatype NodeChange = NodeChange(pos: Option<Vec3>, colour: Option<Vec3>, size: Option<real>,
                                   hovered: Option<bool>, highlighted: Option<bool>)

  datatype EdgeChange = EdgeChange(width: Option<real>)

  /** `{nodes: Map, edges: Map}`, each map's entries in insertion order. */
  datatype Changes = Changes(nodes: seq<(nat, NodeChange)>, edges: seq<(nat, EdgeChange)>)

  const NoChange := NodeChange(None, None, None, None, None)

  /** A JavaScript boolean compared with `!=` against a number. */
  function AsNumber(b: bool): int {
    if b then 1 else 0
  }

  /**
   * One iteration of the node loop of `diff`. The colour and size tests read
   * the POSITION texture (slots `3i..3i+2` and slot `i`), as the source does.
   */
  function NodeDiff(maps: Maps, fr: real -> real, node: Node, i: nat): (c: NodeChange)
    requires HoldsNode(maps, i)
    ensures c.pos.Some? <==> RoundVec(fr, node.pos) != StoredAt(maps, i).pos
    ensures c.hovered.Some? <==> node.hovered != Bits(StoredAt(maps, i).flags).hovered
    ensures node.highlighted ==> c.highlighted == Some(true)
    ensures !node.highlighted ==> (c.highlighted.Some? <==> Bits(StoredAt(maps, i).flags).highlighted)
    ensures c.pos.Some? ==> c.pos == Some(node.pos)
    ensures c.hovered.Some? ==> c.hovered == Some(node.hovered)
  {
    var stored := TexelAt(maps.position.data, i);
    var f := maps.flags.data[i];
    var posDiff := fr(node.pos.x) != stored.x || fr(node.pos.y) != stored.y || fr(node.pos.z) != stored.z;
    var colourDiff := fr(node.colour.x) != stored.x || fr(node.colour.y) != stored.y
                      || fr(node.colour.z) != stored.z;
    var sizeDiff := fr(node.size) != maps.position.data[i];
    var hoveredDiff := AsNumber(node.hovered) != (f & Hovered) as int;
    var highlightedDiff := AsNumber(node.highlighted) != (f & Highlighted) as int;
    NodeChange(if posDiff then Some(node.pos) else None,
               if colourDiff then Some(node.colour) else None,
               if sizeDiff then Some(node.size) else None,
               if hoveredDiff then Some(node.hovered) else None,
               if highlightedDiff then Some(node.highlighted) else None)
  }

  function Lookup<C>(entries: seq<(nat, C)>, i: nat): Option<C>
    decreases |entries|
  {
    if |entries| == 0 then None
    else if entries[0].0 == i then Some(entries[0].1)
    else Lookup(entries[1..], i)
  }

  predicate Increasing<C>(entries: seq<(nat, C)>) {
    forall a, b :: 0 <= a < b < |entries| ==> entries[a].0 < entries[b].0
  }

  lemma {:induction false} LookupAppend<C>(entries: seq<(nat, C)>, k: nat, c: C, i: nat)
    requires forall a :: 0 <= a < |entries| ==> entries[a].0 < k
    ensures Lookup(entries + [(k, c)], i)
            == if Lookup(entries, i).Some? then Lookup(entries, i) else if i == k then Some(c) else None
    decreases |entries|
  {
    if |entries| > 0 {
      assert (entries + [(k, c)])[1..] == entries[1..] + [(k, c)];
      LookupAppend(entries[1..], k, c, i);
    }
  }

  lemma LookupAppendAll<C>(entries: seq<(nat, C)>, k: nat, c: C)
    requires forall a :: 0 <= a < |entries| ==> entries[a].0 < k
    ensures forall i :: Lookup(entries + [(k, c)], i)
                        == if Lookup(entries, i).Some? then Lookup(entries, i) else if i == k then Some(c) else None
  {
    forall i ensures Lookup(entries + [(k, c)], i)
                     == if Lookup(entries, i).Some? then Lookup(entries, i) else if i == k then Some(c) else None {
      LookupAppend(entries, k, c, i);
    }
  }

  lemma {:induction false} LookupAbsent<C>(entries: seq<(nat, C)>, i: nat)
    requires forall a :: 0 <= a < |entries| ==> entries[a].0 != i
    ensures Lookup(entries, i) == None
    decreases |entries|
  {
    if |entries| > 0 {
      LookupAbsent(entries[1..], i);
    }
  }

  /** Appending an entry past every index adds exactly that index's lookup. */
  lemma AppendEntry<C>(entries: seq<(nat, C)>, k: nat, c: C)
    requires Increasing(entries) && forall a :: 0 <= a < |entries| ==> entries[a].0 < k
    ensures var r := entries + [(k, c)];
            Increasing(r) && (forall a :: 0 <= a < |r| ==> r[a].0 <= k)
            && Lookup(r, k) == Some(c) && forall i :: i != k ==> Lookup(r, i) == Lookup(entries, i)
  {
    LookupAppendAll(entries, k, c);
    LookupAbsent(entries, k);
  }

  /** The entries `(i, cs[i])` for `i < k` whose value is not `none`, in index order. */
  function Entries<C(==)>(cs: seq<C>, none: C, k: nat): (r: seq<(nat, C)>)
    requires k <= |cs|
    ensures Increasing(r)
    ensures forall a :: 0 <= a < |r| ==> r[a].0 < k
    decreases k
  {
    if k == 0 then []
    else
      var prev := Entries(cs, none, k - 1);
      if cs[k - 1] == none then prev
      else
        AppendEntry(prev, k - 1, cs[k - 1]);
        prev + [(k - 1, cs[k - 1])]
  }

  /** Index `i` has an entry exactly when its value is not `none`, and the entry is that value. */
  lemma {:induction false} EntriesLookup<C>(cs: seq<C>, none: C, k: nat, i: nat)
    requires k <= |cs|
    ensures Lookup(Entries(cs, none, k), i) == if i < k && cs[i] != none then Some(cs[i]) else None
    decreases k
  {
    if k > 0 {
      EntriesLookup(cs, none, k - 1, i);
      var prev := Entries(cs, none, k - 1);
      if cs[k - 1] != none {
        AppendEntry(prev, k - 1, cs[k - 1]);
      }
    }
  }

  /** The node loop's comparison of every node with its texels. */
  function Compared(maps: Maps, fr: real -> real, nodes: seq<Node>): (cs: seq<NodeChange>)
    requires forall i :: 0 <= i < |nodes| ==> HoldsNode(maps, i)
    ensures |cs| == |nodes| && forall i :: 0 <= i < |nodes| ==> cs[i] == NodeDiff(maps, fr, nodes[i], i)
  {
    seq(|nodes|, i requires 0 <= i < |nodes| => NodeDiff(maps, fr, nodes[i], i))
  }

  /** The node entries of `diff`: one per node whose comparison found a difference, in index order. */
  function NodeDiffs(maps: Maps, fr: real -> real, nodes: seq<Node>): (r: seq<(nat, NodeChange)>)
    requires forall i :: 0 <= i < |nodes| ==> HoldsNode(maps, i)
    ensures Increasing(r)
  {
    Entries(Compared(maps, fr, nodes), NoChange, |nodes|)
  }

  /**
   * Node `i` has an entry exactly when its comparison found a difference, and
   * the entry is that difference; indices past the nodes have none.
   */
  lemma NodeDiffsLookup(maps: Maps, fr: real -> real, nodes: seq<Node>, i: nat)
    requires forall j :: 0 <= j < |nodes| ==> HoldsNode(maps, j)
    ensures i < |nodes| ==> Lookup(NodeDiffs(maps, fr, nodes), i)
                            == (var c := NodeDiff(maps, fr, nodes[i], i); if c == NoChange then None else Some(c))
    ensures |nodes| <= i ==> Lookup(NodeDiffs(maps, fr, nodes), i) == None
  {
    EntriesLookup(Compared(maps, fr, nodes), NoChange, |nodes|, i);
  }

  /** One iteration of the edge loop of `diff`: the width, if its rounding differs from the texture. */
  function EdgeDiff(maps: Maps, fr: real -> real, edge: Edge, i: nat): EdgeChange
    requires i < |maps.edgeWidth.data|
  {
    EdgeChange(if fr(edge.width) != maps.edgeWidth.data[i] then Some(edge.width) else None)
  }

  function EdgeCompared(maps: Maps, fr: real -> real, edges: seq<Edge>): (cs: seq<EdgeChange>)
    requires |edges| <= |maps.edgeWidth.data|
    ensures |cs| == |edges| && forall i :: 0 <= i < |edges| ==> cs[i] == EdgeDiff(maps, fr, edges[i], i)
  {
    seq(|edges|, i requires 0 <= i < |edges| => EdgeDiff(maps, fr, edges[i], i))
  }

  /** The edge entries of `diff`: one per edge whose rounded width differs from the texture. */
  function EdgeDiffs(maps: Maps, fr: real -> real, edges: seq<Edge>): (r: seq<(nat, EdgeChange)>)
    requires |edges| <= |maps.edgeWidth.data|
    ensures Increasing(r)
  {
    Entries(EdgeCompared(maps, fr, edges), EdgeChange(None), |edges|)
  }

  /** Edge `i` has an entry, carrying its width, exactly when the rounded width differs from the texture. */
  lemma EdgeDiffsLookup(maps: Maps, fr: real -> real, edges: seq<Edge>, i: nat)
    requires |edges| <= |maps.edgeWidth.data|
    ensures i < |edges| ==> Lookup(EdgeDiffs(maps, fr, edges), i)
                            == if fr(edges[i].width) != maps.edgeWidth.data[i]
                               then Some(EdgeChange(Some(edges[i].width))) else None
    ensures |edges| <= i ==> Lookup(EdgeDiffs(maps, fr, edges), i) == None
  {
    EntriesLookup(EdgeCompared(maps, fr, edges), EdgeChange(None), |edges|, i);
  }

  /** `diff()`: the recorded differences between the graph and the textures. */
  function Diff(m: Mesh, fr: real -> real): (d: Changes)
    requires Sized(m.maps, |m.graph.nodes|, |m.graph.edges|)
    ensures Increasing(d.nodes) && Increasing(d.edges)
  {
    Changes(NodeDiffs(m.maps, fr, m.graph.nodes),
            EdgeDiffs(m.maps, fr, m.graph.edges))
  }

  // ---------------------------------------------------------------------
  // patch

  /** A typed-array store: an index past the end is silently ignored. */
  function Write<T>(data: seq<T>, j: nat, v: T): (r: seq<T>)
    ensures |r| == |data|
    ensures forall k :: 0 <= k < |data| ==> r[k] == if k == j then v else data[k]
  {
    if j < |data| then data[j := v] else data
  }

  function WriteTexel(data: seq<real>, i: nat, v: Vec3): (r: seq<real>)
    ensures |r| == |data|
  {
    Write(Write(Write(data, 3 * i, v.x), 3 * i + 1, v.y), 3 * i + 2, v.z)
  }

  /** Reading past the end gives `undefined`, and `undefined | bit` is `bit`. */
  function FlagsAt(flags: seq<bv8>, i: nat): bv8 {
    if i < |flags| then flags[i] else 0
  }

  /** One entry of the node loop of `patch`. */
  function PatchNode(maps: Maps, fr: real -> real, i: nat, c: NodeChange): (r: Maps)
    ensures |r.position.data| == |maps.position.data| && |r.colour.data| == |maps.colour.data|
    ensures |r.size.data| == |maps.size.data| && |r.flags.data| == |maps.flags.data|
    ensures r.edgeWidth == maps.edgeWidth && r.edgeOpacity == maps.edgeOpacity
    ensures r.position.side == maps.position.side && r.colour.side == maps.colour.side
    ensures r.size.side == maps.size.side && r.flags.side == maps.flags.side
  {
    var f0 := maps.flags.data;
    var f1 := if c.hovered.Some? then Write(f0, i, SetBit(FlagsAt(f0, i), Hovered, c.hovered.value)) else f0;
    var f2 := if c.highlighted.Some? then Write(f1, i, SetBit(FlagsAt(f1, i), Highlighted, c.highlighted.value)) else f1;
    var pos := if c.pos.Some? then WriteTexel(maps.position.data, i, RoundVec(fr, c.pos.value))
               else maps.position.data;
    var col := if c.colour.Some? then WriteTexel(maps.colour.data, i, RoundVec(fr, c.colour.value))
               else maps.colour.data;
    var size := if c.size.Some? then Write(maps.size.data, i, fr(c.size.value)) else maps.size.data;
    maps.(flags := maps.flags.(data := f2), position := maps.position.(data := pos),
          colour := maps.colour.(data := col), size := maps.size.(data := size))
  }

  /** What one patch entry makes of the stored state of its node. */
  function Updated(s: Stored, fr: real -> real, c: NodeChange): Stored {
    var f1 := if c.hovered.Some? then SetBit(s.flags, Hovered, c.hovered.value) else s.flags;
    var f2 := if c.highlighted.Some? then SetBit(f1, Highlighted, c.highlighted.value) else f1;
    Stored(if c.pos.Some? then RoundVec(fr, c.pos.value) else s.pos,
           if c.colour.Some? then RoundVec(fr, c.colour.value) else s.colour,
           if c.size.Some? then fr(c.size.value) else s.size,
           f2)
  }

  /** A patch entry for node `i` updates node `i`'s slots and no other node's. */
  lemma PatchNodeStored(maps: Maps, fr: real -> real, i: nat, c: NodeChange, j: nat)
    requires HoldsNode(maps, j)
    ensures HoldsNode(PatchNode(maps, fr, i, c), j)
    ensures StoredAt(PatchNode(maps, fr, i, c), j)
            == if i == j then Updated(StoredAt(maps, j), fr, c) else StoredAt(maps, j)
  {
  }

  function PatchNodes(maps: Maps, fr: real -> real, entries: seq<(nat, NodeChange)>): (r: Maps)
    ensures |r.position.data| == |maps.position.data| && |r.colour.data| == |maps.colour.data|
    ensures |r.size.data| == |maps.size.data| && |r.flags.data| == |maps.flags.data|
    ensures r.edgeWidth == maps.edgeWidth && r.edgeOpacity == maps.edgeOpacity
    ensures r.position.side == maps.position.side && r.colour.side == maps.colour.side
    ensures r.size.side == maps.size.side && r.flags.side == maps.flags.side
    decreases |entries|
  {
    if |entries| == 0 then maps
    else PatchNodes(PatchNode(maps, fr, entries[0].0, entries[0].1), fr, entries[1..])
  }

  predicate DistinctKeys<C>(entries: seq<(nat, C)>) {
    forall a, b :: 0 <= a < b < |entries| ==> entries[a].0 != entries[b].0
  }

  /**
   * After the node loop, node `j` is updated by its own entry if it has one and
   * is otherwise untouched: `patch` writes only the nodes the changes name.
   */
  lemma {:induction false} PatchNodesStored(maps: Maps, fr: real -> real, entries: seq<(nat, NodeChange)>, j: nat)
    requires HoldsNode(maps, j) && DistinctKeys(entries)
    ensures HoldsNode(PatchNodes(maps, fr, entries), j)
    ensures StoredAt(PatchNodes(maps, fr, entries), j)
            == match Lookup(entries, j)
               case Some(c) => Updated(StoredAt(maps, j), fr, c)
               case None => StoredAt(maps, j)
    decreases |entries|
  {
    if |entries| > 0 {
      var m1 := PatchNode(maps, fr, entries[0].0, entries[0].1);
      PatchNodeStored(maps, fr, entries[0].0, entries[0].1, j);
      PatchNodesStored(m1, fr, entries[1..], j);
      if entries[0].0 == j {
        LookupAbsent(entries[1..], j);
      }
    }
  }

  function PatchEdges(maps: Maps, fr: real -> real, entries: seq<(nat, EdgeChange)>): (r: Maps)
    ensures r == maps.(edgeWidth := r.edgeWidth)
    ensures |r.edgeWidth.data| == |maps.edgeWidth.data| && r.edgeWidth.side == maps.edgeWidth.side
    decreases |entries|
  {
    if |entries| == 0 then maps
    else
      var c := entries[0].1;
      var w := if c.width.Some? then Write(maps.edgeWidth.data, entries[0].0, fr(c.width.value))
               else maps.edgeWidth.data;
      PatchEdges(maps.(edgeWidth := maps.edgeWidth.(data := w)), fr, entries[1..])
  }

  /** After the edge loop, edge `j`'s width slot holds its entry's rounded width, if any. */
  lemma {:induction false} PatchEdgesAt(maps: Maps, fr: real -> real, entries: seq<(nat, EdgeChange)>, j: nat)
    requires j < |maps.edgeWidth.data| && DistinctKeys(entries)
    ensures PatchEdges(maps, fr, entries).edgeWidth.data[j]
            == match Lookup(entries, j)
               case Some(c) => if c.width.Some? then fr(c.width.value) else maps.edgeWidth.data[j]
               case None => maps.edgeWidth.data[j]
    decreases |entries|
  {
    if |entries| > 0 {
      var c := entries[0].1;
      var w := if c.width.Some? then Write(maps.edgeWidth.data, entries[0].0, fr(c.width.value))
               else maps.edgeWidth.data;
      PatchEdgesAt(maps.(edgeWidth := maps.edgeWidth.(data := w)), fr, entries[1..], j);
      if entries[0].0 == j {
        LookupAbsent(entries[1..], j);
      }
    }
  }

  /** `patch(diff)`: the node entries, then the edge entries. */
  function Patch(m: Mesh, fr: real -> real, d: Changes): (r: Mesh)
    ensures r == m.(maps := r.maps)
    ensures Sized(m.maps, |m.graph.nodes|, |m.graph.edges|) ==> Sized(r.maps, |m.graph.nodes|, |m.graph.edges|)
    ensures r.maps.edgeOpacity == m.maps.edgeOpacity
    ensures r.maps.position.side == m.maps.position.side && r.maps.flags.side == m.maps.flags.side
    ensures r.maps.size.side == m.maps.size.side && r.maps.colour.side == m.maps.colour.side
    ensures |r.maps.flags.data| == |m.maps.flags.data| && |r.maps.position.data| == |m.maps.position.data|
    ensures Textured(m.maps) ==> Textured(r.maps)
  {
    m.(maps := PatchEdges(PatchNodes(m.maps, fr, d.nodes), fr, d.edges))
  }

  lemma IncreasingDistinct<C>(entries: seq<(nat, C)>)
    requires Increasing(entries)
    ensures DistinctKeys(entries)
  {
  }

  /** What `patch` leaves in node `j`'s slots. */
  lemma PatchStored(m: Mesh, fr: real -> real, d: Changes, j: nat)
    requires HoldsNode(m.maps, j) && DistinctKeys(d.nodes)
    ensures HoldsNode(Patch(m, fr, d).maps, j)
    ensures StoredAt(Patch(m, fr, d).maps, j)
            == match Lookup(d.nodes, j)
               case Some(c) => Updated(StoredAt(m.maps, j), fr, c)
               case None => StoredAt(m.maps, j)
  {
    PatchNodesStored(m.maps, fr, d.nodes, j);
  }

  /**
   * `patch` with `hovered` or `highlighted` sets or clears exactly that bit
   * of the node's mask; the other bits keep their values.
   */
  lemma PatchFlagBits(s: Stored, fr: real -> real, c: NodeChange)
    ensures var f := Updated(s, fr, c).flags;
            Bits(f).hovered == (if c.hovered.Some? then c.hovered.value else Bits(s.flags).hovered)
            && Bits(f).highlighted == (if c.highlighted.Some? then c.highlighted.value else Bits(s.flags).highlighted)
            && Bits(f).selected == Bits(s.flags).selected
            && f & 0xF8 == s.flags & 0xF8
  {
  }

  /**
   * `patch(diff())` brings positions, hover bits and edge widths in line with
   * the graph: a second `diff` reports no position, no `hovered` and no width.
   * A highlighted node is still reported, because `true != 2`; an
   * unhighlighted one is not.
   */
  lemma DiffAfterPatch(m: Mesh, fr: real -> real, i: nat)
    requires Sized(m.maps, |m.graph.nodes|, |m.graph.edges|) && i < |m.graph.nodes|
    ensures var m' := Patch(m, fr, Diff(m, fr));
            var c := NodeDiff(m'.maps, fr, m.graph.nodes[i], i);
            c.pos == None && c.hovered == None
            && c.highlighted == (if m.graph.nodes[i].highlighted then Some(true) else None)
  {
    var d := Diff(m, fr);
    NodeDiffsLookup(m.maps, fr, m.graph.nodes, i);
    IncreasingDistinct(d.nodes);
    PatchStored(m, fr, d, i);
    var node := m.graph.nodes[i];
    var c0 := NodeDiff(m.maps, fr, node, i);
    PatchFlagBits(StoredAt(m.maps, i), fr, c0);
  }

  /** After `patch(diff())`, no edge width is reported. */
  lemma EdgeDiffAfterPatch(m: Mesh, fr: real -> real, i: nat)
    requires Sized(m.maps, |m.graph.nodes|, |m.graph.edges|) && i < |m.graph.edges|
    ensures fr(m.graph.edges[i].width) == Patch(m, fr, Diff(m, fr)).maps.edgeWidth.data[i]
  {
    var d := Diff(m, fr);
    EdgeDiffsLookup(m.maps, fr, m.graph.edges, i);
    IncreasingDistinct(d.edges);
    var mid := PatchNodes(m.maps, fr, d.nodes);
    PatchEdgesAt(mid, fr, d.edges, i);
  }

  /**
   * A freshly built mesh matches its graph: `diff` reports no position and no
   * `hovered`, and reports `highlighted` exactly for the highlighted nodes.
   */
  lemma DiffOfCreated(g: Graph, fr: real -> real, i: nat)
    requires i < |g.nodes|
    ensures var c := NodeDiff(Create(g, fr).maps, fr, g.nodes[i], i);
            c.pos == None && c.hovered == None
            && c.highlighted == (if g.nodes[i].highlighted then Some(true) else None)
  {
    CreatedStored(g, fr, i);
  }

  // ---------------------------------------------------------------------
  // the shaders' `pullFloat` / `pullVec3`

  /** `pullFloat(map, index, columns)`: the texel at row `index / columns`, column `index % columns`. */
  function PullFloat<T>(data: seq<T>, cols: nat, i: nat): (v: T)
    requires cols >= 1 && |data| == cols * cols * 1
    ensures i < cols * cols ==> v == data[i]
  {
    TextureLayout.FetchCorner(data, cols, i)
  }

  function Texels(data: seq<real>, cols: nat): (ts: seq<Vec3>)
    requires |data| == cols * cols * 3
    ensures |ts| == cols * cols && forall t :: 0 <= t < cols * cols ==> ts[t] == TexelAt(data, t)
  {
    seq(cols * cols, t requires 0 <= t < cols * cols => TexelAt(data, t))
  }

  /** `pullVec3(map, index, columns)` on an RGB texture. */
  function PullVec3(data: seq<real>, cols: nat, i: nat): (v: Vec3)
    requires cols >= 1 && |data| == cols * cols * 3
    ensures i < cols * cols ==> 3 * i + 2 < |data| && v == TexelAt(data, i)
  {
    TextureLayout.FetchCorner(Texels(data, cols), cols, i)
  }

  /** What a vertex shader pulls for node `i`, with the position texture's width as `columns`. */
  function Pulled(maps: Maps, i: nat): Stored
    requires Textured(maps) && maps.position.side >= 1
  {
    var cols := maps.position.side;
    Stored(PullVec3(maps.position.data, cols, i), PullVec3(maps.colour.data, cols, i),
           PullFloat(maps.size.data, cols, i), PullFloat(maps.flags.data, cols, i))
  }

  /** Pulling node `i` inside the texture reads exactly what the textures store for it. */
  lemma PulledIsStored(maps: Maps, i: nat)
    requires Textured(maps) && maps.position.side >= 1 && i < maps.position.side * maps.position.side
    ensures HoldsNode(maps, i) && Pulled(maps, i) == StoredAt(maps, i)
  {
  }

  // ---------------------------------------------------------------------
  // flags texture in step with the graph

  /** A mask with no bit above the three flags is the mask of its own bits. */
  lemma MaskOfBits(f: bv8)
    requires f & 0xF8 == 0
    ensures f == MaskOf(Bits(f).hovered, Bits(f).highlighted, Bits(f).selected)
  {
  }

  /**
   * After `patch(diff())` the flags texel of node `i` is exactly the node's mask,
   * provided it held no stray bit and the right `selected` bit before (`patch`
   * never writes `selected`).
   */
  lemma FlagsSyncedAfterPatch(m: Mesh, fr: real -> real, i: nat)
    requires Sized(m.maps, |m.graph.nodes|, |m.graph.edges|) && i < |m.graph.nodes|
    requires m.maps.flags.data[i] & 0xF8 == 0
    requires Bits(m.maps.flags.data[i]).selected == m.graph.nodes[i].selected
    ensures var node := m.graph.nodes[i];
            StoredAt(Patch(m, fr, Diff(m, fr)).maps, i).flags == MaskOf(node.hovered, node.highlighted, node.selected)
  {
    var d := Diff(m, fr);
    NodeDiffsLookup(m.maps, fr, m.graph.nodes, i);
    IncreasingDistinct(d.nodes);
    PatchStored(m, fr, d, i);
    var node := m.graph.nodes[i];
    var c0 := NodeDiff(m.maps, fr, node, i);
    PatchFlagBits(StoredAt(m.maps, i), fr, c0);
    MaskOfBits(StoredAt(Patch(m, fr, d).maps, i).flags);
  }
}
