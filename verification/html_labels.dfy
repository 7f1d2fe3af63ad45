/**
 * The HTML label overlay: one element per key, attached to the overlay root
 * only while `visible(key)` holds, reconciled by the same diff/patch pair the
 * mesh uses, and placed each frame at its key's projected screen position.
 * The DOM is abstracted to the set of keys whose element is attached; the
 * `text`, `fontSize` and `color` accessors do not affect what is modelled.
 * The camera projection of `position(key)` is the parameter `project`.
 */
module HTMLLabels {
  import opened Wrappers
  import opened Vectors

  /** A label key: a node key of the graph. */
  type Key = string

  /** The keys in order, and the keys whose element is attached to the overlay root. */
  datatype Labels = Labels(keys: seq<Key>, attached: set<Key>)

  /** Only keys of the overlay have elements to attach. */
  predicate Valid(l: Labels) {
    forall k :: k in l.attached ==> k in l.keys
  }

  /** The constructor: every key's element is created, and attached iff the key is visible. */
  function Create(keys: seq<Key>, visible: Key -> bool): (l: Labels)
    ensures Valid(l) && l.keys == keys
    ensures forall k :: k in l.attached <==> k in keys && visible(k)
  {
    Labels(keys, set k | k in keys && visible(k))
  }

  /** `diff().visible`: each key whose visibility disagrees with its element, mapped to the new value. */
  function Diff(l: Labels, visible: Key -> bool): (d: map<Key, bool>)
    ensures forall k :: k in d <==> k in l.keys && visible(k) != (k in l.attached)
    ensures forall k :: k in d ==> d[k] == visible(k)
  {
    map k | k in l.keys && visible(k) != (k in l.attached) :: visible(k)
  }

  /** Whether `patch(change)` runs through without throwing. */
  predicate Applicable(l: Labels, change: map<Key, bool>) {
    forall k :: k in change ==> k in l.keys && (change[k] || k in l.attached)
  }

  /**
   * `patch(change)`: attach keys marked true, detach keys marked false. A key
   * without an element (`appendChild(undefined)`), or a detach of an element
   * that is not attached (`removeChild`), throws: `None`.
   */
  function Patch(l: Labels, change: map<Key, bool>): (r: Option<Labels>)
    ensures r.Some? <==> Applicable(l, change)
    ensures r.Some? ==> r.value.keys == l.keys
    ensures r.Some? ==> forall k :: k in r.value.attached <==>
                          (if k in change then change[k] else k in l.attached)
    ensures r.Some? && Valid(l) ==> Valid(r.value)
  {
    if Applicable(l, change) then
      Some(Labels(l.keys, (l.attached - set k | k in change && !change[k]) + set k | k in change && change[k]))
    else
      None
  }

  /** A patch only touches the keys it names. */
  lemma PatchTouchesOnlyNamed(l: Labels, change: map<Key, bool>, k: Key)
    requires Patch(l, change).Some? && k !in change
    ensures (k in Patch(l, change).value.attached) == (k in l.attached)
  {
  }

  /**
   * With `visible` unchanged, patching a diff always succeeds, attaches
   * exactly the visible keys, and leaves nothing for the next diff.
   */
  lemma DiffAfterPatch(l: Labels, visible: Key -> bool)
    requires Valid(l)
    ensures Patch(l, Diff(l, visible)).Some?
    ensures var p := Patch(l, Diff(l, visible)).value;
            p.attached == Create(l.keys, visible).attached && Diff(p, visible) == map[]
  {
    var p := Patch(l, Diff(l, visible)).value;
    assert forall k :: k in p.attached <==> k in l.keys && visible(k);
  }

  /** A freshly created overlay has nothing to patch. */
  lemma DiffOfCreated(keys: seq<Key>, visible: Key -> bool)
    ensures Diff(Create(keys, visible), visible) == map[]
  {
  }

  /** The keys in order of first appearance: the iteration order of the `elements` map. */
  function Unique(s: seq<Key>): (u: seq<Key>)
    ensures forall k :: k in u <==> k in s
    ensures forall i, j :: 0 <= i < j < |u| ==> u[i] != u[j]
    decreases |s|
  {
    if |s| == 0 then []
    else
      var u := Unique(s[..|s| - 1]);
      assert forall k :: k in s <==> k in s[..|s| - 1] || k == s[|s| - 1];
      if s[|s| - 1] in u then u else u + [s[|s| - 1]]
  }

  /** Where `update` puts one attached label. */
  datatype Placement = Placement(key: Key, screen: Vec3, shown: bool, left: real, top: real, zIndex: nat)

  /**
   * Label `p` has rank `i` as its `zIndex`, is shown iff its depth is below 1,
   * and sits at its projected position scaled to the overlay's size.
   */
  predicate PlacedAt(p: Placement, i: nat, width: real, height: real) {
    p.zIndex == i && (p.shown <==> p.screen.z < 1.0)
    && p.left == (p.screen.x + 1.0) / 2.0 * width
    && p.top == (-p.screen.y + 1.0) / 2.0 * height
  }

  /** Entries sorted by descending depth, as `(b, a) => b.z - a.z` orders them. */
  predicate DepthDescending(s: seq<(Key, Vec3)>) {
    forall i, j :: 0 <= i < j < |s| ==> s[i].1.z >= s[j].1.z
  }

  function Insert(e: (Key, Vec3), s: seq<(Key, Vec3)>): (r: seq<(Key, Vec3)>)
    requires DepthDescending(s)
    ensures DepthDescending(r)
    ensures forall x :: x in r ==> x == e || x in s
    decreases |s|
  {
    if |s| == 0 then [e]
    else if s[0].1.z >= e.1.z then
      var rest := Insert(e, s[1..]);
      assert s == [s[0]] + s[1..];
      assert forall x :: x in rest ==> x.1.z <= s[0].1.z;
      [s[0]] + rest
    else
      [e] + s
  }

  /** Inserting adds exactly the one entry: nothing is lost or duplicated. */
  lemma {:induction false} InsertPermutes(e: (Key, Vec3), s: seq<(Key, Vec3)>)
    requires DepthDescending(s)
    ensures multiset(Insert(e, s)) == multiset(s) + multiset{e}
    decreases |s|
  {
    if |s| > 0 && s[0].1.z >= e.1.z {
      InsertPermutes(e, s[1..]);
      assert s == [s[0]] + s[1..];
    }
  }

  /** The descending-depth sort of `update`. */
  function SortByDepth(s: seq<(Key, Vec3)>): (r: seq<(Key, Vec3)>)
    ensures DepthDescending(r)
    ensures multiset(r) == multiset(s)
    decreases |s|
  {
    if |s| == 0 then []
    else
      assert s == s[..|s| - 1] + [s[|s| - 1]];
      var sorted := SortByDepth(s[..|s| - 1]);
      InsertPermutes(s[|s| - 1], sorted);
      Insert(s[|s| - 1], sorted)
  }

  /** The attached entries of the `elements` map, each with its key's projected position. */
  function AttachedEntries(keys: seq<Key>, attached: set<Key>, project: Key -> Vec3): (r: seq<(Key, Vec3)>)
    ensures forall e :: e in r ==> e.0 in attached && e.1 == project(e.0)
    ensures forall k :: k in keys && k in attached ==> (k, project(k)) in r
    ensures forall i, j :: 0 <= i < j < |r| ==> r[i].0 != r[j].0
  {
    Select(Unique(keys), attached, project)
  }

  function Select(u: seq<Key>, attached: set<Key>, project: Key -> Vec3): (r: seq<(Key, Vec3)>)
    requires forall i, j :: 0 <= i < j < |u| ==> u[i] != u[j]
    ensures forall e :: e in r ==> e.0 in attached && e.0 in u && e.1 == project(e.0)
    ensures forall k :: k in u && k in attached ==> (k, project(k)) in r
    ensures forall i, j :: 0 <= i < j < |r| ==> r[i].0 != r[j].0
    decreases |u|
  {
    if |u| == 0 then []
    else
      var rest := Select(u[1..], attached, project);
      assert forall k :: k in u <==> k == u[0] || k in u[1..];
      if u[0] in attached then [(u[0], project(u[0]))] + rest else rest
  }

  /**
   * `update`: every attached label is shown iff its projected depth is below
   * 1, then all of them, in descending depth, get their screen position and
   * their rank as `zIndex`.
   */
  function Update(l: Labels, project: Key -> Vec3, width: real, height: real): (r: seq<Placement>)
    ensures forall i :: 0 <= i < |r| ==> r[i].key in l.attached && r[i].screen == project(r[i].key)
    ensures forall i, j :: 0 <= i < j < |r| ==> r[i].key != r[j].key && r[i].screen.z >= r[j].screen.z
    ensures forall i :: 0 <= i < |r| ==> PlacedAt(r[i], i, width, height)
  {
    var entries := AttachedEntries(l.keys, l.attached, project);
    var sorted := SortByDepth(entries);
    SortedEntries(entries, sorted, l.keys, l.attached, project);
    Place(sorted, width, height)
  }

  /** `update` places every attached label of the overlay, once. */
  lemma UpdatePlacesAttached(l: Labels, project: Key -> Vec3, width: real, height: real, k: Key)
    requires k in l.keys && k in l.attached
    ensures exists i :: 0 <= i < |Update(l, project, width, height)| && Update(l, project, width, height)[i].key == k
  {
    var entries := AttachedEntries(l.keys, l.attached, project);
    var sorted := SortByDepth(entries);
    SortedEntries(entries, sorted, l.keys, l.attached, project);
    var i :| 0 <= i < |sorted| && sorted[i] == (k, project(k));
    assert Update(l, project, width, height)[i].key == k;
  }

  /** Each entry, in order, gets its screen position and its rank. */
  function Place(sorted: seq<(Key, Vec3)>, width: real, height: real): (r: seq<Placement>)
    ensures |r| == |sorted|
    ensures forall i :: 0 <= i < |r| ==>
              r[i].key == sorted[i].0 && r[i].screen == sorted[i].1 && PlacedAt(r[i], i, width, height)
  {
    seq(|sorted|, i requires 0 <= i < |sorted| =>
      Placement(sorted[i].0, sorted[i].1, sorted[i].1.z < 1.0,
                (sorted[i].1.x + 1.0) / 2.0 * width, (-sorted[i].1.y + 1.0) / 2.0 * height, i))
  }

  /** Sorting keeps the entries' facts: same members, keys still distinct. */
  lemma SortedEntries(entries: seq<(Key, Vec3)>, sorted: seq<(Key, Vec3)>, keys: seq<Key>,
                         attached: set<Key>, project: Key -> Vec3)
    requires entries == AttachedEntries(keys, attached, project)
    requires multiset(sorted) == multiset(entries)
    ensures forall e :: e in sorted <==> e in entries
    ensures forall i :: 0 <= i < |sorted| ==> sorted[i].0 in attached && sorted[i].1 == project(sorted[i].0)
    ensures forall i, j :: 0 <= i < j < |sorted| ==> sorted[i].0 != sorted[j].0
  {
    forall e ensures e in sorted <==> e in entries {
      assert e in sorted <==> e in multiset(sorted);
      assert e in entries <==> e in multiset(entries);
    }
    forall i | 0 <= i < |sorted|
      ensures sorted[i].0 in attached && sorted[i].1 == project(sorted[i].0)
    {
      assert sorted[i] in entries;
    }
    forall i, j | 0 <= i < j < |sorted|
      ensures sorted[i].0 != sorted[j].0
    {
      NoRepeat(entries, sorted[i]);
      if sorted[i].0 == sorted[j].0 {
        assert sorted[i] == sorted[j];
        CountTwo(sorted, i, j);
        assert false;
      }
    }
  }

  lemma CountTwo(s: seq<(Key, Vec3)>, i: nat, j: nat)
    requires i < j < |s| && s[i] == s[j]
    ensures multiset(s)[s[i]] >= 2
  {
    assert s == s[..j] + [s[j]] + s[j + 1..];
    assert s[i] in s[..j];
  }

  /** A sequence whose keys are distinct holds each entry at most once. */
  lemma {:induction false} NoRepeat(s: seq<(Key, Vec3)>, e: (Key, Vec3))
    requires forall i, j :: 0 <= i < j < |s| ==> s[i].0 != s[j].0
    ensures multiset(s)[e] <= 1
    decreases |s|
  {
    if |s| > 0 {
      assert s == [s[0]] + s[1..];
      NoRepeat(s[1..], e);
      if s[0] == e {
        assert e !in s[1..];
      }
    }
  }
}
