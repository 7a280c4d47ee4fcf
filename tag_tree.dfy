/**
 * The tag tree as a value: the map from each tag to its parent link and its
 * change, and the facts about it that the `IntTree` object's methods rely on.
 *
 * A parent link is the source's `Weak<String>`: `None` is `Weak::new()` (the root's
 * link), and upgrading a link succeeds exactly when its tag is still a key of the map.
 */
module TagTree {
  import opened Wrappers
  import opened Delta

  /** A user-chosen tag name. */
  type Tag = string

  /** One value of the map: the weak link to the parent tag, and the change stored at the tag. */
  datatype Entry = Entry(parent: Option<Tag>, value: Delta)

  /** The map of the tree, from each tag to its entry. */
  type Store = map<Tag, Entry>

  /** What `remove` reports. */
  datatype RemoveStatus = Removed | NotFound | IsParent | IsHead

  /** `Weak::upgrade` on a parent link: it succeeds exactly when the linked tag is still a key. */
  function Upgrade(m: Store, p: Option<Tag>): Option<Tag>
  {
    if p.Some? && p.value in m then p else None
  }

  /**
   * A ranking of the keys under which every live parent ranks strictly below its
   * child. It is what makes every walk along parent links finite.
   */
  ghost predicate Ranked(m: Store, depth: map<Tag, nat>)
  {
    m.Keys <= depth.Keys &&
    forall k :: k in m && Upgrade(m, m[k].parent).Some? ==> depth[m[k].parent.value] < depth[k]
  }

  /**
   * The shape every reachable tree has: the root is a key with no parent and the
   * default change, every other key has a parent that is a key, and the parent
   * links are ranked, hence acyclic.
   */
  ghost predicate TreeShape(m: Store, root: Tag, depth: map<Tag, nat>)
  {
    Ranked(m, depth) &&
    root in m && m[root].parent == None && m[root].value == Identity &&
    forall k :: k in m && k != root ==> m[k].parent.Some? && m[k].parent.value in m
  }

  /**
   * The change `collect_to_head` accumulates when its walk starts at `t`: the
   * changes of the tags from the end of the walk down to `t`, that one first.
   */
  ghost function Collect(m: Store, depth: map<Tag, nat>, t: Tag): Delta
    requires Ranked(m, depth) && t in m
    decreases depth[t]
  {
    match Upgrade(m, m[t].parent)
    case None => m[t].value
    case Some(p) => Collect(m, depth, p) + m[t].value
  }

  /** The tags met walking parent links from `t`, listed from the far end to `t`. */
  ghost function RootPath(m: Store, depth: map<Tag, nat>, t: Tag): (path: seq<Tag>)
    requires Ranked(m, depth) && t in m
    ensures |path| > 0 && path[|path| - 1] == t
    ensures forall i :: 0 <= i < |path| ==> path[i] in m
    decreases depth[t]
  {
    match Upgrade(m, m[t].parent)
    case None => [t]
    case Some(p) => RootPath(m, depth, p) + [t]
  }

  /** The changes stored at the tags of `path`, concatenated in the order of the path. */
  ghost function PathDelta(m: Store, path: seq<Tag>): Delta
    requires forall i :: 0 <= i < |path| ==> path[i] in m
  {
    if path == [] then Identity
    else PathDelta(m, path[..|path| - 1]) + m[path[|path| - 1]].value
  }

  /** Some entry's live parent link names `t`: the scan at the start of `remove`. */
  ghost predicate HasChild(m: Store, t: Tag)
  {
    exists k :: k in m && Upgrade(m, m[k].parent) == Some(t)
  }

  /** What `remove(t)` reports, checked in the source's order: head, parent, absence. */
  ghost function RemoveStatusOf(m: Store, head: Option<Tag>, t: Tag): RemoveStatus
  {
    if head == Some(t) then IsHead
    else if HasChild(m, t) then IsParent
    else if t !in m then NotFound
    else Removed
  }

  /** `keys`: the pairs (tag, parent tag) of the entries whose parent link is live. */
  function Keys(m: Store): (r: set<(Tag, Tag)>)
    ensures forall a, b :: (a, b) in r <==> a in m && Upgrade(m, m[a].parent) == Some(b)
  {
    set a | a in m && Upgrade(m, m[a].parent).Some? :: (a, Upgrade(m, m[a].parent).value)
  }

  /** The releases the entries of `m` stand for: each tag with its change. */
  ghost function Releases(m: Store): multiset<(Tag, Delta)>
  {
    multiset(set k | k in m :: (k, m[k].value))
  }

  /**
   * Every store entry keeps its contents, and every live link of the smaller store
   * is live, and the same, in the larger.
   */
  ghost predicate LinksKept(small: Store, big: Store)
  {
    forall j :: j in small ==>
      j in big && big[j] == small[j] && Upgrade(big, small[j].parent) == Upgrade(small, small[j].parent)
  }

  // ---------------------------------------------------------------------------
  // Walks along parent links

  /**
   * In a tree, the walk from any key `t` ends at the root, follows one parent link
   * per step, and meets no tag twice.
   */
  lemma {:induction false} RootPathReachesRoot(m: Store, root: Tag, depth: map<Tag, nat>, t: Tag)
    requires TreeShape(m, root, depth) && t in m
    ensures var path := RootPath(m, depth, t);
      |path| > 0 && path[0] == root && path[|path| - 1] == t &&
      (forall i :: 0 <= i < |path| ==> path[i] in m) &&
      (forall i :: 0 < i < |path| ==> m[path[i]].parent == Some(path[i - 1])) &&
      (forall i, j :: 0 <= i < j < |path| ==> depth[path[i]] < depth[path[j]]) &&
      (forall i, j :: 0 <= i < j < |path| ==> path[i] != path[j])
    decreases depth[t]
  {
    match Upgrade(m, m[t].parent)
    case None =>
      assert t == root;
    case Some(p) =>
      RootPathReachesRoot(m, root, depth, p);
      var prefix := RootPath(m, depth, p);
      var path := RootPath(m, depth, t);
      assert path == prefix + [t];
      assert depth[p] < depth[t];
      forall i, j | 0 <= i < j < |path| ensures depth[path[i]] < depth[path[j]] {
        if j == |path| - 1 {
          assert depth[prefix[i]] <= depth[prefix[|prefix| - 1]];
        }
      }
  }

  /** The accumulated change of `t` is the concatenation of the changes along its walk. */
  lemma {:induction false} CollectIsPathDelta(m: Store, depth: map<Tag, nat>, t: Tag)
    requires Ranked(m, depth) && t in m
    ensures Collect(m, depth, t) == PathDelta(m, RootPath(m, depth, t))
    decreases depth[t]
  {
    match Upgrade(m, m[t].parent)
    case None =>
      assert RootPath(m, depth, t)[..0] == [];
    case Some(p) =>
      CollectIsPathDelta(m, depth, p);
      var path := RootPath(m, depth, t);
      assert path[..|path| - 1] == RootPath(m, depth, p);
  }

  /** The accumulated change of a tag depends only on the entries along its walk. */
  lemma {:induction false} CollectFrame(small: Store, ds: map<Tag, nat>, big: Store, db: map<Tag, nat>, k: Tag)
    requires Ranked(small, ds) && Ranked(big, db) && LinksKept(small, big) && k in small
    ensures Collect(big, db, k) == Collect(small, ds, k)
    decreases ds[k]
  {
    match Upgrade(small, small[k].parent)
    case None =>
    case Some(p) => CollectFrame(small, ds, big, db, p);
  }

  // ---------------------------------------------------------------------------
  // commit

  /** A commit of a fresh tag on top of a head that is a key keeps the tree shape. */
  lemma CommitKeepsShape(m: Store, root: Tag, depth: map<Tag, nat>, h: Tag, tag: Tag, d: Delta)
    requires TreeShape(m, root, depth) && h in m && tag !in m
    ensures TreeShape(m[tag := Entry(Some(h), d)], root, depth[tag := depth[h] + 1])
  {
  }

  /**
   * After a commit of `tag` with change `d` on top of head `h`, the state collected at
   * `tag` is the state collected at `h` followed by `d`, and every older tag's
   * collected state is unchanged.
   */
  lemma {:induction false} CommitExtendsCollect(m: Store, root: Tag, depth: map<Tag, nat>, h: Tag, tag: Tag, d: Delta)
    requires TreeShape(m, root, depth) && h in m && tag !in m
    ensures TreeShape(m[tag := Entry(Some(h), d)], root, depth[tag := depth[h] + 1])
    ensures Collect(m[tag := Entry(Some(h), d)], depth[tag := depth[h] + 1], tag) == Collect(m, depth, h) + d
    ensures forall k :: k in m ==>
      Collect(m[tag := Entry(Some(h), d)], depth[tag := depth[h] + 1], k) == Collect(m, depth, k)
  {
    var m' := m[tag := Entry(Some(h), d)];
    var depth' := depth[tag := depth[h] + 1];
    CommitKeepsShape(m, root, depth, h, tag, d);
    assert LinksKept(m, m') by {
      forall j | j in m
        ensures j in m' && m'[j] == m[j] && Upgrade(m', m[j].parent) == Upgrade(m, m[j].parent)
      {
        if j != root {
          assert m[j].parent.value in m;
        }
      }
    }
    forall k | k in m ensures Collect(m', depth', k) == Collect(m, depth, k) {
      CollectFrame(m, depth, m', depth', k);
    }
    assert Upgrade(m', m'[tag].parent) == Some(h);
  }

  // ---------------------------------------------------------------------------
  // remove

  /** In a tree, a key other than the root has the root among its ancestors, so the root has a child. */
  lemma {:induction false} RootHasChild(m: Store, root: Tag, depth: map<Tag, nat>, k: Tag)
    requires TreeShape(m, root, depth) && k in m && k != root
    ensures HasChild(m, root)
    decreases depth[k]
  {
    var p := m[k].parent.value;
    assert Upgrade(m, m[k].parent) == Some(p);
    if p != root {
      RootHasChild(m, root, depth, p);
    }
  }

  /** Whatever the head, `remove` never deletes the root: it reports IsHead or IsParent. */
  lemma RootIsNeverRemoved(m: Store, root: Tag, depth: map<Tag, nat>, h: Tag)
    requires TreeShape(m, root, depth) && h in m
    ensures RemoveStatusOf(m, Some(h), root) == (if h == root then IsHead else IsParent)
  {
    if h != root {
      RootHasChild(m, root, depth, h);
    }
  }

  /**
   * In a tree whose head is a key, `remove(t)` reports NotFound exactly when `t` is
   * not a key, and Removed exactly when `t` is a key other than the head and the
   * root that no entry names as its parent.
   */
  lemma RemoveStatusInTree(m: Store, root: Tag, depth: map<Tag, nat>, h: Tag, t: Tag)
    requires TreeShape(m, root, depth) && h in m
    ensures RemoveStatusOf(m, Some(h), t) == NotFound <==> t !in m
    ensures RemoveStatusOf(m, Some(h), t) == Removed <==> t in m && t != h && t != root && !HasChild(m, t)
  {
    RootIsNeverRemoved(m, root, depth, h);
  }

  /**
   * A removal that `remove` allows keeps the tree shape and the head, and leaves the
   * collected state of every remaining tag unchanged.
   */
  lemma RemoveKeepsShape(m: Store, root: Tag, depth: map<Tag, nat>, h: Tag, t: Tag)
    requires TreeShape(m, root, depth) && h in m && RemoveStatusOf(m, Some(h), t) == Removed
    ensures TreeShape(m - {t}, root, depth - {t}) && h in m - {t}
    ensures forall k :: k in m - {t} ==> Collect(m - {t}, depth - {t}, k) == Collect(m, depth, k)
  {
    RootIsNeverRemoved(m, root, depth, h);
    var m' := m - {t};
    var depth' := depth - {t};
    forall k | k in m' && k != root ensures m'[k].parent.Some? && m'[k].parent.value in m' {
      assert Upgrade(m, m[k].parent) == m[k].parent;
    }
    assert Ranked(m', depth');
    assert LinksKept(m', m);
    forall k | k in m' ensures Collect(m', depth', k) == Collect(m, depth, k) {
      CollectFrame(m', depth', m, depth, k);
    }
  }

  // ---------------------------------------------------------------------------
  // keys

  /**
   * In a tree, `keys` lists each tag other than the root exactly with its parent,
   * and never lists the root as a child.
   */
  lemma KeysOfTree(m: Store, root: Tag, depth: map<Tag, nat>)
    requires TreeShape(m, root, depth)
    ensures forall a, b :: (a, b) in Keys(m) <==> a in m && a != root && m[a].parent == Some(b)
  {
  }

  // ---------------------------------------------------------------------------
  // release

  /** Releasing the entries of a store is releasing one entry, then the others. */
  lemma ReleasesRemoveOne(m: Store, k: Tag)
    requires k in m
    ensures Releases(m) == Releases(m - {k}) + multiset{(k, m[k].value)}
  {
    var all := set j | j in m :: (j, m[j].value);
    var rest := set j | j in m - {k} :: (j, (m - {k})[j].value);
    forall x | x in all ensures x in rest + {(k, m[k].value)} {
      var j :| j in m && x == (j, m[j].value);
      if j != k {
        assert x == (j, (m - {k})[j].value);
      }
    }
    assert all == rest + {(k, m[k].value)};
    assert (k, m[k].value) !in rest;
  }

  /** A store stands for exactly one release per entry: each tag's change once, nothing else. */
  lemma {:induction false} ReleasesOncePerEntry(m: Store)
    ensures |Releases(m)| == |m|
    ensures forall k :: k in m ==> Releases(m)[(k, m[k].value)] == 1
    ensures forall k, d :: (k, d) in Releases(m) ==> k in m && d == m[k].value
    decreases |m|
  {
    if m != map[] {
      var k :| k in m;
      var rest := m - {k};
      ReleasesRemoveOne(m, k);
      ReleasesOncePerEntry(rest);
      assert |rest| == |m| - 1;
      forall j | j in m ensures Releases(m)[(j, m[j].value)] == 1 {
        if j != k {
          assert rest[j] == m[j];
        }
      }
    } else {
      assert Releases(m) == multiset{};
    }
  }
}
