/**
 * `IntTree`: the REPL's store of saved interpreter states, a tree keyed by tags
 * with one movable head, updated in place like a small branch/checkout store.
 */
module IntTrees {
  import opened Wrappers
  import opened Delta
  import opened TagTree

  class IntTree {
    /** The tag whose state is current: `head: RefCell<Option<Rc<String>>>`. */
    var head: Option<Tag>
    /** The map from each tag to its parent link and change. */
    var entries: Store

    /** The tag the tree was built with. */
    ghost const root: Tag
    /** A ghost ranking of the keys: under it parent links are acyclic and walks along them end. */
    ghost var depth: map<Tag, nat>
    /** Every `DropExt::drop` performed so far, as the tag and the change released. */
    ghost var released: multiset<(Tag, Delta)>

    /** The object invariant: a tree shape, and a head that names a key. */
    ghost predicate Valid()
      reads this
    {
      TreeShape(entries, root, depth) && head.Some? && head.value in entries
    }

    /** `with_root`: a tree holding only `rootTag`, with the default change, as head. */
    constructor WithRoot(rootTag: Tag)
      ensures Valid() && root == rootTag
      ensures entries == map[rootTag := Entry(None, Identity)] && head == Some(rootTag)
      ensures released == multiset{}
    {
      root := rootTag;
      entries := map[rootTag := Entry(None, Identity)];
      head := Some(rootTag);
      depth := map[rootTag := 0];
      released := multiset{};
    }

    /**
     * `commit`: a tag already present is refused and nothing changes; a fresh tag
     * becomes a child of the head holding `change`, and the new head.
     */
    method Commit(tag: Tag, change: Delta) returns (ok: bool)
      requires Valid()
      modifies this
      ensures Valid()
      ensures ok <==> tag !in old(entries)
      ensures ok ==> entries == old(entries)[tag := Entry(old(head), change)] && head == Some(tag)
      ensures !ok ==> entries == old(entries) && head == old(head)
      ensures released == old(released)
    {
      if tag in entries {
        return false;
      }
      var oldHead := head;
      CommitKeepsShape(entries, root, depth, oldHead.value, tag, change);
      head := Some(tag);
      depth := depth[tag := depth[oldHead.value] + 1];
      entries := entries[tag := Entry(oldHead, change)];
      ok := true;
    }

    /** `checkout`: succeeds exactly when `tag` is a key, and then moves the head there; the map never changes. */
    method Checkout(tag: Tag) returns (ok: bool)
      requires Valid()
      modifies this`head
      ensures Valid()
      ensures ok <==> tag in entries
      ensures head == if ok then Some(tag) else old(head)
    {
      if tag in entries {
        head := Some(tag);
        ok := true;
      } else {
        ok := false;
      }
    }

    /**
     * `collect_to_head`: walk parent links from the head, prepending each change to
     * the accumulator, until a link does not upgrade. The result is absent exactly
     * when there is no head or the head is not a key.
     */
    method CollectToHead() returns (r: Option<Delta>)
      requires Ranked(entries, depth)
      ensures r.Some? <==> head.Some? && head.value in entries
      ensures r.Some? ==> r.value == Collect(entries, depth, head.value)
    {
      if head.None? {
        return None;
      }
      var start := head.value;
      var acc := Identity;
      while true
        invariant start !in entries ==> start == head.value
        invariant start in entries ==>
          head.value in entries && Collect(entries, depth, start) + acc == Collect(entries, depth, head.value)
        decreases if start in entries then depth[start] else 0
      {
        if start !in entries {
          return None;
        }
        var curr := entries[start];
        acc := Prepend(acc, curr.value);
        match Upgrade(entries, curr.parent)
        case Some(next) =>
          start := next;
        case None =>
          return Some(acc);
      }
    }

    /**
     * `remove`: refuses the head, then any tag that some entry names as its parent,
     * then a tag that is not a key; otherwise deletes that one entry and releases
     * its change once. A refusal changes nothing.
     */
    method Remove(tag: Tag) returns (s: RemoveStatus)
      requires Valid()
      modifies this
      ensures Valid() && head == old(head)
      ensures s == RemoveStatusOf(old(entries), old(head), tag)
      ensures s == Removed ==>
        entries == old(entries) - {tag} && released == old(released) + multiset{(tag, old(entries)[tag].value)}
      ensures s != Removed ==> entries == old(entries) && released == old(released)
    {
      if head == Some(tag) {
        return IsHead;
      }
      var unseen := entries.Keys;
      while unseen != {}
        invariant unseen <= entries.Keys
        invariant forall k :: k in entries && k !in unseen ==> Upgrade(entries, entries[k].parent) != Some(tag)
        decreases |unseen|
      {
        var k :| k in unseen;
        if Upgrade(entries, entries[k].parent) == Some(tag) {
          return IsParent;
        }
        unseen := unseen - {k};
      }
      if tag !in entries {
        return NotFound;
      }
      var removed := entries[tag].value;
      RemoveKeepsShape(entries, root, depth, head.value, tag);
      entries := entries - {tag};
      depth := depth - {tag};
      released := released + multiset{(tag, removed)};
      s := Removed;
    }

    /** `Drop`: drain the map, releasing every entry's change, the root's included, once. */
    method Drop()
      modifies this
      ensures entries == map[] && head == old(head)
      ensures released == old(released) + Releases(old(entries))
    {
      while entries != map[]
        invariant head == old(head)
        invariant released + Releases(entries) == old(released) + Releases(old(entries))
        decreases |entries|
      {
        var k :| k in entries;
        ReleasesRemoveOne(entries, k);
        released := released + multiset{(k, entries[k].value)};
        entries := entries - {k};
      }
    }
  }
}
