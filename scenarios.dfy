/**
 * Client uses of `IntTree`, proved from the methods' contracts alone. One follows
 * the tag steps of the REPL's own test; the others are small example sessions.
 * The root tag is the REPL's `"."`.
 */
module Scenarios {
  import opened Wrappers
  import opened Delta
  import opened TagTree
  import opened IntTrees

  /** A duplicate tag is refused without change; the state at a child of the root is its change. */
  method DuplicateCommit(d1: Delta, d2: Delta)
  {
    var tree := new IntTree.WithRoot(".");
    var ok := tree.Commit("a", d1);
    assert ok && tree.head == Some("a");
    var before := tree.entries;
    ok := tree.Commit("a", d2);
    assert !ok && tree.head == Some("a") && tree.entries == before;
    var r := tree.CollectToHead();
    assert Collect(tree.entries, tree.depth, ".") == Identity;
    assert Identity + d1 == d1;
    assert r == Some(d1);
  }

  /** A parent stays unremovable, wherever the head is, while its child exists. */
  method ParentIsKept(d1: Delta, d2: Delta)
  {
    var tree := new IntTree.WithRoot(".");
    var ok := tree.Commit("a", d1);
    ok := tree.Commit("b", d2);
    var chain := map["." := Entry(None, Identity), "a" := Entry(Some("."), d1), "b" := Entry(Some("a"), d2)];
    assert tree.entries == chain && tree.head == Some("b");
    var s := tree.Remove("b");
    assert s == IsHead;
    assert Upgrade(chain, chain["b"].parent) == Some("a");
    s := tree.Remove("a");
    assert s == IsParent;
    ok := tree.Checkout(".");
    assert tree.entries == chain && tree.head == Some(".");
    s := tree.Remove("a");
    assert s == IsParent;
  }

  /** Once the child is removed, its parent can be removed too, and each release happens once. */
  method ChildThenParent(d1: Delta, d2: Delta)
  {
    var tree := new IntTree.WithRoot(".");
    var ok := tree.Commit("a", d1);
    ok := tree.Commit("b", d2);
    ok := tree.Checkout(".");
    var chain := map["." := Entry(None, Identity), "a" := Entry(Some("."), d1), "b" := Entry(Some("a"), d2)];
    assert tree.entries == chain && tree.head == Some(".");
    assert !HasChild(chain, "b");
    var s := tree.Remove("b");
    assert s == Removed;
    var rest := map["." := Entry(None, Identity), "a" := Entry(Some("."), d1)];
    assert tree.entries == rest;
    assert !HasChild(rest, "a");
    s := tree.Remove("a");
    assert s == Removed;
    assert tree.released == multiset{("b", d2), ("a", d1)};
  }

  /**
   * `mk reg`, then `mk ops` on top of it, then `ch reg`: the checked-out state is the
   * one saved at `reg`, without the statements committed at `ops`.
   */
  method CheckoutDropsLaterChanges(reg: Delta, ops: Delta)
  {
    var tree := new IntTree.WithRoot(".");
    var ok := tree.Commit("reg", reg);
    ok := tree.Commit("ops", ops);
    ok := tree.Checkout("reg");
    assert ok;
    var r := tree.CollectToHead();
    assert Collect(tree.entries, tree.depth, ".") == Identity;
    assert tree.entries["reg"] == Entry(Some("."), reg);
    assert Identity + reg == reg;
    assert r == Some(reg);
  }

  /** Tearing down a tree with two committed tags releases three changes: the root's and theirs. */
  method TeardownReleasesAll(d1: Delta, d2: Delta)
  {
    var tree := new IntTree.WithRoot(".");
    var ok := tree.Commit("a", d1);
    ok := tree.Commit("b", d2);
    var before := tree.entries;
    tree.Drop();
    ReleasesOncePerEntry(before);
    assert before.Keys == {".", "a", "b"};
    assert |tree.released| == 3;
    assert tree.entries == map[];
  }
}
