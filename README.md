# qvnt-i tag tree, modelled in Dafny

The qvnt-i REPL keeps interpreter states in a version tree keyed by string tags.
It works like a small branch/checkout store. Each tag maps to a weak link to its
parent tag and to the change (`Int`) saved there. One head cursor names the current
tag. `:tag mk TAG` commits the current change as a child of the head. `:tag ch TAG`
moves the head and rebuilds the state by walking from the head to the root.
`:tag rm TAG` prunes a tag that is neither the head nor anyone's parent. When the
tree is dropped, every stored change is released.

The project has these files:

- `wrappers.dfy`: `Option` and `Result`.
- `delta.dfy`: the external change type, reduced to a sequence of statements. It
  has an identity (`Int::default()`) and `Prepend` (`prepend_int`, taken to be
  `curr ++ acc`).
- `tag_tree.dfy`: the tree as a value (`map<Tag, Entry>`), plus the lemmas the object
  relies on. These cover the tree-shape invariant, the walk from any tag to the root,
  the collected state, the remove decision, `keys` and the release bookkeeping.
- `int_tree.dfy`: the `IntTree` object. Its `head` and `entries` fields change in
  place. Its methods follow `src/int_tree.rs` one by one, and `collect_to_head`,
  the parent scan of `remove` and the draining of `Drop` stay loops.
- `tag_command.dfy`: the `:tag` sub-command parser, plus `Unparse`, which spells each command in the words the help text lists and parses back to it (`h` and `?` also parse to `Help`, so it is a right inverse only).
- `scenarios.dfy`: client methods proved from the method contracts alone. One follows
  the tag steps of the REPL's test in `src/program.rs:162-169` (`mk reg; mk ops; ch reg`).
  The others are small example sessions: a duplicate commit, a parent kept while its
  child lives, removing a child and then its parent, and teardown.

Modelling choices:

- A parent link (`Weak<String>`) is an `Option<Tag>`. `Weak::new()` is `None`. An
  upgrade succeeds exactly when the linked tag is still a key (`TagTree.Upgrade`).
  This matches the reference counting of the Rust code in every reachable state. `remove`
  refuses to delete a tag that some entry links to, and the root's link is the only
  empty one, so no entry ever holds a dead link to a tag that was later re-created.
- A ghost ranking `depth` of the keys shows that parent links are acyclic and that the
  walk of `collect_to_head` ends. It is a ghost measure and appears only in proofs.
- `DropExt::drop` is an entry `(tag, change)` added to a ghost release log, `released`.

Facts about the Rust code that the model reproduces:

- The root's entry holds a change, `Int::default()` (`src/int_tree.rs:31`). `Drop`
  releases it along with every other entry (`src/int_tree.rs:127-129`), so a tree with
  N committed tags releases N + 1 changes when it is torn down.
- `RemoveStatus` has four values. Removing the root is refused as `IsHead` when the
  root is the head and as `IsParent` otherwise (`TagTree.RootIsNeverRemoved`).
- The REPL's `root` sub-command is `checkout(".")` on the tree (`src/process.rs:201-206`);
  the tree itself has no separate operation for it.

## Model

| member | source | states |
|---|---|---|
| `IntTrees.IntTree.WithRoot` | src/int_tree.rs:29-36 | builds a tree holding only the root tag, with no parent and the default change, as head; the invariant holds and nothing has been released |
| `IntTrees.IntTree.Commit` | src/int_tree.rs:46-64 | a tag already present returns false and changes neither head nor map; a fresh tag returns true, adds exactly the entry (tag, previous head, change), makes the tag the head, keeps every other entry, releases nothing, and keeps the invariant |
| `IntTrees.IntTree.Checkout` | src/int_tree.rs:66-80 | returns true exactly when the tag is a key; then the head is that tag, otherwise the head is unchanged; the map is never modified |
| `IntTrees.IntTree.CollectToHead` | src/int_tree.rs:82-97 | the loop returns None exactly when there is no head or the head is not a key, and otherwise the changes folded along the parent links from the head |
| `IntTrees.IntTree.Remove` | src/int_tree.rs:99-122 | the status is IsHead, IsParent, NotFound or Removed, decided in that order; Removed deletes exactly that entry and logs its release once; every other status changes nothing; the head is kept and so is the invariant |
| `IntTrees.IntTree.Drop` | src/int_tree.rs:125-131 | leaves the map empty and logs one release for each entry the tree held, the root's included |
| `TagTree.RootPath` | src/int_tree.rs:87-96 | the walk along parent links from a tag is finite, ends at that tag and visits only keys |
| `TagTree.RootPathReachesRoot` | src/int_tree.rs:54-61 | in a tree, the walk from any key starts at the root, follows one parent link per step, and never repeats a tag |
| `TagTree.CollectIsPathDelta` | src/int_tree.rs:84-96 | the collected state of a tag is the concatenation of the changes on its root-to-tag path, root first, the root's default change included |
| `TagTree.CollectFrame` | src/int_tree.rs:87-96 | the collected state of a tag depends only on the entries and live links along its walk |
| `TagTree.CommitKeepsShape` | src/int_tree.rs:54-61 | committing a fresh tag under a head that is a key keeps the tree shape |
| `TagTree.CommitExtendsCollect` | src/int_tree.rs:54-63 | after a commit, the state collected at the new tag is the head's state followed by the committed change, and every older tag's state is unchanged |
| `TagTree.RootHasChild` | src/int_tree.rs:106-112 | in a tree, if any key other than the root exists, some entry links to the root |
| `TagTree.RootIsNeverRemoved` | src/int_tree.rs:102-112 | removing the root is reported as IsHead when the root is the head, and as IsParent otherwise, so the root is never removed |
| `TagTree.RemoveStatusInTree` | src/int_tree.rs:99-122 | in a tree, NotFound is reported exactly for tags that are not keys, and Removed exactly for keys that are not the head or the root and that no entry links to |
| `TagTree.RemoveKeepsShape` | src/int_tree.rs:114-121 | a removal that is allowed keeps the tree shape and the head, and it leaves every remaining tag's collected state unchanged |
| `TagTree.Keys` | src/int_tree.rs:39-44 | a pair (a, b) is listed exactly when a is a key whose parent link upgrades to b |
| `TagTree.KeysOfTree` | src/int_tree.rs:39-44 | in a tree, the listed pairs are exactly (tag, parent) for every key besides the root; the root is never listed as a child |
| `TagTree.ReleasesRemoveOne` | src/int_tree.rs:114-115 | the releases owed by a map are those of one entry plus those of the rest |
| `TagTree.ReleasesOncePerEntry` | src/int_tree.rs:125-131 | a map owes exactly as many releases as it has entries: each tag's change once, and nothing else |
| `TagCommand.ParseCommand` | src/int_tree.rs:181-202 | no token or `ls` gives List; `mk`/`rm`/`ch` with a token give Create/Remove/Checkout of it, and without one UnspecifiedTag; `root` gives Root; `help`/`h`/`?` give Help; any other first token gives UnknownTagCmd of that token; the tokens left are exactly those after the tag argument for `mk`/`rm`/`ch TAG`, those after the first token otherwise, and none for an empty stream |
| `TagCommand.Unparse` | src/int_tree.rs:156-168 | the tokens the help text gives for a command parse back to that command, leaving any tokens that follow unconsumed |

## Left out

- `IntTrees.IntTree.CollectToHead`: requires the parent links to be ranked. A map with a cycle would make the loop of the Rust code run forever, and that case is not modelled.
- `IntTrees.IntTree.Commit`, `IntTrees.IntTree.Checkout`, `IntTrees.IntTree.Remove`: require the object invariant, which the constructor establishes and every method keeps. They are not stated for states no sequence of calls can reach.
- The change type `Int` is a sequence of opaque statements. What a statement means belongs to the external interpreter and is not modelled. `prepend_int` is taken to be `curr ++ acc`.
- `src/utils/drop_leakage.rs` is not part of this model. Releasing one `Int` frees the leaked source text of each of its syntax trees; here it is one logged release event per change.
- `Rc`/`Weak`/`RefCell` reference counting is modelled by key lookup.
- `keys` returns a `Vec` in hash-map order. The model returns the set of pairs, because that order is unspecified.
- `log::trace!` calls, the `HELP` text and the `Display`/`Debug`/`Error` formatting are output only.
- `src/process.rs`, `src/program.rs`, `src/cli.rs` and `src/main.rs` are not part of this model. They hold the REPL loop, file loading, status-to-error mapping and argument parsing, and their effects go through the external interpreter.
