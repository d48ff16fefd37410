// The staged copy of a workspace snapshot, and the recursive removal of an attempt directory, over an
// abstract file system whose calls check the owner's permission bits.

module FileTrees {
  import opened Prelude

  type Parts = seq<string>

  /** A file stands for everything that is not a directory. */
  datatype Node = Directory(mode: nat) | File(mode: nat, content: seq<bv8>)

  const PRIVATE := 448 // 0o700: the owner may read, write and search

  function OwnerBits(mode: nat): nat {
    mode / 64 % 8
  }

  predicate CanRead(n: Node) {
    OwnerBits(n.mode) / 4 % 2 == 1
  }

  predicate CanWrite(n: Node) {
    OwnerBits(n.mode) / 2 % 2 == 1
  }

  predicate CanSearch(n: Node) {
    OwnerBits(n.mode) % 2 == 1
  }

  function Parent(p: Parts): Parts
    requires p != []
  {
    p[..|p| - 1]
  }

  predicate Under(p: Parts, root: Parts) {
    |root| < |p| && p[..|root|] == root
  }

  predicate WellFormed(nodes: map<Parts, Node>) {
    && [] in nodes && nodes[[]].Directory?
    && forall p :: p in nodes && p != [] ==> Parent(p) in nodes && nodes[Parent(p)].Directory?
  }

  /** Walking from the root to `p`, opening one directory after the other, meets no refusal. */
  predicate Openable(nodes: map<Parts, Node>, p: Parts)
    decreases |p|
  {
    p == [] ||
    (Openable(nodes, Parent(p))
      && Parent(p) in nodes && CanSearch(nodes[Parent(p)])
      && p in nodes && nodes[p].Directory? && CanRead(nodes[p]))
  }

  class FileTree {
    var nodes: map<Parts, Node>

    ghost predicate Valid()
      reads this
    {
      WellFormed(nodes)
    }

    /** `_open_relative_directory`: opens one component after the other. */
    method OpenDirectory(parts: Parts) returns (ok: bool)
      requires Valid()
      ensures ok <==> Openable(nodes, parts)
    {
      for i := 0 to |parts|
        invariant Openable(nodes, parts[..i])
        invariant parts[..i] in nodes
      {
        assert Parent(parts[..i + 1]) == parts[..i];
        var next := parts[..i + 1];
        if !CanSearch(nodes[parts[..i]]) || next !in nodes || !nodes[next].Directory? || !CanRead(nodes[next]) {
          OpenableStops(nodes, parts, i + 1);
          return false;
        }
      }
      assert parts[..|parts|] == parts;
      return true;
    }

    /** Whether an entry can be made or removed in an open directory. */
    predicate MayEdit(directory: Parts)
      reads this
    {
      directory in nodes && nodes[directory].Directory? && CanWrite(nodes[directory]) && CanSearch(nodes[directory])
    }

    /** `mkdir` or an exclusive creation in the open parent directory. */
    method Make(p: Parts, node: Node) returns (ok: bool)
      requires Valid() && p != []
      modifies this
      ensures Valid()
      ensures ok <==> old(MayEdit(Parent(p))) && p !in old(nodes)
      ensures nodes == if ok then old(nodes)[p := node] else old(nodes)
    {
      ok := MayEdit(Parent(p)) && p !in nodes;
      if ok {
        nodes := nodes[p := node];
      }
    }

    /** `chmod` of an entry of the open parent directory, without following links. */
    method ChangeMode(p: Parts, mode: nat) returns (ok: bool)
      requires Valid() && p != []
      modifies this
      ensures Valid()
      ensures ok <==> old(Parent(p) in nodes && CanSearch(nodes[Parent(p)]) && p in nodes)
      ensures nodes == if ok then old(nodes)[p := old(nodes)[p].(mode := mode)] else old(nodes)
    {
      ok := Parent(p) in nodes && CanSearch(nodes[Parent(p)]) && p in nodes;
      if ok {
        nodes := nodes[p := nodes[p].(mode := mode)];
      }
    }

    /** `unlink` of what is no directory, or `rmdir` of an empty one. */
    method Remove(p: Parts) returns (ok: bool)
      requires Valid() && p != []
      modifies this
      ensures Valid()
      ensures ok <==> old(MayEdit(Parent(p)) && p in nodes && Vacant(p))
      ensures nodes == if ok then old(nodes) - {p} else old(nodes)
    {
      ok := MayEdit(Parent(p)) && p in nodes && Vacant(p);
      if ok {
        RemovedWellFormed(nodes, p);
        nodes := nodes - {p};
      }
    }

    /** Writing through the descriptor of a file just created, and setting its final mode. */
    method Fill(p: Parts, file: Node)
      requires Valid() && p in nodes && nodes[p].File? && file.File?
      modifies this
      ensures Valid() && nodes == old(nodes)[p := file]
    {
      nodes := nodes[p := file];
    }

    predicate Vacant(p: Parts)
      reads this
    {
      forall q :: q in nodes ==> !Under(q, p)
    }

    /** `listdir`: the names in a directory, in no particular order. */
    method List(directory: Parts) returns (names: seq<string>)
      ensures Distinct(names)
      ensures forall name :: name in names <==> directory + [name] in nodes
    {
      var left := set p | p in nodes && |p| == |directory| + 1 && p[..|directory|] == directory :: p[|directory|];
      assert forall name :: name in left <==> directory + [name] in nodes by {
        ChildNames(nodes, directory, left);
      }
      ghost var all := left;
      names := [];
      while left != {}
        invariant Distinct(names) && left <= all
        invariant forall name :: name in names <==> name in all - left
        decreases |left|
      {
        var name :| name in left;
        assert name !in names;
        names := names + [name];
        left := left - {name};
      }
    }
  }

  lemma ChildNames(nodes: map<Parts, Node>, directory: Parts, names: set<string>)
    requires names == set p | p in nodes && |p| == |directory| + 1 && p[..|directory|] == directory :: p[|directory|]
    ensures forall name :: name in names <==> directory + [name] in nodes
  {
    forall name
      ensures name in names <==> directory + [name] in nodes
    {
      var p := directory + [name];
      assert p[..|directory|] == directory && p[|directory|] == name;
      if name in names {
        var q :| q in nodes && |q| == |directory| + 1 && q[..|directory|] == directory && q[|directory|] == name;
        assert q == p;
      }
    }
  }

  lemma {:induction false} OpenableStops(nodes: map<Parts, Node>, p: Parts, k: nat)
    requires 0 < k <= |p| && !Openable(nodes, p[..k])
    ensures !Openable(nodes, p)
    decreases |p|
  {
    if k == |p| {
      assert p[..k] == p;
    } else {
      assert Parent(p)[..k] == p[..k];
      OpenableStops(nodes, Parent(p), k);
    }
  }

  lemma RemovedWellFormed(nodes: map<Parts, Node>, gone: Parts)
    requires WellFormed(nodes) && gone != [] && forall q :: q in nodes ==> !Under(q, gone)
    ensures WellFormed(nodes - {gone})
  {
    forall p | p in nodes - {gone} && p != []
      ensures Parent(p) in nodes - {gone}
    {
      assert !Under(p, gone);
    }
  }
}

module DirectoryRemoval {
  import opened FileTrees
  import opened Prelude

  ghost function Below(nodes: map<Parts, Node>, directory: Parts): set<Parts> {
    set p | p in nodes && Under(p, directory)
  }

  /** Below one of the first `n` names, or such a name itself. */
  ghost predicate Cleared(p: Parts, directory: Parts, names: seq<string>, n: nat)
    requires n <= |names|
  {
    Under(p, directory) && p[|directory|] in names[..n]
  }

  ghost function ClearedSet(nodes: map<Parts, Node>, directory: Parts, names: seq<string>, n: nat): set<Parts>
    requires n <= |names|
  {
    set p | p in nodes && Cleared(p, directory, names, n)
  }

  /** `remove_directory_contents`: whatever permissions the entries have, nothing is refused, all that
      lies below the directory is gone afterwards, and all else is as it was. */
  method RemoveDirectoryContents(tree: FileTree, directory: Parts) returns (ok: bool)
    requires tree.Valid() && directory in tree.nodes && tree.nodes[directory] == Directory(PRIVATE)
    modifies tree
    ensures tree.Valid()
    ensures ok && tree.nodes == old(tree.nodes) - old(Below(tree.nodes, directory))
    decreases |Below(tree.nodes, directory)|
  {
    ghost var before := tree.nodes;
    var names := tree.List(directory);
    assert ClearedSet(before, directory, names, 0) == {};
    assert before - {} == before;
    assert CanWrite(Directory(PRIVATE)) && CanSearch(Directory(PRIVATE));
    hide Cleared, ClearedSet, CanWrite, CanSearch;
    for i := 0 to |names|
      invariant tree.Valid()
      invariant tree.nodes == before - ClearedSet(before, directory, names, i)
    {
      var child := directory + [names[i]];
      assert Parent(child) == directory;
      ChildRemains(before, directory, names, i);
      ghost var left := tree.nodes;
      if tree.nodes[child].Directory? {
        ok := tree.ChangeMode(child, PRIVATE);
        ghost var unlocked := tree.nodes;
        assert ok && unlocked == left[child := Directory(PRIVATE)];
        SmallerBelow(before, unlocked, directory, child);
        ok := RemoveDirectoryContents(tree, child);
        assert !Under(directory, child) && directory in tree.nodes && tree.MayEdit(directory);
        BelowIsVacant(tree, unlocked, child);
        ok := tree.Remove(child);
        assert ok && tree.nodes == unlocked - Below(unlocked, child) - {child};
        ChildGone(before, directory, names, i, unlocked[child]);
      } else {
        FilesHaveNothingBelow(tree.nodes, child);
        ok := tree.Remove(child);
        assert ok && tree.nodes == left - {child};
        FilesHaveNothingBelow(before, child);
        FileGone(before, directory, names, i);
      }
    }
    AllCleared(before, directory, names);
    return true;
  }

  lemma BelowIsVacant(tree: FileTree, nodes: map<Parts, Node>, p: Parts)
    requires tree.nodes == nodes - Below(nodes, p)
    ensures tree.Vacant(p)
    ensures p in nodes ==> p in tree.nodes
  {
  }

  lemma ChildRemains(nodes: map<Parts, Node>, directory: Parts, names: seq<string>, i: nat)
    requires i < |names| && Distinct(names)
    requires forall name :: name in names <==> directory + [name] in nodes
    ensures directory + [names[i]] in nodes - ClearedSet(nodes, directory, names, i)
    ensures directory !in ClearedSet(nodes, directory, names, i)
  {
    var child := directory + [names[i]];
    assert child[|directory|] == names[i] && names[i] in names;
  }

  lemma SmallerBelow(nodes: map<Parts, Node>, unlocked: map<Parts, Node>, directory: Parts, child: Parts)
    requires |child| == |directory| + 1 && child[..|directory|] == directory && child in nodes
    requires unlocked.Keys <= nodes.Keys
    ensures |Below(unlocked, child)| < |Below(nodes, directory)|
  {
    var inner, outer := Below(unlocked, child), Below(nodes, directory);
    forall p | p in inner
      ensures p in outer && p != child
    {
      assert p[..|directory|] == p[..|child|][..|directory|];
    }
    assert child in outer;
    StrictSubset(inner, outer, child);
  }

  lemma StrictSubset<T>(inner: set<T>, outer: set<T>, extra: T)
    requires inner <= outer && extra in outer && extra !in inner
    ensures |inner| < |outer|
  {
    assert |outer - inner| == |outer| - |inner|;
    assert extra in outer - inner;
  }

  lemma {:induction false} FilesHaveNothingBelow(nodes: map<Parts, Node>, p: Parts)
    requires WellFormed(nodes) && p in nodes && !nodes[p].Directory?
    ensures forall q :: q in nodes ==> !Under(q, p)
  {
    forall q | q in nodes
      ensures !Under(q, p)
    {
      if Under(q, p) {
        AncestorIsDirectory(nodes, q, |p|);
      }
    }
  }

  lemma {:induction false} AncestorIsDirectory(nodes: map<Parts, Node>, q: Parts, k: nat)
    requires WellFormed(nodes) && q in nodes && k < |q|
    ensures q[..k] in nodes && nodes[q[..k]].Directory?
    decreases |q|
  {
    if k < |q| - 1 {
      AncestorIsDirectory(nodes, Parent(q), k);
      assert Parent(q)[..k] == q[..k];
    }
  }

  lemma ClearedNext(nodes: map<Parts, Node>, directory: Parts, names: seq<string>, i: nat)
    requires i < |names|
    ensures var child := directory + [names[i]];
            ClearedSet(nodes, directory, names, i + 1)
            == ClearedSet(nodes, directory, names, i) + Below(nodes, child) + (if child in nodes then {child} else {})
  {
    var child := directory + [names[i]];
    forall p | p in nodes
      ensures Cleared(p, directory, names, i + 1) <==> Cleared(p, directory, names, i) || Under(p, child) || p == child
    {
      assert names[..i + 1] == names[..i] + [names[i]];
      if Under(p, directory) {
        assert p[..|child|] == directory + [p[|directory|]];
        if |p| == |child| {
          assert p[..|child|] == p;
        }
      }
      if Under(p, child) {
        assert p[..|directory|] == p[..|child|][..|directory|];
      }
    }
  }

  lemma ChildGone(nodes: map<Parts, Node>, directory: Parts, names: seq<string>, i: nat, unlocked: Node)
    requires i < |names| && directory + [names[i]] in nodes
    ensures var child := directory + [names[i]];
            var left := (nodes - ClearedSet(nodes, directory, names, i))[child := unlocked];
            left - Below(left, child) - {child} == nodes - ClearedSet(nodes, directory, names, i + 1)
  {
    ClearedNext(nodes, directory, names, i);
    var child := directory + [names[i]];
    var left := (nodes - ClearedSet(nodes, directory, names, i))[child := unlocked];
    var a, b := left - Below(left, child) - {child}, nodes - ClearedSet(nodes, directory, names, i + 1);
    assert a.Keys == b.Keys;
    assert forall p :: p in a ==> a[p] == b[p];
  }

  lemma FileGone(nodes: map<Parts, Node>, directory: Parts, names: seq<string>, i: nat)
    requires i < |names| && directory + [names[i]] in nodes
    requires forall q :: q in nodes ==> !Under(q, directory + [names[i]])
    ensures nodes - ClearedSet(nodes, directory, names, i) - {directory + [names[i]]}
      == nodes - ClearedSet(nodes, directory, names, i + 1)
  {
    ClearedNext(nodes, directory, names, i);
    assert Below(nodes, directory + [names[i]]) == {};
  }

  lemma AllCleared(nodes: map<Parts, Node>, directory: Parts, names: seq<string>)
    requires WellFormed(nodes)
    requires forall name :: name in names <==> directory + [name] in nodes
    ensures ClearedSet(nodes, directory, names, |names|) == Below(nodes, directory)
  {
    assert names[..|names|] == names;
    forall p | p in nodes && Under(p, directory)
      ensures p[|directory|] in names
    {
      if |p| > |directory| + 1 {
        AncestorIsDirectory(nodes, p, |directory| + 1);
      }
      assert p[..|directory| + 1] == directory + [p[|directory|]];
      assert |p| == |directory| + 1 ==> p == p[..|directory| + 1];
    }
  }
}

module SnapshotCopy {
  import opened FileTrees
  import opened Paths
  import opened Prelude
  import opened Texts

  /** A snapshot entry: what it is, its mode, and for a file its content. */
  datatype Entry = Entry(parts: Parts, node: Node)

  /** What the snapshot constructor demands: components without separators, in the order of the UTF-8
      text of the relative paths. Neither repeats nor missing parents are excluded. */
  ghost predicate Canonical(entries: seq<Entry>) {
    && (forall i :: 0 <= i < |entries| ==> entries[i].parts != [] && AllComponents(entries[i].parts))
    && forall i, j :: 0 <= i < j < |entries| ==>
         TextAtMost(Join("/", entries[i].parts), Join("/", entries[j].parts))
  }

  predicate AllComponents(parts: Parts) {
    forall i :: 0 <= i < |parts| ==> IsComponent(parts[i])
  }

  ghost predicate HasDirectory(entries: seq<Entry>, p: Parts) {
    exists d :: 0 <= d < |entries| && entries[d].parts == p && entries[d].node.Directory?
  }

  /** Every proper ancestor of an entry, up to the root, is a directory of the snapshot. */
  ghost predicate PrefixClosed(entries: seq<Entry>) {
    forall i, k :: 0 <= i < |entries| && 0 < k < |entries[i].parts| ==> HasDirectory(entries, entries[i].parts[..k])
  }

  ghost predicate Unrepeated(entries: seq<Entry>) {
    forall i, j :: 0 <= i < j < |entries| ==> entries[i].parts != entries[j].parts
  }

  /** The tree holds exactly the snapshot, each path with its kind, mode and content. */
  ghost predicate Holds(nodes: map<Parts, Node>, root: Node, entries: seq<Entry>) {
    && (forall p :: p in nodes <==> p == [] || exists i :: 0 <= i < |entries| && entries[i].parts == p)
    && [] in nodes && nodes[[]] == root
    && forall i :: 0 <= i < |entries| ==> entries[i].parts in nodes && nodes[entries[i].parts] == entries[i].node
  }

  // ---- Parents come before children ----

  lemma {:induction false} TextAntisymmetric(a: string, b: string)
    requires TextAtMost(a, b) && TextAtMost(b, a)
    ensures a == b
  {
    if a != "" && b != "" {
      TextAntisymmetric(a[1..], b[1..]);
      assert a == [a[0]] + a[1..] && b == [b[0]] + b[1..];
    }
  }

  lemma {:induction false} PrefixAtMost(a: string, b: string)
    requires |a| <= |b| && b[..|a|] == a
    ensures TextAtMost(a, b)
  {
    if a != "" {
      assert b[1..][..|a| - 1] == b[..|a|][1..] == a[1..];
      assert a[0] == b[..|a|][0] == b[0];
      PrefixAtMost(a[1..], b[1..]);
    }
  }

  lemma {:induction false} JoinPrefix(parts: Parts, k: nat)
    requires 0 < k < |parts|
    ensures var a, b := Join("/", parts[..k]), Join("/", parts);
            |a| < |b| && b[..|a|] == a
  {
    if k == 1 {
      assert parts[..1] == [parts[0]];
    } else {
      JoinPrefix(parts[1..], k - 1);
      assert parts[..k][1..] == parts[1..][..k - 1];
      var a, b := Join("/", parts[1..][..k - 1]), Join("/", parts[1..]);
      assert Join("/", parts[..k]) == parts[0] + "/" + a && Join("/", parts) == parts[0] + "/" + b;
      assert (parts[0] + "/" + b)[..|parts[0]| + 1 + |a|] == parts[0] + "/" + b[..|a|];
    }
  }

  /** The order of the snapshot puts an ancestor before everything below it. */
  lemma AncestorsFirst(entries: seq<Entry>, i: nat, d: nat, k: nat)
    requires Canonical(entries) && i < |entries| && d < |entries|
    requires 0 < k < |entries[i].parts| && entries[d].parts == entries[i].parts[..k]
    ensures d < i
  {
    var a, b := Join("/", entries[d].parts), Join("/", entries[i].parts);
    JoinPrefix(entries[i].parts, k);
    PrefixAtMost(a, b);
    if i < d {
      TextAntisymmetric(a, b);
    }
  }

  // ---- Deepest first ----

  ghost predicate DeepestFirst(entries: seq<Entry>) {
    forall i, j :: 0 <= i < j < |entries| ==> |entries[i].parts| >= |entries[j].parts|
  }

  function InsertByDepth(e: Entry, sorted: seq<Entry>): (r: seq<Entry>)
    ensures multiset(r) == multiset(sorted) + multiset{e}
  {
    if sorted == [] || |e.parts| >= |sorted[0].parts| then [e] + sorted
    else
      assert sorted == [sorted[0]] + sorted[1..];
      [sorted[0]] + InsertByDepth(e, sorted[1..])
  }

  /** `sorted(directories, key=depth, reverse=True)`, which keeps the order of equally deep ones. */
  function SortedByDepth(entries: seq<Entry>): (r: seq<Entry>)
    ensures multiset(r) == multiset(entries)
  {
    if entries == [] then []
    else
      assert entries == [entries[0]] + entries[1..];
      InsertByDepth(entries[0], SortedByDepth(entries[1..]))
  }

  lemma {:induction false} InsertedByDepth(e: Entry, sorted: seq<Entry>)
    requires DeepestFirst(sorted)
    ensures DeepestFirst(InsertByDepth(e, sorted))
  {
    if sorted != [] && |e.parts| < |sorted[0].parts| {
      var rest := InsertByDepth(e, sorted[1..]);
      InsertedByDepth(e, sorted[1..]);
      forall j | 0 <= j < |rest|
        ensures |rest[j].parts| <= |sorted[0].parts|
      {
        assert rest[j] in multiset(rest);
        assert rest[j] == e || rest[j] in sorted[1..];
      }
    }
  }

  lemma {:induction false} SortedIsDeepestFirst(entries: seq<Entry>)
    ensures DeepestFirst(SortedByDepth(entries))
    ensures forall e :: e in SortedByDepth(entries) <==> e in entries
  {
    if entries != [] {
      SortedIsDeepestFirst(entries[1..]);
      InsertedByDepth(entries[0], SortedByDepth(entries[1..]));
    }
    assert forall e :: e in SortedByDepth(entries) <==> e in multiset(SortedByDepth(entries));
    assert forall e :: e in entries <==> e in multiset(entries);
  }

  // ---- The copy ----

  /** The node of an entry while the copy runs: a directory is private until its mode is applied. */
  function NodeNow(e: Entry, done: set<Parts>): Node {
    if e.node.Directory? && e.parts !in done then Directory(PRIVATE) else e.node
  }

  /** The tree holds the entries in `made`, all different; the directories in `done` have their mode. */
  ghost predicate Progress(nodes: map<Parts, Node>, entries: seq<Entry>, made: set<nat>, done: set<Parts>) {
    && (forall k :: k in made ==> k < |entries|)
    && [] in nodes && nodes[[]] == Directory(PRIVATE)
    && (forall p :: p in nodes ==> p == [] || exists k :: k in made && entries[k].parts == p)
    && (forall k :: k in made ==>
          entries[k].parts in nodes && nodes[entries[k].parts] == NodeNow(entries[k], done))
    && (forall k, l :: k in made && l in made && k < l ==> entries[k].parts != entries[l].parts)
    && forall k, m :: k in made && 0 < m < |entries[k].parts| ==> HasDirectory(entries, entries[k].parts[..m])
  }

  /** The ancestors of a path are all made, and their modes not yet applied. */
  ghost predicate AncestorsPrivate(entries: seq<Entry>, made: set<nat>, done: set<Parts>, p: Parts) {
    forall m :: 0 < m < |p| ==>
      p[..m] !in done && exists d :: d in made && d < |entries| && entries[d].parts == p[..m] && entries[d].node.Directory?
  }

  lemma PrivateBits()
    ensures CanRead(Directory(PRIVATE)) && CanWrite(Directory(PRIVATE)) && CanSearch(Directory(PRIVATE))
  {
  }

  lemma {:induction false} AncestorsOpen(nodes: map<Parts, Node>, entries: seq<Entry>, made: set<nat>, done: set<Parts>, p: Parts, m: nat)
    requires Progress(nodes, entries, made, done) && AncestorsPrivate(entries, made, done, p)
    requires m < |p|
    ensures Openable(nodes, p[..m])
    ensures p[..m] in nodes && nodes[p[..m]] == Directory(PRIVATE)
  {
    PrivateBits();
    hide CanRead, CanWrite, CanSearch;
    if m > 0 {
      AncestorsOpen(nodes, entries, made, done, p, m - 1);
      assert Parent(p[..m]) == p[..m - 1];
      assert p[..m] !in done;
    }
  }

  /** If the parent of a path can be opened while all modes are private, its ancestors are directories
      of the snapshot and the parent is private. */
  lemma {:induction false} OpenedAncestors(nodes: map<Parts, Node>, entries: seq<Entry>, made: set<nat>, p: Parts, m: nat)
    requires Progress(nodes, entries, made, {}) && m < |p| && Openable(nodes, p[..m])
    ensures forall n :: 0 < n <= m ==> HasDirectory(entries, p[..n])
    ensures p[..m] in nodes && nodes[p[..m]] == Directory(PRIVATE)
  {
    if m > 0 {
      assert Parent(p[..m]) == p[..m - 1];
      OpenedAncestors(nodes, entries, made, p, m - 1);
      var d :| d in made && entries[d].parts == p[..m];
    }
  }

  lemma Extended(nodes: map<Parts, Node>, entries: seq<Entry>, made: set<nat>, k: nat)
    requires Progress(nodes, entries, made, {}) && k < |entries| && entries[k].parts != []
    requires Openable(nodes, Parent(entries[k].parts)) && entries[k].parts !in nodes
    ensures Progress(nodes[entries[k].parts := NodeNow(entries[k], {})], entries, With(made, k), {})
  {
    var p := entries[k].parts;
    OpenedAncestors(nodes, entries, made, p, |p| - 1);
    var after := nodes[p := NodeNow(entries[k], {})];
    forall q | q in after
      ensures q == [] || exists l :: l in With(made, k) && entries[l].parts == q
    {
      if q != [] && q != p {
        var l :| l in made && entries[l].parts == q;
        assert l in With(made, k);
      } else if q == p {
        assert k in With(made, k);
      }
    }
  }

  /** With the ancestors in the snapshot and no repeats, the parent opens and the name is free. */
  lemma Possible(nodes: map<Parts, Node>, entries: seq<Entry>, made: set<nat>, k: nat)
    requires Progress(nodes, entries, made, {}) && Canonical(entries) && k < |entries| && k !in made
    requires DirectoriesBefore(entries, made, k)
    ensures PrefixClosed(entries) ==> Openable(nodes, Parent(entries[k].parts))
    ensures Unrepeated(entries) ==> entries[k].parts !in nodes
  {
    var p := entries[k].parts;
    if PrefixClosed(entries) {
      forall m | 0 < m < |p|
        ensures exists d :: d in made && d < |entries| && entries[d].parts == p[..m] && entries[d].node.Directory?
      {
        assert HasDirectory(entries, p[..m]);
        var d :| 0 <= d < |entries| && entries[d].parts == p[..m] && entries[d].node.Directory?;
        AncestorsFirst(entries, k, d, m);
        assert d in made;
      }
      assert AncestorsPrivate(entries, made, {}, p);
      AncestorsOpen(nodes, entries, made, {}, p, |p| - 1);
    }
    if Unrepeated(entries) {
      forall l | l in made
        ensures entries[l].parts != p
      {
        assert if l < k then entries[l].parts != entries[k].parts else entries[k].parts != entries[l].parts;
      }
    }
  }

  /** Made are the directories among the first `i` entries and the files among the first `j`. */
  ghost predicate MadeUpTo(entries: seq<Entry>, made: set<nat>, i: nat, j: nat) {
    forall k: nat :: k in made <==> k < |entries| && k < if entries[k].node.Directory? then i else j
  }

  ghost function With(made: set<nat>, k: nat): set<nat> {
    made + {k}
  }

  lemma MadeNext(entries: seq<Entry>, made: set<nat>, i: nat, j: nat)
    requires MadeUpTo(entries, made, i, j)
    ensures i < |entries| ==>
      MadeUpTo(entries, if entries[i].node.Directory? then With(made, i) else made, i + 1, j)
    ensures j < |entries| ==>
      MadeUpTo(entries, if entries[j].node.File? then With(made, j) else made, i, j + 1)
    ensures i < |entries| && entries[i].node.Directory? ==> i !in made && DirectoriesBefore(entries, made, i)
    ensures j < |entries| && entries[j].node.File? ==> j !in made && (i == |entries| ==> DirectoriesBefore(entries, made, j))
  {
  }

  /** What entry `k` may rely on: the directories before it are made, and for a file all of them. */
  ghost predicate DirectoriesBefore(entries: seq<Entry>, made: set<nat>, k: nat)
    requires k < |entries|
  {
    forall d :: 0 <= d < |entries| && entries[d].node.Directory? && (d < k || entries[k].node.File?) ==> d in made
  }

  /** Opens the parent of an entry and makes the entry in it: a private directory, or a new file that is
      written and given its mode through its descriptor. */
  method Place(tree: FileTree, entries: seq<Entry>, k: nat, ghost made: set<nat>) returns (ok: bool)
    requires tree.Valid() && Canonical(entries) && Progress(tree.nodes, entries, made, {})
    requires k < |entries| && k !in made && DirectoriesBefore(entries, made, k)
    modifies tree
    ensures tree.Valid()
    ensures !ok ==> !(PrefixClosed(entries) && Unrepeated(entries))
    ensures ok ==> Progress(tree.nodes, entries, With(made, k), {})
  {
    PrivateBits();
    assert entries[k].parts != [];
    hide CanRead, CanWrite, CanSearch, PrefixClosed, Unrepeated, Canonical, Progress, With, DirectoriesBefore, Openable;
    var parts, node := entries[k].parts, entries[k].node;
    Possible(tree.nodes, entries, made, k);
    ok := tree.OpenDirectory(Parent(parts));
    if !ok {
      return;
    }
    ParentIsPrivate(tree.nodes, entries, made, parts);
    ghost var before := tree.nodes;
    var created := if node.Directory? then Directory(PRIVATE) else File(OWNER_ONLY, []);
    assert node.Directory? ==> NodeNow(entries[k], {}) == created;
    assert node.File? ==> NodeNow(entries[k], {}) == node;
    hide NodeNow;
    ok := tree.Make(parts, created);
    if !ok {
      return;
    }
    assert tree.nodes == before[parts := created];
    Extended(before, entries, made, k);
    if node.File? {
      tree.Fill(parts, node);
      assert tree.nodes == before[parts := node];
    }
  }

  method MakeDirectories(tree: FileTree, entries: seq<Entry>)
    returns (directories: seq<Entry>, ok: bool, ghost made: set<nat>)
    requires tree.Valid() && tree.nodes == map[[] := Directory(PRIVATE)] && Canonical(entries)
    modifies tree
    ensures tree.Valid()
    ensures !ok ==> !(PrefixClosed(entries) && Unrepeated(entries))
    ensures ok ==> Progress(tree.nodes, entries, made, {}) && MadeUpTo(entries, made, |entries|, 0)
    ensures ok ==> forall e :: e in directories <==> e in entries && e.node.Directory?
  {
    hide PrefixClosed, Unrepeated, Canonical, Progress, MadeUpTo, With, DirectoriesBefore;
    directories, ok, made := [], true, {};
    NothingMade(entries);
    for i := 0 to |entries|
      invariant tree.Valid()
      invariant Progress(tree.nodes, entries, made, {}) && MadeUpTo(entries, made, i, 0)
      invariant forall e :: e in directories <==> e in entries[..i] && e.node.Directory?
    {
      assert entries[..i + 1] == entries[..i] + [entries[i]];
      MadeNext(entries, made, i, 0);
      if entries[i].node.Directory? {
        directories := directories + [entries[i]];
        ok := Place(tree, entries, i, made);
        if !ok {
          return;
        }
        made := With(made, i);
      }
    }
    assert entries[..|entries|] == entries;
    return directories, true, made;
  }

  lemma NothingMade(entries: seq<Entry>)
    ensures Progress(map[[] := Directory(PRIVATE)], entries, {}, {}) && MadeUpTo(entries, {}, 0, 0)
  {
  }

  lemma ParentIsPrivate(nodes: map<Parts, Node>, entries: seq<Entry>, made: set<nat>, p: Parts)
    requires Progress(nodes, entries, made, {}) && p != [] && Openable(nodes, Parent(p))
    ensures Parent(p) in nodes && nodes[Parent(p)] == Directory(PRIVATE)
  {
    OpenedAncestors(nodes, entries, made, p, |p| - 1);
  }

  method MakeFiles(tree: FileTree, entries: seq<Entry>, ghost start: set<nat>) returns (ok: bool, ghost made: set<nat>)
    requires tree.Valid() && Canonical(entries)
    requires Progress(tree.nodes, entries, start, {}) && MadeUpTo(entries, start, |entries|, 0)
    modifies tree
    ensures tree.Valid()
    ensures !ok ==> !(PrefixClosed(entries) && Unrepeated(entries))
    ensures ok ==> Progress(tree.nodes, entries, made, {}) && MadeUpTo(entries, made, |entries|, |entries|)
  {
    hide PrefixClosed, Unrepeated, Canonical, Progress, MadeUpTo, With, DirectoriesBefore;
    ok, made := true, start;
    for j := 0 to |entries|
      invariant tree.Valid()
      invariant Progress(tree.nodes, entries, made, {}) && MadeUpTo(entries, made, |entries|, j)
    {
      MadeNext(entries, made, |entries|, j);
      if entries[j].node.File? {
        ok := Place(tree, entries, j, made);
        if !ok {
          return;
        }
        made := With(made, j);
      }
    }
    return true, made;
  }

  const OWNER_ONLY := 384 // 0o600

  /** Applies the directory modes. Nothing is refused: a directory is still private when something
      below it is changed. */
  method ApplyModes(tree: FileTree, entries: seq<Entry>, directories: seq<Entry>, ghost made: set<nat>)
    requires tree.Valid() && Canonical(entries)
    requires Progress(tree.nodes, entries, made, {}) && MadeUpTo(entries, made, |entries|, |entries|)
    requires forall e :: e in directories <==> e in entries && e.node.Directory?
    modifies tree
    ensures tree.Valid()
    ensures Holds(tree.nodes, Directory(PRIVATE), entries)
  {
    PrivateBits();
    hide CanRead, CanWrite, CanSearch, SortedByDepth, Openable, Progress, DeepestFirst, MadeUpTo, AncestorsPrivate, Holds;
    var sorted := SortedByDepth(directories);
    SortedIsDeepestFirst(directories);
    ghost var done: set<Parts> := {};
    for n := 0 to |sorted|
      invariant tree.Valid()
      invariant Progress(tree.nodes, entries, made, done)
      invariant forall p :: p in done <==> exists k :: 0 <= k < n && sorted[k].parts == p
    {
      var e := sorted[n];
      ghost var i := IndexOf(entries, e);
      ModeApplicable(tree.nodes, entries, made, done, sorted, n, i);
      AncestorsOpen(tree.nodes, entries, made, done, e.parts, |e.parts| - 1);
      var reached := tree.OpenDirectory(Parent(e.parts));
      ghost var before := tree.nodes;
      var changed := tree.ChangeMode(e.parts, e.node.mode);
      assert reached && changed && tree.nodes == before[e.parts := e.node];
      ModeApplied(before, entries, made, done, i);
      done := done + {e.parts};
    }
    Complete(tree.nodes, entries, made, done, directories, sorted);
  }

  lemma ModeApplicable(nodes: map<Parts, Node>, entries: seq<Entry>, made: set<nat>, done: set<Parts>,
      sorted: seq<Entry>, n: nat, i: nat)
    requires Progress(nodes, entries, made, done) && MadeUpTo(entries, made, |entries|, |entries|)
    requires n < |sorted| && DeepestFirst(sorted) && i < |entries| && entries[i] == sorted[n] && Canonical(entries)
    requires sorted[n].node.Directory?
    requires forall p :: p in done <==> exists k :: 0 <= k < n && sorted[k].parts == p
    ensures AncestorsPrivate(entries, made, done, entries[i].parts)
    ensures i in made && entries[i].parts != [] && entries[i].parts in nodes
    ensures nodes[entries[i].parts].(mode := entries[i].node.mode) == entries[i].node
  {
    assert i in made;
    AncestorsStillPrivate(entries, made, done, sorted, n, i);
  }

  ghost function IndexOf(entries: seq<Entry>, e: Entry): (i: nat)
    requires e in entries
    ensures i < |entries| && entries[i] == e
  {
    var i :| 0 <= i < |entries| && entries[i] == e;
    i
  }

  lemma AncestorsStillPrivate(entries: seq<Entry>, made: set<nat>, done: set<Parts>, sorted: seq<Entry>, n: nat, i: nat)
    requires n < |sorted| && DeepestFirst(sorted) && i < |entries| && entries[i] == sorted[n]
    requires forall p :: p in done <==> exists k :: 0 <= k < n && sorted[k].parts == p
    requires MadeUpTo(entries, made, |entries|, |entries|)
    requires forall m :: 0 < m < |entries[i].parts| ==> HasDirectory(entries, entries[i].parts[..m])
    ensures AncestorsPrivate(entries, made, done, entries[i].parts)
  {
    var p := entries[i].parts;
    forall m | 0 < m < |p|
      ensures p[..m] !in done
      ensures exists d :: d in made && d < |entries| && entries[d].parts == p[..m] && entries[d].node.Directory?
    {
      assert forall k :: 0 <= k < n ==> |sorted[k].parts| >= |p|;
      var d :| 0 <= d < |entries| && entries[d].parts == p[..m] && entries[d].node.Directory?;
      assert d in made;
    }
  }

  lemma ModeApplied(nodes: map<Parts, Node>, entries: seq<Entry>, made: set<nat>, done: set<Parts>, i: nat)
    requires Progress(nodes, entries, made, done) && i in made && entries[i].node.Directory? && entries[i].parts != []
    ensures Progress(nodes[entries[i].parts := entries[i].node], entries, made, done + {entries[i].parts})
  {
    var after := nodes[entries[i].parts := entries[i].node];
    forall k | k in made
      ensures entries[k].parts in after && after[entries[k].parts] == NodeNow(entries[k], done + {entries[i].parts})
    {
      if k != i {
        assert if k < i then entries[k].parts != entries[i].parts else entries[i].parts != entries[k].parts;
      }
    }
  }

  lemma Complete(nodes: map<Parts, Node>, entries: seq<Entry>, made: set<nat>, done: set<Parts>,
      directories: seq<Entry>, sorted: seq<Entry>)
    requires Progress(nodes, entries, made, done) && MadeUpTo(entries, made, |entries|, |entries|)
    requires forall e :: e in directories <==> e in entries && e.node.Directory?
    requires forall e :: e in sorted <==> e in directories
    requires forall p :: p in done <==> exists k :: 0 <= k < |sorted| && sorted[k].parts == p
    ensures Holds(nodes, Directory(PRIVATE), entries)
  {
    forall i | 0 <= i < |entries|
      ensures i in made && (entries[i].node.Directory? ==> entries[i].parts in done)
    {
      if entries[i].node.Directory? {
        assert entries[i] in sorted;
        var k :| 0 <= k < |sorted| && sorted[k] == entries[i];
      }
    }
  }

  lemma MadeMeansValid(nodes: map<Parts, Node>, entries: seq<Entry>, made: set<nat>)
    requires Progress(nodes, entries, made, {}) && MadeUpTo(entries, made, |entries|, |entries|)
    ensures PrefixClosed(entries) && Unrepeated(entries)
  {
    assert forall i :: 0 <= i < |entries| ==> i in made;
  }

  /** `_copy_snapshot` into an empty directory: it succeeds exactly for the snapshots without repeats
      and without missing parents, and then the tree is exactly the snapshot. */
  method CopySnapshot(tree: FileTree, entries: seq<Entry>) returns (ok: bool)
    requires tree.Valid() && tree.nodes == map[[] := Directory(PRIVATE)] && Canonical(entries)
    modifies tree
    ensures tree.Valid()
    ensures ok <==> PrefixClosed(entries) && Unrepeated(entries)
    ensures ok ==> Holds(tree.nodes, Directory(PRIVATE), entries)
  {
    hide PrefixClosed, Unrepeated, Canonical, Progress, MadeUpTo;
    var directories;
    ghost var made;
    directories, ok, made := MakeDirectories(tree, entries);
    if !ok {
      return false;
    }
    ok, made := MakeFiles(tree, entries, made);
    if !ok {
      return false;
    }
    MadeMeansValid(tree.nodes, entries, made);
    ApplyModes(tree, entries, directories, made);
    return true;
  }
}
