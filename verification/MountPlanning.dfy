// Planned workspace mounts and the root layout they come from.

/** Lists of keyed items: when is one exactly a rearrangement of the other? */
module KeyedLists {
  import opened Prelude

  /** The entry that a dictionary built from `keys` in order keeps for a key: the last one, or -1. */
  function LastIndex(keys: seq<string>, key: string): (i: int)
    ensures -1 <= i < |keys|
    ensures i >= 0 ==> keys[i] == key
    ensures i < 0 <==> key !in keys
  {
    if keys == [] then -1
    else if keys[|keys| - 1] == key then |keys| - 1
    else LastIndex(keys[..|keys| - 1], key)
  }

  function SetOf<T(==)>(s: seq<T>): set<T> {
    set x | x in s
  }

  ghost predicate IsPermutation(f: seq<nat>, n: nat) {
    |f| == n && Distinct(f) && forall i :: 0 <= i < n ==> f[i] < n
  }

  /** What a scan with a dictionary of the planned keys and a set of the observed ones establishes. */
  predicate Scanned(keys: seq<string>, observed: seq<string>, fits: (nat, nat) -> bool) {
    && Distinct(observed)
    && (forall o :: 0 <= o < |observed| ==>
          LastIndex(keys, observed[o]) >= 0 && fits(LastIndex(keys, observed[o]), o))
    && forall e :: 0 <= e < |keys| ==> keys[e] in observed
  }

  /** The observed list is the planned one, rearranged, every item fitting its plan. */
  ghost predicate Rearranged(keys: seq<string>, observed: seq<string>, fits: (nat, nat) -> bool) {
    exists f: seq<nat> :: IsPermutation(f, |keys|) && |observed| == |keys|
      && forall o :: 0 <= o < |observed| ==> keys[f[o]] == observed[o] && fits(f[o], o)
  }

  /** How far a scan has come: the first `i` observed items have different planned keys and fit. */
  predicate ScannedTo(keys: seq<string>, observed: seq<string>, fits: (nat, nat) -> bool, i: nat)
    requires i <= |observed|
  {
    && Distinct(observed[..i])
    && forall o :: 0 <= o < i ==> LastIndex(keys, observed[o]) >= 0 && fits(LastIndex(keys, observed[o]), o)
  }

  /** The set that a scan has collected after `i` items. */
  predicate Seen(seen: set<string>, observed: seq<string>, i: nat)
    requires i <= |observed|
  {
    seen == SetOf(observed[..i])
  }

  lemma SeenStep(seen: set<string>, observed: seq<string>, i: nat)
    requires i < |observed| && Seen(seen, observed, i)
    ensures Seen(seen + {observed[i]}, observed, i + 1)
    ensures observed[i] in seen ==> !Distinct(observed)
    ensures Distinct(observed[..i]) ==> (Distinct(observed[..i + 1]) <==> observed[i] !in seen)
  {
    assert observed[..i + 1] == observed[..i] + [observed[i]];
    if observed[i] in observed[..i] {
      var o :| 0 <= o < i && observed[..i][o] == observed[i];
      assert observed[..i + 1][o] == observed[..i + 1][i];
      assert observed[o] == observed[i];
    }
  }

  lemma ScanStep(keys: seq<string>, seen: set<string>, observed: seq<string>, fits: (nat, nat) -> bool, i: nat)
    requires i < |observed| && Seen(seen, observed, i) && ScannedTo(keys, observed, fits, i)
    ensures ScannedTo(keys, observed, fits, i + 1) <==>
      && observed[i] !in seen
      && LastIndex(keys, observed[i]) >= 0 && fits(LastIndex(keys, observed[i]), i)
    ensures !ScannedTo(keys, observed, fits, i + 1) ==> !Scanned(keys, observed, fits)
  {
    SeenStep(seen, observed, i);
  }

  /** A list without the item at one position. */
  function Without<T>(s: seq<T>, t: nat): seq<T>
    requires t < |s|
  {
    s[..t] + s[t + 1..]
  }

  lemma WithoutMembers<T>(s: seq<T>, t: nat)
    requires t < |s|
    ensures |Without(s, t)| == |s| - 1
    ensures forall x :: x in s <==> x == s[t] || x in Without(s, t)
  {
    assert s == s[..t] + [s[t]] + s[t + 1..];
  }

  lemma WithoutDistinct<T>(s: seq<T>, t: nat)
    requires t < |s|
    ensures Distinct(s) <==> Distinct(Without(s, t)) && s[t] !in Without(s, t)
  {
    var rest := Without(s, t);
    if Distinct(rest) && s[t] !in rest {
      forall i, j | 0 <= i < j < |s|
        ensures s[i] != s[j]
      {
        assert i != t ==> s[i] == rest[if i < t then i else i - 1];
        assert j != t ==> s[j] == rest[if j < t then j else j - 1];
      }
    }
  }

  lemma ScanStarts(keys: seq<string>, observed: seq<string>, fits: (nat, nat) -> bool)
    ensures Seen({}, observed, 0) && Distinct(observed[..0]) && ScannedTo(keys, observed, fits, 0)
  {
  }

  lemma ScanEnds(keys: seq<string>, seen: set<string>, observed: seq<string>, fits: (nat, nat) -> bool)
    requires Seen(seen, observed, |observed|) && ScannedTo(keys, observed, fits, |observed|)
    ensures Scanned(keys, observed, fits) <==> seen == SetOf(keys)
  {
    assert observed[..|observed|] == observed;
    KeysSeen(keys, observed);
  }

  lemma KeysSeen(keys: seq<string>, names: seq<string>)
    requires forall o :: 0 <= o < |names| ==> names[o] in keys
    ensures SetOf(names) == SetOf(keys) <==> forall e :: 0 <= e < |keys| ==> keys[e] in names
  {
    var a, b := SetOf(names), SetOf(keys);
    assert a <= b;
    if forall e :: 0 <= e < |keys| ==> keys[e] in names {
      assert b <= a;
    }
    if a == b {
      forall e | 0 <= e < |keys|
        ensures keys[e] in names
      {
        assert keys[e] in b;
      }
    }
  }

  /** A scan never accepts a list with an item that no plan names. */
  lemma ForeignRefused(keys: seq<string>, seen: set<string>, observed: seq<string>, fits: (nat, nat) -> bool, o: nat)
    requires o < |observed| && observed[o] !in keys
    ensures !Scanned(keys, observed, fits)
    ensures Seen(seen, observed, |observed|) ==> seen != SetOf(keys)
  {
    assert LastIndex(keys, observed[o]) < 0;
    assert observed[..|observed|][o] in SetOf(observed[..|observed|]);
  }

  lemma {:induction false} DistinctCount<T>(s: seq<T>)
    ensures |SetOf(s)| <= |s|
    ensures |SetOf(s)| == |s| <==> Distinct(s)
  {
    if s != [] {
      var init, last := s[..|s| - 1], s[|s| - 1];
      DistinctCount(init);
      var a, b := SetOf(s), SetOf(init);
      assert s == init + [last];
      assert a == b + {last};
      if last in init {
        assert a == b;
      }
    }
  }

  lemma {:induction false} SubsetCount<T>(a: set<T>, b: set<T>)
    requires a <= b && |a| == |b|
    ensures a == b
  {
    assert |b - a| == |b| - |a|;
    assert b - a == {};
  }

  function Range(n: nat): (r: set<nat>)
    ensures |r| == n
    ensures forall i: nat :: i in r <==> i < n
  {
    if n == 0 then {} else Range(n - 1) + {n - 1}
  }

  lemma PermutationHits(f: seq<nat>, n: nat, e: nat)
    requires IsPermutation(f, n) && e < n
    ensures e in f
  {
    DistinctCount(f);
    var hit := SetOf(f);
    assert hit <= Range(n);
    SubsetCount(hit, Range(n));
    assert e in Range(n);
    assert e in hit;
  }

  /** A scan over as many items as were planned accepts exactly the rearrangements of a plan whose keys
      are distinct. */
  lemma ScanIsExact(keys: seq<string>, observed: seq<string>, fits: (nat, nat) -> bool)
    requires |observed| == |keys|
    ensures Scanned(keys, observed, fits) <==> Distinct(keys) && Rearranged(keys, observed, fits)
  {
    if Scanned(keys, observed, fits) {
      var k, o := SetOf(keys), SetOf(observed);
      DistinctCount(observed);
      DistinctCount(keys);
      assert k == o;
      ScanRearranges(keys, observed, fits);
    }
    if Distinct(keys) && Rearranged(keys, observed, fits) {
      RearrangementScans(keys, observed, fits);
    }
  }

  lemma ScanRearranges(keys: seq<string>, observed: seq<string>, fits: (nat, nat) -> bool)
    requires |observed| == |keys| && Scanned(keys, observed, fits)
    ensures Rearranged(keys, observed, fits)
  {
    var f: seq<nat> := seq(|keys|, o requires 0 <= o < |keys| => LastIndex(keys, observed[o]));
    forall i, j | 0 <= i < j < |f|
      ensures f[i] != f[j]
    {
      assert keys[f[i]] == observed[i] && keys[f[j]] == observed[j];
    }
    assert IsPermutation(f, |keys|);
  }

  lemma RearrangementScans(keys: seq<string>, observed: seq<string>, fits: (nat, nat) -> bool)
    requires Distinct(keys) && Rearranged(keys, observed, fits)
    ensures Scanned(keys, observed, fits)
  {
    var f: seq<nat> :| IsPermutation(f, |keys|) && |observed| == |keys|
      && forall o :: 0 <= o < |observed| ==> keys[f[o]] == observed[o] && fits(f[o], o);
    forall o | 0 <= o < |observed|
      ensures LastIndex(keys, observed[o]) == f[o]
    {
      assert keys[f[o]] in keys;
    }
    forall i, j | 0 <= i < j < |observed|
      ensures observed[i] != observed[j]
    {
      assert f[i] != f[j];
    }
    forall e | 0 <= e < |keys|
      ensures keys[e] in observed
    {
      PermutationHits(f, |keys|, e);
      var o :| 0 <= o < |f| && f[o] == e;
      assert observed[o] == keys[e];
    }
  }
}

module MountPlanning {
  import opened JsonValues
  import opened Prelude
  import opened KeyedLists
  import opened Paths
  import opened Texts

  datatype Mount =
    | Bind(source: Path, destination: Path, writable: bool)
    | Volume(name: string, subpath: string, destination: Path, writable: bool)

  function Targets(mounts: seq<Mount>): seq<string> {
    seq(|mounts|, i requires 0 <= i < |mounts| => Text(mounts[i].destination))
  }

  // ---- The root layout ----

  predicate Overlap(a: Path, b: Path) {
    a == b || IsRelativeTo(a, b) || IsRelativeTo(b, a)
  }

  const MANAGED: seq<Path> := [
    Path("/", ["tmp"]), Path("/", ["bin"]), Path("/", ["dev"]), Path("/", ["etc"]), Path("/", ["lib"]),
    Path("/", ["lib64"]), Path("/", ["opt", "local-agent"]), Path("/", ["proc"]), Path("/", ["run"]),
    Path("/", ["sbin"]), Path("/", ["sys"]), Path("/", ["usr"])
  ]

  predicate LayoutValid(roots: seq<Path>) {
    && (forall i, m :: 0 <= i < |roots| && 0 <= m < |MANAGED| ==> !Overlap(roots[i], MANAGED[m]))
    && (forall i, j :: 0 <= i < j < |roots| ==> !Overlap(roots[i], roots[j]))
  }

  /** `_validate_root_layout`: nested scans that refuse the first overlap they meet. */
  method ValidateRootLayout(workspace: Path, readable: seq<Path>) returns (ok: bool)
    ensures ok <==> LayoutValid([workspace] + readable)
  {
    var roots := [workspace] + readable;
    for i := 0 to |roots|
      invariant forall k, m :: 0 <= k < i && 0 <= m < |MANAGED| ==> !Overlap(roots[k], MANAGED[m])
    {
      for m := 0 to |MANAGED|
        invariant forall n :: 0 <= n < m ==> !Overlap(roots[i], MANAGED[n])
      {
        if Overlap(roots[i], MANAGED[m]) {
          return false;
        }
      }
    }
    for i := 0 to |roots|
      invariant forall k, j :: 0 <= k < i && k < j < |roots| ==> !Overlap(roots[k], roots[j])
    {
      for j := i + 1 to |roots|
        invariant forall k :: i < k < j ==> !Overlap(roots[i], roots[k])
      {
        if Overlap(roots[i], roots[j]) {
          return false;
        }
      }
    }
    return true;
  }

  // ---- The planned mounts ----

  function InsertByText(p: Path, sorted: seq<Path>): (r: seq<Path>)
    ensures multiset(r) == multiset(sorted) + multiset{p} && |r| == |sorted| + 1
  {
    if sorted == [] || (TextAtMost(Text(p), Text(sorted[0])) && p != sorted[0]) then [p] + sorted
    else
      assert sorted == [sorted[0]] + sorted[1..];
      [sorted[0]] + InsertByText(p, sorted[1..])
  }

  /** `sorted(roots, key=str)`. */
  function SortedByText(roots: seq<Path>): (r: seq<Path>)
    ensures multiset(r) == multiset(roots) && |r| == |roots|
  {
    if roots == [] then []
    else
      assert roots == roots[..|roots| - 1] + [roots[|roots| - 1]];
      InsertByText(roots[|roots| - 1], SortedByText(roots[..|roots| - 1]))
  }

  lemma {:induction false} TextTotal(a: string, b: string)
    ensures TextAtMost(a, b) || TextAtMost(b, a)
  {
    if a != "" && b != "" && a[0] == b[0] {
      TextTotal(a[1..], b[1..]);
    }
  }

  lemma {:induction false} TextTransitive(a: string, b: string, c: string)
    requires TextAtMost(a, b) && TextAtMost(b, c)
    ensures TextAtMost(a, c)
  {
    if a != "" && a[0] == b[0] == c[0] {
      TextTransitive(a[1..], b[1..], c[1..]);
    }
  }

  ghost predicate InTextOrder(s: seq<Path>) {
    forall i, j :: 0 <= i < j < |s| ==> TextAtMost(Text(s[i]), Text(s[j]))
  }

  lemma {:induction false} InsertKeepsOrder(p: Path, sorted: seq<Path>)
    requires InTextOrder(sorted)
    ensures InTextOrder(InsertByText(p, sorted))
  {
    hide Text, TextAtMost;
    var r := InsertByText(p, sorted);
    if sorted != [] {
      TextTotal(Text(p), Text(sorted[0]));
      if r[0] == p && r[1..] == sorted {
        forall j | 0 <= j < |sorted|
          ensures TextAtMost(Text(p), Text(sorted[j]))
        {
          if j > 0 {
            TextTransitive(Text(p), Text(sorted[0]), Text(sorted[j]));
          }
        }
      } else {
        var rest := InsertByText(p, sorted[1..]);
        InsertKeepsOrder(p, sorted[1..]);
        forall j | 0 <= j < |rest|
          ensures TextAtMost(Text(sorted[0]), Text(rest[j]))
        {
          assert rest[j] in multiset(rest);
          assert rest[j] == p || rest[j] in sorted[1..];
        }
      }
    }
  }

  lemma {:induction false} SortedByTextIsSorted(roots: seq<Path>)
    ensures InTextOrder(SortedByText(roots))
  {
    if roots != [] {
      SortedByTextIsSorted(roots[..|roots| - 1]);
      InsertKeepsOrder(roots[|roots| - 1], SortedByText(roots[..|roots| - 1]));
    }
  }

  /** A staged root: the volume that carries it and where it is mounted. */
  datatype StagedRoot = StagedRoot(volumeName: string, subpath: string)

  function PlannedMount(root: Path, writable: bool, staged: map<Path, StagedRoot>): Mount {
    if root in staged then Volume(staged[root].volumeName, staged[root].subpath, root, writable)
    else Bind(root, root, writable)
  }

  /** `_expected_mounts`: the workspace first, writable or not, then every readable root, read-only. */
  function ExpectedMounts(workspace: Path, readable: seq<Path>, writable: bool, staged: map<Path, StagedRoot>)
    : seq<Mount>
  {
    var sorted := SortedByText(readable);
    [PlannedMount(workspace, writable, staged)]
    + seq(|sorted|, i requires 0 <= i < |sorted| => PlannedMount(sorted[i], false, staged))
  }

  lemma DestinationsAreRoots(workspace: Path, readable: seq<Path>, writable: bool, staged: map<Path, StagedRoot>)
    ensures var mounts := ExpectedMounts(workspace, readable, writable, staged);
            && |mounts| == 1 + |readable|
            && mounts[0].destination == workspace && mounts[0].writable == writable
            && (forall i :: 1 <= i < |mounts| ==> mounts[i].destination == SortedByText(readable)[i - 1] && !mounts[i].writable)
  {
    hide SortedByText;
    var sorted := SortedByText(readable);
    assert forall i :: 0 <= i < |sorted| ==> PlannedMount(sorted[i], false, staged).destination == sorted[i];
  }

  /** The readable mounts follow the workspace in text order, and a mount is a volume exactly when its
      root was staged; otherwise it binds the root to its own path. */
  lemma PlanOrder(workspace: Path, readable: seq<Path>, writable: bool, staged: map<Path, StagedRoot>)
    ensures var mounts := ExpectedMounts(workspace, readable, writable, staged);
            && (forall i, j :: 0 < i < j < |mounts| ==>
                  TextAtMost(Text(mounts[i].destination), Text(mounts[j].destination)))
            && (forall i :: 0 <= i < |mounts| ==> (mounts[i].Volume? <==> mounts[i].destination in staged))
            && (forall i :: 0 <= i < |mounts| && mounts[i].Bind? ==> mounts[i].source == mounts[i].destination)
  {
    SortedByTextIsSorted(readable);
    DestinationsAreRoots(workspace, readable, writable, staged);
    hide SortedByText, TextAtMost, Text;
  }

  ghost predicate Covers(m: Mount, p: Path) {
    IsRelativeTo(p, m.destination)
  }

  /** With a valid layout, every path below an authorized root lies in exactly one planned mount, and
      that mount is writable exactly when the path is in the workspace and writing is allowed. */
  lemma CoveredByExactlyOne(workspace: Path, readable: seq<Path>, writable: bool, staged: map<Path, StagedRoot>, p: Path)
    requires LayoutValid([workspace] + readable)
    requires exists r :: r in [workspace] + readable && IsRelativeTo(p, r)
    ensures var mounts := ExpectedMounts(workspace, readable, writable, staged);
            exists i :: 0 <= i < |mounts| && Covers(mounts[i], p)
              && (forall j :: 0 <= j < |mounts| && Covers(mounts[j], p) ==> j == i)
              && (mounts[i].writable <==> writable && IsRelativeTo(p, workspace))
  {
    var roots := [workspace] + readable;
    var mounts := ExpectedMounts(workspace, readable, writable, staged);
    DestinationsAreRoots(workspace, readable, writable, staged);
    DestinationsApart(workspace, readable, writable, staged);
    var r :| r in roots && IsRelativeTo(p, r);
    var i :| 0 <= i < |mounts| && mounts[i].destination == r by {
      if r != workspace {
        assert r in multiset(readable);
        assert r in multiset(SortedByText(readable));
        var k :| 0 <= k < |readable| && SortedByText(readable)[k] == r;
        assert mounts[k + 1].destination == r;
      }
    }
    forall j | 0 <= j < |mounts| && Covers(mounts[j], p)
      ensures j == i
    {
      CommonPathOverlaps(p, mounts[i].destination, mounts[j].destination);
    }
    assert Covers(mounts[i], p) && (Covers(mounts[0], p) ==> i == 0);
  }

  lemma CommonPathOverlaps(p: Path, a: Path, b: Path)
    requires IsRelativeTo(p, a) && IsRelativeTo(p, b)
    ensures Overlap(a, b)
  {
    if |a.parts| <= |b.parts| {
      assert b.parts[..|a.parts|] == p.parts[..|a.parts|];
    } else {
      assert a.parts[..|b.parts|] == p.parts[..|b.parts|];
    }
  }

  /** The destinations of a validated plan do not overlap one another. */
  lemma DestinationsApart(workspace: Path, readable: seq<Path>, writable: bool, staged: map<Path, StagedRoot>)
    requires LayoutValid([workspace] + readable)
    ensures var mounts := ExpectedMounts(workspace, readable, writable, staged);
            forall i, j :: 0 <= i < j < |mounts| ==> !Overlap(mounts[i].destination, mounts[j].destination)
  {
    DestinationsAreRoots(workspace, readable, writable, staged);
    var sorted, mounts := SortedByText(readable), ExpectedMounts(workspace, readable, writable, staged);
    ReadableApart(workspace, readable);
    PermutedApart(readable, sorted);
    forall i, j | 0 <= i < j < |mounts|
      ensures !Overlap(mounts[i].destination, mounts[j].destination)
    {
      if i == 0 {
        assert sorted[j - 1] in multiset(readable);
        assert sorted[j - 1] in readable;
      }
    }
  }

  lemma ReadableApart(workspace: Path, readable: seq<Path>)
    requires LayoutValid([workspace] + readable)
    ensures Apart(readable)
    ensures forall r :: r in readable ==> !Overlap(workspace, r)
  {
    var roots := [workspace] + readable;
    forall i, j | 0 <= i < j < |readable|
      ensures !Overlap(readable[i], readable[j])
    {
      assert roots[i + 1] == readable[i] && roots[j + 1] == readable[j];
    }
    forall r | r in readable
      ensures !Overlap(workspace, r)
    {
      var j :| 0 <= j < |readable| && readable[j] == r;
      assert roots[0] == workspace && roots[j + 1] == r;
    }
  }

  predicate Apart(s: seq<Path>) {
    forall i, j :: 0 <= i < j < |s| ==> !Overlap(s[i], s[j])
  }

  lemma PermutedApart(a: seq<Path>, b: seq<Path>)
    requires Apart(a) && multiset(a) == multiset(b)
    ensures Apart(b)
  {
    forall i, j | 0 <= i < j < |b|
      ensures !Overlap(b[i], b[j])
    {
      assert b[i] in multiset(b) && b[j] in multiset(b);
      var k :| 0 <= k < |a| && a[k] == b[i];
      var l :| 0 <= l < |a| && a[l] == b[j];
      if k == l {
        ApartOnce(a, k);
        TwiceInMultiset(b, i, j);
        assert false;
      }
    }
  }

  lemma {:induction false} ApartOnce(a: seq<Path>, k: nat)
    requires Apart(a) && k < |a|
    ensures multiset(a)[a[k]] == 1
  {
    assert a == a[..k] + [a[k]] + a[k + 1..];
    assert a[k] !in a[..k] && a[k] !in a[k + 1..];
  }

  lemma TwiceInMultiset(b: seq<Path>, i: nat, j: nat)
    requires i < j < |b| && b[i] == b[j]
    ensures multiset(b)[b[i]] >= 2
  {
    assert b == b[..i] + [b[i]] + b[i + 1..j] + [b[j]] + b[j + 1..];
  }

  // ---- A validated layout gives a plan with one key for every mount ----

  lemma {:induction false} PlannedTargets(workspace: Path, readable: seq<Path>, writable: bool, staged: map<Path, StagedRoot>)
    requires LayoutValid([workspace] + readable)
    requires forall r :: r in [workspace] + readable ==> IsPath(r) && IsAbsolute(r)
    ensures var targets := Targets(ExpectedMounts(workspace, readable, writable, staged));
            Distinct(targets) && "/tmp" !in targets
  {
    var mounts := ExpectedMounts(workspace, readable, writable, staged);
    var targets := Targets(mounts);
    DestinationsApart(workspace, readable, writable, staged);
    forall i | 0 <= i < |mounts|
      ensures mounts[i].destination in [workspace] + readable
      ensures FromText(targets[i]) == mounts[i].destination
    {
      DestinationIsRoot(workspace, readable, writable, staged, i);
      TextRoundTrip(mounts[i].destination);
    }
    forall i, j | 0 <= i < j < |targets|
      ensures targets[i] != targets[j]
    {
      assert !Overlap(mounts[i].destination, mounts[j].destination);
    }
    forall i | 0 <= i < |targets|
      ensures targets[i] != "/tmp"
    {
      var tmp := Path("/", ["tmp"]);
      assert MANAGED[0] == tmp && Text(tmp) == "/tmp";
      TextRoundTrip(tmp);
      var k :| 0 <= k < |[workspace] + readable| && ([workspace] + readable)[k] == mounts[i].destination;
      assert !Overlap(([workspace] + readable)[k], MANAGED[0]);
    }
  }

  lemma DestinationIsRoot(workspace: Path, readable: seq<Path>, writable: bool, staged: map<Path, StagedRoot>, i: nat)
    requires i < |ExpectedMounts(workspace, readable, writable, staged)|
    ensures ExpectedMounts(workspace, readable, writable, staged)[i].destination in [workspace] + readable
  {
    DestinationsAreRoots(workspace, readable, writable, staged);
    if i > 0 {
      var root := SortedByText(readable)[i - 1];
      assert root in multiset(SortedByText(readable));
      assert root in multiset(readable);
    }
  }
}
