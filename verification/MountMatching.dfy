// The matchers that compare the mounts an inspected container reports with the planned ones.

module MountMatching {
  import opened JsonValues
  import opened KeyedLists
  import opened MountPlanning
  import opened Numerals
  import opened Paths
  import opened Prelude

  /** The text under a key of every item; what is not a text reads as the empty one. */
  function Names(items: seq<Json>, key: string): (names: seq<string>)
    ensures |names| == |items| && forall i :: 0 <= i < |items| ==> names[i] == NameOf(items[i], key)
  {
    seq(|items|, i requires 0 <= i < |items| => NameOf(items[i], key))
  }

  function NameOf(item: Json, key: string): string {
    var name := Get(item, key);
    if name.JText? then name.text else ""
  }

  predicate Named(item: Json, key: string) {
    item.JDict? && Get(item, key).JText?
  }

  // ---- The common scan ----

  /** Where a scan stands that goes on behind an item at no planned key, which only the closing comparison
      refuses: `foreign` is the first such item, or -1. */
  predicate ScanProgress(targets: seq<string>, observed: set<string>, names: seq<string>, fits: (nat, nat) -> bool,
                         foreign: int, i: nat)
    requires i <= |names|
  {
    && Seen(observed, names, i) && -1 <= foreign < i
    && if foreign < 0 then ScannedTo(targets, names, fits, i) else names[foreign] !in targets
  }

  lemma ProgressStarts(targets: seq<string>, names: seq<string>, fits: (nat, nat) -> bool)
    ensures ScanProgress(targets, {}, names, fits, -1, 0)
  {
    ScanStarts(targets, names, fits);
  }

  lemma ProgressStep(targets: seq<string>, observed: set<string>, names: seq<string>, fits: (nat, nat) -> bool,
                     foreign: int, i: nat)
    requires i < |names| && ScanProgress(targets, observed, names, fits, foreign, i)
    ensures var at := LastIndex(targets, names[i]);
            && (foreign >= 0 || names[i] in observed || at < 0 || !fits(at, i) ==> !Scanned(targets, names, fits))
            && (names[i] !in observed && (foreign >= 0 || at < 0 || fits(at, i)) ==>
                  ScanProgress(targets, observed + {names[i]}, names, fits,
                               if foreign < 0 && at < 0 then i else foreign, i + 1))
  {
    hide Scanned, ScannedTo, Seen, LastIndex;
    SeenStep(observed, names, i);
    if foreign < 0 {
      ScanStep(targets, observed, names, fits, i);
    } else {
      ForeignRefused(targets, observed, names, fits, foreign);
    }
    if names[i] !in targets {
      ForeignRefused(targets, observed, names, fits, i);
    }
  }

  lemma ProgressEnds(targets: seq<string>, observed: set<string>, names: seq<string>, fits: (nat, nat) -> bool,
                     foreign: int)
    requires ScanProgress(targets, observed, names, fits, foreign, |names|)
    ensures Scanned(targets, names, fits) <==> observed == SetOf(targets)
  {
    hide Scanned, ScannedTo, Seen, SetOf, LastIndex;
    if foreign < 0 {
      ScanEnds(targets, observed, names, fits);
    } else {
      ForeignRefused(targets, observed, names, fits, foreign);
    }
  }

  // ---- The mounts that were asked for: `HostConfig.Mounts` ----

  predicate HostFits(m: Mount, item: Json) {
    && Named(item, "Target")
    && GetOr(item, "ReadOnly", JBool(false)) == JBool(!m.writable)
    && match m
       case Bind(source, _, _) =>
         var options := Get(item, "BindOptions");
         && Get(item, "Type") == JText("bind")
         && Get(item, "Source") == JText(Text(source))
         && options.JDict?
         && Get(options, "Propagation") in [JText("rprivate"), JText("private"), JText("")]
         && Get(options, "NonRecursive") == JBool(true)
       case Volume(name, subpath, _, _) =>
         var options := Get(item, "VolumeOptions");
         && Get(item, "Type") == JText("volume")
         && Get(item, "Source") == JText(name)
         && Get(item, "BindOptions") in [JNull, JDict(End)]
         && options.JDict?
         && Get(options, "NoCopy") == JBool(true)
         && Get(options, "Subpath") == JText(subpath)
  }

  function HostFitting(expected: seq<Mount>, items: seq<Json>): (nat, nat) -> bool {
    (e: nat, o: nat) => e < |expected| && o < |items| && HostFits(expected[e], items[o])
  }

  /** What the host matcher accepts. */
  predicate HostAccepted(expected: seq<Mount>, raw: Json) {
    && raw.JList? && |raw.items| == |expected|
    && Scanned(Targets(expected), Names(raw.items, "Target"), HostFitting(expected, raw.items))
  }

  /** It is the rearrangements of a plan with distinct targets. */
  lemma HostAcceptedIff(expected: seq<Mount>, raw: Json)
    ensures HostAccepted(expected, raw) <==>
      && raw.JList?
      && Distinct(Targets(expected))
      && Rearranged(Targets(expected), Names(raw.items, "Target"), HostFitting(expected, raw.items))
  {
    if raw.JList? && |raw.items| == |expected| {
      ScanIsExact(Targets(expected), Names(raw.items, "Target"), HostFitting(expected, raw.items));
    }
  }

  /** `_host_mounts_match`: accepts exactly the rearrangements of a plan with distinct targets, every
      compared field equal. */
  method HostMountsMatch(expected: seq<Mount>, raw: Json) returns (ok: bool)
    ensures ok <==> HostAccepted(expected, raw)
    ensures ok <==>
      && raw.JList?
      && Distinct(Targets(expected))
      && Rearranged(Targets(expected), Names(raw.items, "Target"), HostFitting(expected, raw.items))
  {
    hide HostFits, Scanned, ScanProgress, Rearranged, SetOf, LastIndex, HostAccepted, HostFitting;
    HostAcceptedIff(expected, raw);
    HostAcceptedIsScan(expected, raw);
    if !raw.JList? || |raw.items| != |expected| {
      return false;
    }
    ghost var names := Names(raw.items, "Target");
    ghost var fits := HostFitting(expected, raw.items);
    var targets := Targets(expected);
    ProgressStarts(targets, names, fits);
    var observed: set<string> := {};
    for i := 0 to |raw.items|
      invariant ScanProgress(targets, observed, names, fits, -1, i)
    {
      ProgressStep(targets, observed, names, fits, -1, i);
      HostFittingAt(expected, raw.items, i);
      var item := raw.items[i];
      var target := Get(item, "Target");
      if !item.JDict? || !target.JText? {
        UnnamedFitsNothing(expected, item);
        return false;
      }
      if target.text in observed {
        return false;
      }
      observed := observed + {target.text};
      var at := LastIndex(targets, target.text);
      if at < 0 || !HostFits(expected[at], item) {
        return false;
      }
    }
    ProgressEnds(targets, observed, names, fits, -1);
    return observed == SetOf(targets);
  }

  lemma HostFittingAt(expected: seq<Mount>, items: seq<Json>, o: nat)
    requires o < |items|
    ensures forall e: nat :: e < |expected| ==> (HostFitting(expected, items)(e, o) <==> HostFits(expected[e], items[o]))
  {
  }

  lemma HostAcceptedIsScan(expected: seq<Mount>, raw: Json)
    ensures HostAccepted(expected, raw) ==> raw.JList? && |raw.items| == |expected|
    ensures raw.JList? && |raw.items| == |expected| ==>
              (HostAccepted(expected, raw) <==>
                Scanned(Targets(expected), Names(raw.items, "Target"), HostFitting(expected, raw.items)))
  {
  }

  lemma UnnamedFitsNothing(expected: seq<Mount>, item: Json)
    requires !Named(item, "Target")
    ensures forall m :: m in expected ==> !HostFits(m, item)
  {
  }

  // ---- The mounts the container has: `Mounts` ----

  predicate IsTmpfs(item: Json) {
    Named(item, "Destination") && Get(item, "Type") == JText("tmpfs") && NameOf(item, "Destination") == "/tmp"
  }

  predicate RuntimeFits(m: Mount, item: Json) {
    && Named(item, "Destination")
    && Get(item, "RW") == JBool(m.writable)
    && match m
       case Bind(source, _, _) =>
         && Get(item, "Type") == JText("bind")
         && Get(item, "Source") == JText(Text(source))
         && Get(item, "Propagation") == JText("rprivate")
       case Volume(name, _, _, _) =>
         && Get(item, "Type") == JText("volume")
         && Get(item, "Name") == JText(name)
         && Get(item, "Driver") == JText("local")
         && Get(item, "Propagation") in [JText(""), JNull]
  }

  ghost function RuntimeFitting(expected: seq<Mount>, items: seq<Json>): (nat, nat) -> bool {
    (e: nat, o: nat) => e < |expected| && o < |items| && RuntimeFits(expected[e], items[o])
  }

  /** One item of the scan: a writable scratch directory, or a planned mount. */
  predicate RuntimeItem(expected: seq<Mount>, item: Json) {
    var at := LastIndex(Targets(expected), NameOf(item, "Destination"));
    if IsTmpfs(item) then Get(item, "RW") == JBool(true)
    else at >= 0 && RuntimeFits(expected[at], item)
  }

  predicate ItemsFit(expected: seq<Mount>, items: seq<Json>, n: nat)
    requires n <= |items|
  {
    forall o :: 0 <= o < n ==> RuntimeItem(expected, items[o])
  }

  predicate ScratchSeen(items: seq<Json>, n: nat)
    requires n <= |items|
  {
    exists o :: 0 <= o < n && IsTmpfs(items[o])
  }

  predicate RuntimeScanned(expected: seq<Mount>, items: seq<Json>) {
    var names := Names(items, "Destination");
    && Distinct(names)
    && ItemsFit(expected, items, |items|)
    && forall e :: 0 <= e < |expected| ==> Targets(expected)[e] in names
  }

  /** One turn of the loop of `_mounts_match`, but for the test whether the destination repeats. */
  method RuntimeItemMatches(expected: seq<Mount>, item: Json) returns (destination: string, fits: bool, tmpfs: bool)
    ensures destination == NameOf(item, "Destination")
    ensures fits <==> RuntimeItem(expected, item)
    ensures fits ==> (tmpfs <==> IsTmpfs(item))
  {
    destination, fits, tmpfs := NameOf(item, "Destination"), false, false;
    var kind := Get(item, "Type");
    if !item.JDict? || !kind.JText? || !Get(item, "Destination").JText? {
      return;
    }
    if kind.text == "tmpfs" && destination == "/tmp" {
      return destination, Get(item, "RW") == JBool(true), true;
    }
    var at := LastIndex(Targets(expected), destination);
    if at < 0 || Get(item, "RW") != JBool(expected[at].writable) {
      return;
    }
    match expected[at] {
      case Bind(source, _, _) =>
        fits := kind.text == "bind" && Get(item, "Source") == JText(Text(source)) && Get(item, "Propagation") == JText("rprivate");
      case Volume(name, _, _, _) =>
        fits := kind.text == "volume" && Get(item, "Name") == JText(name) && Get(item, "Driver") == JText("local")
          && Get(item, "Propagation") in [JText(""), JNull];
    }
  }

  /** What the loop of the runtime matcher knows after `n` items. */
  predicate RuntimeProgress(expected: seq<Mount>, items: seq<Json>, observed: set<string>, tmpfsSeen: bool, n: nat)
    requires n <= |items|
  {
    var names := Names(items, "Destination");
    Seen(observed, names, n) && Distinct(names[..n]) && ItemsFit(expected, items, n)
    && (tmpfsSeen <==> ScratchSeen(items, n))
  }

  /** What the runtime matcher accepts; `RuntimeScanIsExact` says that it is the rearrangements. */
  predicate RuntimeAccepted(expected: seq<Mount>, raw: Json) {
    raw.JList? && "/tmp" !in Targets(expected) && RuntimeScanned(expected, raw.items)
  }

  /** `_mounts_match`. The closing comparison can only hold for a plan without a mount at `/tmp`. */
  method RuntimeMountsMatch(expected: seq<Mount>, raw: Json) returns (ok: bool)
    ensures ok <==> RuntimeAccepted(expected, raw)
  {
    if !raw.JList? {
      return false;
    }
    hide RuntimeProgress, RuntimeItem, IsTmpfs, RuntimeScanned;
    var items := raw.items;
    var observed: set<string> := {};
    var tmpfsSeen := false;
    RuntimeStarts(expected, items);
    for i := 0 to |items|
      invariant RuntimeProgress(expected, items, observed, tmpfsSeen, i)
    {
      RuntimeStep(expected, items, observed, tmpfsSeen, i);
      var destination, fits, tmpfs := RuntimeItemMatches(expected, items[i]);
      if !fits || destination in observed {
        return false;
      }
      observed := observed + {destination};
      tmpfsSeen := tmpfsSeen || tmpfs;
    }
    RuntimeEnds(expected, items, observed, tmpfsSeen);
    return (tmpfsSeen || "/tmp" !in observed) && observed - {"/tmp"} == SetOf(Targets(expected));
  }

  lemma RuntimeStarts(expected: seq<Mount>, items: seq<Json>)
    ensures RuntimeProgress(expected, items, {}, false, 0)
  {
  }

  lemma RuntimeStep(expected: seq<Mount>, items: seq<Json>, observed: set<string>, tmpfsSeen: bool, i: nat)
    requires i < |items| && RuntimeProgress(expected, items, observed, tmpfsSeen, i)
    ensures var name := NameOf(items[i], "Destination");
            if RuntimeItem(expected, items[i]) && name !in observed then
              RuntimeProgress(expected, items, observed + {name}, tmpfsSeen || IsTmpfs(items[i]), i + 1)
            else
              !RuntimeScanned(expected, items)
  {
    hide RuntimeItem, IsTmpfs, Seen, Distinct;
    SeenStep(observed, Names(items, "Destination"), i);
  }

  lemma RuntimeEnds(expected: seq<Mount>, items: seq<Json>, observed: set<string>, tmpfsSeen: bool)
    requires RuntimeProgress(expected, items, observed, tmpfsSeen, |items|)
    ensures (tmpfsSeen || "/tmp" !in observed) && observed - {"/tmp"} == SetOf(Targets(expected)) <==>
      "/tmp" !in Targets(expected) && RuntimeScanned(expected, items)
  {
    var names, targets := Names(items, "Destination"), Targets(expected);
    var keys := SetOf(targets);
    assert names[..|items|] == names;
    forall o | 0 <= o < |items|
      ensures names[o] in targets || names[o] == "/tmp"
      ensures names[o] in targets || tmpfsSeen
    {
      assert RuntimeItem(expected, items[o]);
    }
    assert observed - {"/tmp"} <= keys;
    assert (forall e :: 0 <= e < |targets| ==> targets[e] in names) ==> keys <= observed;
    if observed - {"/tmp"} == keys {
      assert "/tmp" !in keys;
      forall e | 0 <= e < |targets|
        ensures targets[e] in names && targets[e] != "/tmp"
      {
        assert targets[e] in keys;
      }
    }
  }

  /** The observed mounts without at most one writable scratch directory at `/tmp`. */
  ghost predicate ButForScratch(items: seq<Json>, rest: seq<Json>) {
    || (rest == items && forall o :: 0 <= o < |items| ==> !IsTmpfs(items[o]))
    || exists t :: 0 <= t < |items| && IsTmpfs(items[t]) && Get(items[t], "RW") == JBool(true)
         && rest == Without(items, t)
  }

  ghost predicate RestRearranged(expected: seq<Mount>, rest: seq<Json>) {
    Rearranged(Targets(expected), Names(rest, "Destination"), RuntimeFitting(expected, rest))
  }

  /** The runtime matcher accepts exactly the rearrangements of the plan, with or without one writable
      scratch directory at `/tmp`, every compared field equal. */
  lemma RuntimeScanIsExact(expected: seq<Mount>, items: seq<Json>)
    requires Distinct(Targets(expected)) && "/tmp" !in Targets(expected)
    ensures RuntimeScanned(expected, items) <==>
      exists rest :: ButForScratch(items, rest) && RestRearranged(expected, rest)
  {
    if RuntimeScanned(expected, items) {
      var rest := ScratchRemoved(expected, items);
      assert ButForScratch(items, rest);
    }
    if rest :| ButForScratch(items, rest) && RestRearranged(expected, rest) {
      ScratchAdded(expected, items, rest);
    }
  }

  lemma ScratchRemoved(expected: seq<Mount>, items: seq<Json>) returns (rest: seq<Json>)
    requires Distinct(Targets(expected)) && "/tmp" !in Targets(expected)
    requires RuntimeScanned(expected, items)
    ensures ButForScratch(items, rest) && RestRearranged(expected, rest)
  {
    if t :| 0 <= t < |items| && IsTmpfs(items[t]) {
      rest := Without(items, t);
      assert RuntimeItem(expected, items[t]);
      ScratchSplit(expected, items, t);
    } else {
      rest := items;
    }
    forall o | 0 <= o < |rest|
      ensures !IsTmpfs(rest[o])
    {
    }
    RestScanned(expected, rest);
  }

  /** Leaving out one scratch directory leaves out nothing else that the scan looks at. */
  lemma ScratchSplit(expected: seq<Mount>, items: seq<Json>, t: nat)
    requires t < |items| && IsTmpfs(items[t]) && Get(items[t], "RW") == JBool(true)
    requires "/tmp" !in Targets(expected)
    ensures var rest := Without(items, t);
            RuntimeScanned(expected, items) <==>
              RuntimeScanned(expected, rest) && forall o :: 0 <= o < |rest| ==> Names(rest, "Destination")[o] != "/tmp"
  {
    var rest := Without(items, t);
    var names, left := Names(items, "Destination"), Names(rest, "Destination");
    assert RuntimeItem(expected, items[t]) && names[t] == "/tmp";
    hide RuntimeItem, IsTmpfs, Distinct, Without;
    assert left == Without(names, t) by {
      NamesWithout(items, t);
    }
    WithoutMembers(items, t);
    WithoutMembers(names, t);
    WithoutDistinct(names, t);
    FitsAll(expected, items);
    FitsAll(expected, rest);
  }

  lemma NamesWithout(items: seq<Json>, t: nat)
    requires t < |items|
    ensures Names(Without(items, t), "Destination") == Without(Names(items, "Destination"), t)
  {
  }

  lemma FitsAll(expected: seq<Mount>, items: seq<Json>)
    ensures ItemsFit(expected, items, |items|) <==> forall x :: x in items ==> RuntimeItem(expected, x)
  {
  }

  lemma RestScanned(expected: seq<Mount>, rest: seq<Json>)
    requires Distinct(Targets(expected))
    requires RuntimeScanned(expected, rest) && forall o :: 0 <= o < |rest| ==> !IsTmpfs(rest[o])
    ensures RestRearranged(expected, rest)
  {
    var targets, left := Targets(expected), Names(rest, "Destination");
    var fits := RuntimeFitting(expected, rest);
    forall o | 0 <= o < |rest|
      ensures LastIndex(targets, left[o]) >= 0 && fits(LastIndex(targets, left[o]), o)
    {
      assert RuntimeItem(expected, rest[o]);
    }
    SameLength(targets, left);
    ScanIsExact(targets, left, fits);
  }

  lemma SameLength(keys: seq<string>, names: seq<string>)
    requires Distinct(keys) && Distinct(names)
    requires forall o :: 0 <= o < |names| ==> names[o] in keys
    requires forall e :: 0 <= e < |keys| ==> keys[e] in names
    ensures |keys| == |names|
  {
    DistinctCount(keys);
    DistinctCount(names);
    assert SetOf(keys) == SetOf(names);
  }

  lemma ScratchAdded(expected: seq<Mount>, items: seq<Json>, rest: seq<Json>)
    requires Distinct(Targets(expected)) && "/tmp" !in Targets(expected)
    requires ButForScratch(items, rest)
    requires RestRearranged(expected, rest)
    ensures RuntimeScanned(expected, items)
  {
    RestFits(expected, rest);
    if rest != items {
      var t :| 0 <= t < |items| && IsTmpfs(items[t]) && Get(items[t], "RW") == JBool(true) && rest == Without(items, t);
      ScratchSplit(expected, items, t);
    }
  }

  lemma RestFits(expected: seq<Mount>, rest: seq<Json>)
    requires Distinct(Targets(expected)) && "/tmp" !in Targets(expected)
    requires RestRearranged(expected, rest)
    ensures RuntimeScanned(expected, rest)
    ensures forall o :: 0 <= o < |rest| ==> Names(rest, "Destination")[o] != "/tmp"
  {
    hide Rearranged;
    var targets, left := Targets(expected), Names(rest, "Destination");
    RearrangedLength(targets, left, RuntimeFitting(expected, rest));
    ScanIsExact(targets, left, RuntimeFitting(expected, rest));
    forall o | 0 <= o < |rest|
      ensures RuntimeItem(expected, rest[o]) && left[o] != "/tmp"
    {
      assert LastIndex(targets, left[o]) >= 0;
    }
  }

  lemma RearrangedLength(keys: seq<string>, names: seq<string>, fits: (nat, nat) -> bool)
    requires Rearranged(keys, names, fits)
    ensures |keys| == |names|
  {
  }

  /** Both reports are the planned mounts, rearranged, every compared field equal. */
  ghost predicate MountsAsPlanned(expected: seq<Mount>, host: Json, runtime: Json) {
    && Distinct(Targets(expected)) && "/tmp" !in Targets(expected)
    && host.JList? && runtime.JList?
    && Rearranged(Targets(expected), Names(host.items, "Target"), HostFitting(expected, host.items))
    && exists rest :: ButForScratch(runtime.items, rest) && RestRearranged(expected, rest)
  }

  /** The two matchers together accept exactly that. */
  lemma BothAcceptedIff(expected: seq<Mount>, host: Json, runtime: Json)
    ensures HostAccepted(expected, host) && RuntimeAccepted(expected, runtime) <==> MountsAsPlanned(expected, host, runtime)
  {
    HostAcceptedIff(expected, host);
    hide HostAccepted, RuntimeScanned, Rearranged, RestRearranged, ButForScratch;
    if Distinct(Targets(expected)) && "/tmp" !in Targets(expected) && runtime.JList? {
      RuntimeScanIsExact(expected, runtime.items);
    }
  }

  // ---- What an engine reports that has mounted the plan ----

  /** A dictionary with five members, in key order. */
  function Five(a: Members, b: Members, c: Members, d: Members, e: Members): Json
    requires a.Member? && b.Member? && c.Member? && d.Member? && e.Member?
  {
    var tail := c.(rest := d.(rest := e.(rest := End)));
    JDict(a.(rest := b.(rest := tail)))
  }

  function Field(name: string, value: Json): Members {
    Member(name, value, End)
  }

  function HostOptions(m: Mount): Json {
    if m.Bind? then JDict(Member("NonRecursive", JBool(true), Field("Propagation", JText("rprivate"))))
    else JDict(Member("NoCopy", JBool(true), Field("Subpath", JText(m.subpath))))
  }

  function HostItem(m: Mount): Json {
    var target := Field("Target", JText(Text(m.destination)));
    var readOnly := Field("ReadOnly", JBool(!m.writable));
    if m.Bind? then
      Five(Field("BindOptions", HostOptions(m)), readOnly, Field("Source", JText(Text(m.source))), target,
           Field("Type", JText("bind")))
    else
      Five(readOnly, Field("Source", JText(m.name)), target, Field("Type", JText("volume")),
           Field("VolumeOptions", HostOptions(m)))
  }

  function RuntimeItemOf(m: Mount): Json {
    var destination := Field("Destination", JText(Text(m.destination)));
    var access := Field("RW", JBool(m.writable));
    if m.Bind? then
      Five(destination, Field("Propagation", JText("rprivate")), access, Field("Source", JText(Text(m.source))),
           Field("Type", JText("bind")))
    else
      Five(destination, Field("Driver", JText("local")), Field("Name", JText(m.name)), access,
           Field("Type", JText("volume")))
  }

  function HostReport(mounts: seq<Mount>): Json {
    JList(seq(|mounts|, i requires 0 <= i < |mounts| => HostItem(mounts[i])))
  }

  function RuntimeReport(mounts: seq<Mount>): Json {
    JList(seq(|mounts|, i requires 0 <= i < |mounts| => RuntimeItemOf(mounts[i])))
  }

  lemma FindUnfolds(m: Members, name: string)
    ensures m.Member? ==> Find(m, name) == if m.name == name then m.value else Find(m.rest, name)
    ensures m.Member? && m.rest.Member? ==>
      Find(m.rest, name) == if m.rest.name == name then m.rest.value else Find(m.rest.rest, name)
    ensures m.Member? ==> (Has(m, name) <==> m.name == name || Has(m.rest, name))
  {
  }

  lemma FiveFound(m: Members, name: string)
    requires m.Member? && m.rest.Member? && m.rest.rest.Member? && m.rest.rest.rest.Member?
    requires m.rest.rest.rest.rest.Member? && m.rest.rest.rest.rest.rest.End?
    ensures Find(m, name) ==
              if m.name == name then m.value
              else if m.rest.name == name then m.rest.value
              else if m.rest.rest.name == name then m.rest.rest.value
              else if m.rest.rest.rest.name == name then m.rest.rest.rest.value
              else if m.rest.rest.rest.rest.name == name then m.rest.rest.rest.rest.value
              else JNull
    ensures Has(m, name) <==> name in [m.name, m.rest.name, m.rest.rest.name, m.rest.rest.rest.name, m.rest.rest.rest.rest.name]
  {
    FindUnfolds(m, name);
    FindUnfolds(m.rest, name);
    FindUnfolds(m.rest.rest, name);
    FindUnfolds(m.rest.rest.rest, name);
    FindUnfolds(m.rest.rest.rest.rest, name);
  }

  lemma HostItemFits(m: Mount)
    ensures HostFits(m, HostItem(m)) && NameOf(HostItem(m), "Target") == Text(m.destination)
  {
    hide Find, Has, Text;
    var members := HostItem(m).members;
    FiveFound(members, "BindOptions");
    FiveFound(members, "ReadOnly");
    FiveFound(members, "Source");
    FiveFound(members, "Target");
    FiveFound(members, "Type");
    FiveFound(members, "VolumeOptions");
    var options := Get(HostItem(m), if m.Bind? then "BindOptions" else "VolumeOptions").members;
    FindUnfolds(options, "NonRecursive");
    FindUnfolds(options, "Propagation");
    FindUnfolds(options, "NoCopy");
    FindUnfolds(options, "Subpath");
  }

  lemma RuntimeItemFits(m: Mount)
    ensures RuntimeFits(m, RuntimeItemOf(m)) && NameOf(RuntimeItemOf(m), "Destination") == Text(m.destination)
  {
    hide Find, Has, Text;
    var members := RuntimeItemOf(m).members;
    FiveFound(members, "Destination");
    FiveFound(members, "Driver");
    FiveFound(members, "Name");
    FiveFound(members, "Propagation");
    FiveFound(members, "RW");
    FiveFound(members, "Source");
    FiveFound(members, "Type");
  }

  lemma {:induction false} LastIndexOfDistinct(keys: seq<string>, i: nat)
    requires Distinct(keys) && i < |keys|
    ensures LastIndex(keys, keys[i]) == i
  {
  }

  /** Every plan that the matchers can accept at all has a report that they accept. */
  lemma {:induction false} ReportsAccepted(mounts: seq<Mount>)
    requires Distinct(Targets(mounts)) && "/tmp" !in Targets(mounts)
    ensures HostAccepted(mounts, HostReport(mounts)) && RuntimeAccepted(mounts, RuntimeReport(mounts))
  {
    var targets, host, runtime := Targets(mounts), HostReport(mounts).items, RuntimeReport(mounts).items;
    forall i | 0 <= i < |mounts|
      ensures LastIndex(targets, targets[i]) == i
      ensures Names(host, "Target")[i] == targets[i] && HostFits(mounts[i], host[i])
      ensures Names(runtime, "Destination")[i] == targets[i] && RuntimeFits(mounts[i], runtime[i])
    {
      LastIndexOfDistinct(targets, i);
      HostItemFits(mounts[i]);
      RuntimeItemFits(mounts[i]);
    }
    hide HostFits, RuntimeFits, HostItem, RuntimeItemOf, LastIndex;
    assert Names(host, "Target") == targets && Names(runtime, "Destination") == targets;
    forall o | 0 <= o < |runtime|
      ensures RuntimeItem(mounts, runtime[o])
    {
      assert NameOf(runtime[o], "Destination") == targets[o];
    }
  }

  // ---- The helper that fills the volumes ----

  /** A staged root as the preparation container mounts it. */
  datatype PreparedRoot = PreparedRoot(ordinal: nat, volumeName: string)

  function PreparedTargets(roots: seq<PreparedRoot>): seq<string> {
    seq(|roots|, i requires 0 <= i < |roots| => "/lca-stage/root-" + FourDigits(roots[i].ordinal))
  }

  lemma TargetCount(roots: seq<PreparedRoot>)
    ensures |PreparedTargets(roots)| == |roots|
  {
  }

  predicate PreparedHostFits(volumeName: string, item: Json) {
    && Named(item, "Target")
    && Get(item, "Source") == JText(volumeName)
    && Get(item, "Type") == JText("volume")
    && GetOr(item, "ReadOnly", JBool(false)) == JBool(false)
    && Get(item, "VolumeOptions").JDict?
    && Get(Get(item, "VolumeOptions"), "NoCopy") == JBool(true)
  }

  ghost function PreparedHostFitting(roots: seq<PreparedRoot>, items: seq<Json>): (nat, nat) -> bool {
    (e: nat, o: nat) => e < |roots| && o < |items| && PreparedHostFits(roots[e].volumeName, items[o])
  }

  predicate PreparedRuntimeFits(volumeName: string, item: Json) {
    && Named(item, "Destination")
    && Get(item, "Name") == JText(volumeName)
    && Get(item, "Type") == JText("volume")
    && Get(item, "Driver") == JText("local")
    && Get(item, "RW") == JBool(true)
    && Get(item, "Propagation") in [JText(""), JNull]
  }

  ghost function PreparedRuntimeFitting(roots: seq<PreparedRoot>, items: seq<Json>): (nat, nat) -> bool {
    (e: nat, o: nat) => e < |roots| && o < |items| && PreparedRuntimeFits(roots[e].volumeName, items[o])
  }

  /** What `dict.get` gives for a target: the volume planned there, or JSON null. */
  function PlannedVolume(roots: seq<PreparedRoot>, target: string): Json {
    var at := LastIndex(PreparedTargets(roots), target);
    if at < 0 then JNull else JText(roots[at].volumeName)
  }

  /** `_prep_host_mounts_match`. An item at no planned target whose source is missing too passes the
      comparison inside the loop (null equals null); the closing set comparison is what refuses it. */
  method PreparedHostMountsMatch(roots: seq<PreparedRoot>, raw: Json) returns (ok: bool)
    ensures ok <==>
      && raw.JList?
      && Distinct(PreparedTargets(roots))
      && Rearranged(PreparedTargets(roots), Names(raw.items, "Target"), PreparedHostFitting(roots, raw.items))
  {
    if !raw.JList? || |raw.items| != |roots| {
      return false;
    }
    hide PreparedHostFits, Scanned, ScanProgress, Rearranged, SetOf, LastIndex, PreparedTargets;
    ghost var names := Names(raw.items, "Target");
    ghost var fits := PreparedHostFitting(roots, raw.items);
    var targets := PreparedTargets(roots);
    ScanIsExact(targets, names, fits);
    ProgressStarts(targets, names, fits);
    TargetCount(roots);
    var observed: set<string> := {};
    ghost var foreign := -1;
    for i := 0 to |raw.items|
      invariant ScanProgress(targets, observed, names, fits, foreign, i)
    {
      ProgressStep(targets, observed, names, fits, foreign, i);
      PreparedHostOf(roots, raw.items, i);
      var item := raw.items[i];
      var target := Get(item, "Target");
      if !item.JDict? || !target.JText? || target.text in observed {
        return false;
      }
      observed := observed + {target.text};
      var options := Get(item, "VolumeOptions");
      if PlannedVolume(roots, target.text) != Get(item, "Source")
        || Get(item, "Type") != JText("volume")
        || GetOr(item, "ReadOnly", JBool(false)) != JBool(false)
        || !options.JDict?
        || Get(options, "NoCopy") != JBool(true)
      {
        return false;
      }
      if foreign < 0 && names[i] !in targets {
        foreign := i;
      }
    }
    ProgressEnds(targets, observed, names, fits, foreign);
    return observed == SetOf(targets);
  }

  /** `_prep_runtime_mounts_match`. */
  method PreparedRuntimeMountsMatch(roots: seq<PreparedRoot>, raw: Json) returns (ok: bool)
    ensures ok <==>
      && raw.JList?
      && Distinct(PreparedTargets(roots))
      && Rearranged(PreparedTargets(roots), Names(raw.items, "Destination"), PreparedRuntimeFitting(roots, raw.items))
  {
    if !raw.JList? || |raw.items| != |roots| {
      return false;
    }
    hide PreparedRuntimeFits, Scanned, ScanProgress, Rearranged, SetOf, LastIndex, PreparedTargets;
    ghost var names := Names(raw.items, "Destination");
    ghost var fits := PreparedRuntimeFitting(roots, raw.items);
    var targets := PreparedTargets(roots);
    ScanIsExact(targets, names, fits);
    ProgressStarts(targets, names, fits);
    TargetCount(roots);
    var observed: set<string> := {};
    ghost var foreign := -1;
    for i := 0 to |raw.items|
      invariant ScanProgress(targets, observed, names, fits, foreign, i)
    {
      ProgressStep(targets, observed, names, fits, foreign, i);
      PreparedRuntimeOf(roots, raw.items, i);
      var item := raw.items[i];
      var destination := Get(item, "Destination");
      if !item.JDict? || !destination.JText? || destination.text in observed {
        return false;
      }
      observed := observed + {destination.text};
      if PlannedVolume(roots, destination.text) != Get(item, "Name")
        || Get(item, "Type") != JText("volume")
        || Get(item, "Driver") != JText("local")
        || Get(item, "RW") != JBool(true)
        || Get(item, "Propagation") !in [JText(""), JNull]
      {
        return false;
      }
      if foreign < 0 && names[i] !in targets {
        foreign := i;
      }
    }
    ProgressEnds(targets, observed, names, fits, foreign);
    return observed == SetOf(targets);
  }

  /** For an item at a planned target, the comparisons of the loop are the field comparisons. */
  lemma PreparedHostOf(roots: seq<PreparedRoot>, items: seq<Json>, i: nat)
    requires i < |items|
    ensures var item, target := items[i], NameOf(items[i], "Target");
            var at := LastIndex(PreparedTargets(roots), target);
            at >= 0 ==> (PreparedHostFits(roots[at].volumeName, item) <==>
              && Named(item, "Target")
              && PlannedVolume(roots, target) == Get(item, "Source")
              && Get(item, "Type") == JText("volume")
              && GetOr(item, "ReadOnly", JBool(false)) == JBool(false)
              && Get(item, "VolumeOptions").JDict?
              && Get(Get(item, "VolumeOptions"), "NoCopy") == JBool(true))
  {
  }

  lemma PreparedRuntimeOf(roots: seq<PreparedRoot>, items: seq<Json>, i: nat)
    requires i < |items|
    ensures var item, destination := items[i], NameOf(items[i], "Destination");
            var at := LastIndex(PreparedTargets(roots), destination);
            at >= 0 ==> (PreparedRuntimeFits(roots[at].volumeName, item) <==>
              && Named(item, "Destination")
              && PlannedVolume(roots, destination) == Get(item, "Name")
              && Get(item, "Type") == JText("volume")
              && Get(item, "Driver") == JText("local")
              && Get(item, "RW") == JBool(true)
              && Get(item, "Propagation") in [JText(""), JNull])
  {
  }
}
