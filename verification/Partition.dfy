/** Spreading groups of items over a fixed number of parts, and Graham's bound on the largest. */
module Balancing {
  import opened Prelude
  import opened Sequences

  predicate IsFirstLeast<T>(parts: seq<seq<T>>, t: nat) {
    && t < |parts|
    && forall k :: 0 <= k < |parts| ==> |parts[t]| <= |parts[k]| && (k < t ==> |parts[t]| < |parts[k]|)
  }

  function FirstLeast<T>(parts: seq<seq<T>>): (t: nat)
    requires parts != []
    ensures IsFirstLeast(parts, t)
  {
    var n := |parts| - 1;
    if n == 0 then 0
    else
      var t := FirstLeast(parts[..n]);
      if |parts[n]| < |parts[t]| then n else t
  }

  /** An assignment of every group to one of m parts. */
  predicate Assigns<T>(groups: seq<seq<T>>, a: seq<nat>, m: nat) {
    |a| == |groups| && forall i :: 0 <= i < |a| ==> a[i] < m
  }

  /** The parts that result from appending each group to the part it is assigned to. */
  function Spread<T>(groups: seq<seq<T>>, a: seq<nat>, m: nat): (parts: seq<seq<T>>)
    requires Assigns(groups, a, m)
    ensures |parts| == m
    decreases |groups|
  {
    if groups == [] then seq(m, _ => [])
    else
      var n := |groups| - 1;
      var parts := Spread(groups[..n], a[..n], m);
      parts[a[n] := parts[a[n]] + groups[n]]
  }

  /** Each group in turn to the first of the smallest parts. */
  function Greedy<T>(groups: seq<seq<T>>, m: nat): (a: seq<nat>)
    requires m > 0
    ensures Assigns(groups, a, m)
    decreases |groups|
  {
    if groups == [] then []
    else
      var n := |groups| - 1;
      var a := Greedy(groups[..n], m);
      a + [FirstLeast(Spread(groups[..n], a, m))]
  }

  function Largest<T>(parts: seq<seq<T>>): (size: nat)
    ensures forall p :: 0 <= p < |parts| ==> |parts[p]| <= size
    ensures parts != [] ==> exists p :: 0 <= p < |parts| && |parts[p]| == size
  {
    if parts == [] then 0
    else
      var n := |parts| - 1;
      var size := Largest(parts[..n]);
      assert n > 0 ==> exists p :: 0 <= p < n && |parts[..n][p]| == size && |parts[p]| == size;
      if |parts[n]| > size || n == 0 then |parts[n]| else size
  }

  // What spreading keeps.

  lemma {:induction false} FlattenPut<T>(parts: seq<seq<T>>, t: nat, group: seq<T>)
    requires t < |parts|
    ensures multiset(Flatten(parts[t := parts[t] + group])) == multiset(Flatten(parts)) + multiset(group)
    decreases t
  {
    var next := parts[t := parts[t] + group];
    if t == 0 {
      assert next[1..] == parts[1..];
    } else {
      assert next[1..] == parts[1..][t - 1 := parts[1..][t - 1] + group];
      FlattenPut(parts[1..], t - 1, group);
    }
  }

  lemma {:induction false} FlattenEmpty<T>(parts: seq<seq<T>>)
    requires forall p :: 0 <= p < |parts| ==> parts[p] == []
    ensures Flatten(parts) == []
  {
    if parts != [] {
      FlattenEmpty(parts[1..]);
    }
  }

  lemma FlattenLast<T>(groups: seq<seq<T>>)
    requires groups != []
    ensures Flatten(groups) == Flatten(groups[..|groups| - 1]) + groups[|groups| - 1]
  {
    var n := |groups| - 1;
    assert groups == groups[..n] + [groups[n]];
    FlattenAppend(groups[..n], [groups[n]]);
    assert Flatten([groups[n]]) == groups[n];
  }

  /** The parts hold the items of the groups, each as often as it occurs there. */
  lemma {:induction false} SpreadConserves<T>(groups: seq<seq<T>>, a: seq<nat>, m: nat)
    requires Assigns(groups, a, m)
    ensures multiset(Flatten(Spread(groups, a, m))) == multiset(Flatten(groups))
    ensures |Flatten(Spread(groups, a, m))| == |Flatten(groups)|
    decreases |groups|
  {
    if groups == [] {
      FlattenEmpty(Spread(groups, a, m));
    } else {
      var n := |groups| - 1;
      var parts := Spread(groups[..n], a[..n], m);
      SpreadConserves(groups[..n], a[..n], m);
      FlattenPut(parts, a[n], groups[n]);
      FlattenLast(groups);
    }
    assert |multiset(Flatten(Spread(groups, a, m)))| == |multiset(Flatten(groups))|;
  }

  /** What a part holds comes from the groups assigned to it. */
  lemma {:induction false} SpreadMembers<T>(groups: seq<seq<T>>, a: seq<nat>, m: nat, p: nat, x: T)
    requires Assigns(groups, a, m) && p < m
    ensures x in Spread(groups, a, m)[p] <==> exists i :: 0 <= i < |groups| && a[i] == p && x in groups[i]
    decreases |groups|
  {
    if groups != [] {
      var n := |groups| - 1;
      SpreadMembers(groups[..n], a[..n], m, p, x);
      assert forall i :: 0 <= i < n ==> groups[..n][i] == groups[i] && a[..n][i] == a[i];
    }
  }

  // Graham's bound.

  lemma {:induction false} TotalAtMost<T>(parts: seq<seq<T>>, size: nat)
    requires forall p :: 0 <= p < |parts| ==> |parts[p]| <= size
    ensures |Flatten(parts)| <= |parts| * size
  {
    if parts != [] {
      TotalAtMost(parts[1..], size);
      assert |parts| * size == size + (|parts| - 1) * size;
    }
  }

  lemma {:induction false} TotalAtLeast<T>(parts: seq<seq<T>>, size: nat)
    requires forall p :: 0 <= p < |parts| ==> size <= |parts[p]|
    ensures |parts| * size <= |Flatten(parts)|
  {
    if parts != [] {
      TotalAtLeast(parts[1..], size);
      assert |parts| * size == size + (|parts| - 1) * size;
    }
  }

  ghost predicate Within<T>(parts: seq<seq<T>>, bound: nat) {
    forall p :: 0 <= p < |parts| ==> |parts| * |parts[p]| <= bound
  }

  lemma Scale(k: nat, a: nat, b: nat)
    requires a <= b
    ensures k * a <= k * b
  {
  }

  lemma LeastPlusGroup(m: nat, least: nat, group: nat, total: nat, largest: nat)
    requires m > 0 && m * least <= total && group <= largest
    ensures m * (least + group) <= total + group + (m - 1) * largest
  {
    Scale(m - 1, group, largest);
    assert m * group == group + (m - 1) * group;
    assert m * (least + group) == m * least + m * group;
  }

  lemma PutWithin<T>(parts: seq<seq<T>>, t: nat, group: seq<T>, before: nat, largest: nat)
    requires IsFirstLeast(parts, t)
    requires Within(parts, |Flatten(parts)| + (|parts| - 1) * before)
    requires before <= largest && |group| <= largest
    ensures Within(parts[t := parts[t] + group], |Flatten(parts)| + |group| + (|parts| - 1) * largest)
  {
    var m, next := |parts|, parts[t := parts[t] + group];
    Scale(m - 1, before, largest);
    TotalAtLeast(parts, |parts[t]|);
    LeastPlusGroup(m, |parts[t]|, |group|, |Flatten(parts)|, largest);
    forall p | 0 <= p < |next| ensures m * |next[p]| <= |Flatten(parts)| + |group| + (m - 1) * largest {
      assert p == t || next[p] == parts[p];
    }
  }

  lemma {:induction false} GreedyWithin<T>(groups: seq<seq<T>>, m: nat)
    requires m > 0
    ensures Within(Spread(groups, Greedy(groups, m), m), |Flatten(groups)| + (m - 1) * Largest(groups))
    decreases |groups|
  {
    if groups != [] {
      var n := |groups| - 1;
      var short, a := groups[..n], Greedy(groups[..n], m);
      var parts := Spread(short, a, m);
      GreedyWithin(short, m);
      SpreadConserves(short, a, m);
      FlattenLast(groups);
      assert Largest(short) <= Largest(groups);
      PutWithin(parts, FirstLeast(parts), groups[n], Largest(short), Largest(groups));
      assert Greedy(groups, m)[..n] == a;
    }
  }

  /** m times the largest part is at most the total and m - 1 times the largest group. */
  lemma GrahamBound<T>(groups: seq<seq<T>>, m: nat)
    requires m > 0
    ensures m * Largest(Spread(groups, Greedy(groups, m), m)) <= |Flatten(groups)| + (m - 1) * Largest(groups)
  {
    GreedyWithin(groups, m);
    var parts := Spread(groups, Greedy(groups, m), m);
    var p :| 0 <= p < |parts| && |parts[p]| == Largest(parts);
  }

  lemma {:induction false} GroupFits<T>(groups: seq<seq<T>>, a: seq<nat>, m: nat, i: nat)
    requires Assigns(groups, a, m) && i < |groups|
    ensures |groups[i]| <= |Spread(groups, a, m)[a[i]]|
    decreases |groups|
  {
    var n := |groups| - 1;
    if i < n {
      GroupFits(groups[..n], a[..n], m, i);
    }
  }

  lemma TwiceTheBest(m: nat, greedy: nat, total: nat, group: nat, best: nat)
    requires m > 0 && m * greedy <= total + (m - 1) * group && total <= m * best && group <= best
    ensures m * greedy <= (2 * m - 1) * best
  {
    Scale(m - 1, group, best);
    assert (2 * m - 1) * best == m * best + (m - 1) * best;
  }

  /** No assignment of whole groups to m parts has a largest part smaller than m/(2m - 1) of greedy's. */
  lemma GreedyIsCompetitive<T>(groups: seq<seq<T>>, m: nat, a: seq<nat>)
    requires m > 0 && Assigns(groups, a, m)
    ensures m * Largest(Spread(groups, Greedy(groups, m), m)) <= (2 * m - 1) * Largest(Spread(groups, a, m))
  {
    GrahamBound(groups, m);
    var best := Largest(Spread(groups, a, m));
    SpreadConserves(groups, a, m);
    TotalAtMost(Spread(groups, a, m), best);
    assert Largest(groups) <= best by {
      if groups != [] {
        var i :| 0 <= i < |groups| && |groups[i]| == Largest(groups);
        GroupFits(groups, a, m, i);
      }
    }
    TwiceTheBest(m, Largest(Spread(groups, Greedy(groups, m), m)), |Flatten(groups)|, Largest(groups), best);
  }

  /** The inner loop of partitionUnifiedEntryGroups. */
  method FindTarget<T>(partitions: seq<seq<T>>) returns (targetIndex: nat)
    ensures partitions == [] ==> targetIndex == 0
    ensures partitions != [] ==> IsFirstLeast(partitions, targetIndex)
  {
    targetIndex := 0;
    var index := 1;
    while index < |partitions|
      invariant 1 <= index && (partitions != [] ==> index <= |partitions|)
      invariant partitions == [] ==> targetIndex == 0
      invariant partitions != [] ==> IsFirstLeast(partitions[..index], targetIndex)
    {
      if |partitions[index]| < |partitions[targetIndex]| {
        targetIndex := index;
      }
      index := index + 1;
    }
    if partitions != [] {
      PrefixAll(partitions);
    }
  }

  /** partitionUnifiedEntryGroups of tsdown.config.ts; it throws exactly when there is a group and
      nowhere to put it. */
  method PartitionGroups<T>(entryGroups: seq<seq<T>>, partitionCount: nat) returns (result: Option<seq<seq<T>>>)
    ensures result.None? <==> partitionCount == 0 && entryGroups != []
    ensures result.Some? && partitionCount == 0 ==> result.value == []
    ensures result.Some? && partitionCount > 0 ==>
      result.value == Spread(entryGroups, Greedy(entryGroups, partitionCount), partitionCount)
  {
    var partitions: seq<seq<T>> := seq(partitionCount, _ => []);
    var i := 0;
    while i < |entryGroups|
      invariant i <= |entryGroups| && |partitions| == partitionCount
      invariant i > 0 ==> partitionCount > 0
      invariant partitionCount > 0 ==>
        partitions == Spread(entryGroups[..i], Greedy(entryGroups[..i], partitionCount), partitionCount)
    {
      var targetIndex := FindTarget(partitions);
      if |partitions| <= targetIndex {
        return None;
      }
      GreedyStep(entryGroups, partitionCount, i, partitions, targetIndex);
      partitions := partitions[targetIndex := partitions[targetIndex] + entryGroups[i]];
      i := i + 1;
    }
    PrefixAll(entryGroups);
    result := Some(partitions);
  }

  lemma GreedyStep<T>(groups: seq<seq<T>>, m: nat, i: nat, parts: seq<seq<T>>, t: nat)
    requires m > 0 && i < |groups| && parts == Spread(groups[..i], Greedy(groups[..i], m), m)
    requires IsFirstLeast(parts, t)
    ensures Spread(groups[..i + 1], Greedy(groups[..i + 1], m), m) == parts[t := parts[t] + groups[i]]
  {
    assert groups[..i + 1][..i] == groups[..i];
    var a := Greedy(groups[..i], m);
    assert FirstLeast(parts) == t;
    assert Greedy(groups[..i + 1], m) == a + [t];
    assert (a + [t])[..i] == a;
  }
}

/** The declaration partitions of tsdown.config.ts, named by scripts/lib/tsdown-config-groups.mts. */
module DeclarationPartitions {
  import opened Prelude
  import opened Sequences
  import opened Balancing

  datatype Entry = Entry(name: string, source: string)

  datatype Partition = Partition(name: string, sources: seq<string>)

  const GROUPS := [
    "openclaw-dts-base", "openclaw-dts-plugin-sdk-1", "openclaw-dts-plugin-sdk-2",
    "openclaw-dts-extensions-1", "openclaw-dts-extensions-2", "openclaw-dts-extensions-3",
    "openclaw-dts-extensions-4", "openclaw-dts-extensions-5"]

  const PARTITIONS: nat := 8
  const EXTENSION_PARTITIONS: nat := 5
  const PLUGIN_SDK := "plugin-sdk/"
  const EXTENSIONS := "extensions/"

  /** What an entry's name makes it; an extension entry may have an empty id. */
  datatype Kind = Base | PublicSdk | PrivateSdk | Extension(id: string)

  function UpToSlash(s: string): string {
    if s == "" || s[0] == '/' then "" else [s[0]] + UpToSlash(s[1..])
  }

  /** publicNames are the public entry points' names, without the plugin-sdk prefix. */
  function KindOf(e: Entry, publicNames: set<string>): Kind {
    if PLUGIN_SDK <= e.name then
      if e.name[|PLUGIN_SDK|..] in publicNames then PublicSdk else PrivateSdk
    else if EXTENSIONS <= e.name then Extension(UpToSlash(e.name[|EXTENSIONS|..]))
    else Base
  }

  function Classify(publicNames: set<string>): Entry -> Kind {
    e => KindOf(e, publicNames)
  }

  function OfKind(entries: seq<Entry>, kindOf: Entry -> Kind, kind: Kind): (kept: seq<Entry>)
    ensures forall e :: e in kept <==> e in entries && kindOf(e) == kind
  {
    if entries == [] then []
    else
      var n := |entries| - 1;
      var kept := OfKind(entries[..n], kindOf, kind);
      assert entries == entries[..n] + [entries[n]];
      if kindOf(entries[n]) == kind then kept + [entries[n]] else kept
  }

  function Groups(entries: seq<Entry>, kindOf: Entry -> Kind, ids: seq<string>): (groups: seq<seq<Entry>>)
    ensures |groups| == |ids|
  {
    seq(|ids|, i requires 0 <= i < |ids| => OfKind(entries, kindOf, Extension(ids[i])))
  }

  predicate Distinct<T(==)>(xs: seq<T>) {
    forall i, j :: 0 <= i < j < |xs| ==> xs[i] != xs[j]
  }

  /** ids are the non-empty extension ids of the entries, each once. */
  ghost predicate AreIds(entries: seq<Entry>, kindOf: Entry -> Kind, ids: seq<string>) {
    && Distinct(ids)
    && forall id :: id in ids <==> id != "" && exists e :: e in entries && kindOf(e) == Extension(id)
  }

  function NextIds(keys: seq<string>, kind: Kind): seq<string> {
    if kind.Extension? && kind.id != "" && kind.id !in keys then keys + [kind.id] else keys
  }

  /** The ids of extensionEntriesById, in the order they were first set. */
  function FirstIds(entries: seq<Entry>, kindOf: Entry -> Kind): seq<string> {
    if entries == [] then []
    else NextIds(FirstIds(entries[..|entries| - 1], kindOf), kindOf(entries[|entries| - 1]))
  }

  lemma FirstIdsNext(entries: seq<Entry>, i: nat, kindOf: Entry -> Kind)
    requires i < |entries|
    ensures FirstIds(entries[..i + 1], kindOf) == NextIds(FirstIds(entries[..i], kindOf), kindOf(entries[i]))
  {
    assert entries[..i + 1][..i] == entries[..i];
  }

  lemma {:induction false} FirstIdsAreIds(entries: seq<Entry>, kindOf: Entry -> Kind)
    ensures AreIds(entries, kindOf, FirstIds(entries, kindOf))
  {
    if entries != [] {
      var n := |entries| - 1;
      FirstIdsAreIds(entries[..n], kindOf);
      PrefixNext(entries, n);
      PrefixAll(entries);
      IdsNext(entries, n, kindOf, FirstIds(entries[..n], kindOf));
    }
  }

  lemma IdsNext(entries: seq<Entry>, i: nat, kindOf: Entry -> Kind, keys: seq<string>)
    requires i < |entries| && AreIds(entries[..i], kindOf, keys)
    ensures AreIds(entries[..i + 1], kindOf, NextIds(keys, kindOf(entries[i])))
  {
    PrefixNext(entries, i);
    var next := NextIds(keys, kindOf(entries[i]));
    forall id ensures id in next <==>
      id != "" && exists e :: e in entries[..i + 1] && kindOf(e) == Extension(id)
    {
      if id in keys {
        var e :| e in entries[..i] && kindOf(e) == Extension(id);
        assert e in entries[..i + 1];
      }
    }
  }

  lemma OfKindNext(entries: seq<Entry>, i: nat, kindOf: Entry -> Kind, kind: Kind)
    requires i < |entries|
    ensures OfKind(entries[..i + 1], kindOf, kind)
         == OfKind(entries[..i], kindOf, kind) + if kindOf(entries[i]) == kind then [entries[i]] else []
  {
    assert entries[..i + 1][..i] == entries[..i];
  }

  lemma {:induction false} NoneOfKind(entries: seq<Entry>, kindOf: Entry -> Kind, kind: Kind)
    requires forall e :: e in entries ==> kindOf(e) != kind
    ensures OfKind(entries, kindOf, kind) == []
  {
    if entries != [] {
      NoneOfKind(entries[..|entries| - 1], kindOf, kind);
    }
  }

  /** byId gives every id its entries, in order. */
  ghost predicate Filled(entries: seq<Entry>, kindOf: Entry -> Kind, byId: map<string, seq<Entry>>) {
    && (forall id :: id in byId <==> id in FirstIds(entries, kindOf))
    && forall id :: id in byId ==> byId[id] == OfKind(entries, kindOf, Extension(id))
  }

  /** An id that is not yet there has no entries yet. */
  lemma EntriesSoFar(entries: seq<Entry>, kindOf: Entry -> Kind, byId: map<string, seq<Entry>>, id: string)
    requires id != "" && Filled(entries, kindOf, byId)
    ensures (if id in byId then byId[id] else []) == OfKind(entries, kindOf, Extension(id))
  {
    if id !in byId {
      FirstIdsAreIds(entries, kindOf);
      NoneOfKind(entries, kindOf, Extension(id));
    }
  }

  lemma FilledNext(entries: seq<Entry>, i: nat, kindOf: Entry -> Kind, byId: map<string, seq<Entry>>, id: string)
    requires i < |entries| && kindOf(entries[i]) == Extension(id) && id != ""
    requires Filled(entries[..i], kindOf, byId)
    ensures Filled(entries[..i + 1], kindOf, byId[id := (if id in byId then byId[id] else []) + [entries[i]]])
  {
    FirstIdsNext(entries, i, kindOf);
    EntriesSoFar(entries[..i], kindOf, byId, id);
    var next := byId[id := (if id in byId then byId[id] else []) + [entries[i]]];
    forall k | k in next ensures next[k] == OfKind(entries[..i + 1], kindOf, Extension(k)) {
      OfKindNext(entries, i, kindOf, Extension(k));
    }
  }

  lemma FilledSkip(entries: seq<Entry>, i: nat, kindOf: Entry -> Kind, byId: map<string, seq<Entry>>)
    requires i < |entries| && Filled(entries[..i], kindOf, byId)
    requires var kind := kindOf(entries[i]); kind.Extension? ==> kind.id == ""
    ensures FirstIds(entries[..i + 1], kindOf) == FirstIds(entries[..i], kindOf)
    ensures Filled(entries[..i + 1], kindOf, byId)
  {
    FirstIdsNext(entries, i, kindOf);
    FirstIdsAreIds(entries[..i], kindOf);
    forall k | k in byId ensures byId[k] == OfKind(entries[..i + 1], kindOf, Extension(k)) {
      OfKindNext(entries, i, kindOf, Extension(k));
    }
  }

  /** The loop that fills extensionEntriesById; keys in the order they were first set. */
  method ExtensionEntriesById(entries: seq<Entry>, publicNames: set<string>)
    returns (keys: seq<string>, byId: map<string, seq<Entry>>)
    ensures keys == FirstIds(entries, Classify(publicNames)) && Filled(entries, Classify(publicNames), byId)
  {
    ghost var kindOf := Classify(publicNames);
    keys, byId := [], map[];
    var i := 0;
    while i < |entries|
      invariant i <= |entries|
      invariant keys == FirstIds(entries[..i], kindOf) && Filled(entries[..i], kindOf, byId)
    {
      var e := entries[i];
      if !(EXTENSIONS <= e.name) {
        FilledSkip(entries, i, kindOf, byId);
        i := i + 1;
        continue;
      }
      var extensionId := UpToSlash(e.name[|EXTENSIONS|..]);
      if extensionId == "" {
        ExtensionKind(e, publicNames);
        FilledSkip(entries, i, kindOf, byId);
        i := i + 1;
        continue;
      }
      ExtensionKind(e, publicNames);
      FilledNext(entries, i, kindOf, byId, extensionId);
      FirstIdsNext(entries, i, kindOf);
      var extensionEntries := if extensionId in byId then byId[extensionId] else [];
      keys := if extensionId in byId then keys else keys + [extensionId];
      byId := byId[extensionId := extensionEntries + [e]];
      i := i + 1;
    }
    PrefixAll(entries);
  }

  /** The two prefixes exclude each other. */
  lemma ExtensionKind(e: Entry, publicNames: set<string>)
    requires EXTENSIONS <= e.name
    ensures Classify(publicNames)(e) == Extension(UpToSlash(e.name[|EXTENSIONS|..]))
  {
    assert e.name[0] == EXTENSIONS[0] == 'e';
  }

  /** The base entries, the public and the private plugin SDK, and the extensions spread over five. */
  function Parts(entries: seq<Entry>, kindOf: Entry -> Kind, ids: seq<string>): (parts: seq<seq<Entry>>)
    ensures |parts| == PARTITIONS
  {
    var groups := Groups(entries, kindOf, ids);
    [OfKind(entries, kindOf, Base), OfKind(entries, kindOf, PublicSdk), OfKind(entries, kindOf, PrivateSdk)]
    + Spread(groups, Greedy(groups, EXTENSION_PARTITIONS), EXTENSION_PARTITIONS)
  }

  function IndexOf<T(==)>(xs: seq<T>, x: T): (i: nat)
    requires x in xs
    ensures i < |xs| && xs[i] == x
  {
    if xs[0] == x then 0 else IndexOf(xs[1..], x) + 1
  }

  /** The one part for entries of a kind; none for the empty extension id. */
  function Home(entries: seq<Entry>, kindOf: Entry -> Kind, ids: seq<string>, kind: Kind): Option<nat> {
    match kind
    case Base => Some(0)
    case PublicSdk => Some(1)
    case PrivateSdk => Some(2)
    case Extension(id) =>
      if id in ids then Some(3 + Greedy(Groups(entries, kindOf, ids), EXTENSION_PARTITIONS)[IndexOf(ids, id)]) else None
  }

  lemma ExtensionHome(entries: seq<Entry>, kindOf: Entry -> Kind, ids: seq<string>, e: Entry, p: nat)
    requires AreIds(entries, kindOf, ids) && 3 <= p < PARTITIONS
    ensures e in Parts(entries, kindOf, ids)[p] <==>
      e in entries && Home(entries, kindOf, ids, kindOf(e)) == Some(p)
  {
    var groups := Groups(entries, kindOf, ids);
    var a := Greedy(groups, EXTENSION_PARTITIONS);
    var kind := kindOf(e);
    forall i | 0 <= i < |ids| ensures e in groups[i] <==> e in entries && kind == Extension(ids[i]) {
      assert groups[i] == OfKind(entries, kindOf, Extension(ids[i]));
    }
    SpreadPartition(groups, a, EXTENSION_PARTITIONS, ids, kind, e in entries, e, p - 3);
    assert Parts(entries, kindOf, ids)[p] == Spread(groups, a, EXTENSION_PARTITIONS)[p - 3];
  }

  lemma OtherHome(entries: seq<Entry>, kindOf: Entry -> Kind, ids: seq<string>, e: Entry, p: nat)
    requires p < 3
    ensures e in Parts(entries, kindOf, ids)[p] <==>
      e in entries && Home(entries, kindOf, ids, kindOf(e)) == Some(p)
  {
    var kind := if p == 0 then Base else if p == 1 then PublicSdk else PrivateSdk;
    assert Parts(entries, kindOf, ids)[p] == OfKind(entries, kindOf, kind);
  }

  /** A true partition: a part holds exactly the entries whose kind, and so whose extension, has
      its home there; each entry with an extension id that is not empty has one home. */
  lemma PartsPartition(entries: seq<Entry>, kindOf: Entry -> Kind, ids: seq<string>, e: Entry, p: nat)
    requires AreIds(entries, kindOf, ids) && p < PARTITIONS
    ensures e in Parts(entries, kindOf, ids)[p] <==>
      e in entries && Home(entries, kindOf, ids, kindOf(e)) == Some(p)
    ensures e in entries ==>
      (Home(entries, kindOf, ids, kindOf(e)).None? <==> kindOf(e) == Extension(""))
  {
    if p < 3 {
      OtherHome(entries, kindOf, ids, e, p);
    } else {
      ExtensionHome(entries, kindOf, ids, e, p);
    }
  }

  /** Where an entry goes, knowing which groups it is in: those of its own kind, if any. */
  lemma SpreadPartition<T>(
      groups: seq<seq<T>>, a: seq<nat>, m: nat, ids: seq<string>, kind: Kind, present: bool, e: T, p: nat)
    requires Assigns(groups, a, m) && |groups| == |ids| && Distinct(ids) && p < m
    requires forall i :: 0 <= i < |ids| ==> (e in groups[i] <==> present && kind == Extension(ids[i]))
    ensures e in Spread(groups, a, m)[p] <==>
      present && kind.Extension? && kind.id in ids && a[IndexOf(ids, kind.id)] == p
  {
    SpreadMembers(groups, a, m, p, e);
    if kind.Extension? && kind.id in ids {
      assert forall i :: 0 <= i < |ids| && ids[i] == kind.id ==> i == IndexOf(ids, kind.id);
    }
  }

  lemma {:induction false} CountOfKind(entries: seq<Entry>, kindOf: Entry -> Kind, kind: Kind, e: Entry)
    ensures multiset(OfKind(entries, kindOf, kind))[e] == if kindOf(e) == kind then multiset(entries)[e] else 0
  {
    if entries != [] {
      var n := |entries| - 1;
      CountOfKind(entries[..n], kindOf, kind, e);
      assert entries == entries[..n] + [entries[n]];
    }
  }

  lemma {:induction false} CountOfGroups(entries: seq<Entry>, kindOf: Entry -> Kind, ids: seq<string>, e: Entry)
    requires Distinct(ids)
    ensures multiset(Flatten(Groups(entries, kindOf, ids)))[e]
         == if kindOf(e).Extension? && kindOf(e).id in ids then multiset(entries)[e] else 0
  {
    if ids != [] {
      var groups := Groups(entries, kindOf, ids);
      assert groups[1..] == Groups(entries, kindOf, ids[1..]);
      CountOfKind(entries, kindOf, Extension(ids[0]), e);
      CountOfGroups(entries, kindOf, ids[1..], e);
    }
  }

  lemma CountOfParts(entries: seq<Entry>, kindOf: Entry -> Kind, ids: seq<string>, e: Entry)
    requires AreIds(entries, kindOf, ids)
    ensures multiset(Flatten(Parts(entries, kindOf, ids)))[e]
         == if kindOf(e) == Extension("") then 0 else multiset(entries)[e]
  {
    var groups := Groups(entries, kindOf, ids);
    var base, public, private := OfKind(entries, kindOf, Base),
      OfKind(entries, kindOf, PublicSdk), OfKind(entries, kindOf, PrivateSdk);
    var spread := Spread(groups, Greedy(groups, EXTENSION_PARTITIONS), EXTENSION_PARTITIONS);
    SpreadConserves(groups, Greedy(groups, EXTENSION_PARTITIONS), EXTENSION_PARTITIONS);
    FlattenAppend([base, public, private], spread);
    FlattenThree(base, public, private);
    CountOfKind(entries, kindOf, Base, e);
    CountOfKind(entries, kindOf, PublicSdk, e);
    CountOfKind(entries, kindOf, PrivateSdk, e);
    CountOfGroups(entries, kindOf, ids, e);
  }

  lemma FlattenThree<T>(a: seq<T>, b: seq<T>, c: seq<T>)
    ensures Flatten([a, b, c]) == a + b + c
  {
    assert [a, b, c][1..] == [b, c] && [b, c][1..] == [c];
    assert Flatten([c]) == c;
    assert Flatten([b, c]) == b + c;
  }

  /** Every entry is kept as often as it occurs, exactly when none has an empty extension id. */
  lemma PartsConserve(entries: seq<Entry>, kindOf: Entry -> Kind, ids: seq<string>)
    requires AreIds(entries, kindOf, ids)
    ensures multiset(Flatten(Parts(entries, kindOf, ids))) == multiset(entries)
      <==> forall e :: e in entries ==> kindOf(e) != Extension("")
  {
    var all := multiset(Flatten(Parts(entries, kindOf, ids)));
    forall e ensures all[e] == if kindOf(e) == Extension("") then 0 else multiset(entries)[e] {
      CountOfParts(entries, kindOf, ids, e);
    }
    if e :| e in entries && kindOf(e) == Extension("") {
      assert all[e] == 0 && multiset(entries)[e] > 0;
    }
  }

  /** The largest extension part is at most 9/5 of the largest part of any way to put whole
      extensions into five parts. */
  lemma PartsAreBalanced(entries: seq<Entry>, kindOf: Entry -> Kind, ids: seq<string>, a: seq<nat>)
    requires Assigns(Groups(entries, kindOf, ids), a, EXTENSION_PARTITIONS)
    ensures 5 * Largest(Parts(entries, kindOf, ids)[3..])
         <= 9 * Largest(Spread(Groups(entries, kindOf, ids), a, EXTENSION_PARTITIONS))
  {
    GreedyIsCompetitive(Groups(entries, kindOf, ids), EXTENSION_PARTITIONS, a);
  }

  ghost predicate Permutes<T(!new)>(sort: seq<T> -> seq<T>) {
    forall xs :: multiset(sort(xs)) == multiset(xs)
  }

  lemma SortedIds(entries: seq<Entry>, kindOf: Entry -> Kind, keys: seq<string>, ids: seq<string>)
    requires AreIds(entries, kindOf, keys) && multiset(ids) == multiset(keys)
    ensures AreIds(entries, kindOf, ids)
  {
    forall id ensures id in ids <==> id in keys {
      assert id in multiset(ids) <==> id in multiset(keys);
    }
    forall i, j | 0 <= i < j < |ids| ensures ids[i] != ids[j] {
      if ids[i] == ids[j] {
        TwiceCounted(ids, i, j);
        CountedOnce(keys, ids[i]);
        assert false;
      }
    }
  }

  lemma SameMembers<T>(xs: seq<T>, ys: seq<T>)
    requires multiset(xs) == multiset(ys)
    ensures forall i :: 0 <= i < |xs| ==> xs[i] in ys
  {
    forall i | 0 <= i < |xs| ensures xs[i] in ys {
      assert xs[i] in multiset(xs);
    }
  }

  lemma TwiceCounted<T>(xs: seq<T>, i: nat, j: nat)
    requires i < j < |xs| && xs[i] == xs[j]
    ensures multiset(xs)[xs[i]] >= 2
  {
    assert xs == xs[..j] + [xs[j]] + xs[j + 1..];
    assert xs[..j][i] in xs[..j];
  }

  lemma {:induction false} CountedOnce<T>(xs: seq<T>, x: T)
    requires Distinct(xs)
    ensures multiset(xs)[x] <= 1
  {
    if xs != [] {
      CountedOnce(xs[1..], x);
      assert xs == [xs[0]] + xs[1..];
      assert xs[0] !in xs[1..];
    }
  }

  function InOrder(byId: map<string, seq<Entry>>, order: seq<string>): (groups: seq<seq<Entry>>)
    requires forall i :: 0 <= i < |order| ==> order[i] in byId
    ensures |groups| == |order| && forall i :: 0 <= i < |order| ==> groups[i] == byId[order[i]]
  {
    seq(|order|, i requires 0 <= i < |order| => byId[order[i]])
  }

  lemma GroupsInOrder(entries: seq<Entry>, kindOf: Entry -> Kind, byId: map<string, seq<Entry>>, order: seq<string>)
    requires Filled(entries, kindOf, byId) && forall i :: 0 <= i < |order| ==> order[i] in byId
    ensures InOrder(byId, order) == Groups(entries, kindOf, order)
  {
  }

  function Sources(part: seq<Entry>, normalize: string -> string): seq<string> {
    seq(|part|, k requires 0 <= k < |part| => normalize(part[k].source))
  }

  /** Every configured group takes the part at its own position. */
  function Named(parts: seq<seq<Entry>>, normalize: string -> string): (partitions: seq<Partition>)
    requires |parts| == PARTITIONS
    ensures |partitions| == |GROUPS| == PARTITIONS
    ensures forall p :: 0 <= p < PARTITIONS ==>
      partitions[p] == Partition(GROUPS[p], Sources(parts[p], normalize))
  {
    seq(|GROUPS|, p requires 0 <= p < |GROUPS| => Partition(GROUPS[p], Sources(parts[p], normalize)))
  }

  /** The sources of all partitions. */
  function AllSources(partitions: seq<Partition>): seq<string> {
    if partitions == [] then [] else partitions[0].sources + AllSources(partitions[1..])
  }

  lemma {:induction false} SourcesOfParts(partitions: seq<Partition>, parts: seq<seq<Entry>>, normalize: string -> string)
    requires |partitions| == |parts|
    requires forall p :: 0 <= p < |parts| ==> partitions[p].sources == Sources(parts[p], normalize)
    ensures AllSources(partitions) == Sources(Flatten(parts), normalize)
  {
    if parts != [] {
      SourcesOfParts(partitions[1..], parts[1..], normalize);
      SourcesAppend(parts[0], Flatten(parts[1..]), normalize);
    }
  }

  lemma SourcesAppend(a: seq<Entry>, b: seq<Entry>, normalize: string -> string)
    ensures Sources(a + b, normalize) == Sources(a, normalize) + Sources(b, normalize)
  {
  }

  lemma SourcesOfShuffle(a: seq<Entry>, b: seq<Entry>, normalize: string -> string)
    requires multiset(a) == multiset(b)
    ensures multiset(Sources(a, normalize)) == multiset(Sources(b, normalize))
  {
    var f := (part: seq<Entry>) => Sources(part, normalize);
    forall x, y ensures f(x + y) == f(x) + f(y) {
      SourcesAppend(x, y, normalize);
    }
    ShuffleThrough(f, a, b);
  }

  lemma FewerCounted<T>(a: multiset<T>, b: multiset<T>, x: T)
    requires a <= b && a[x] < b[x]
    ensures |a| < |b|
  {
    assert b == a + (b - a);
    assert x in b - a;
  }

  /** A dropped entry leaves one source fewer. */
  lemma DroppedIsMissed(entries: seq<Entry>, kindOf: Entry -> Kind, ids: seq<string>, e: Entry)
    requires AreIds(entries, kindOf, ids) && e in entries && kindOf(e) == Extension("")
    ensures |Flatten(Parts(entries, kindOf, ids))| < |entries|
  {
    var kept := Flatten(Parts(entries, kindOf, ids));
    forall x ensures multiset(kept)[x] <= multiset(entries)[x] {
      CountOfParts(entries, kindOf, ids, x);
    }
    CountOfParts(entries, kindOf, ids, e);
    FewerCounted(multiset(kept), multiset(entries), e);
  }

  /** The partitions hold the normalised source of every entry as often as there are such entries,
      exactly when no entry has an empty extension id. */
  lemma SourcesConserve(entries: seq<Entry>, sorted: seq<Entry>, kindOf: Entry -> Kind, ids: seq<string>,
                        normalize: string -> string)
    requires AreIds(sorted, kindOf, ids) && multiset(sorted) == multiset(entries)
    ensures multiset(AllSources(Named(Parts(sorted, kindOf, ids), normalize))) == multiset(Sources(entries, normalize))
      <==> forall e :: e in entries ==> kindOf(e) != Extension("")
  {
    var parts := Parts(sorted, kindOf, ids);
    var kept := Flatten(parts);
    SourcesOfParts(Named(parts, normalize), parts, normalize);
    forall e ensures e in entries <==> e in sorted {
      assert e in multiset(entries) <==> e in multiset(sorted);
    }
    if e :| e in sorted && kindOf(e) == Extension("") {
      DroppedIsMissed(sorted, kindOf, ids, e);
      assert |multiset(Sources(kept, normalize))| < |multiset(entries)| == |multiset(Sources(entries, normalize))|;
    } else {
      PartsConserve(sorted, kindOf, ids);
      SourcesOfShuffle(kept, entries, normalize);
    }
  }

  lemma PartitionsConserve(entries: seq<Entry>, publicNames: set<string>,
      sortEntries: seq<Entry> -> seq<Entry>, sortIds: seq<string> -> seq<string>, normalize: string -> string)
    requires Permutes(sortEntries) && Permutes(sortIds)
    ensures var sorted, kindOf := sortEntries(entries), Classify(publicNames);
      var ids := sortIds(FirstIds(sorted, kindOf));
      && AreIds(sorted, kindOf, ids)
      && (multiset(AllSources(Named(Parts(sorted, kindOf, ids), normalize))) == multiset(Sources(entries, normalize))
          <==> forall e :: e in entries ==> KindOf(e, publicNames) != Extension(""))
  {
    var sorted, kindOf := sortEntries(entries), Classify(publicNames);
    var keys := FirstIds(sorted, kindOf);
    FirstIdsAreIds(sorted, kindOf);
    SortedIds(sorted, kindOf, keys, sortIds(keys));
    SourcesConserve(entries, sorted, kindOf, sortIds(keys), normalize);
    assert forall e :: kindOf(e) == KindOf(e, publicNames);
  }

  /** The eight partitions before they are named. */
  method BuildParts(sortedEntries: seq<Entry>, publicNames: set<string>, sortIds: seq<string> -> seq<string>)
    returns (parts: seq<seq<Entry>>)
    requires Permutes(sortIds)
    ensures var kindOf := Classify(publicNames);
      parts == Parts(sortedEntries, kindOf, sortIds(FirstIds(sortedEntries, kindOf)))
  {
    var kindOf := Classify(publicNames);
    var baseEntries := OfKind(sortedEntries, kindOf, Base);
    var pluginSdkPartitions :=
      [OfKind(sortedEntries, kindOf, PublicSdk), OfKind(sortedEntries, kindOf, PrivateSdk)];
    var keys, byId := ExtensionEntriesById(sortedEntries, publicNames);
    var order := sortIds(keys);
    SameMembers(order, keys);
    var groups := InOrder(byId, order);
    GroupsInOrder(sortedEntries, kindOf, byId, order);
    var extensionPartitions := PartitionGroups(groups, EXTENSION_PARTITIONS);
    parts := [baseEntries] + pluginSdkPartitions + extensionPartitions.value;
  }

  /** buildUnifiedDeclarationPartitions, for any collation and any way to normalise a source path. */
  method BuildUnifiedDeclarationPartitions(entries: seq<Entry>, publicNames: set<string>,
      sortEntries: seq<Entry> -> seq<Entry>, sortIds: seq<string> -> seq<string>, normalize: string -> string)
    returns (partitions: seq<Partition>)
    requires Permutes(sortEntries) && Permutes(sortIds)
    ensures var sorted, kindOf := sortEntries(entries), Classify(publicNames);
      partitions == Named(Parts(sorted, kindOf, sortIds(FirstIds(sorted, kindOf))), normalize)
    ensures multiset(AllSources(partitions)) == multiset(Sources(entries, normalize))
      <==> forall e :: e in entries ==> KindOf(e, publicNames) != Extension("")
  {
    var parts := BuildParts(sortEntries(entries), publicNames, sortIds);
    partitions := Named(parts, normalize);
    PartitionsConserve(entries, publicNames, sortEntries, sortIds, normalize);
  }
}
