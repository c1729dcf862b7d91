/** The declaration partitions of tsdown.config.ts in terms of the entries' names alone. */
module DeclarationNames {
  import opened Prelude
  import opened Sequences
  import opened Balancing
  import opened DeclarationPartitions

  /** filter. */
  function Kept(entries: seq<Entry>, keep: Entry -> bool): seq<Entry> {
    if entries == [] then []
    else (if keep(entries[0]) then [entries[0]] else []) + Kept(entries[1..], keep)
  }

  lemma Regroup<T>(a: seq<T>, b: seq<T>, c: seq<T>)
    ensures (a + b) + c == a + (b + c)
  {
  }

  lemma {:induction false} KeptAppend(a: seq<Entry>, b: seq<Entry>, keep: Entry -> bool)
    ensures Kept(a + b, keep) == Kept(a, keep) + Kept(b, keep)
    decreases |a|
  {
    if a == [] {
      assert a + b == b;
    } else {
      var rest := a[1..];
      assert (a + b)[0] == a[0] && (a + b)[1..] == rest + b;
      KeptAppend(rest, b, keep);
      Regroup(if keep(a[0]) then [a[0]] else [], Kept(rest, keep), Kept(b, keep));
    }
  }

  lemma {:induction false} OfKindIsKept(entries: seq<Entry>, kindOf: Entry -> Kind, kind: Kind, keep: Entry -> bool)
    requires forall e :: keep(e) <==> kindOf(e) == kind
    ensures OfKind(entries, kindOf, kind) == Kept(entries, keep)
  {
    if entries != [] {
      var n := |entries| - 1;
      OfKindIsKept(entries[..n], kindOf, kind, keep);
      assert entries == entries[..n] + [entries[n]] && [entries[n]][1..] == [];
      KeptAppend(entries[..n], [entries[n]], keep);
    }
  }

  // The kinds, by name.

  /** The entry belongs to the extension with this id: "extensions/id" or something below it. */
  predicate InExtension(name: string, id: string) {
    name == "extensions/" + id || "extensions/" + id + "/" <= name
  }

  predicate InSdk(name: string) {
    "plugin-sdk/" <= name
  }

  predicate IsPublic(name: string, publicNames: set<string>) {
    exists n :: n in publicNames && name == "plugin-sdk/" + n
  }

  lemma {:induction false} UpToSlashIsFirstPart(s: string, id: string)
    requires '/' !in id
    ensures UpToSlash(s) == id <==> s == id || id + "/" <= s
    decreases |s|
  {
    if s != "" && s[0] != '/' && id != "" && id[0] == s[0] {
      UpToSlashIsFirstPart(s[1..], id[1..]);
      assert s == [s[0]] + s[1..] && id == [s[0]] + id[1..];
      assert id + "/" == [s[0]] + (id[1..] + "/");
    } else if id != "" && s != "" && s[0] != '/' {
      assert id[0] != s[0];
    }
  }

  lemma PrefixThen(name: string, first: string, second: string)
    ensures first + second <= name <==> first <= name && second <= name[|first|..]
    ensures name == first + second <==> first <= name && second == name[|first|..]
  {
    if first <= name {
      assert name == first + name[|first|..];
    }
    if first + second <= name {
      assert name[|first|..|first + second|] == second;
    }
  }

  lemma NotBoth(name: string)
    ensures !("plugin-sdk/" <= name && "extensions/" <= name)
  {
    if "plugin-sdk/" <= name {
      assert name[0] == 'p';
    }
  }

  /** An entry is of the extension whose id is the second part of its name. */
  lemma ExtensionByName(e: Entry, publicNames: set<string>, id: string)
    requires '/' !in id
    ensures KindOf(e, publicNames) == Extension(id) <==> InExtension(e.name, id)
  {
    NotBoth(e.name);
    PrefixThen(e.name, "extensions/", id);
    PrefixThen(e.name, "extensions/", id + "/");
    assert "extensions/" + (id + "/") == "extensions/" + id + "/";
    if "extensions/" <= e.name {
      UpToSlashIsFirstPart(e.name[|"extensions/"|..], id);
    }
  }

  lemma SdkByName(e: Entry, publicNames: set<string>)
    ensures KindOf(e, publicNames) == PublicSdk <==> IsPublic(e.name, publicNames)
    ensures KindOf(e, publicNames) == PrivateSdk <==> InSdk(e.name) && !IsPublic(e.name, publicNames)
    ensures KindOf(e, publicNames) == Base <==> !InSdk(e.name) && !("extensions/" <= e.name)
  {
    NotBoth(e.name);
    if InSdk(e.name) {
      var n := e.name[|"plugin-sdk/"|..];
      assert e.name == "plugin-sdk/" + n;
      assert forall m :: e.name == "plugin-sdk/" + m ==> m == n by {
        forall m | e.name == "plugin-sdk/" + m ensures m == n {
          PrefixThen(e.name, "plugin-sdk/", m);
        }
      }
    }
  }

  // Where they go.

  ghost predicate StandsIn<T>(part: seq<T>, before: seq<T>, group: seq<T>, after: seq<T>) {
    part == before + group + after
  }

  /** A group stands whole in the part it is assigned to. */
  lemma {:induction false} GroupIsWhole<T>(groups: seq<seq<T>>, a: seq<nat>, m: nat, i: nat)
    returns (before: seq<T>, after: seq<T>)
    requires Assigns(groups, a, m) && i < |groups|
    ensures StandsIn(Spread(groups, a, m)[a[i]], before, groups[i], after)
    decreases |groups|
  {
    var n := |groups| - 1;
    var parts := Spread(groups[..n], a[..n], m);
    if i == n {
      before, after := parts[a[n]], [];
    } else {
      before, after := GroupIsWhole(groups[..n], a[..n], m, i);
      if a[i] == a[n] {
        after := after + groups[n];
      }
    }
  }

  lemma StandingSources(part: seq<Entry>, before: seq<Entry>, group: seq<Entry>, after: seq<Entry>, normalize: string -> string)
    requires StandsIn(part, before, group, after)
    ensures StandsIn(Sources(part, normalize), Sources(before, normalize), Sources(group, normalize), Sources(after, normalize))
  {
    SourcesAppend(before + group, after, normalize);
    SourcesAppend(before, group, normalize);
  }

  predicate IsBase(name: string) {
    !InSdk(name) && !("extensions/" <= name)
  }

  lemma KeptBase(sorted: seq<Entry>, publicNames: set<string>)
    ensures OfKind(sorted, Classify(publicNames), Base) == Kept(sorted, (e: Entry) => IsBase(e.name))
  {
    forall e: Entry ensures Classify(publicNames)(e) == Base <==> IsBase(e.name) {
      SdkByName(e, publicNames);
    }
    OfKindIsKept(sorted, Classify(publicNames), Base, (e: Entry) => IsBase(e.name));
  }

  lemma KeptPublic(sorted: seq<Entry>, publicNames: set<string>)
    ensures OfKind(sorted, Classify(publicNames), PublicSdk) == Kept(sorted, (e: Entry) => IsPublic(e.name, publicNames))
  {
    forall e: Entry ensures Classify(publicNames)(e) == PublicSdk <==> IsPublic(e.name, publicNames) {
      SdkByName(e, publicNames);
    }
    OfKindIsKept(sorted, Classify(publicNames), PublicSdk, (e: Entry) => IsPublic(e.name, publicNames));
  }

  lemma KeptPrivate(sorted: seq<Entry>, publicNames: set<string>)
    ensures OfKind(sorted, Classify(publicNames), PrivateSdk)
         == Kept(sorted, (e: Entry) => InSdk(e.name) && !IsPublic(e.name, publicNames))
  {
    forall e: Entry ensures Classify(publicNames)(e) == PrivateSdk <==> InSdk(e.name) && !IsPublic(e.name, publicNames) {
      SdkByName(e, publicNames);
    }
    OfKindIsKept(sorted, Classify(publicNames), PrivateSdk, (e: Entry) => InSdk(e.name) && !IsPublic(e.name, publicNames));
  }

  lemma FirstParts(sorted: seq<Entry>, kindOf: Entry -> Kind, ids: seq<string>, normalize: string -> string)
    ensures var partitions := Named(Parts(sorted, kindOf, ids), normalize);
      && partitions[0] == Partition("openclaw-dts-base", Sources(OfKind(sorted, kindOf, Base), normalize))
      && partitions[1] == Partition("openclaw-dts-plugin-sdk-1", Sources(OfKind(sorted, kindOf, PublicSdk), normalize))
      && partitions[2] == Partition("openclaw-dts-plugin-sdk-2", Sources(OfKind(sorted, kindOf, PrivateSdk), normalize))
  {
  }

  /** The base and the plugin SDK: who is in the first three partitions, in the order of the names. */
  lemma BaseAndSdkByName(sorted: seq<Entry>, publicNames: set<string>, ids: seq<string>, normalize: string -> string)
    ensures var partitions := Named(Parts(sorted, Classify(publicNames), ids), normalize);
      && partitions[0] == Partition("openclaw-dts-base", Sources(Kept(sorted, (e: Entry) => IsBase(e.name)), normalize))
      && partitions[1] == Partition("openclaw-dts-plugin-sdk-1",
           Sources(Kept(sorted, (e: Entry) => IsPublic(e.name, publicNames)), normalize))
      && partitions[2] == Partition("openclaw-dts-plugin-sdk-2",
           Sources(Kept(sorted, (e: Entry) => InSdk(e.name) && !IsPublic(e.name, publicNames)), normalize))
  {
    FirstParts(sorted, Classify(publicNames), ids, normalize);
    KeptBase(sorted, publicNames);
    KeptPublic(sorted, publicNames);
    KeptPrivate(sorted, publicNames);
  }

  lemma GroupByName(sorted: seq<Entry>, publicNames: set<string>, id: string)
    requires '/' !in id
    ensures OfKind(sorted, Classify(publicNames), Extension(id)) == Kept(sorted, (e: Entry) => InExtension(e.name, id))
  {
    forall e: Entry ensures Classify(publicNames)(e) == Extension(id) <==> InExtension(e.name, id) {
      ExtensionByName(e, publicNames, id);
    }
    OfKindIsKept(sorted, Classify(publicNames), Extension(id), (e: Entry) => InExtension(e.name, id));
  }

  lemma ExtensionName(k: nat)
    requires k < 5
    ensures GROUPS[k + 3] == "openclaw-dts-extensions-" + ["12345"[k]]
  {
  }

  lemma GroupOfId(sorted: seq<Entry>, publicNames: set<string>, ids: seq<string>, id: string) returns (i: nat)
    requires AreIds(sorted, Classify(publicNames), ids)
    requires id != "" && '/' !in id && exists e :: e in sorted && InExtension(e.name, id)
    ensures i < |ids|
    ensures Groups(sorted, Classify(publicNames), ids)[i] == Kept(sorted, (e: Entry) => InExtension(e.name, id))
  {
    var e :| e in sorted && InExtension(e.name, id);
    ExtensionByName(e, publicNames, id);
    assert id in ids;
    i :| 0 <= i < |ids| && ids[i] == id;
    GroupByName(sorted, publicNames, id);
  }

  /** All entries of one extension stand together, in the order of their names, in one of the five
      partitions for extensions. */
  lemma ExtensionStaysTogether(
      sorted: seq<Entry>, publicNames: set<string>, ids: seq<string>, normalize: string -> string, id: string)
    returns (k: nat, before: seq<string>, after: seq<string>)
    requires AreIds(sorted, Classify(publicNames), ids)
    requires id != "" && '/' !in id && exists e :: e in sorted && InExtension(e.name, id)
    ensures k < 5
    ensures var partition := Named(Parts(sorted, Classify(publicNames), ids), normalize)[k + 3];
      && partition.name == "openclaw-dts-extensions-" + ["12345"[k]]
      && StandsIn(partition.sources, before, Sources(Kept(sorted, (e: Entry) => InExtension(e.name, id)), normalize), after)
  {
    var i := GroupOfId(sorted, publicNames, ids, id);
    var groups := Groups(sorted, Classify(publicNames), ids);
    var a := Greedy(groups, EXTENSION_PARTITIONS);
    k := a[i];
    var b, c := GroupIsWhole(groups, a, EXTENSION_PARTITIONS, i);
    StandingSources(Parts(sorted, Classify(publicNames), ids)[k + 3], b, groups[i], c, normalize);
    before, after := Sources(b, normalize), Sources(c, normalize);
    ExtensionName(k);
  }

  /** The same of what buildUnifiedDeclarationPartitions returns, for any collation. */
  lemma ReturnedExtensionStaysTogether(entries: seq<Entry>, publicNames: set<string>,
      sortEntries: seq<Entry> -> seq<Entry>, sortIds: seq<string> -> seq<string>, normalize: string -> string, id: string)
    returns (k: nat, before: seq<string>, after: seq<string>)
    requires Permutes(sortEntries) && Permutes(sortIds)
    requires id != "" && '/' !in id && exists e :: e in entries && InExtension(e.name, id)
    ensures k < 5
    ensures var sorted, kindOf := sortEntries(entries), Classify(publicNames);
      var partition := Named(Parts(sorted, kindOf, sortIds(FirstIds(sorted, kindOf))), normalize)[k + 3];
      && partition.name == "openclaw-dts-extensions-" + ["12345"[k]]
      && StandsIn(partition.sources, before, Sources(Kept(sorted, (e: Entry) => InExtension(e.name, id)), normalize), after)
  {
    var sorted, kindOf := sortEntries(entries), Classify(publicNames);
    var e :| e in entries && InExtension(e.name, id);
    assert e in multiset(entries) && e in multiset(sorted);
    PartitionsConserve(entries, publicNames, sortEntries, sortIds, normalize);
    k, before, after := ExtensionStaysTogether(sorted, publicNames, sortIds(FirstIds(sorted, kindOf)), normalize, id);
  }

  /** Every group goes to the first of the parts that are smallest when its turn comes. */
  lemma {:induction false} GreedyTakesTheFirstLeast<T>(groups: seq<seq<T>>, m: nat, i: nat)
    requires m > 0 && i < |groups|
    ensures var t, parts := Greedy(groups, m)[i], Spread(groups[..i], Greedy(groups, m)[..i], m);
      forall k :: 0 <= k < m ==> |parts[t]| <= |parts[k]| && (k < t ==> |parts[t]| < |parts[k]|)
    decreases |groups|
  {
    var n := |groups| - 1;
    if i < n {
      GreedyTakesTheFirstLeast(groups[..n], m, i);
      assert groups[..n][..i] == groups[..i];
      assert Greedy(groups, m)[..i] == Greedy(groups[..n], m)[..i];
    } else {
      assert Greedy(groups, m)[..n] == Greedy(groups[..n], m);
    }
  }
}
