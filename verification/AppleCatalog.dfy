/** The catalog builder of scripts/apple-app-i18n.ts. */
module AppleCatalog {
  import opened Prelude
  import opened Sequences
  import opened Selection

  datatype Phase = Translated | New | Other(name: string)

  datatype StringUnit = StringUnit(state: Phase, value: string)

  /** The strings of a catalog: a unit per source text and locale. */
  type Strings = map<string, map<string, StringUnit>>

  datatype Entry = Entry(id: string, source: string)

  /** A locale's translations by entry id, in the order of the object's entries. */
  datatype Artifact = Artifact(locale: string, translations: seq<(string, string)>)

  /** A live source text with translations that differ. */
  datatype Contradiction = Contradiction(locale: string, source: string, translations: set<string>)

  const ENGLISH := "en"

  /** The entries, which of them the catalog includes, and how their texts appear in it. */
  datatype Inventory = Inventory(entries: seq<Entry>, includes: Entry -> bool, value: string -> string)

  /** The entry an id stands for: the last one with it. */
  function EntryOf(entries: seq<Entry>, id: string): (entry: Option<Entry>)
    ensures entry.Some? ==> entry.value in entries && entry.value.id == id
  {
    if entries == [] then None
    else if entries[|entries| - 1].id == id then Some(entries[|entries| - 1])
    else EntryOf(entries[..|entries| - 1], id)
  }

  predicate IsLive(inventory: Inventory, id: string) {
    exists i :: 0 <= i < |inventory.entries| && inventory.entries[i].id == id && inventory.includes(inventory.entries[i])
  }

  predicate IsSource(inventory: Inventory, source: string) {
    exists i :: 0 <= i < |inventory.entries|
      && inventory.includes(inventory.entries[i]) && inventory.value(inventory.entries[i].source) == source
  }

  /** The artifact that speaks for a locale: the last one for it. */
  function ArtifactOf(artifacts: seq<Artifact>, locale: string): (translations: seq<(string, string)>) {
    if artifacts == [] then []
    else if artifacts[|artifacts| - 1].locale == locale then artifacts[|artifacts| - 1].translations
    else ArtifactOf(artifacts[..|artifacts| - 1], locale)
  }

  /** The source an artifact's id is filed under. */
  function FiledUnder(inventory: Inventory, id: string): Option<string> {
    var entry := EntryOf(inventory.entries, id);
    if entry.None? || !IsLive(inventory, id) then None else Some(inventory.value(entry.value.source))
  }

  /** The translations filed under a source, in order. */
  function CandidatesIn(inventory: Inventory, translations: seq<(string, string)>, source: string): seq<string> {
    if translations == [] then []
    else
      var n := |translations| - 1;
      var before := CandidatesIn(inventory, translations[..n], source);
      if FiledUnder(inventory, translations[n].0) == Some(source) then before + [inventory.value(translations[n].1)] else before
  }

  function CandidatesFor(inventory: Inventory, artifacts: seq<Artifact>, locale: string, source: string): seq<string> {
    CandidatesIn(inventory, ArtifactOf(artifacts, locale), source)
  }

  /** A unit that is kept whatever the translations say. */
  function Shipped(existing: Strings, source: string, locale: string): Option<StringUnit> {
    if source in existing && locale in existing[source]
       && existing[source][locale].value != "" && existing[source][locale].state == Translated
    then Some(existing[source][locale])
    else None
  }

  function UnitFor(existing: Strings, source: string, locale: string, candidates: seq<string>): StringUnit {
    var shipped := Shipped(existing, source, locale);
    if shipped.Some? then shipped.value
    else if locale == ENGLISH then StringUnit(Translated, source)
    else
      var value := Choose(source, candidates);
      StringUnit(if value == source then New else Translated, value)
  }

  /** Exactly the live sources, each in exactly the required locales, each unit as UnitFor says. */
  ghost predicate IsCatalog(
      inventory: Inventory, artifacts: seq<Artifact>, locales: seq<string>, existing: Strings, strings: Strings)
  {
    && (forall source :: source in strings <==> IsSource(inventory, source))
    && forall source :: source in strings ==>
         && (forall locale :: locale in strings[source] <==> locale in locales)
         && forall locale :: locale in strings[source] ==>
              strings[source][locale] == UnitFor(existing, source, locale, CandidatesFor(inventory, artifacts, locale, source))
  }

  // What a unit is, in terms of the inventory and the artifacts alone.

  /** The m-th entry is the one its id stands for. */
  predicate Stands(entries: seq<Entry>, m: nat) {
    m < |entries| && forall n :: m < n < |entries| ==> entries[n].id != entries[m].id
  }

  lemma {:induction false} EntryStands(entries: seq<Entry>, id: string, m: nat)
    requires Stands(entries, m) && entries[m].id == id
    ensures EntryOf(entries, id) == Some(entries[m])
    decreases |entries|
  {
    if m < |entries| - 1 {
      EntryStands(entries[..|entries| - 1], id, m);
    }
  }

  lemma {:induction false} StandingEntry(entries: seq<Entry>, id: string) returns (m: nat)
    requires EntryOf(entries, id).Some?
    ensures Stands(entries, m) && EntryOf(entries, id) == Some(entries[m])
    decreases |entries|
  {
    var n := |entries| - 1;
    if entries[n].id == id {
      m := n;
    } else {
      m := StandingEntry(entries[..n], id);
    }
  }

  /** An id is filed under a source if the entry it stands for has that source, and some entry with
      the id is included. */
  lemma FiledExactly(inventory: Inventory, id: string, source: string)
    ensures FiledUnder(inventory, id) == Some(source) <==>
      && (exists m: nat :: Stands(inventory.entries, m) && inventory.entries[m].id == id
                      && inventory.value(inventory.entries[m].source) == source)
      && (exists m :: 0 <= m < |inventory.entries| && inventory.entries[m].id == id && inventory.includes(inventory.entries[m]))
  {
    if FiledUnder(inventory, id) == Some(source) {
      var m := StandingEntry(inventory.entries, id);
    }
    forall m: nat | Stands(inventory.entries, m) && inventory.entries[m].id == id
      ensures EntryOf(inventory.entries, id) == Some(inventory.entries[m])
    {
      EntryStands(inventory.entries, id, m);
    }
  }

  lemma {:induction false} CandidatesExactly(inventory: Inventory, translations: seq<(string, string)>, source: string, v: string)
    ensures v in CandidatesIn(inventory, translations, source) <==>
      exists j :: 0 <= j < |translations|
                  && FiledUnder(inventory, translations[j].0) == Some(source) && inventory.value(translations[j].1) == v
  {
    if translations != [] {
      var n := |translations| - 1;
      CandidatesExactly(inventory, translations[..n], source, v);
      assert forall j :: 0 <= j < n ==> translations[..n][j] == translations[j];
    }
  }

  lemma {:induction false} LastArtifactSpeaks(artifacts: seq<Artifact>, locale: string, k: nat)
    requires k < |artifacts| && artifacts[k].locale == locale
    requires forall j :: k < j < |artifacts| ==> artifacts[j].locale != locale
    ensures ArtifactOf(artifacts, locale) == artifacts[k].translations
  {
    if k < |artifacts| - 1 {
      LastArtifactSpeaks(artifacts[..|artifacts| - 1], locale, k);
    }
  }

  lemma {:induction false} NobodySpeaks(artifacts: seq<Artifact>, locale: string)
    requires forall j :: 0 <= j < |artifacts| ==> artifacts[j].locale != locale
    ensures ArtifactOf(artifacts, locale) == []
  {
    if artifacts != [] {
      NobodySpeaks(artifacts[..|artifacts| - 1], locale);
    }
  }

  /** What stands in a built catalog: the shipped unit if there was one; for English the source;
      else the choice among the candidates, which counts as translated exactly if it is not the
      source, and as new if there is none. */
  lemma BuiltUnits(
      inventory: Inventory, artifacts: seq<Artifact>, locales: seq<string>, existing: Strings, built: Strings,
      source: string, locale: string)
    requires IsCatalog(inventory, artifacts, locales, existing, built)
    requires IsSource(inventory, source) && locale in locales
    ensures source in built && locale in built[source]
    ensures var unit, candidates := built[source][locale], CandidatesFor(inventory, artifacts, locale, source);
      if source in existing && locale in existing[source]
         && existing[source][locale].state == Translated && existing[source][locale].value != ""
      then unit == existing[source][locale]
      else if locale == "en" then unit == StringUnit(Translated, source)
      else if forall v :: v in candidates ==> v == source then unit == StringUnit(New, source)
      else unit.state == Translated && unit.value in candidates && unit.value != source
           && forall v :: v in candidates && v != source && v != unit.value ==>
                && multiset(candidates)[v] <= multiset(candidates)[unit.value]
                && (multiset(candidates)[v] == multiset(candidates)[unit.value] ==> exists i :: FirstDifference(unit.value, v, i))
  {
    var candidates := CandidatesFor(inventory, artifacts, locale, source);
    if candidates != [] {
      ChoosesMostFrequent(source, candidates);
    }
  }

  lemma UnitIsStable(existing: Strings, built: Strings, source: string, locale: string, candidates: seq<string>)
    requires source in built && locale in built[source]
    requires built[source][locale] == UnitFor(existing, source, locale, candidates)
    ensures UnitFor(built, source, locale, candidates) == built[source][locale]
  {
  }

  /** Rebuilding a catalog from its own output changes nothing. */
  lemma RebuildChangesNothing(
      inventory: Inventory, artifacts: seq<Artifact>, locales: seq<string>, existing: Strings, built: Strings, rebuilt: Strings)
    requires IsCatalog(inventory, artifacts, locales, existing, built)
    requires IsCatalog(inventory, artifacts, locales, built, rebuilt)
    ensures rebuilt == built
  {
    assert rebuilt.Keys == built.Keys;
    forall source | source in built ensures rebuilt[source] == built[source] {
      SourceIsStable(inventory, artifacts, locales, existing, built, rebuilt, source);
    }
  }

  lemma SourceIsStable(inventory: Inventory, artifacts: seq<Artifact>, locales: seq<string>,
      existing: Strings, built: Strings, rebuilt: Strings, source: string)
    requires IsCatalog(inventory, artifacts, locales, existing, built)
    requires IsCatalog(inventory, artifacts, locales, built, rebuilt)
    requires source in built && source in rebuilt
    ensures rebuilt[source] == built[source]
  {
    assert rebuilt[source].Keys == built[source].Keys;
    forall locale | locale in built[source] ensures rebuilt[source][locale] == built[source][locale] {
      UnitIsStable(existing, built, source, locale, CandidatesFor(inventory, artifacts, locale, source));
    }
  }

  /** A shipped, translated value of a live source survives in every required locale, whatever
      the new translations are; and a value is replaced only if it was not shipped. */
  lemma ShippedIsNeverOverwritten(
      inventory: Inventory, artifacts: seq<Artifact>, locales: seq<string>, existing: Strings, built: Strings,
      source: string, locale: string)
    requires IsCatalog(inventory, artifacts, locales, existing, built)
    requires IsSource(inventory, source) && locale in locales && Shipped(existing, source, locale).Some?
    ensures source in built && locale in built[source] && built[source][locale] == existing[source][locale]
    ensures Shipped(built, source, locale) == Shipped(existing, source, locale)
  {
  }

  /** catalogs[k + 1] is built from catalogs[k], each time with an inventory and artifacts of its own. */
  ghost predicate IsHistory(
      inventories: seq<Inventory>, artifacts: seq<seq<Artifact>>, locales: seq<string>, catalogs: seq<Strings>)
  {
    && |catalogs| == |inventories| + 1 == |artifacts| + 1
    && forall k :: 0 <= k < |inventories| ==>
         IsCatalog(inventories[k], artifacts[k], locales, catalogs[k], catalogs[k + 1])
  }

  /** Over any number of rebuilds, with whatever translations, a shipped value stays for as long as
      its source is live. */
  lemma {:induction false} ShippedSurvivesRebuilds(
      inventories: seq<Inventory>, artifacts: seq<seq<Artifact>>, locales: seq<string>, catalogs: seq<Strings>,
      source: string, locale: string, n: nat)
    requires IsHistory(inventories, artifacts, locales, catalogs) && n <= |inventories|
    requires locale in locales && forall k :: 0 <= k < n ==> IsSource(inventories[k], source)
    requires Shipped(catalogs[0], source, locale).Some?
    ensures Shipped(catalogs[n], source, locale) == Shipped(catalogs[0], source, locale)
    decreases n
  {
    if n > 0 {
      ShippedSurvivesRebuilds(inventories, artifacts, locales, catalogs, source, locale, n - 1);
      ShippedIsNeverOverwritten(inventories[n - 1], artifacts[n - 1], locales, catalogs[n - 1], catalogs[n - 1 + 1], source, locale);
    }
  }

  lemma {:induction false} CandidatesAppend(
      inventory: Inventory, a: seq<(string, string)>, b: seq<(string, string)>, source: string)
    ensures CandidatesIn(inventory, a + b, source) == CandidatesIn(inventory, a, source) + CandidatesIn(inventory, b, source)
    decreases |b|
  {
    if b == [] {
      assert a + b == a;
    } else {
      var n := |b| - 1;
      assert (a + b)[..|a + b| - 1] == a + b[..n];
      CandidatesAppend(inventory, a, b[..n], source);
    }
  }

  /** The order in which an artifact lists its translations does not matter. */
  lemma OrderDoesNotMatter(
      inventory: Inventory, existing: Strings, a: seq<(string, string)>, b: seq<(string, string)>, source: string, locale: string)
    requires multiset(a) == multiset(b)
    ensures UnitFor(existing, source, locale, CandidatesIn(inventory, a, source))
         == UnitFor(existing, source, locale, CandidatesIn(inventory, b, source))
  {
    var candidates := (ts: seq<(string, string)>) => CandidatesIn(inventory, ts, source);
    assert Distributes(candidates) by {
      forall x, y ensures candidates(x + y) == candidates(x) + candidates(y) {
        CandidatesAppend(inventory, x, y, source);
      }
    }
    ShuffleThrough(candidates, a, b);
    ChooseIgnoresOrder(source, CandidatesIn(inventory, a, source), CandidatesIn(inventory, b, source));
  }

  // The builder as the source runs it.

  /** bySource files every source's candidates. */
  ghost predicate Files(inventory: Inventory, translations: seq<(string, string)>, bySource: map<string, seq<string>>) {
    forall source :: CandidatesIn(inventory, translations, source) == if source in bySource then bySource[source] else []
  }

  function FileOne(inventory: Inventory, bySource: map<string, seq<string>>, t: (string, string)): map<string, seq<string>> {
    var filed := FiledUnder(inventory, t.0);
    if filed.None? then bySource
    else
      var values := if filed.value in bySource then bySource[filed.value] else [];
      bySource[filed.value := values + [inventory.value(t.1)]]
  }

  lemma FileNext(inventory: Inventory, translations: seq<(string, string)>, i: nat, bySource: map<string, seq<string>>)
    requires i < |translations| && Files(inventory, translations[..i], bySource)
    ensures Files(inventory, translations[..i + 1], FileOne(inventory, bySource, translations[i]))
  {
    assert translations[..i + 1][..i] == translations[..i];
  }

  method FileTranslations(inventory: Inventory, translations: seq<(string, string)>) returns (bySource: map<string, seq<string>>)
    ensures Files(inventory, translations, bySource)
  {
    bySource := map[];
    var i := 0;
    while i < |translations|
      invariant i <= |translations| && Files(inventory, translations[..i], bySource)
    {
      var (id, translated) := translations[i];
      var filed := FiledUnder(inventory, id);
      FileNext(inventory, translations, i, bySource);
      if filed.Some? {
        var values := if filed.value in bySource then bySource[filed.value] else [];
        bySource := bySource[filed.value := values + [inventory.value(translated)]];
      }
      i := i + 1;
    }
    PrefixAll(translations);
  }

  /** The live sources, each once. */
  method LiveSources(inventory: Inventory) returns (sources: seq<string>)
    ensures forall source :: source in sources <==> IsSource(inventory, source)
  {
    sources := [];
    var i := 0;
    while i < |inventory.entries|
      invariant i <= |inventory.entries|
      invariant forall source :: source in sources <==>
        exists j :: 0 <= j < i && inventory.includes(inventory.entries[j]) && inventory.value(inventory.entries[j].source) == source
    {
      var entry := inventory.entries[i];
      var source := inventory.value(entry.source);
      if inventory.includes(entry) && source !in sources {
        sources := sources + [source];
      }
      i := i + 1;
    }
  }

  /** Two different translations compete. */
  predicate Contradicts(candidates: seq<string>) {
    exists i, j :: 0 <= i < j < |candidates| && candidates[i] != candidates[j]
  }

  function Values(candidates: seq<string>): set<string> {
    set v | v in candidates
  }

  /** The translations of one source for one locale contradict each other. */
  predicate IsContradiction(inventory: Inventory, artifacts: seq<Artifact>, c: Contradiction) {
    var candidates := CandidatesFor(inventory, artifacts, c.locale, c.source);
    Contradicts(candidates) && c.translations == Values(candidates)
  }

  /** One unit: what was shipped, the source itself, or the chosen translation. */
  method BuildUnit(existing: Strings, source: string, locale: string, candidates: seq<string>) returns (unit: StringUnit)
    ensures unit == UnitFor(existing, source, locale, candidates)
  {
    var shipped := Shipped(existing, source, locale);
    if shipped.Some? {
      return shipped.value;
    }
    if locale == ENGLISH {
      return StringUnit(Translated, source);
    }
    var value := ChooseTranslation(source, candidates);
    unit := StringUnit(if value == source then New else Translated, value);
  }

  /** The units of one source, and the locales in which its translations contradict each other. */
  method BuildLocalizations(inventory: Inventory, artifacts: seq<Artifact>, locales: seq<string>, existing: Strings, source: string)
    returns (localizations: map<string, StringUnit>, contradictions: set<Contradiction>)
    ensures forall locale :: locale in localizations <==> locale in locales
    ensures forall locale :: locale in localizations ==>
      localizations[locale] == UnitFor(existing, source, locale, CandidatesFor(inventory, artifacts, locale, source))
    ensures forall c :: c in contradictions <==>
      c.source == source && c.locale in locales && IsContradiction(inventory, artifacts, c)
  {
    localizations, contradictions := map[], {};
    var i := 0;
    while i < |locales|
      invariant i <= |locales|
      invariant forall locale :: locale in localizations <==> locale in locales[..i]
      invariant forall locale :: locale in localizations ==>
        localizations[locale] == UnitFor(existing, source, locale, CandidatesFor(inventory, artifacts, locale, source))
      invariant forall c :: c in contradictions <==>
        c.source == source && c.locale in locales[..i] && IsContradiction(inventory, artifacts, c)
    {
      var locale := locales[i];
      PrefixNext(locales, i);
      var bySource := FileTranslations(inventory, ArtifactOf(artifacts, locale));
      var candidates := if source in bySource then bySource[source] else [];
      assert candidates == CandidatesFor(inventory, artifacts, locale, source);
      if Contradicts(candidates) {
        contradictions := contradictions + {Contradiction(locale, source, Values(candidates))};
      }
      var unit := BuildUnit(existing, source, locale, candidates);
      localizations := localizations[locale := unit];
      i := i + 1;
    }
    PrefixAll(locales);
  }

  /** buildAppleCatalog. */
  method BuildAppleCatalog(inventory: Inventory, artifacts: seq<Artifact>, locales: seq<string>, existing: Strings)
    returns (strings: Strings, contradictions: set<Contradiction>)
    ensures IsCatalog(inventory, artifacts, locales, existing, strings)
    ensures forall c :: c in contradictions <==>
      IsSource(inventory, c.source) && c.locale in locales && IsContradiction(inventory, artifacts, c)
  {
    var sources := LiveSources(inventory);
    strings, contradictions := map[], {};
    var i := 0;
    while i < |sources|
      invariant i <= |sources|
      invariant forall source :: source in strings <==> source in sources[..i]
      invariant forall source :: source in strings ==>
        && (forall locale :: locale in strings[source] <==> locale in locales)
        && forall locale :: locale in strings[source] ==>
             strings[source][locale] == UnitFor(existing, source, locale, CandidatesFor(inventory, artifacts, locale, source))
      invariant forall c :: c in contradictions <==>
        c.source in sources[..i] && c.locale in locales && IsContradiction(inventory, artifacts, c)
    {
      PrefixNext(sources, i);
      var localizations, found := BuildLocalizations(inventory, artifacts, locales, existing, sources[i]);
      strings := strings[sources[i] := localizations];
      contradictions := contradictions + found;
      i := i + 1;
    }
    PrefixAll(sources);
  }
}
