/** Counting what occurs, and finding what a sort would put first. */
module Counting {
  import opened Prelude
  import opened Sequences

  /** counts gives every value that occurs its number of occurrences, and nothing else. */
  ghost predicate AreCounts(values: seq<string>, counts: map<string, nat>) {
    && (forall v :: v in counts <==> v in values)
    && forall v :: v in counts ==> counts[v] == multiset(values)[v]
  }

  method CountOccurrences(values: seq<string>) returns (counts: map<string, nat>)
    ensures AreCounts(values, counts)
  {
    counts := map[];
    var i := 0;
    while i < |values|
      invariant i <= |values|
      invariant AreCounts(values[..i], counts)
    {
      var value := values[i];
      PrefixNext(values, i);
      counts := counts[value := (if value in counts then counts[value] else 0) + 1];
      i := i + 1;
    }
    PrefixAll(values);
  }

  lemma SameCounts(a: seq<string>, b: seq<string>, countA: map<string, nat>, countB: map<string, nat>)
    requires AreCounts(a, countA) && AreCounts(b, countB)
    ensures countA == countB <==> multiset(a) == multiset(b)
  {
    forall t: string ensures (t in a <==> t in multiset(a)) && (t in b <==> t in multiset(b)) {
    }
    if countA == countB {
      assert forall t: string :: multiset(a)[t] == multiset(b)[t];
    }
    if multiset(a) == multiset(b) {
      assert countA.Keys == countB.Keys;
    }
  }

  ghost predicate IsOrder(ahead: (string, string) -> bool) {
    && (forall a, b :: a != b ==> ahead(a, b) || ahead(b, a))
    && (forall a, b, c :: ahead(a, b) && ahead(b, c) ==> ahead(a, c))
  }

  ghost predicate IsFirstOf(keys: set<string>, ahead: (string, string) -> bool, first: Option<string>) {
    if first.None? then keys == {}
    else first.value in keys && forall v :: v in keys && v != first.value ==> ahead(first.value, v)
  }

  lemma FirstWith(seen: set<string>, ahead: (string, string) -> bool, first: Option<string>, next: string)
    requires IsOrder(ahead) && IsFirstOf(seen, ahead, first) && next !in seen
    ensures IsFirstOf(seen + {next}, ahead, if first.None? || ahead(next, first.value) then Some(next) else first)
  {
    if first.Some? && ahead(next, first.value) {
      forall v | v in seen ensures ahead(next, v) {
        assert v == first.value || ahead(first.value, v);
      }
    }
  }

  /** The first key once all are sorted by a strict order. */
  method FirstSorted(keys: set<string>, ahead: (string, string) -> bool) returns (first: Option<string>)
    requires IsOrder(ahead)
    ensures IsFirstOf(keys, ahead, first)
  {
    first := None;
    var rest := keys;
    while rest != {}
      invariant rest <= keys && IsFirstOf(keys - rest, ahead, first)
      decreases rest
    {
      var next :| next in rest;
      FirstWith(keys - rest, ahead, first, next);
      if first.None? || ahead(next, first.value) {
        first := Some(next);
      }
      assert keys - (rest - {next}) == keys - rest + {next};
      rest := rest - {next};
    }
    assert keys - {} == keys;
  }

  lemma OrderTransfers(f: (string, string) -> bool, g: (string, string) -> bool)
    requires IsOrder(f) && forall a, b :: f(a, b) == g(a, b)
    ensures IsOrder(g)
  {
    forall a, b | a != b ensures g(a, b) || g(b, a) {
      assert f(a, b) || f(b, a);
    }
    forall a, b, c | g(a, b) && g(b, c) ensures g(a, c) {
      assert f(a, b) && f(b, c);
    }
  }
}

/** Choosing one of several translations of a text: chooseTranslation of scripts/apple-app-i18n.ts
    and selectDeterministicTranslation of scripts/android-app-i18n.ts. */
module Selection {
  import opened Counting

  /** Strict order by the first character that differs, a proper prefix first. */
  predicate Before(a: string, b: string) {
    if b == "" then false
    else if a == "" then true
    else a[0] < b[0] || (a[0] == b[0] && Before(a[1..], b[1..]))
  }

  lemma {:induction false} BeforeIsTotal(a: string, b: string)
    ensures a != b ==> Before(a, b) || Before(b, a)
    ensures !(Before(a, b) && Before(b, a)) && !Before(a, a)
  {
    if a != "" && b != "" {
      BeforeIsTotal(a[1..], b[1..]);
      assert a == [a[0]] + a[1..] && b == [b[0]] + b[1..];
    }
    if a != "" {
      BeforeIsTotal(a[1..], a[1..]);
    }
  }

  lemma {:induction false} BeforeIsTransitive(a: string, b: string, c: string)
    requires Before(a, b) && Before(b, c)
    ensures Before(a, c)
  {
    if a != "" {
      if a[0] == b[0] && b[0] == c[0] {
        BeforeIsTransitive(a[1..], b[1..], c[1..]);
      }
    }
  }

  /** The texts agree up to i, where a ends or has the smaller character. */
  ghost predicate FirstDifference(a: string, b: string, i: nat) {
    && i <= |a| && i < |b| && a[..i] == b[..i]
    && (i == |a| || a[i] < b[i])
  }

  lemma {:induction false} BeforeIsLexicographic(a: string, b: string)
    ensures Before(a, b) <==> exists i :: FirstDifference(a, b, i)
  {
    if a == "" {
      if b != "" {
        assert FirstDifference(a, b, 0);
      }
    } else if b != "" {
      BeforeIsLexicographic(a[1..], b[1..]);
      if a[0] < b[0] {
        assert FirstDifference(a, b, 0);
      }
      if a[0] == b[0] {
        SameFirst(a, b);
      }
    }
  }

  lemma SameFirst(a: string, b: string)
    requires a != "" && b != "" && a[0] == b[0]
    ensures (exists i :: FirstDifference(a, b, i)) <==> exists i :: FirstDifference(a[1..], b[1..], i)
  {
    assert forall i :: 0 < i <= |a| && i <= |b| ==> a[..i] == [a[0]] + a[1..][..i - 1] && b[..i] == [b[0]] + b[1..][..i - 1];
    forall i: nat | FirstDifference(a[1..], b[1..], i) ensures FirstDifference(a, b, i + 1) {
    }
    forall i: nat | FirstDifference(a, b, i) ensures i > 0 && FirstDifference(a[1..], b[1..], i - 1) {
    }
  }

  /** How the sort ranks a candidate among all: the source itself last, then the more frequent,
      then the smaller text first. */
  predicate Ahead(source: string, all: multiset<string>, a: string, b: string) {
    if (a == source) != (b == source) then b == source
    else if all[a] != all[b] then all[a] > all[b]
    else Before(a, b)
  }

  lemma AheadIsTotal(source: string, all: multiset<string>, a: string, b: string)
    ensures a != b ==> Ahead(source, all, a, b) || Ahead(source, all, b, a)
    ensures !(Ahead(source, all, a, b) && Ahead(source, all, b, a)) && !Ahead(source, all, a, a)
  {
    BeforeIsTotal(a, b);
    BeforeIsTotal(a, a);
  }

  lemma AheadIsTransitive(source: string, all: multiset<string>, a: string, b: string, c: string)
    requires Ahead(source, all, a, b) && Ahead(source, all, b, c)
    ensures Ahead(source, all, a, c)
  {
    if Before(a, b) && Before(b, c) {
      BeforeIsTransitive(a, b, c);
    }
  }

  /** The candidate that is ahead of all others. */
  ghost predicate IsFirst(source: string, all: multiset<string>, first: string) {
    first in all && forall v :: v in all && v != first ==> Ahead(source, all, first, v)
  }

  /** Only one candidate is first, whatever order the candidates come in. */
  lemma FirstIsUnique(source: string, all: multiset<string>, a: string, b: string)
    requires IsFirst(source, all, a) && IsFirst(source, all, b)
    ensures a == b
  {
    AheadIsTotal(source, all, a, b);
  }

  /** The first among some of the candidates. */
  function FirstOf(source: string, all: multiset<string>, some: seq<string>): (first: string)
    requires some != []
    ensures first in some
    ensures forall v :: v in some && v != first ==> Ahead(source, all, first, v)
  {
    var n := |some| - 1;
    if n == 0 then some[0]
    else
      var best := FirstOf(source, all, some[..n]);
      assert forall v :: v in some ==> v in some[..n] || v == some[n];
      AheadIsTotal(source, all, some[n], best);
      if Ahead(source, all, some[n], best) then
        Overtakes(source, all, some[..n], best, some[n]);
        some[n]
      else best
  }

  lemma Overtakes(source: string, all: multiset<string>, some: seq<string>, best: string, next: string)
    requires forall v :: v in some && v != best ==> Ahead(source, all, best, v)
    requires Ahead(source, all, next, best)
    ensures forall v :: v in some ==> Ahead(source, all, next, v)
  {
    forall v | v in some ensures Ahead(source, all, next, v) {
      if v != best {
        AheadIsTransitive(source, all, next, best, v);
      }
    }
  }

  /** What chooseTranslation returns. */
  function Choose(source: string, translations: seq<string>): (chosen: string)
    ensures translations == [] ==> chosen == source
    ensures translations != [] ==> IsFirst(source, multiset(translations), chosen)
  {
    if translations == [] then source
    else
      assert forall v :: v in multiset(translations) <==> v in translations;
      FirstOf(source, multiset(translations), translations)
  }

  /** The choice does not depend on the order of the candidates. */
  lemma ChooseIgnoresOrder(source: string, a: seq<string>, b: seq<string>)
    requires multiset(a) == multiset(b)
    ensures Choose(source, a) == Choose(source, b)
  {
    assert |a| == |multiset(a)| == |multiset(b)| == |b|;
    if a != [] {
      FirstIsUnique(source, multiset(a), Choose(source, a), Choose(source, b));
    }
  }

  /** What the choice is, in plain words: a candidate other than the source if there is one, none of
      these more frequent, and none as frequent that comes before it. */
  lemma ChoosesMostFrequent(source: string, translations: seq<string>)
    requires translations != []
    ensures var chosen, all := Choose(source, translations), multiset(translations);
      && chosen in translations
      && (chosen == source <==> forall v :: v in translations ==> v == source)
      && forall v :: v in translations && v != source && v != chosen ==>
           all[v] <= all[chosen] && (all[v] == all[chosen] ==> exists i :: FirstDifference(chosen, v, i))
  {
    var chosen, all := Choose(source, translations), multiset(translations);
    forall v | v in translations && v != chosen
      ensures v in all && Ahead(source, all, chosen, v)
      ensures Before(chosen, v) <==> exists i :: FirstDifference(chosen, v, i)
    {
      BeforeIsLexicographic(chosen, v);
    }
  }

  /** The same for Android, whose choice is the empty text if there is nothing to choose from. */
  lemma SelectsMostFrequent(source: string, values: seq<string>, selected: string)
    requires IsSelected(source, values, selected)
    ensures values == [] ==> selected == ""
    ensures values != [] ==> var all := multiset(values);
      && selected in values
      && (selected == source <==> forall v :: v in values ==> v == source)
      && forall v :: v in values && v != source && v != selected ==>
           all[v] <= all[selected] && (all[v] == all[selected] ==> exists i :: FirstDifference(selected, v, i))
  {
    if values != [] {
      AndroidAgrees(source, values, selected);
      ChoosesMostFrequent(source, values);
    }
  }

  function Without(values: seq<string>, source: string): (rest: seq<string>)
    ensures forall v :: multiset(rest)[v] == if v == source then 0 else multiset(values)[v]
  {
    if values == [] then []
    else
      var n := |values| - 1;
      assert values == values[..n] + [values[n]];
      var rest := Without(values[..n], source);
      if values[n] == source then rest else rest + [values[n]]
  }

  /** Android's rank: the more frequent, then the smaller text first. */
  predicate AheadOnAndroid(all: multiset<string>, a: string, b: string) {
    if all[a] != all[b] then all[a] > all[b] else Before(a, b)
  }

  /** What selectDeterministicTranslation chooses among. */
  function Candidates(source: string, values: seq<string>): seq<string> {
    if Without(values, source) == [] then values else Without(values, source)
  }

  ghost predicate IsSelected(source: string, values: seq<string>, selected: string) {
    var all := multiset(Candidates(source, values));
    if values == [] then selected == ""
    else selected in all && forall v :: v in all && v != selected ==> AheadOnAndroid(all, selected, v)
  }

  lemma CandidatesOfOnlySource(source: string, values: seq<string>)
    requires Without(values, source) == [] && values != []
    ensures forall v :: v in multiset(values) ==> v == source
  {
    forall v | v in multiset(values) ensures v == source {
      assert multiset(Without(values, source))[v] == 0;
    }
  }

  lemma AndroidAgrees(source: string, values: seq<string>, selected: string)
    requires values != []
    ensures IsSelected(source, values, selected) <==> selected == Choose(source, values)
  {
    var all, some, chosen := multiset(values), multiset(Candidates(source, values)), Choose(source, values);
    assert values[0] in all;
    if Without(values, source) == [] {
      CandidatesOfOnlySource(source, values);
    } else {
      var v := Without(values, source)[0];
      assert multiset(Without(values, source))[v] > 0;
      assert v in all && v != source;
      assert chosen != source;
    }
    assert IsSelected(source, values, chosen) by {
      assert chosen in some;
      forall v | v in some && v != chosen ensures AheadOnAndroid(some, chosen, v) {
        assert v in all && Ahead(source, all, chosen, v);
      }
    }
    if IsSelected(source, values, selected) && selected != chosen {
      BeforeIsTotal(selected, chosen);
      assert false;
    }
  }

  /** Android selects what Apple chooses exactly if there is a candidate at all, or the source is
      the empty text that Android falls back to. */
  lemma AndroidAgreesExactly(source: string, values: seq<string>, selected: string)
    requires IsSelected(source, values, selected)
    ensures selected == Choose(source, values) <==> values != [] || source == ""
  {
    if values != [] {
      AndroidAgrees(source, values, selected);
    }
  }

  /** Without candidates the two rules differ. */
  lemma RulesDifferOnNothing()
    ensures IsSelected("a", [], "") && Choose("a", []) != ""
  {
    AndroidAgreesExactly("a", [], "");
  }

  lemma AheadIsOrder(source: string, all: multiset<string>)
    ensures IsOrder((a, b) => Ahead(source, all, a, b))
  {
    forall a, b | a != b ensures Ahead(source, all, a, b) || Ahead(source, all, b, a) {
      AheadIsTotal(source, all, a, b);
    }
    forall a, b, c | Ahead(source, all, a, b) && Ahead(source, all, b, c) ensures Ahead(source, all, a, c) {
      AheadIsTransitive(source, all, a, b, c);
    }
  }

  lemma AndroidIsOrder(all: multiset<string>)
    ensures IsOrder((a, b) => AheadOnAndroid(all, a, b))
  {
    forall a, b | a != b ensures AheadOnAndroid(all, a, b) || AheadOnAndroid(all, b, a) {
      BeforeIsTotal(a, b);
    }
    forall a, b, c | AheadOnAndroid(all, a, b) && AheadOnAndroid(all, b, c) ensures AheadOnAndroid(all, a, c) {
      if Before(a, b) && Before(b, c) {
        BeforeIsTransitive(a, b, c);
      }
    }
  }

  function CountOf(counts: map<string, nat>, v: string): nat {
    if v in counts then counts[v] else 0
  }

  lemma CountsAreMultiset(values: seq<string>, counts: map<string, nat>, v: string)
    requires AreCounts(values, counts)
    ensures CountOf(counts, v) == multiset(values)[v] && (v in counts <==> v in multiset(values))
  {
    assert v in multiset(values) <==> v in values;
  }

  /** The comparison chooseTranslation sorts by, over the counts it has made. */
  function SortedFirst(source: string, counts: map<string, nat>): (string, string) -> bool {
    (a: string, b: string) =>
      if (a == source) != (b == source) then b == source
      else if CountOf(counts, a) != CountOf(counts, b) then CountOf(counts, a) > CountOf(counts, b)
      else Before(a, b)
  }

  lemma SortedFirstIsAhead(source: string, values: seq<string>, counts: map<string, nat>)
    requires AreCounts(values, counts)
    ensures forall a, b :: SortedFirst(source, counts)(a, b) <==> Ahead(source, multiset(values), a, b)
    ensures IsOrder(SortedFirst(source, counts))
  {
    forall a, b ensures SortedFirst(source, counts)(a, b) <==> Ahead(source, multiset(values), a, b) {
      CountsAreMultiset(values, counts, a);
      CountsAreMultiset(values, counts, b);
    }
    AheadIsOrder(source, multiset(values));
    OrderTransfers((a, b) => Ahead(source, multiset(values), a, b), SortedFirst(source, counts));
  }

  /** chooseTranslation. */
  method ChooseTranslation(source: string, translations: seq<string>) returns (chosen: string)
    ensures chosen == Choose(source, translations)
  {
    var counts := CountOccurrences(translations);
    SortedFirstIsAhead(source, translations, counts);
    var first := FirstSorted(counts.Keys, SortedFirst(source, counts));
    chosen := if first.Some? then first.value else source;
    if translations == [] {
      assert counts.Keys == {};
    } else {
      assert translations[0] in counts;
      forall v: string ensures v in counts <==> v in multiset(translations) {
        CountsAreMultiset(translations, counts, v);
      }
      FirstIsUnique(source, multiset(translations), chosen, Choose(source, translations));
    }
  }

  /** The comparison selectDeterministicTranslation sorts by. */
  function SortedOnAndroid(counts: map<string, nat>): (string, string) -> bool {
    (a: string, b: string) =>
      if CountOf(counts, a) != CountOf(counts, b) then CountOf(counts, a) > CountOf(counts, b) else Before(a, b)
  }

  lemma SortedOnAndroidIsAhead(values: seq<string>, counts: map<string, nat>)
    requires AreCounts(values, counts)
    ensures forall a, b :: SortedOnAndroid(counts)(a, b) <==> AheadOnAndroid(multiset(values), a, b)
    ensures IsOrder(SortedOnAndroid(counts))
  {
    forall a, b ensures SortedOnAndroid(counts)(a, b) <==> AheadOnAndroid(multiset(values), a, b) {
      CountsAreMultiset(values, counts, a);
      CountsAreMultiset(values, counts, b);
    }
    AndroidIsOrder(multiset(values));
    OrderTransfers((a, b) => AheadOnAndroid(multiset(values), a, b), SortedOnAndroid(counts));
  }

  /** selectDeterministicTranslation. */
  method SelectDeterministicTranslation(source: string, values: seq<string>) returns (selected: string)
    ensures IsSelected(source, values, selected)
  {
    var candidates := Candidates(source, values);
    var counts := CountOccurrences(candidates);
    SortedOnAndroidIsAhead(candidates, counts);
    var first := FirstSorted(counts.Keys, SortedOnAndroid(counts));
    selected := if first.Some? then first.value else "";
    forall v: string ensures v in counts <==> v in multiset(candidates) {
      CountsAreMultiset(candidates, counts, v);
    }
    if values == [] {
      assert counts.Keys == {};
    } else {
      assert candidates[0] in counts;
    }
  }
}
