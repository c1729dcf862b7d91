/** Cutting a sequence into consecutive batches, when a batch's validity passes to its slices. */
module BatchSplits {
  import opened Sequences

  /** batches are non-empty, valid, and make up xs in order. */
  ghost predicate Splits<T(!new)>(ok: seq<T> -> bool, batches: seq<seq<T>>, xs: seq<T>) {
    && Flatten(batches) == xs
    && forall i :: 0 <= i < |batches| ==> batches[i] != [] && ok(batches[i])
  }

  predicate LeavesNoRoom<T>(ok: seq<T> -> bool, batch: seq<T>, next: seq<T>) {
    next != [] && !ok(batch + [next[0]])
  }

  /** No batch could have taken the first item of the one after it. */
  ghost predicate Maximal<T(!new)>(ok: seq<T> -> bool, batches: seq<seq<T>>) {
    forall i :: 0 < i < |batches| ==> LeavesNoRoom(ok, batches[i - 1], batches[i])
  }

  ghost predicate Hereditary<T(!new)>(ok: seq<T> -> bool) {
    forall b: seq<T>, i, j :: 0 <= i < j <= |b| && ok(b) ==> ok(b[i..j])
  }

  /** A split of xs without its first k items, cutting one batch in two if need be. */
  function Drop<T>(batches: seq<seq<T>>, k: nat): seq<seq<T>>
    decreases |batches|
  {
    if batches == [] || k == 0 then batches
    else if |batches[0]| <= k then Drop(batches[1..], k - |batches[0]|)
    else [batches[0][k..]] + batches[1..]
  }

  lemma {:induction false} DropSplits<T(!new)>(ok: seq<T> -> bool, batches: seq<seq<T>>, xs: seq<T>, k: nat)
    requires Hereditary(ok) && Splits(ok, batches, xs) && k <= |xs|
    ensures Splits(ok, Drop(batches, k), xs[k..])
    ensures |Drop(batches, k)| <= |batches|
    decreases |batches|
  {
    if batches != [] && k != 0 {
      var b, rest := batches[0], Flatten(batches[1..]);
      assert xs == b + rest;
      if |b| <= k {
        DropSplits(ok, batches[1..], rest, k - |b|);
        assert xs[k..] == rest[k - |b|..];
      } else {
        var short := [b[k..]] + batches[1..];
        assert ok(b[k..|b|]) && b[k..|b|] == b[k..];
        assert short[1..] == batches[1..];
        assert xs[k..] == b[k..] + rest;
      }
    }
  }

  lemma LongerTakesNext<T(!new)>(ok: seq<T> -> bool, b: seq<T>, next: seq<T>, rest: seq<T>, o: seq<T>, others: seq<T>)
    requires Hereditary(ok) && ok(o) && b + (next + rest) == o + others
    requires |b| < |o| && next != []
    ensures ok(b + [next[0]])
  {
    assert ok(o[0..|b| + 1]);
    assert o == (o + others)[..|o|];
    assert o[0..|b| + 1] == (b + (next + rest))[0..|b| + 1] == b + [next[0]];
  }

  /** The first batch of any split is no longer than the first batch of a maximal one. */
  lemma FirstIsLongest<T(!new)>(ok: seq<T> -> bool, batches: seq<seq<T>>, other: seq<seq<T>>, xs: seq<T>)
    requires Hereditary(ok) && Splits(ok, batches, xs) && Maximal(ok, batches) && Splits(ok, other, xs)
    requires xs != []
    ensures batches != [] && other != [] && |other[0]| <= |batches[0]|
  {
    var b, o := batches[0], other[0];
    assert xs == b + Flatten(batches[1..]) && xs == o + Flatten(other[1..]);
    if |batches| > 1 && |b| < |o| {
      assert LeavesNoRoom(ok, batches[1 - 1], batches[1]);
      LongerTakesNext(ok, b, batches[1], Flatten(batches[1..][1..]), o, Flatten(other[1..]));
      assert false;
    }
  }

  lemma Tail<T(!new)>(ok: seq<T> -> bool, batches: seq<seq<T>>, xs: seq<T>)
    requires Splits(ok, batches, xs) && batches != []
    ensures |batches[0]| <= |xs| && xs == batches[0] + xs[|batches[0]|..]
    ensures Splits(ok, batches[1..], xs[|batches[0]|..])
    ensures Maximal(ok, batches) ==> Maximal(ok, batches[1..])
  {
    assert xs == batches[0] + Flatten(batches[1..]);
    if Maximal(ok, batches) {
      var rest := batches[1..];
      forall i | 0 < i < |rest| ensures LeavesNoRoom(ok, rest[i - 1], rest[i]) {
        assert LeavesNoRoom(ok, batches[i + 1 - 1], batches[i + 1]);
      }
    }
  }

  /** A split whose batches are as long as they can be has the fewest batches. */
  lemma {:induction false} MaximalIsFewest<T(!new)>(
      ok: seq<T> -> bool, batches: seq<seq<T>>, other: seq<seq<T>>, xs: seq<T>)
    requires Hereditary(ok) && Splits(ok, batches, xs) && Maximal(ok, batches) && Splits(ok, other, xs)
    ensures |batches| <= |other|
    decreases |xs|
  {
    if xs == [] {
      NothingToSplit(ok, batches);
    } else {
      FirstIsLongest(ok, batches, other, xs);
      var g, o := |batches[0]|, |other[0]|;
      Tail(ok, batches, xs);
      Tail(ok, other, xs);
      DropSplits(ok, other[1..], xs[o..], g - o);
      assert xs[o..][g - o..] == xs[g..];
      MaximalIsFewest(ok, batches[1..], Drop(other[1..], g - o), xs[g..]);
    }
  }

  lemma NothingToSplit<T(!new)>(ok: seq<T> -> bool, batches: seq<seq<T>>)
    requires Splits(ok, batches, [])
    ensures batches == []
  {
  }

  /** There is only one such split. */
  lemma {:induction false} MaximalIsUnique<T(!new)>(
      ok: seq<T> -> bool, batches: seq<seq<T>>, other: seq<seq<T>>, xs: seq<T>)
    requires Hereditary(ok)
    requires Splits(ok, batches, xs) && Maximal(ok, batches) && Splits(ok, other, xs) && Maximal(ok, other)
    ensures batches == other
    decreases |xs|
  {
    if xs == [] {
      NothingToSplit(ok, batches);
      NothingToSplit(ok, other);
    } else {
      FirstIsLongest(ok, batches, other, xs);
      FirstIsLongest(ok, other, batches, xs);
      Tail(ok, batches, xs);
      Tail(ok, other, xs);
      MaximalIsUnique(ok, batches[1..], other[1..], xs[|other[0]|..]);
      assert batches == [batches[0]] + batches[1..] && other == [other[0]] + other[1..];
    }
  }

  // Building a maximal split from left to right.

  /** batches are closed and hold done; current is open; together they hold all items so far. */
  ghost predicate Building<T(!new)>(
      ok: seq<T> -> bool, batches: seq<seq<T>>, current: seq<T>, done: seq<T>, soFar: seq<T>)
  {
    && Splits(ok, batches, done) && Maximal(ok, batches)
    && soFar == done + current
    && (current == [] ==> batches == [])
    && (current != [] ==> ok(current))
    && (batches != [] ==> LeavesNoRoom(ok, batches[|batches| - 1], current))
  }

  lemma Grow<T(!new)>(
      ok: seq<T> -> bool, batches: seq<seq<T>>, current: seq<T>, done: seq<T>, soFar: seq<T>, item: T)
    requires Building(ok, batches, current, done, soFar) && ok(current + [item])
    ensures Building(ok, batches, current + [item], done, soFar + [item])
  {
  }

  lemma Close<T(!new)>(ok: seq<T> -> bool, batches: seq<seq<T>>, current: seq<T>, done: seq<T>, soFar: seq<T>)
    requires Building(ok, batches, current, done, soFar) && current != []
    ensures Splits(ok, batches + [current], soFar) && Maximal(ok, batches + [current])
  {
    FlattenAppend(batches, [current]);
    assert Flatten([current]) == current;
  }

  lemma Reopen<T(!new)>(
      ok: seq<T> -> bool, batches: seq<seq<T>>, current: seq<T>, done: seq<T>, soFar: seq<T>, item: T)
    requires Building(ok, batches, current, done, soFar) && current != []
    requires !ok(current + [item]) && ok([item])
    ensures Building(ok, batches + [current], [item], soFar, soFar + [item])
  {
    Close(ok, batches, current, done, soFar);
    assert (batches + [current])[|batches + [current]| - 1] == current;
  }
}

/** The greedy batcher of scripts/control-ui-i18n.ts. */
module Batches {
  import opened Sequences
  import opened BatchSplits

  datatype Item = Item(key: string, text: string)

  const MAX_BATCH_ITEMS: nat := 20

  /** The estimate the source folds over a list of items. */
  function EstimateBatchChars(items: seq<Item>): (total: nat)
    ensures total >= 2
  {
    if items == [] then 2
    else
      var last := items[|items| - 1];
      EstimateBatchChars(items[..|items| - 1]) + |last.key| + |last.text| + 8
  }

  /** What the batcher counts for a batch: each item pays for a list of its own. */
  function RunningChars(batch: seq<Item>): nat {
    if batch == [] then 2
    else RunningChars(batch[..|batch| - 1]) + EstimateBatchChars([batch[|batch| - 1]])
  }

  /** A batch the batcher may emit: any single item, or up to 20 within the budget. */
  function Acceptable(budget: real): seq<Item> -> bool {
    batch => |batch| <= MAX_BATCH_ITEMS && (|batch| == 1 || RunningChars(batch) as real <= budget)
  }

  lemma {:induction false} PrefixIsCheaper(batch: seq<Item>, j: nat)
    requires j <= |batch|
    ensures RunningChars(batch[..j]) <= RunningChars(batch)
    decreases |batch|
  {
    if j < |batch| {
      var short := batch[..|batch| - 1];
      PrefixIsCheaper(short, j);
      assert short[..j] == batch[..j];
    } else {
      assert batch[..j] == batch;
    }
  }

  lemma {:induction false} SuffixIsCheaper(batch: seq<Item>, i: nat)
    requires i <= |batch|
    ensures RunningChars(batch[i..]) <= RunningChars(batch)
    decreases |batch|
  {
    if i < |batch| {
      var short := batch[..|batch| - 1];
      SuffixIsCheaper(short, i);
      assert batch[i..][..|batch| - i - 1] == short[i..];
    } else if batch != [] {
      assert batch[i..] == [];
      PrefixIsCheaper(batch, 0);
      assert batch[..0] == [];
    }
  }

  function Characters(items: seq<Item>): nat {
    if items == [] then 0
    else
      var last := items[|items| - 1];
      Characters(items[..|items| - 1]) + |last.key| + |last.text|
  }

  lemma {:induction false} EstimateInNumbers(items: seq<Item>)
    ensures EstimateBatchChars(items) == 2 + 8 * |items| + Characters(items)
    ensures RunningChars(items) == 2 + 10 * |items| + Characters(items)
  {
    if items != [] {
      var last := items[|items| - 1];
      EstimateInNumbers(items[..|items| - 1]);
      assert [last][..0] == [];
      assert EstimateBatchChars([last]) == EstimateBatchChars([]) + |last.key| + |last.text| + 8;
    }
  }

  /** What the batcher accepts, in numbers: one item, or up to twenty that need no more than the
      budget at ten characters an item and two for the list. */
  lemma AcceptableInNumbers(budget: real, batch: seq<Item>)
    ensures Acceptable(budget)(batch) <==>
      |batch| <= 20 && (|batch| == 1 || (2 + 10 * |batch| + Characters(batch)) as real <= budget)
  {
    EstimateInNumbers(batch);
  }

  lemma AcceptableIsHereditary(budget: real)
    ensures Hereditary(Acceptable(budget))
  {
    forall b: seq<Item>, i, j | 0 <= i < j <= |b| && Acceptable(budget)(b) ensures Acceptable(budget)(b[i..j]) {
      PrefixIsCheaper(b, j);
      SuffixIsCheaper(b[..j], i);
      assert b[..j][i..] == b[i..j];
    }
  }

  /** What the batcher's tests say about adding one more item. */
  lemma AcceptableNext(budget: real, current: seq<Item>, item: Item)
    ensures RunningChars(current + [item]) == RunningChars(current) + EstimateBatchChars([item])
    ensures Acceptable(budget)(current + [item]) <==>
      && |current| < MAX_BATCH_ITEMS
      && (|current| == 0 || (RunningChars(current) + EstimateBatchChars([item])) as real <= budget)
  {
    assert (current + [item])[..|current|] == current;
  }

  /** The batches and the open batch hold the first i items. */
  ghost predicate Filling(
      budget: real, items: seq<Item>, i: nat, batches: seq<seq<Item>>, current: seq<Item>, currentChars: nat, done: seq<Item>)
    requires i <= |items|
  {
    && (i > 0 ==> current != [])
    && currentChars == RunningChars(current)
    && Building(Acceptable(budget), batches, current, done, items[..i])
  }

  /** One item more: in the open batch, or in a new one. */
  lemma FillingNext(
      budget: real, items: seq<Item>, i: nat, batches: seq<seq<Item>>, current: seq<Item>, currentChars: nat, done: seq<Item>)
    requires i < |items| && Filling(budget, items, i, batches, current, currentChars, done)
    ensures var item, itemChars := items[i], EstimateBatchChars([items[i]]);
      if (|current| > 0 && (currentChars + itemChars) as real > budget) || |current| >= MAX_BATCH_ITEMS
      then Filling(budget, items, i + 1, batches + [current], [item], 2 + itemChars, items[..i])
      else Filling(budget, items, i + 1, batches, current + [item], currentChars + itemChars, done)
  {
    var ok, item := Acceptable(budget), items[i];
    PrefixNext(items, i);
    AcceptableNext(budget, current, item);
    if ok(current + [item]) {
      Grow(ok, batches, current, done, items[..i], item);
    } else {
      AcceptableNext(budget, [], item);
      assert [] + [item] == [item];
      Reopen(ok, batches, current, done, items[..i], item);
    }
  }

  /** The batches hold the items in order, every one acceptable, none able to take one item more. */
  method BuildTranslationBatches(items: seq<Item>, budget: real) returns (batches: seq<seq<Item>>)
    ensures Splits(Acceptable(budget), batches, items)
    ensures Maximal(Acceptable(budget), batches)
  {
    ghost var done: seq<Item> := [];
    batches := [];
    var current: seq<Item> := [];
    var currentChars := 2;
    var i := 0;
    while i < |items|
      invariant i <= |items| && Filling(budget, items, i, batches, current, currentChars, done)
    {
      var item := items[i];
      var itemChars := EstimateBatchChars([item]);
      FillingNext(budget, items, i, batches, current, currentChars, done);
      var wouldOverflow := |current| > 0 && (currentChars + itemChars) as real > budget;
      var reachedMaxItems := |current| >= MAX_BATCH_ITEMS;
      if wouldOverflow || reachedMaxItems {
        done := items[..i];
        batches := batches + [current];
        current := [];
        currentChars := 2;
      }
      current := current + [item];
      currentChars := currentChars + itemChars;
      i := i + 1;
    }
    PrefixAll(items);
    if |current| > 0 {
      Close(Acceptable(budget), batches, current, done, items);
      batches := batches + [current];
    }
  }

  /** No other way of cutting the items into acceptable batches uses fewer of them than the
      batcher does, and no other way of leaving no batch room for one item more exists. */
  lemma GreedyIsOptimal(items: seq<Item>, budget: real, batches: seq<seq<Item>>, other: seq<seq<Item>>)
    requires Splits(Acceptable(budget), batches, items) && Maximal(Acceptable(budget), batches)
    requires Splits(Acceptable(budget), other, items)
    ensures |batches| <= |other|
    ensures Maximal(Acceptable(budget), other) ==> batches == other
  {
    AcceptableIsHereditary(budget);
    MaximalIsFewest(Acceptable(budget), batches, other, items);
    if Maximal(Acceptable(budget), other) {
      MaximalIsUnique(Acceptable(budget), batches, other, items);
    }
  }
}
