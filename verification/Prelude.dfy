/** Values that may be absent, and bytes. */
module Prelude {

  newtype Byte = b: int | 0 <= b < 256

  datatype Option<+T> = None | Some(value: T) {
    predicate IsFailure() {
      None?
    }

    function PropagateFailure<U>(): Option<U>
      requires None?
    {
      None
    }

    function Extract(): T
      requires Some?
    {
      value
    }
  }
}

/** Sequences of sequences. */
module Sequences {

  function Flatten<T>(xss: seq<seq<T>>): seq<T> {
    if xss == [] then [] else xss[0] + Flatten(xss[1..])
  }

  lemma {:induction false} FlattenAppend<T>(xss: seq<seq<T>>, yss: seq<seq<T>>)
    ensures Flatten(xss + yss) == Flatten(xss) + Flatten(yss)
  {
    if xss == [] {
      assert xss + yss == yss;
    } else {
      assert (xss + yss)[1..] == xss[1..] + yss;
      FlattenAppend(xss[1..], yss);
    }
  }

  /** part stands in s at position i. */
  predicate StartsAt<T(==)>(s: seq<T>, i: nat, part: seq<T>) {
    var found := i + |part| <= |s| && s[i..i + |part|] == part;
    found
  }

  lemma SplitAt<T>(s: seq<T>, i: nat, a: seq<T>, b: seq<T>)
    requires StartsAt(s, i, a + b)
    ensures StartsAt(s, i, a) && StartsAt(s, i + |a|, b)
  {
    var whole := s[i..i + |a + b|];
    assert s[i..i + |a|] == whole[..|a|] == a;
    assert s[i + |a|..i + |a| + |b|] == whole[|a|..] == b;
  }

  lemma StartsWith<T>(s: seq<T>, i: nat, a: seq<T>)
    requires StartsAt(s, i, a) && a != []
    ensures i < |s| && s[i] == a[0]
  {
    assert s[i..i + |a|][0] == s[i];
  }

  lemma PrefixNext<T>(xs: seq<T>, i: nat)
    requires i < |xs|
    ensures xs[..i + 1] == xs[..i] + [xs[i]]
  {
  }

  lemma PrefixAll<T>(xs: seq<T>)
    ensures xs[..|xs|] == xs
  {
  }

  ghost predicate Distributes<A(!new), B>(f: seq<A> -> seq<B>) {
    forall x, y :: f(x + y) == f(x) + f(y)
  }

  /** Taking an item out of a sequence. */
  lemma Cut<T>(xs: seq<T>, i: nat)
    requires i < |xs|
    ensures xs == xs[..i] + ([xs[i]] + xs[i + 1..])
    ensures multiset(xs) == multiset(xs[..i] + xs[i + 1..]) + multiset{xs[i]}
  {
    assert xs == xs[..i] + ([xs[i]] + xs[i + 1..]);
  }

  lemma CutThrough<A(!new), B>(f: seq<A> -> seq<B>, xs: seq<A>, i: nat)
    requires Distributes(f) && i < |xs|
    ensures multiset(f(xs)) == multiset(f(xs[..i] + xs[i + 1..])) + multiset(f([xs[i]]))
  {
    var before, item, after := xs[..i], [xs[i]], xs[i + 1..];
    Cut(xs, i);
    assert f(before + (item + after)) == f(before) + (f(item) + f(after));
    assert f(before + after) == f(before) + f(after);
  }

  lemma Cancel<T>(a: multiset<T>, b: multiset<T>, x: T)
    requires a + multiset{x} == b + multiset{x}
    ensures a == b
  {
    assert a + multiset{x} - multiset{x} == a;
    assert b + multiset{x} - multiset{x} == b;
  }

  /** What a mapping that distributes over concatenation makes of a shuffle is a shuffle. */
  lemma {:induction false} ShuffleThrough<A(!new), B>(f: seq<A> -> seq<B>, a: seq<A>, b: seq<A>)
    requires Distributes(f) && multiset(a) == multiset(b)
    ensures multiset(f(a)) == multiset(f(b))
    decreases |a|
  {
    if a == [] {
      assert |multiset(b)| == |b| == 0;
    } else {
      assert a[0] in multiset(b);
      var i :| 0 <= i < |b| && b[i] == a[0];
      var restA, restB := a[..0] + a[0 + 1..], b[..i] + b[i + 1..];
      Cut(a, 0);
      Cut(b, i);
      Cancel(multiset(restA), multiset(restB), a[0]);
      ShuffleThrough(f, restA, restB);
      CutThrough(f, a, 0);
      CutThrough(f, b, i);
    }
  }
}
