/** Left folds, and when they lose nothing. */
module Folds {

  function Fold<V, B>(f: (V, B) -> V, v: V, bs: seq<B>): V
    decreases |bs|
  {
    if bs == [] then v else Fold(f, f(v, bs[0]), bs[1..])
  }

  function Iterate<V>(f: V -> V, v: V, n: nat): V
    decreases n
  {
    if n == 0 then v else Iterate(f, f(v), n - 1)
  }

  function Flat<B, C>(expand: B -> seq<C>, bs: seq<B>): seq<C> {
    if bs == [] then [] else expand(bs[0]) + Flat(expand, bs[1..])
  }

  lemma {:induction false} FlatAppend<B, C>(f: B -> seq<C>, a: seq<B>, b: seq<B>)
    ensures Flat(f, a + b) == Flat(f, a) + Flat(f, b)
    decreases |a|
  {
    if a == [] {
      assert a + b == b;
    } else {
      assert (a + b)[1..] == a[1..] + b;
      FlatAppend(f, a[1..], b);
    }
  }

  lemma FlatFour<B, C>(f: B -> seq<C>, bs: seq<B>)
    requires |bs| == 4
    ensures Flat(f, bs) == f(bs[0]) + (f(bs[1]) + (f(bs[2]) + f(bs[3])))
  {
    assert Flat(f, bs[3..]) == f(bs[3]) + Flat(f, bs[3..][1..]) == f(bs[3]);
    assert bs[2..][1..] == bs[3..] && bs[1..][1..] == bs[2..];
    assert Flat(f, bs[2..]) == f(bs[2]) + Flat(f, bs[3..]);
    assert Flat(f, bs[1..]) == f(bs[1]) + Flat(f, bs[2..]);
  }

  lemma {:induction false} FoldAppend<V, B>(f: (V, B) -> V, v: V, xs: seq<B>, ys: seq<B>)
    ensures Fold(f, v, xs + ys) == Fold(f, Fold(f, v, xs), ys)
    decreases |xs|
  {
    if xs == [] {
      assert xs + ys == ys;
    } else {
      assert (xs + ys)[1..] == xs[1..] + ys;
      FoldAppend(f, f(v, xs[0]), xs[1..], ys);
    }
  }

  lemma {:induction false} FoldInjective<V(!new), B(!new)>(f: (V, B) -> V, p: V, q: V, bs: seq<B>)
    requires forall x, y, b :: f(x, b) == f(y, b) ==> x == y
    requires Fold(f, p, bs) == Fold(f, q, bs)
    ensures p == q
    decreases |bs|
  {
    if bs != [] {
      FoldInjective(f, f(p, bs[0]), f(q, bs[0]), bs[1..]);
    }
  }

  lemma {:induction false} IterateInjective<V(!new)>(f: V -> V, p: V, q: V, n: nat)
    requires forall x, y :: f(x) == f(y) ==> x == y
    requires Iterate(f, p, n) == Iterate(f, q, n)
    ensures p == q
    decreases n
  {
    if n != 0 {
      IterateInjective(f, f(p), f(q), n - 1);
    }
  }

  lemma {:induction false} IterateAdd<V>(f: V -> V, v: V, m: nat, n: nat)
    ensures Iterate(f, v, m + n) == Iterate(f, Iterate(f, v, m), n)
    decreases m
  {
    if m != 0 {
      IterateAdd(f, f(v), m - 1, n);
    }
  }

  /** Three strides of m and one of n. */
  lemma IterateFour<V>(f: V -> V, v: V, w: V, x: V, y: V, m: nat, n: nat)
    requires Iterate(f, v, m) == w && Iterate(f, w, m) == x && Iterate(f, x, m) == y
    ensures Iterate(f, v, 3 * m + n) == Iterate(f, y, n)
  {
    IterateAdd(f, v, m, m + m + n);
    IterateAdd(f, w, m, m + n);
    IterateAdd(f, x, m, n);
  }

  lemma {:induction false} IterateFixed<V>(f: V -> V, v: V, n: nat)
    requires f(v) == v
    ensures Iterate(f, v, n) == v
    decreases n
  {
    if n != 0 {
      IterateFixed(f, v, n - 1);
    }
  }

  /** A fold whose every step is itself a fold is one long fold. */
  lemma {:induction false} FoldRefines<V(!new), B(!new), C>(
      f: (V, B) -> V, g: (V, C) -> V, expand: B -> seq<C>, v: V, bs: seq<B>)
    requires forall x, b :: f(x, b) == Fold(g, x, expand(b))
    ensures Fold(f, v, bs) == Fold(g, v, Flat(expand, bs))
    decreases |bs|
  {
    if bs != [] {
      FoldAppend(g, v, expand(bs[0]), Flat(expand, bs[1..]));
      FoldRefines(f, g, expand, f(v, bs[0]), bs[1..]);
    }
  }
}

/** Linear feedback shift registers over any word type.

    A register shifts towards its low bit and mixes in a polynomial whenever a one falls
    out.  From the word laws collected in Lawful, this module derives that feeding a word bit
    by bit is mixing it in at once, and that a register as wide as a burst separates any
    two different bursts.
 */
module ShiftRegisters {
  import opened Folds

  datatype Register<!V> = Register(
    odd: V -> bool,
    half: V -> V,
    mix: (V, V) -> V,
    top: V -> bool,
    join: (bool, V) -> V,
    unit: bool -> V,
    zero: V,
    polynomial: V,
    width: nat)

  function Step<V>(r: Register<V>): V -> V {
    v => if r.odd(v) then r.mix(r.half(v), r.polynomial) else r.half(v)
  }

  function Feed<V>(r: Register<V>): (V, bool) -> V {
    (v, bit) => Step(r)(r.mix(v, r.unit(bit)))
  }

  ghost predicate MixLaws<V(!new)>(r: Register<V>) {
    && (forall p :: r.mix(p, r.zero) == p)
    && (forall p, x, y :: r.mix(p, x) == r.mix(p, y) ==> x == y)
    && (forall p, x, y :: r.mix(x, p) == r.mix(y, p) ==> x == y)
  }

  ghost predicate OddLaw<V(!new)>(r: Register<V>) {
    forall p, w :: r.odd(r.mix(p, w)) == (r.odd(p) != r.odd(w))
  }

  ghost predicate HalfLaw<V(!new)>(r: Register<V>) {
    forall p, w :: r.half(r.mix(p, w)) == r.mix(r.half(p), r.half(w))
  }

  ghost predicate UnitLaw<V(!new)>(r: Register<V>) {
    forall bit :: r.odd(r.unit(bit)) == bit && r.half(r.unit(bit)) == r.zero
  }

  ghost predicate PolynomialLaw<V(!new)>(r: Register<V>) {
    forall x, y :: r.mix(r.mix(x, y), r.polynomial) == r.mix(r.mix(x, r.polynomial), y)
  }

  ghost predicate JoinLaws<V(!new)>(r: Register<V>) {
    && (forall bit, rest :: r.odd(r.join(bit, rest)) == bit)
    && (forall bit, rest :: !r.top(rest) ==> r.half(r.join(bit, rest)) == rest)
  }

  /** width - 1 halvings empty a word whose top bit is not set. */
  ghost predicate WidthLaws<V(!new)>(r: Register<V>) {
    && r.width > 0
    && r.half(r.zero) == r.zero
    && (forall w :: Iterate(r.half, w, r.width - 1) == r.zero ==> !r.top(w))
  }

  /** The polynomial sets the top bit, which halving leaves clear. */
  ghost predicate TopLaws<V(!new)>(r: Register<V>) {
    && (forall v :: !r.top(r.half(v)))
    && (forall v :: r.top(r.mix(r.half(v), r.polynomial)))
    && (forall v, w :: r.odd(v) == r.odd(w) && r.half(v) == r.half(w) ==> v == w)
  }

  datatype Law = Mixing | OddBit | Halving | Units | PolynomialLast | Joining | Width | TopBit

  ghost predicate Holds<V(!new)>(r: Register<V>, law: Law) {
    match law
    case Mixing => MixLaws(r)
    case OddBit => OddLaw(r)
    case Halving => HalfLaw(r)
    case Units => UnitLaw(r)
    case PolynomialLast => PolynomialLaw(r)
    case Joining => JoinLaws(r)
    case Width => WidthLaws(r)
    case TopBit => TopLaws(r)
  }

  ghost predicate Lawful<V(!new)>(r: Register<V>) {
    forall law :: Holds(r, law)
  }

  ghost predicate Injective<V(!new)>(r: Register<V>) {
    && (forall v, w :: Step(r)(v) == Step(r)(w) ==> v == w)
    && (forall v, w, bit :: Feed(r)(v, bit) == Feed(r)(w, bit) ==> v == w)
  }

  ghost predicate StepsMixed<V(!new)>(r: Register<V>) {
    forall p, w :: Step(r)(r.mix(p, w)) == r.mix(Feed(r)(p, r.odd(w)), r.half(w))
  }

  /** What fell out of the register can be read off its top bit. */
  lemma StepInjective<V(!new)>(r: Register<V>)
    requires MixLaws(r) && TopLaws(r)
    ensures Injective(r)
  {
    forall v, w | Step(r)(v) == Step(r)(w) ensures v == w {
      assert r.odd(v) == r.odd(w);
      assert r.half(v) == r.half(w);
    }
  }

  /** Only the low bit of a word mixed into the register decides the polynomial's part in a step. */
  lemma StepMixed<V(!new)>(r: Register<V>)
    requires MixLaws(r) && OddLaw(r) && HalfLaw(r) && UnitLaw(r) && PolynomialLaw(r)
    ensures StepsMixed(r)
  {
  }

  /** The low n bits of w, least significant first. */
  function LowBits<V>(odd: V -> bool, half: V -> V, w: V, n: nat): (bits: seq<bool>)
    ensures |bits| == n
    decreases n
  {
    if n == 0 then [] else [odd(w)] + LowBits(odd, half, half(w), n - 1)
  }

  lemma {:induction false} LowBitsInjective<V(!new)>(r: Register<V>, v: V, w: V, n: nat)
    requires TopLaws(r)
    requires Iterate(r.half, v, n) == r.zero && Iterate(r.half, w, n) == r.zero
    requires LowBits(r.odd, r.half, v, n) == LowBits(r.odd, r.half, w, n)
    ensures v == w
    decreases n
  {
    if n != 0 {
      var xs, ys := LowBits(r.odd, r.half, v, n), LowBits(r.odd, r.half, w, n);
      assert xs[0] == ys[0] && xs[1..] == ys[1..];
      assert xs[1..] == LowBits(r.odd, r.half, r.half(v), n - 1);
      assert ys[1..] == LowBits(r.odd, r.half, r.half(w), n - 1);
      LowBitsInjective(r, r.half(v), r.half(w), n - 1);
    }
  }

  function Word<V>(r: Register<V>, bits: seq<bool>): V {
    if bits == [] then r.zero else r.join(bits[0], Word(r, bits[1..]))
  }

  lemma {:induction false} FeedBits<V(!new)>(
      step: V -> V, feed: (V, bool) -> V, mix: (V, V) -> V, odd: V -> bool, half: V -> V, zero: V, p: V, w: V, n: nat)
    requires forall q :: mix(q, zero) == q
    requires forall q, u :: step(mix(q, u)) == mix(feed(q, odd(u)), half(u))
    requires Iterate(half, w, n) == zero
    ensures Fold(feed, p, LowBits(odd, half, w, n)) == Iterate(step, mix(p, w), n)
    decreases n
  {
    if n != 0 {
      FeedBits(step, feed, mix, odd, half, zero, feed(p, odd(w)), half(w), n - 1);
      assert LowBits(odd, half, w, n)[1..] == LowBits(odd, half, half(w), n - 1);
    }
  }

  /** Feeding the bits of a word one at a time is mixing the word in and stepping. */
  lemma FeedWord<V(!new)>(r: Register<V>, p: V, w: V, n: nat)
    requires StepsMixed(r) && MixLaws(r)
    requires Iterate(r.half, w, n) == r.zero
    ensures Fold(Feed(r), p, LowBits(r.odd, r.half, w, n)) == Iterate(Step(r), r.mix(p, w), n)
  {
    FeedBits(Step(r), Feed(r), r.mix, r.odd, r.half, r.zero, p, w, n);
  }

  /** Bits that fit the register are the bits of their word. */
  lemma {:induction false} WordOfBits<V(!new)>(r: Register<V>, bits: seq<bool>)
    requires JoinLaws(r) && WidthLaws(r) && |bits| <= r.width
    ensures Iterate(r.half, Word(r, bits), |bits|) == r.zero
    ensures LowBits(r.odd, r.half, Word(r, bits), |bits|) == bits
    decreases |bits|
  {
    if bits != [] {
      var rest := Word(r, bits[1..]);
      WordOfBits(r, bits[1..]);
      IterateAdd(r.half, rest, |bits| - 1, r.width - |bits|);
      IterateFixed(r.half, r.zero, r.width - |bits|);
      assert !r.top(rest);
      var w := r.join(bits[0], rest);
      assert r.half(w) == rest && r.odd(w) == bits[0];
      assert Word(r, bits) == w;
      assert bits == [bits[0]] + bits[1..];
    }
  }

  /** From one register value, two different bursts lead to two different values. */
  lemma BurstsDiffer<V(!new)>(r: Register<V>, p: V, us: seq<bool>, ws: seq<bool>)
    requires Lawful(r) && |us| == |ws| <= r.width
    requires Fold(Feed(r), p, us) == Fold(Feed(r), p, ws)
    ensures us == ws
  {
    assert Holds(r, Mixing) && Holds(r, OddBit) && Holds(r, Halving) && Holds(r, Units) && Holds(r, PolynomialLast);
    assert Holds(r, Joining) && Holds(r, Width) && Holds(r, TopBit);
    var u, w := Word(r, us), Word(r, ws);
    WordOfBits(r, us);
    WordOfBits(r, ws);
    StepMixed(r);
    FeedWord(r, p, u, |us|);
    FeedWord(r, p, w, |ws|);
    StepInjective(r);
    IterateInjective(Step(r), r.mix(p, u), r.mix(p, w), |us|);
  }

  /** Two messages around a burst the register can hold: what the burst separates, the tail keeps apart. */
  lemma BurstSeparates<V(!new)>(
      r: Register<V>, v: V, head: seq<bool>, us: seq<bool>, ws: seq<bool>, tail: seq<bool>)
    requires Lawful(r) && |us| == |ws| <= r.width && us != ws
    ensures Fold(Feed(r), v, head + us + tail) != Fold(Feed(r), v, head + ws + tail)
  {
    var f := Feed(r);
    var p := Fold(f, v, head);
    FoldAppend(f, v, head, us);
    FoldAppend(f, v, head, ws);
    FoldAppend(f, v, head + us, tail);
    FoldAppend(f, v, head + ws, tail);
    if Fold(f, v, head + us + tail) == Fold(f, v, head + ws + tail) {
      assert Holds(r, Mixing) && Holds(r, TopBit);
      StepInjective(r);
      FoldInjective(f, Fold(f, p, us), Fold(f, p, ws), tail);
      BurstsDiffer(r, p, us, ws);
    }
  }

  // Messages of words, each mixed in at once and followed by n steps.

  function MixWord<V, B>(r: Register<V>, word: B -> V, n: nat): (V, B) -> V {
    (v, b) => Iterate(Step(r), r.mix(v, word(b)), n)
  }

  function WordBits<V, B>(r: Register<V>, word: B -> V, n: nat): B -> seq<bool> {
    b => LowBits(r.odd, r.half, word(b), n)
  }

  /** A message taken word by word is its bit stream taken bit by bit. */
  lemma WordsAreBits<V(!new), B(!new)>(r: Register<V>, word: B -> V, n: nat, v: V, bs: seq<B>)
    requires Lawful(r)
    requires forall b :: Iterate(r.half, word(b), n) == r.zero
    ensures Fold(MixWord(r, word, n), v, bs) == Fold(Feed(r), v, Flat(WordBits(r, word, n), bs))
  {
    assert Holds(r, Mixing) && Holds(r, OddBit) && Holds(r, Halving) && Holds(r, Units) && Holds(r, PolynomialLast);
    StepMixed(r);
    forall x, b ensures MixWord(r, word, n)(x, b) == Fold(Feed(r), x, WordBits(r, word, n)(b)) {
      FeedWord(r, x, word(b), n);
    }
    FoldRefines(MixWord(r, word, n), Feed(r), WordBits(r, word, n), v, bs);
  }

  /** Taking the words that spell c is mixing c in at once and stepping. */
  lemma SpelledWord<V(!new), B(!new)>(r: Register<V>, word: B -> V, k: nat, v: V, c: V, x: V, tail: seq<B>, n: nat)
    requires Lawful(r) && forall b :: Iterate(r.half, word(b), k) == r.zero
    requires Flat(WordBits(r, word, k), tail) == LowBits(r.odd, r.half, c, n)
    requires Iterate(r.half, c, n) == r.zero && r.mix(v, c) == x
    ensures Fold(MixWord(r, word, k), v, tail) == Iterate(Step(r), x, n)
  {
    assert Holds(r, Mixing) && Holds(r, OddBit) && Holds(r, Halving) && Holds(r, Units) && Holds(r, PolynomialLast);
    WordsAreBits(r, word, k, v, tail);
    StepMixed(r);
    FeedWord(r, v, c, n);
  }

  /** Two messages that share all bits before and all bits after a burst no wider than the
      register, and differ in the burst, leave it with different values. */
  lemma BurstNoticed<V(!new), B(!new)>(
      r: Register<V>, word: B -> V, n: nat, v: V, a: seq<B>, b: seq<B>,
      head: seq<bool>, us: seq<bool>, ws: seq<bool>, tail: seq<bool>)
    requires Lawful(r)
    requires forall x :: Iterate(r.half, word(x), n) == r.zero
    requires Flat(WordBits(r, word, n), a) == head + us + tail
    requires Flat(WordBits(r, word, n), b) == head + ws + tail
    requires |us| == |ws| <= r.width && us != ws
    ensures Fold(MixWord(r, word, n), v, a) != Fold(MixWord(r, word, n), v, b)
  {
    WordsAreBits(r, word, n, v, a);
    WordsAreBits(r, word, n, v, b);
    BurstSeparates(r, v, head, us, ws, tail);
  }
}
