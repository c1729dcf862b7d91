/** Scans that step over characters until one of them ends the scan. */
module Scanning {
  import opened Prelude

  datatype Scanner<!S> = Scanner(step: (S, char) -> S, ends: (S, char) -> bool)

  /** The index at which the scan from i ends. */
  function Stop<S>(m: Scanner<S>, text: string, i: nat, s: S): (at: Option<nat>)
    requires i <= |text|
    ensures at.Some? ==> i <= at.value < |text|
    decreases |text| - i
  {
    if i == |text| then None
    else if m.ends(s, text[i]) then Some(i)
    else Stop(m, text, i + 1, m.step(s, text[i]))
  }

  /** The state after a text in which the scan does not end. */
  function Through<S>(m: Scanner<S>, s: S, text: string): Option<S>
    decreases |text|
  {
    if text == "" then Some(s)
    else if m.ends(s, text[0]) then None
    else Through(m, m.step(s, text[0]), text[1..])
  }

  lemma {:induction false} ThroughAppend<S>(m: Scanner<S>, s: S, a: string, b: string)
    ensures Through(m, s, a).None? ==> Through(m, s, a + b).None?
    ensures Through(m, s, a).Some? ==> Through(m, s, a + b) == Through(m, Through(m, s, a).value, b)
    decreases |a|
  {
    if a == "" {
      assert a + b == b;
    } else if !m.ends(s, a[0]) {
      assert (a + b)[1..] == a[1..] + b;
      ThroughAppend(m, m.step(s, a[0]), a[1..], b);
    }
  }

  /** Two texts one after the other. */
  lemma Both<S>(m: Scanner<S>, s: S, a: string, t: S, b: string, u: S)
    requires Through(m, s, a) == Some(t) && Through(m, t, b) == Some(u)
    ensures Through(m, s, a + b) == Some(u)
  {
    ThroughAppend(m, s, a, b);
  }

  lemma One<S>(m: Scanner<S>, s: S, c: char)
    requires !m.ends(s, c)
    ensures Through(m, s, [c]) == Some(m.step(s, c))
  {
    assert [c][1..] == "";
  }

  /** A text whose every character leaves the state alone. */
  lemma {:induction false} Inert<S>(m: Scanner<S>, s: S, text: string)
    requires forall c :: c in text ==> !m.ends(s, c) && m.step(s, c) == s
    ensures Through(m, s, text) == Some(s)
  {
    if text != "" {
      Inert(m, s, text[1..]);
    }
  }

  /** The scan of a longer text goes on where the scan of a part of it got to. */
  lemma {:induction false} StopAfter<S>(m: Scanner<S>, text: string, i: nat, s: S, part: string)
    requires i + |part| <= |text| && text[i..i + |part|] == part && Through(m, s, part).Some?
    ensures Stop(m, text, i, s) == Stop(m, text, i + |part|, Through(m, s, part).value)
    decreases |part|
  {
    if part != "" {
      assert part[0] == text[i];
      assert text[i + 1..i + |part|] == part[1..];
      StopAfter(m, text, i + 1, m.step(s, text[i]), part[1..]);
    }
  }

  lemma PrefixThrough<S>(m: Scanner<S>, s: S, text: string, n: nat)
    requires n <= |text| && Through(m, s, text).Some?
    ensures Through(m, s, text[..n]).Some?
  {
    assert text == text[..n] + text[n..];
    ThroughAppend(m, s, text[..n], text[n..]);
  }
}

/** What stands between two quotes: characters, and characters behind a backslash. */
module QuotedTexts {

  datatype QuotedChar = Plain(c: char) | Escaped(c: char)

  predicate QuotedCharOk(quote: char, c: QuotedChar) {
    c.Plain? ==> c.c != quote && c.c != '\\'
  }

  predicate QuotedOk(quote: char, chars: seq<QuotedChar>) {
    forall i :: 0 <= i < |chars| ==> QuotedCharOk(quote, chars[i])
  }

  function CharText(c: QuotedChar): string {
    match c
    case Plain(c) => [c]
    case Escaped(c) => ['\\', c]
  }

  function CharsText(chars: seq<QuotedChar>): string {
    if chars == [] then "" else CharText(chars[0]) + CharsText(chars[1..])
  }
}
