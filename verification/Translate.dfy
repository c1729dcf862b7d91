/** Placeholders like {name} in the texts of scripts/control-ui-i18n.ts. */
module Placeholders {
  import opened Sequences
  import opened JsStrings

  predicate IsWordChar(c: char) {
    'a' <= c <= 'z' || 'A' <= c <= 'Z' || '0' <= c <= '9' || c == '_'
  }

  predicate IsName(name: string) {
    name != "" && forall i :: 0 <= i < |name| ==> IsWordChar(name[i])
  }

  /** text contains {name}. */
  ghost predicate Mentions(text: string, name: string) {
    IsName(name) && exists i :: 0 <= i <= |text| && StartsAt(text, i, "{" + name + "}")
  }

  /** The one name a placeholder opening at i can have. */
  lemma NameAt(text: string, i: nat, name: string)
    requires IsName(name) && i < |text| && StartsAt(text, i, "{" + name + "}")
    ensures RunEnd(IsWordChar, text, i + 1) == i + 1 + |name| && text[i + 1..i + 1 + |name|] == name
    ensures i + 1 + |name| < |text| && text[i + 1 + |name|] == '}'
  {
    var whole, end := "{" + name + "}", i + 1 + |name|;
    assert forall k :: 0 <= k < |whole| ==> text[i + k] == whole[k];
    assert text[i + 1..end] == name by {
      assert forall k :: 0 <= k < |name| ==> text[i + 1 + k] == whole[1 + k] == name[k];
    }
    assert text[end] == whole[1 + |name|] == '}';
    assert forall k :: i + 1 <= k < end ==> IsWordChar(text[k]) by {
      assert forall k :: i + 1 <= k < end ==> text[k] == name[k - i - 1];
    }
  }

  /** A placeholder opens at i. */
  predicate Opens(text: string, i: nat)
    requires i < |text|
  {
    text[i] == '{' && var end := RunEnd(IsWordChar, text, i + 1); i + 1 < end < |text| && text[end] == '}'
  }

  /** The names in placeholders that open at i or later. */
  function NamesFrom(text: string, i: nat): (names: set<string>)
    requires i <= |text|
    decreases |text| - i
  {
    if i == |text| then {}
    else if Opens(text, i) then
      var end := RunEnd(IsWordChar, text, i + 1);
      {text[i + 1..end]} + NamesFrom(text, end + 1)
    else NamesFrom(text, i + 1)
  }

  /** extractTranslationPlaceholders, as the set that its sorted list without duplicates stands for. */
  function Extract(text: string): (names: set<string>) {
    NamesFrom(text, 0)
  }

  ghost predicate OpensAt(text: string, i: int, name: string) {
    0 <= i < |text| && IsName(name) && StartsAt(text, i, "{" + name + "}")
  }

  /** What opens at i is a placeholder of the one name that follows. */
  lemma OpensOne(text: string, i: nat, name: string)
    requires i < |text|
    ensures OpensAt(text, i, name) <==> Opens(text, i) && name == text[i + 1..RunEnd(IsWordChar, text, i + 1)]
  {
    var end := RunEnd(IsWordChar, text, i + 1);
    if OpensAt(text, i, name) {
      var whole := "{" + name + "}";
      assert text[i..i + |whole|][0] == whole[0];
      NameAt(text, i, name);
    }
    if Opens(text, i) && name == text[i + 1..end] {
      assert text[i..end + 1] == "{" + name + "}";
    }
  }

  ghost predicate OpensFrom(text: string, i: nat, name: string) {
    exists k :: k >= i && OpensAt(text, k, name)
  }

  lemma SkipTo(text: string, i: nat, j: nat, name: string)
    requires i <= j <= |text|
    requires forall k :: i <= k < j ==> !(Opens(text, k) && name == text[k + 1..RunEnd(IsWordChar, text, k + 1)])
    ensures OpensFrom(text, i, name) <==> OpensFrom(text, j, name)
  {
    forall k | i <= k < j ensures !OpensAt(text, k, name) {
      OpensOne(text, k, name);
    }
  }

  lemma {:induction false} NamesFromExact(text: string, i: nat, name: string)
    requires i <= |text|
    ensures name in NamesFrom(text, i) <==> OpensFrom(text, i, name)
    decreases |text| - i
  {
    if i < |text| {
      OpensOne(text, i, name);
      if OpensAt(text, i, name) {
      } else {
        var next := if Opens(text, i) then RunEnd(IsWordChar, text, i + 1) + 1 else i + 1;
        SkipTo(text, i, next, name);
        NamesFromExact(text, next, name);
      }
    }
  }

  /** The scanner finds exactly the names the text mentions. */
  lemma ExtractIsExact(text: string, name: string)
    ensures name in Extract(text) <==> Mentions(text, name)
  {
    NamesFromExact(text, 0, name);
    if Mentions(text, name) {
      var i :| 0 <= i <= |text| && StartsAt(text, i, "{" + name + "}");
      assert OpensAt(text, i, name);
    }
  }
}

/** Asking a provider for a batch: a bounded number of attempts, and a split in two when a batch
    of more than one item times out.  How a reply is judged is left open here. */
module Retries {
  import opened Prelude

  const TRANSLATE_MAX_ATTEMPTS := 2

  datatype Result<+T> = Ok(value: T) | Err(message: string)

  /** What a prompt comes to: reply text, or a thrown error. */
  datatype Reply = Raw(raw: string) | Fails(message: string)

  /** What a prompt is built from. */
  datatype Prompt<T> = Prompt(items: seq<T>, validationError: Option<string>)

  type Answers = map<string, string>

  /** The provider's replies in the order it is asked, and how a batch takes a reply. */
  datatype Setting<!T> = Setting(
    script: nat -> Reply,
    judge: (Reply, seq<T>) -> Result<Answers>,
    timedOut: string -> bool)

  datatype Outcome<T> = Outcome(result: Result<Answers>, asked: seq<Prompt<T>>)

  function Midpoint(n: nat): nat {
    (n + 1) / 2
  }

  function NextError(reply: Reply, message: string, error: Option<string>): Option<string> {
    if reply.Raw? then Some(message) else error
  }

  function Translate<T>(p: Setting<T>, items: seq<T>, from: nat): Outcome<T>
    decreases |items|, TRANSLATE_MAX_ATTEMPTS, 1
  {
    Try(p, items, 0, None, from)
  }

  /** Attempts from the given one on, when the provider has answered from prompts already. */
  function Try<T>(p: Setting<T>, items: seq<T>, attempt: nat, error: Option<string>, from: nat): Outcome<T>
    requires attempt < TRANSLATE_MAX_ATTEMPTS
    decreases |items|, TRANSLATE_MAX_ATTEMPTS - attempt, 0
  {
    var prompt := Prompt(items, error);
    var result := p.judge(p.script(from), items);
    if result.Ok? then Outcome(result, [prompt])
    else if p.timedOut(result.message) && |items| > 1 then
      var halves := Halves(p, items, from + 1);
      Outcome(halves.result, [prompt] + halves.asked)
    else if p.timedOut(result.message) || attempt + 1 == TRANSLATE_MAX_ATTEMPTS then Outcome(result, [prompt])
    else
      var again := Try(p, items, attempt + 1, NextError(p.script(from), result.message, error), from + 1);
      Outcome(again.result, [prompt] + again.asked)
  }

  /** A timed-out batch in two halves; the first failure stops. */
  function Halves<T>(p: Setting<T>, items: seq<T>, from: nat): Outcome<T>
    requires |items| > 1
    decreases |items|, 0, 0
  {
    var m := Midpoint(|items|);
    var left := Translate(p, items[..m], from);
    if left.result.Err? then left
    else
      var right := Translate(p, items[m..], from + |left.asked|);
      var merged := if right.result.Err? then right.result else Ok(left.result.value + right.result.value);
      Outcome(merged, left.asked + right.asked)
  }

  /** At most this many prompts for n items. */
  function MaxPrompts(n: nat): nat {
    if n == 0 then TRANSLATE_MAX_ATTEMPTS else 4 * n - 2
  }

  /** Whatever the provider answers, and in whatever order its prompts time out. */
  lemma {:induction false} BoundedPrompts<T>(p: Setting<T>, items: seq<T>, from: nat)
    ensures |Translate(p, items, from).asked| <= MaxPrompts(|items|)
    decreases |items|, TRANSLATE_MAX_ATTEMPTS, 1
  {
    BoundedAttempts(p, items, 0, None, from);
  }

  lemma {:induction false} BoundedAttempts<T>(p: Setting<T>, items: seq<T>, attempt: nat, error: Option<string>, from: nat)
    requires attempt < TRANSLATE_MAX_ATTEMPTS
    ensures |Try(p, items, attempt, error, from).asked| <= MaxPrompts(|items|) - attempt
    decreases |items|, TRANSLATE_MAX_ATTEMPTS - attempt, 0
  {
    var result := p.judge(p.script(from), items);
    if result.Err? {
      if p.timedOut(result.message) {
        if |items| > 1 {
          BoundedHalves(p, items, from + 1);
        }
      } else if attempt + 1 < TRANSLATE_MAX_ATTEMPTS {
        BoundedAttempts(p, items, attempt + 1, NextError(p.script(from), result.message, error), from + 1);
      }
    }
  }

  lemma {:induction false} BoundedHalves<T>(p: Setting<T>, items: seq<T>, from: nat)
    requires |items| > 1
    ensures |Halves(p, items, from).asked| <= MaxPrompts(|items|) - TRANSLATE_MAX_ATTEMPTS
    decreases |items|, 0, 0
  {
    var m := Midpoint(|items|);
    var left := Translate(p, items[..m], from);
    BoundedPrompts(p, items[..m], from);
    BoundedPrompts(p, items[m..], from + |left.asked|);
  }

  /** What every accepted reply establishes, and merging two parts keeps. */
  ghost predicate Established<T(!new)>(p: Setting<T>, good: (seq<T>, Answers) -> bool) {
    && (forall reply, items :: p.judge(reply, items).Ok? ==> good(items, p.judge(reply, items).value))
    && (forall a, b, left, right :: good(a, left) && good(b, right) ==> good(a + b, left + right))
  }

  /** Whatever the provider answers: what is returned for a batch is good for the batch. */
  lemma {:induction false} ResultIsGood<T(!new)>(p: Setting<T>, good: (seq<T>, Answers) -> bool, items: seq<T>, from: nat)
    requires Established(p, good) && Translate(p, items, from).result.Ok?
    ensures good(items, Translate(p, items, from).result.value)
    decreases |items|, TRANSLATE_MAX_ATTEMPTS, 1
  {
    AttemptIsGood(p, good, items, 0, None, from);
  }

  lemma {:induction false} AttemptIsGood<T(!new)>(
      p: Setting<T>, good: (seq<T>, Answers) -> bool, items: seq<T>, attempt: nat, error: Option<string>, from: nat)
    requires Established(p, good)
    requires attempt < TRANSLATE_MAX_ATTEMPTS && Try(p, items, attempt, error, from).result.Ok?
    ensures good(items, Try(p, items, attempt, error, from).result.value)
    decreases |items|, TRANSLATE_MAX_ATTEMPTS - attempt, 0
  {
    var result := p.judge(p.script(from), items);
    if result.Err? {
      if p.timedOut(result.message) {
        HalvesAreGood(p, good, items, from + 1);
      } else {
        AttemptIsGood(p, good, items, attempt + 1, NextError(p.script(from), result.message, error), from + 1);
      }
    }
  }

  lemma {:induction false} HalvesAreGood<T(!new)>(p: Setting<T>, good: (seq<T>, Answers) -> bool, items: seq<T>, from: nat)
    requires Established(p, good)
    requires |items| > 1 && Halves(p, items, from).result.Ok?
    ensures good(items, Halves(p, items, from).result.value)
    decreases |items|, 0, 0
  {
    var m := Midpoint(|items|);
    var left := Translate(p, items[..m], from);
    ResultIsGood(p, good, items[..m], from);
    ResultIsGood(p, good, items[m..], from + |left.asked|);
    assert items == items[..m] + items[m..];
  }

  // What is asked, and what the answers come to.

  /** What one reply adds to the answers, and how many items it takes care of. */
  function Contribution<T>(p: Setting<T>, prompt: Prompt<T>, reply: Reply): Answers {
    var result := p.judge(reply, prompt.items);
    if result.Ok? then result.value else map[]
  }

  function Accepted<T>(p: Setting<T>, prompt: Prompt<T>, reply: Reply): seq<T> {
    if p.judge(reply, prompt.items).Ok? then prompt.items else []
  }

  function MergeAll(parts: seq<Answers>): Answers {
    if parts == [] then map[] else parts[0] + MergeAll(parts[1..])
  }

  function Contributions<T>(p: Setting<T>, asked: seq<Prompt<T>>, from: nat): (parts: seq<Answers>)
    ensures |parts| == |asked|
    ensures forall k :: 0 <= k < |asked| ==> parts[k] == Contribution(p, asked[k], p.script(from + k))
  {
    seq(|asked|, k requires 0 <= k < |asked| => Contribution(p, asked[k], p.script(from + k)))
  }

  /** All answers that were accepted, later ones winning. */
  function Merged<T>(p: Setting<T>, asked: seq<Prompt<T>>, from: nat): Answers {
    MergeAll(Contributions(p, asked, from))
  }

  /** The items of the prompts that were answered, in order. */
  function Covered<T>(p: Setting<T>, asked: seq<Prompt<T>>, from: nat): seq<T>
    decreases |asked|
  {
    if asked == [] then [] else Accepted(p, asked[0], p.script(from)) + Covered(p, asked[1..], from + 1)
  }

  lemma MergeGroups(a: Answers, b: Answers, c: Answers)
    ensures (a + b) + c == a + (b + c)
  {
  }

  lemma MergeNothing(a: Answers)
    ensures map[] + a == a && a + map[] == a
  {
  }

  lemma {:induction false} MergeAllAppend(a: seq<Answers>, b: seq<Answers>)
    ensures MergeAll(a + b) == MergeAll(a) + MergeAll(b)
  {
    if a == [] {
      assert a + b == b;
      MergeNothing(MergeAll(b));
    } else {
      assert (a + b)[1..] == a[1..] + b;
      MergeAllAppend(a[1..], b);
      MergeGroups(a[0], MergeAll(a[1..]), MergeAll(b));
    }
  }

  lemma MergedAppend<T>(p: Setting<T>, a: seq<Prompt<T>>, b: seq<Prompt<T>>, from: nat)
    ensures Merged(p, a + b, from) == Merged(p, a, from) + Merged(p, b, from + |a|)
  {
    var first, second := Contributions(p, a, from), Contributions(p, b, from + |a|);
    forall k | |a| <= k < |a + b| ensures Contributions(p, a + b, from)[k] == second[k - |a|] {
      assert from + k == from + |a| + (k - |a|);
    }
    assert Contributions(p, a + b, from) == first + second;
    MergeAllAppend(first, second);
  }

  lemma {:induction false} CoveredAppend<T>(p: Setting<T>, a: seq<Prompt<T>>, b: seq<Prompt<T>>, from: nat)
    ensures Covered(p, a + b, from) == Covered(p, a, from) + Covered(p, b, from + |a|)
    decreases |a|
  {
    if a == [] {
      assert a + b == b;
    } else {
      assert (a + b)[0] == a[0] && (a + b)[1..] == a[1..] + b;
      CoveredAppend(p, a[1..], b, from + 1);
    }
  }

  lemma MergeAllOne(part: Answers)
    ensures MergeAll([part]) == part
  {
    assert MergeAll([part]) == part + MergeAll([part][1..]) == part + map[];
    MergeNothing(part);
  }

  lemma MergedOne<T>(p: Setting<T>, prompt: Prompt<T>, from: nat)
    ensures Merged(p, [prompt], from) == Contribution(p, prompt, p.script(from))
  {
    var parts := Contributions(p, [prompt], from);
    assert parts[0] == Contribution(p, prompt, p.script(from + 0));
    assert parts == [parts[0]];
    MergeAllOne(parts[0]);
  }

  lemma CoveredFirst<T>(p: Setting<T>, prompt: Prompt<T>, rest: seq<Prompt<T>>, from: nat)
    ensures Covered(p, [prompt] + rest, from) == Accepted(p, prompt, p.script(from)) + Covered(p, rest, from + 1)
  {
    assert ([prompt] + rest)[1..] == rest;
  }

  lemma MergedFirst<T>(p: Setting<T>, prompt: Prompt<T>, rest: seq<Prompt<T>>, from: nat)
    ensures Merged(p, [prompt] + rest, from) == Contribution(p, prompt, p.script(from)) + Merged(p, rest, from + 1)
    ensures Covered(p, [prompt] + rest, from) == Accepted(p, prompt, p.script(from)) + Covered(p, rest, from + 1)
  {
    MergedAppend(p, [prompt], rest, from);
    MergedOne(p, prompt, from);
    CoveredFirst(p, prompt, rest, from);
  }

  /** A result is accepted or rejected as the last reply is. */
  ghost predicate LastDecides<T>(p: Setting<T>, o: Outcome<T>, from: nat) {
    var n := |o.asked| - 1;
    var decides :=
      && o.asked != []
      && p.judge(p.script(from + n), o.asked[n].items).Ok? == o.result.Ok?
      && (o.result.Err? ==> o.result == p.judge(p.script(from + n), o.asked[n].items));
    decides
  }

  /** A result is what the accepted replies say, and they cover all items. */
  ghost predicate ComesTo<T>(p: Setting<T>, items: seq<T>, o: Outcome<T>, from: nat) {
    var comes := o.result.Ok? ==> o.result.value == Merged(p, o.asked, from) && items == Covered(p, o.asked, from);
    comes
  }

  ghost predicate Accounts<T>(p: Setting<T>, items: seq<T>, o: Outcome<T>, from: nat) {
    var accounts := LastDecides(p, o, from) && ComesTo(p, items, o, from);
    accounts
  }

  /** Whatever the provider answers: the items of the accepted prompts are exactly the batch, in
      order, and the map that is returned is what their replies came to. */
  lemma {:induction false} ResultIsMerged<T>(p: Setting<T>, items: seq<T>, from: nat)
    ensures Accounts(p, items, Translate(p, items, from), from)
    decreases |items|, TRANSLATE_MAX_ATTEMPTS, 1
  {
    AttemptIsMerged(p, items, 0, None, from);
  }

  lemma {:induction false} AttemptIsMerged<T>(p: Setting<T>, items: seq<T>, attempt: nat, error: Option<string>, from: nat)
    requires attempt < TRANSLATE_MAX_ATTEMPTS
    ensures Accounts(p, items, Try(p, items, attempt, error, from), from)
    decreases |items|, TRANSLATE_MAX_ATTEMPTS - attempt, 0
  {
    var prompt, result := Prompt(items, error), p.judge(p.script(from), items);
    if result.Err? && p.timedOut(result.message) && |items| > 1 {
      HalvesAreMerged(p, items, from + 1);
      RejectedFirst(p, items, prompt, Halves(p, items, from + 1), from);
    } else if result.Err? && !p.timedOut(result.message) && attempt + 1 < TRANSLATE_MAX_ATTEMPTS {
      var next := NextError(p.script(from), result.message, error);
      AttemptIsMerged(p, items, attempt + 1, next, from + 1);
      RejectedFirst(p, items, prompt, Try(p, items, attempt + 1, next, from + 1), from);
    } else {
      MergedFirst(p, prompt, [], from);
      assert [prompt] + [] == [prompt];
    }
  }

  lemma LastOfRest<T>(p: Setting<T>, prompt: Prompt<T>, rest: Outcome<T>, from: nat)
    requires LastDecides(p, rest, from + 1)
    ensures LastDecides(p, Outcome(rest.result, [prompt] + rest.asked), from)
  {
    var all := [prompt] + rest.asked;
    assert all[|all| - 1] == rest.asked[|rest.asked| - 1];
    assert from + (|all| - 1) == from + 1 + (|rest.asked| - 1);
  }

  lemma RejectedFirst<T>(p: Setting<T>, items: seq<T>, prompt: Prompt<T>, rest: Outcome<T>, from: nat)
    requires p.judge(p.script(from), prompt.items).Err? && Accounts(p, items, rest, from + 1)
    ensures Accounts(p, items, Outcome(rest.result, [prompt] + rest.asked), from)
  {
    LastOfRest(p, prompt, rest, from);
    MergedFirst(p, prompt, rest.asked, from);
    MergeNothing(Merged(p, rest.asked, from + 1));
  }

  /** Two halves, the first of which is accepted. */
  function Both<T>(left: Outcome<T>, right: Outcome<T>): Outcome<T>
    requires left.result.Ok?
  {
    Outcome(if right.result.Err? then right.result else Ok(left.result.value + right.result.value), left.asked + right.asked)
  }

  lemma LastOfBoth<T>(p: Setting<T>, left: Outcome<T>, right: Outcome<T>, from: nat)
    requires left.result.Ok? && LastDecides(p, right, from + |left.asked|)
    ensures LastDecides(p, Both(left, right), from)
  {
    var all := left.asked + right.asked;
    assert all[|all| - 1] == right.asked[|right.asked| - 1];
    assert from + (|all| - 1) == from + |left.asked| + (|right.asked| - 1);
  }

  lemma BothCome<T>(p: Setting<T>, a: seq<T>, b: seq<T>, left: Outcome<T>, right: Outcome<T>, from: nat)
    requires left.result.Ok? && ComesTo(p, a, left, from) && ComesTo(p, b, right, from + |left.asked|)
    ensures ComesTo(p, a + b, Both(left, right), from)
  {
    MergedAppend(p, left.asked, right.asked, from);
    CoveredAppend(p, left.asked, right.asked, from);
  }

  lemma HalvesAreBoth<T>(p: Setting<T>, items: seq<T>, a: seq<T>, b: seq<T>, from: nat)
    requires |items| > 1 && a == items[..Midpoint(|items|)] && b == items[Midpoint(|items|)..]
    ensures var left := Translate(p, a, from);
      Halves(p, items, from) ==
        if left.result.Err? then left else Both(left, Translate(p, b, from + |left.asked|))
  {
  }

  lemma EitherAccounts<T>(p: Setting<T>, items: seq<T>, a: seq<T>, b: seq<T>, left: Outcome<T>, right: Outcome<T>, from: nat)
    requires items == a + b && Accounts(p, a, left, from)
    requires left.result.Ok? ==> Accounts(p, b, right, from + |left.asked|)
    ensures Accounts(p, items, if left.result.Err? then left else Both(left, right), from)
  {
    if left.result.Ok? {
      BothAccount(p, a, b, left, right, from);
    }
  }

  lemma {:induction false} HalvesAreMerged<T>(p: Setting<T>, items: seq<T>, from: nat)
    requires |items| > 1
    ensures Accounts(p, items, Halves(p, items, from), from)
    decreases |items|, 0, 0
  {
    var a, b := items[..Midpoint(|items|)], items[Midpoint(|items|)..];
    var left := Translate(p, a, from);
    var right := Translate(p, b, from + |left.asked|);
    assert items == a + b;
    HalvesAreBoth(p, items, a, b, from);
    ResultIsMerged(p, a, from);
    ResultIsMerged(p, b, from + |left.asked|);
    EitherAccounts(p, items, a, b, left, right, from);
  }

  lemma BothAccount<T>(p: Setting<T>, a: seq<T>, b: seq<T>, left: Outcome<T>, right: Outcome<T>, from: nat)
    requires left.result.Ok? && Accounts(p, a, left, from) && Accounts(p, b, right, from + |left.asked|)
    ensures Accounts(p, a + b, Both(left, right), from)
  {
    LastOfBoth(p, left, right, from);
    BothCome(p, a, b, left, right, from);
  }

  /** What is asked after a reply: the first half of a batch that timed out; the same batch again,
      with what was wrong with the reply if there was one; or something new. */
  ghost predicate NextPrompt<T>(p: Setting<T>, before: Prompt<T>, reply: Reply, next: Prompt<T>) {
    var result := p.judge(reply, before.items);
    if result.Ok? then next.validationError == None
    else if p.timedOut(result.message) then
      |before.items| > 1 && next == Prompt(before.items[..(|before.items| + 1) / 2], None)
    else next == Prompt(before.items, if reply.Raw? then Some(result.message) else None)
  }

  ghost predicate CalledFor<T>(p: Setting<T>, asked: seq<Prompt<T>>, from: nat, k: nat)
    requires k + 1 < |asked|
  {
    NextPrompt(p, asked[k], p.script(from + k), asked[k + 1])
  }

  /** Every prompt but the first is called for by the reply to the one before it. */
  ghost predicate Protocol<T>(p: Setting<T>, asked: seq<Prompt<T>>, from: nat) {
    forall k :: 0 <= k < |asked| - 1 ==> CalledFor(p, asked, from, k)
  }

  lemma ProtocolBoth<T>(p: Setting<T>, a: seq<Prompt<T>>, b: seq<Prompt<T>>, from: nat)
    requires a != [] && b != [] && Protocol(p, a, from) && Protocol(p, b, from + |a|)
    requires NextPrompt(p, a[|a| - 1], p.script(from + (|a| - 1)), b[0])
    ensures Protocol(p, a + b, from)
  {
    forall k | 0 <= k < |a + b| - 1 ensures CalledFor(p, a + b, from, k) {
      if k < |a| - 1 {
        assert CalledFor(p, a, from, k);
      } else if k >= |a| {
        assert CalledFor(p, b, from + |a|, k - |a|);
      }
    }
  }

  /** The prompts for a batch, from the first attempt or the second. */
  ghost predicate Asks<T>(p: Setting<T>, first: Prompt<T>, asked: seq<Prompt<T>>, from: nat) {
    var asks := asked != [] && asked[0] == first && Protocol(p, asked, from);
    asks
  }

  lemma AskFirst<T>(p: Setting<T>, prompt: Prompt<T>, next: Prompt<T>, rest: seq<Prompt<T>>, from: nat)
    requires Asks(p, next, rest, from + 1) && NextPrompt(p, prompt, p.script(from), next)
    ensures Asks(p, prompt, [prompt] + rest, from)
  {
    ProtocolBoth(p, [prompt], rest, from);
  }

  /** Whatever the provider answers: a batch is asked for as it is, and then as the replies call
      for.  In particular a second attempt quotes what was wrong with the reply to the first. */
  lemma {:induction false} PromptsFollowReplies<T>(p: Setting<T>, items: seq<T>, from: nat)
    ensures Asks(p, Prompt(items, None), Translate(p, items, from).asked, from)
    decreases |items|, TRANSLATE_MAX_ATTEMPTS, 1
  {
    AttemptAsks(p, items, 0, None, from);
  }

  lemma {:induction false} AttemptAsks<T>(p: Setting<T>, items: seq<T>, attempt: nat, error: Option<string>, from: nat)
    requires attempt < TRANSLATE_MAX_ATTEMPTS && (attempt == 0 ==> error == None)
    ensures Asks(p, Prompt(items, error), Try(p, items, attempt, error, from).asked, from)
    decreases |items|, TRANSLATE_MAX_ATTEMPTS - attempt, 0
  {
    var prompt, result := Prompt(items, error), p.judge(p.script(from), items);
    if result.Err? && p.timedOut(result.message) && |items| > 1 {
      HalvesAsk(p, items, from + 1);
      AskFirst(p, prompt, Prompt(items[..Midpoint(|items|)], None), Halves(p, items, from + 1).asked, from);
    } else if result.Err? && !p.timedOut(result.message) && attempt + 1 < TRANSLATE_MAX_ATTEMPTS {
      var next := NextError(p.script(from), result.message, error);
      AttemptAsks(p, items, attempt + 1, next, from + 1);
      AskFirst(p, prompt, Prompt(items, next), Try(p, items, attempt + 1, next, from + 1).asked, from);
    }
  }

  lemma EitherAsks<T>(p: Setting<T>, a: seq<T>, b: seq<T>, left: Outcome<T>, right: Outcome<T>, from: nat)
    requires Asks(p, Prompt(a, None), left.asked, from) && LastDecides(p, left, from)
    requires Asks(p, Prompt(b, None), right.asked, from + |left.asked|)
    ensures Asks(p, Prompt(a, None), (if left.result.Err? then left else Both(left, right)).asked, from)
  {
    if left.result.Ok? {
      ProtocolBoth(p, left.asked, right.asked, from);
    }
  }

  lemma {:induction false} HalvesAsk<T>(p: Setting<T>, items: seq<T>, from: nat)
    requires |items| > 1
    ensures Asks(p, Prompt(items[..Midpoint(|items|)], None), Halves(p, items, from).asked, from)
    decreases |items|, 0, 0
  {
    var a, b := items[..Midpoint(|items|)], items[Midpoint(|items|)..];
    var left := Translate(p, a, from);
    var right := Translate(p, b, from + |left.asked|);
    HalvesAreBoth(p, items, a, b, from);
    PromptsFollowReplies(p, a, from);
    PromptsFollowReplies(p, b, from + |left.asked|);
    ResultIsMerged(p, a, from);
    EitherAsks(p, a, b, left, right, from);
  }

  /** Every prompt asks for the items that come next: those behind the ones that are covered. */
  ghost predicate AsksInOrder<T>(p: Setting<T>, items: seq<T>, asked: seq<Prompt<T>>, from: nat) {
    forall k :: 0 <= k < |asked| ==> AsksNext(p, items, asked, from, k)
  }

  ghost predicate AsksNext<T>(p: Setting<T>, items: seq<T>, asked: seq<Prompt<T>>, from: nat, k: nat)
    requires k < |asked|
  {
    Covered(p, asked[..k], from) + asked[k].items <= items
  }

  lemma {:induction false} PromptsGoInOrder<T>(p: Setting<T>, items: seq<T>, from: nat)
    ensures AsksInOrder(p, items, Translate(p, items, from).asked, from)
    decreases |items|, TRANSLATE_MAX_ATTEMPTS, 1
  {
    AttemptsGoInOrder(p, items, 0, None, from);
  }

  lemma OrderBehind<T>(p: Setting<T>, items: seq<T>, prompt: Prompt<T>, rest: seq<Prompt<T>>, from: nat)
    requires prompt.items == items && AsksInOrder(p, items, rest, from + 1)
    requires p.judge(p.script(from), items).Err?
    ensures AsksInOrder(p, items, [prompt] + rest, from)
  {
    var all := [prompt] + rest;
    forall k | 0 <= k < |all| ensures AsksNext(p, items, all, from, k) {
      if k == 0 {
        assert Covered(p, all[..0], from) + items == items;
      } else {
        assert AsksNext(p, items, rest, from + 1, k - 1);
        assert all[..k] == [prompt] + rest[..k - 1];
        CoveredFirst(p, prompt, rest[..k - 1], from);
      }
    }
  }

  lemma {:induction false} AttemptsGoInOrder<T>(p: Setting<T>, items: seq<T>, attempt: nat, error: Option<string>, from: nat)
    requires attempt < TRANSLATE_MAX_ATTEMPTS
    ensures AsksInOrder(p, items, Try(p, items, attempt, error, from).asked, from)
    decreases |items|, TRANSLATE_MAX_ATTEMPTS - attempt, 0
  {
    var prompt, result := Prompt(items, error), p.judge(p.script(from), items);
    if result.Err? && p.timedOut(result.message) && |items| > 1 {
      HalvesGoInOrder(p, items, from + 1);
      OrderBehind(p, items, prompt, Halves(p, items, from + 1).asked, from);
    } else if result.Err? && !p.timedOut(result.message) && attempt + 1 < TRANSLATE_MAX_ATTEMPTS {
      var next := NextError(p.script(from), result.message, error);
      AttemptsGoInOrder(p, items, attempt + 1, next, from + 1);
      OrderBehind(p, items, prompt, Try(p, items, attempt + 1, next, from + 1).asked, from);
    }
  }

  lemma {:induction false} HalvesGoInOrder<T>(p: Setting<T>, items: seq<T>, from: nat)
    requires |items| > 1
    ensures AsksInOrder(p, items, Halves(p, items, from).asked, from)
    decreases |items|, 0, 0
  {
    var a, b := items[..Midpoint(|items|)], items[Midpoint(|items|)..];
    var left := Translate(p, a, from);
    assert items == a + b;
    PromptsGoInOrder(p, a, from);
    if left.result.Ok? {
      PromptsGoInOrder(p, b, from + |left.asked|);
      ResultIsMerged(p, a, from);
      OrderBoth(p, a, b, left.asked, Translate(p, b, from + |left.asked|).asked, from);
    } else {
      OrderLonger(p, a, b, left.asked, from);
    }
  }

  lemma OrderLonger<T>(p: Setting<T>, a: seq<T>, b: seq<T>, asked: seq<Prompt<T>>, from: nat)
    requires AsksInOrder(p, a, asked, from)
    ensures AsksInOrder(p, a + b, asked, from)
  {
    forall k | 0 <= k < |asked| ensures AsksNext(p, a + b, asked, from, k) {
      assert AsksNext(p, a, asked, from, k) && a <= a + b;
    }
  }

  lemma OrderFirst<T>(p: Setting<T>, a: seq<T>, b: seq<T>, first: seq<Prompt<T>>, second: seq<Prompt<T>>, from: nat, k: nat)
    requires k < |first| && AsksNext(p, a, first, from, k)
    ensures AsksNext(p, a + b, first + second, from, k)
  {
    assert (first + second)[..k] == first[..k];
    assert a <= a + b;
  }

  lemma OrderSecond<T>(p: Setting<T>, a: seq<T>, b: seq<T>, first: seq<Prompt<T>>, second: seq<Prompt<T>>, from: nat, k: nat)
    requires Covered(p, first, from) == a && |first| <= k < |first| + |second|
    requires AsksNext(p, b, second, from + |first|, k - |first|)
    ensures AsksNext(p, a + b, first + second, from, k)
  {
    var before := second[..k - |first|];
    assert (first + second)[..k] == first + before;
    CoveredAppend(p, first, before, from);
    PrefixBehind(a, Covered(p, before, from + |first|), second[k - |first|].items, b);
  }

  lemma OrderBoth<T>(p: Setting<T>, a: seq<T>, b: seq<T>, first: seq<Prompt<T>>, second: seq<Prompt<T>>, from: nat)
    requires AsksInOrder(p, a, first, from) && Covered(p, first, from) == a
    requires AsksInOrder(p, b, second, from + |first|)
    ensures AsksInOrder(p, a + b, first + second, from)
  {
    forall k | 0 <= k < |first + second| ensures AsksNext(p, a + b, first + second, from, k) {
      if k < |first| {
        OrderFirst(p, a, b, first, second, from, k);
      } else {
        assert AsksNext(p, b, second, from + |first|, k - |first|);
        OrderSecond(p, a, b, first, second, from, k);
      }
    }
  }

  lemma PrefixBehind<T>(a: seq<T>, x: seq<T>, y: seq<T>, b: seq<T>)
    requires x + y <= b
    ensures (a + x) + y <= a + b
  {
    assert (a + x) + y == a + (x + y);
  }

  // The bound cannot be lowered.

  /** Every item alone fails once and is then answered; every larger batch fails once and then times out. */
  function WorstReplies<T>(items: seq<T>, failed: Reply, late: Reply, answer: T -> Reply): (replies: seq<Reply>)
    requires items != []
    ensures |replies| == MaxPrompts(|items|)
    decreases |items|
  {
    if |items| == 1 then [failed, answer(items[0])]
    else
      [failed, late]
      + WorstReplies(items[..Midpoint(|items|)], failed, late, answer)
      + WorstReplies(items[Midpoint(|items|)..], failed, late, answer)
  }

  ghost predicate Follows<T>(p: Setting<T>, from: nat, replies: seq<Reply>) {
    forall k :: 0 <= k < |replies| ==> p.script(from + k) == replies[k]
  }

  lemma FollowsBoth<T>(p: Setting<T>, from: nat, a: seq<Reply>, b: seq<Reply>)
    requires Follows(p, from, a + b)
    ensures Follows(p, from, a) && Follows(p, from + |a|, b)
  {
    forall k | 0 <= k < |a| ensures p.script(from + k) == a[k] {
      assert (a + b)[k] == a[k];
    }
    forall k | 0 <= k < |b| ensures p.script(from + |a| + k) == b[k] {
      assert p.script(from + (|a| + k)) == (a + b)[|a| + k];
    }
  }

  /** failed is a failure that is retried, late one that splits, and answer settles every single item. */
  ghost predicate Worst<T(!new)>(p: Setting<T>, items: seq<T>, failed: Reply, late: Reply, answer: T -> Reply) {
    && (forall batch :: p.judge(failed, batch).Err? && !p.timedOut(p.judge(failed, batch).message))
    && (forall batch :: p.judge(late, batch).Err? && p.timedOut(p.judge(late, batch).message))
    && (forall i :: 0 <= i < |items| ==> p.judge(answer(items[i]), [items[i]]).Ok?)
  }

  /** A first attempt that fails without a timeout costs one prompt; a second one that times out,
      or is answered, another. */
  lemma WorstStart<T(!new)>(p: Setting<T>, items: seq<T>, failed: Reply, late: Reply, answer: T -> Reply, from: nat)
    requires items != [] && Worst(p, items, failed, late, answer) && p.script(from) == failed
    requires p.script(from + 1) == if |items| > 1 then late else answer(items[0])
    ensures if |items| == 1 then
        Translate(p, items, from).result.Ok? && |Translate(p, items, from).asked| == 2
      else
        && Translate(p, items, from).result == Halves(p, items, from + 2).result
        && |Translate(p, items, from).asked| == 2 + |Halves(p, items, from + 2).asked|
  {
    var first := p.judge(failed, items);
    var again := Try(p, items, 1, NextError(failed, first.message, None), from + 1);
    assert first.Err? && !p.timedOut(first.message);
    assert Translate(p, items, from) == Outcome(again.result, [Prompt(items, None)] + again.asked);
    if |items| == 1 {
      assert items == [items[0]];
    }
  }

  lemma WorstPair<T>(items: seq<T>, failed: Reply, late: Reply, answer: T -> Reply)
    requires items != []
    ensures var replies := WorstReplies(items, failed, late, answer);
      replies[0] == failed && replies[1] == if |items| > 1 then late else answer(items[0])
  {
  }

  lemma WorstParts<T>(items: seq<T>, failed: Reply, late: Reply, answer: T -> Reply, left: seq<Reply>, right: seq<Reply>)
    requires |items| > 1
    requires left == WorstReplies(items[..Midpoint(|items|)], failed, late, answer)
    requires right == WorstReplies(items[Midpoint(|items|)..], failed, late, answer)
    ensures WorstReplies(items, failed, late, answer) == [failed, late] + left + right
  {
  }

  lemma FollowsHalves<T>(p: Setting<T>, from: nat, start: seq<Reply>, left: seq<Reply>, right: seq<Reply>)
    requires Follows(p, from, start + left + right)
    ensures Follows(p, from + |start|, left) && Follows(p, from + |start| + |left|, right)
  {
    FollowsBoth(p, from, start + left, right);
    FollowsBoth(p, from, start, left);
  }

  /** The replies from here on are the worst case for the items. */
  ghost predicate WorstFrom<T(!new)>(
      p: Setting<T>, items: seq<T>, failed: Reply, late: Reply, answer: T -> Reply, from: nat)
  {
    var worst := items != [] && Worst(p, items, failed, late, answer)
      && Follows(p, from, WorstReplies(items, failed, late, answer));
    worst
  }

  /** The halves of a worst case are worst cases. */
  lemma WorstSplits<T(!new)>(p: Setting<T>, items: seq<T>, failed: Reply, late: Reply, answer: T -> Reply, from: nat)
    requires |items| > 1 && WorstFrom(p, items, failed, late, answer, from)
    ensures var m := Midpoint(|items|);
      && WorstFrom(p, items[..m], failed, late, answer, from + 2)
      && WorstFrom(p, items[m..], failed, late, answer, from + 2 + MaxPrompts(m))
  {
    var m := Midpoint(|items|);
    var left := WorstReplies(items[..m], failed, late, answer);
    var right := WorstReplies(items[m..], failed, late, answer);
    WorstParts(items, failed, late, answer, left, right);
    FollowsHalves(p, from, [failed, late], left, right);
  }

  /** A translation that succeeds with its n-th prompt. */
  ghost predicate SucceedsWith<T>(o: Outcome<T>, n: nat) {
    var succeeds := o.result.Ok? && |o.asked| == n;
    succeeds
  }

  lemma BothSucceed<T>(left: Outcome<T>, right: Outcome<T>, m: nat, n: nat)
    requires 0 < m < n && SucceedsWith(left, MaxPrompts(m)) && SucceedsWith(right, MaxPrompts(n - m))
    ensures SucceedsWith(if left.result.Err? then left else Both(left, right), MaxPrompts(n) - 2)
  {
  }

  lemma {:induction false} WorstRun<T(!new)>(
      p: Setting<T>, items: seq<T>, failed: Reply, late: Reply, answer: T -> Reply, from: nat)
    requires WorstFrom(p, items, failed, late, answer, from)
    ensures SucceedsWith(Translate(p, items, from), MaxPrompts(|items|))
    decreases |items|
  {
    WorstPair(items, failed, late, answer);
    assert p.script(from + 0) == failed;
    WorstStart(p, items, failed, late, answer, from);
    if |items| > 1 {
      WorstHalves(p, items, failed, late, answer, from);
    }
  }

  lemma {:induction false} WorstHalves<T(!new)>(
      p: Setting<T>, items: seq<T>, failed: Reply, late: Reply, answer: T -> Reply, from: nat)
    requires |items| > 1 && WorstFrom(p, items, failed, late, answer, from)
    ensures SucceedsWith(Halves(p, items, from + 2), MaxPrompts(|items|) - 2)
    decreases |items|, 0
  {
    var m := Midpoint(|items|);
    var left, right := items[..m], items[m..];
    WorstSplits(p, items, failed, late, answer, from);
    WorstRun(p, left, failed, late, answer, from + 2);
    WorstRun(p, right, failed, late, answer, from + 2 + MaxPrompts(m));
    HalvesAreBoth(p, items, left, right, from + 2);
    BothSucceed(Translate(p, left, from + 2), Translate(p, right, from + 2 + MaxPrompts(m)), m, |items|);
  }

  // The loop's state against the recursion.

  /** What the loop still has to do before an attempt is what is left of the whole. */
  ghost predicate Remains<T>(
      p: Setting<T>, items: seq<T>, attempt: nat, error: Option<string>, asked: seq<Prompt<T>>, whole: Outcome<T>)
  {
    && attempt < TRANSLATE_MAX_ATTEMPTS
    && Try(p, items, attempt, error, |asked|).result == whole.result
    && asked + Try(p, items, attempt, error, |asked|).asked == whole.asked
  }

  lemma NextAttempt<T>(
      p: Setting<T>, items: seq<T>, attempt: nat, error: Option<string>, asked: seq<Prompt<T>>, whole: Outcome<T>)
    requires Remains(p, items, attempt, error, asked, whole)
    ensures var result, after := p.judge(p.script(|asked|), items), asked + [Prompt(items, error)];
      if result.Ok? then whole == Outcome(result, after)
      else if p.timedOut(result.message) && |items| > 1 then
        var halves := Halves(p, items, |after|);
        whole == Outcome(halves.result, after + halves.asked)
      else if p.timedOut(result.message) || attempt + 1 == TRANSLATE_MAX_ATTEMPTS then whole == Outcome(result, after)
      else Remains(p, items, attempt + 1, NextError(p.script(|asked|), result.message, error), after, whole)
  {
    var after := asked + [Prompt(items, error)];
    var result := p.judge(p.script(|asked|), items);
    if result.Err? {
      if p.timedOut(result.message) {
        if |items| > 1 {
          var halves := Halves(p, items, |after|);
          assert asked + ([Prompt(items, error)] + halves.asked) == after + halves.asked;
        }
      } else if attempt + 1 < TRANSLATE_MAX_ATTEMPTS {
        var again := Try(p, items, attempt + 1, NextError(p.script(|asked|), result.message, error), |after|);
        assert asked + ([Prompt(items, error)] + again.asked) == after + again.asked;
      }
    }
  }
}

/** The retrying, splitting translator of scripts/control-ui-i18n.ts. */
module Translation {
  import opened Prelude
  import opened Sequences
  import opened JsStrings
  import opened Retries
  import Placeholders
  import opened Batches

  /** A reply text after unfencing and JSON.parse; text gives a property if it is a string. */
  datatype Reading = Unreadable(message: string) | Null | Fields(text: string -> Option<string>)

  /** How reply texts read, and the text of the parity error. */
  datatype Reader = Reader(read: string -> Reading, mismatch: (Answers, Answers) -> string)

  predicate IsPromptTimeoutError(message: string) {
    Includes(ToLower(message), "timed out")
  }

  /** new Map of the items: the last text of each key. */
  function Sources(items: seq<Item>): (sources: map<string, string>)
    ensures forall i :: 0 <= i < |items| ==> items[i].key in sources
  {
    if items == [] then map[]
    else
      var last := items[|items| - 1];
      Sources(items[..|items| - 1])[last.key := last.text]
  }

  predicate Answered(text: string -> Option<string>, key: string) {
    text(key).Some? && !IsBlank(text(key).value)
  }

  predicate AllAnswered(text: string -> Option<string>, items: seq<Item>) {
    forall i :: 0 <= i < |items| ==> Answered(text, items[i].key)
  }

  /** The key of the first item without an answer. */
  function FirstMissing(text: string -> Option<string>, items: seq<Item>): (key: string)
    requires !AllAnswered(text, items)
    ensures exists i :: 0 <= i < |items| && items[i].key == key && !Answered(text, key) && AllAnswered(text, items[..i])
  {
    if !Answered(text, items[0].key) then
      assert AllAnswered(text, items[..0]);
      items[0].key
    else
      var key := FirstMissing(text, items[1..]);
      var i :| 0 <= i < |items[1..]| && items[1..][i].key == key && !Answered(text, key) && AllAnswered(text, items[1..][..i]);
      assert items[..i + 1] == [items[0]] + items[1..][..i];
      assert items[i + 1].key == key;
      key
  }

  function AnswersOf(text: string -> Option<string>, sources: map<string, string>): Answers
    requires forall key :: key in sources ==> text(key).Some?
  {
    map key | key in sources :: text(key).value
  }

  predicate Parity(sources: map<string, string>, translated: map<string, string>)
    requires sources.Keys == translated.Keys
  {
    forall key :: key in sources ==> Placeholders.Extract(sources[key]) == Placeholders.Extract(translated[key])
  }

  lemma {:induction false} SourcesKeys(items: seq<Item>, key: string)
    ensures key in Sources(items) <==> exists i :: 0 <= i < |items| && items[i].key == key
  {
    if items != [] {
      SourcesKeys(items[..|items| - 1], key);
    }
  }

  lemma AnsweredSources(text: string -> Option<string>, items: seq<Item>)
    requires AllAnswered(text, items)
    ensures forall key :: key in Sources(items) ==> Answered(text, key)
  {
    forall key | key in Sources(items) ensures Answered(text, key) {
      SourcesKeys(items, key);
    }
  }

  function NullMessage(key: string): string {
    "Cannot read properties of null (reading '" + key + "')"
  }

  function MissingMessage(key: string): string {
    "missing translation for " + key
  }

  function ReadFields(r: Reader, text: string -> Option<string>, items: seq<Item>): Result<Answers> {
    if !AllAnswered(text, items) then Err(MissingMessage(FirstMissing(text, items)))
    else
      AnsweredSources(text, items);
      var sources := Sources(items);
      var translated := AnswersOf(text, sources);
      if Parity(sources, translated) then Ok(translated) else Err(r.mismatch(sources, translated))
  }

  function Judge(r: Reader, reply: Reply, items: seq<Item>): Result<Answers> {
    match reply
    case Fails(message) => Err(message)
    case Raw(raw) =>
      match r.read(raw)
      case Unreadable(message) => Err(message)
      case Null => if items == [] then Ok(map[]) else Err(NullMessage(items[0].key))
      case Fields(text) => ReadFields(r, text, items)
  }

  function SettingOf(script: nat -> Reply, r: Reader): Setting<Item> {
    Setting(script, (reply, items) => Judge(r, reply, items), message => IsPromptTimeoutError(message))
  }

  /** A non-blank text that mentions exactly its source's placeholders. */
  ghost predicate Renders(source: string, value: string) {
    && !IsBlank(value)
    && forall name :: Placeholders.Mentions(value, name) <==> Placeholders.Mentions(source, name)
  }

  /** A rendering of every source, and of nothing else. */
  ghost predicate Translates(sources: map<string, string>, translated: map<string, string>) {
    && translated.Keys == sources.Keys
    && forall key :: key in sources ==> Renders(sources[key], translated[key])
  }

  lemma ParityRenders(source: string, value: string)
    requires !IsBlank(value) && Placeholders.Extract(source) == Placeholders.Extract(value)
    ensures Renders(source, value)
  {
    forall name ensures Placeholders.Mentions(value, name) <==> Placeholders.Mentions(source, name) {
      Placeholders.ExtractIsExact(source, name);
      Placeholders.ExtractIsExact(value, name);
    }
  }

  lemma FieldsTranslate(r: Reader, text: string -> Option<string>, items: seq<Item>)
    requires ReadFields(r, text, items).Ok?
    ensures Translates(Sources(items), ReadFields(r, text, items).value)
  {
    AnsweredSources(text, items);
    var sources, translated := Sources(items), ReadFields(r, text, items).value;
    forall key | key in sources ensures Renders(sources[key], translated[key]) {
      ParityRenders(sources[key], translated[key]);
    }
  }

  lemma JudgeTranslates(r: Reader, reply: Reply, items: seq<Item>)
    requires Judge(r, reply, items).Ok?
    ensures Translates(Sources(items), Judge(r, reply, items).value)
  {
    if r.read(reply.raw).Fields? {
      FieldsTranslate(r, r.read(reply.raw).text, items);
    }
  }

  lemma {:induction false} SourcesAppend(a: seq<Item>, b: seq<Item>)
    ensures Sources(a + b) == Sources(a) + Sources(b)
    decreases |b|
  {
    if b == [] {
      assert a + b == a;
    } else {
      var short, last := b[..|b| - 1], b[|b| - 1];
      SourcesAppend(a, short);
      assert (a + b)[..|a + b| - 1] == a + short;
      MergePut(Sources(a), Sources(short), last.key, last.text);
    }
  }

  lemma MergePut(a: Answers, b: Answers, key: string, value: string)
    ensures (a + b)[key := value] == a + b[key := value]
  {
  }

  lemma MergeTranslates(
      a: map<string, string>, b: map<string, string>, left: map<string, string>, right: map<string, string>)
    requires Translates(a, left) && Translates(b, right)
    ensures Translates(a + b, left + right)
  {
    var sources, translated := a + b, left + right;
    assert translated.Keys == sources.Keys;
    forall key | key in sources ensures Renders(sources[key], translated[key]) {
      if key in b {
        assert Renders(b[key], right[key]);
      } else {
        assert Renders(a[key], left[key]);
      }
    }
  }

  /** Whatever the provider answers: a map that is returned has exactly the batch's keys, and
      renders every key's text. */
  lemma ResultTranslates(script: nat -> Reply, r: Reader, items: seq<Item>, from: nat)
    requires Translate(SettingOf(script, r), items, from).result.Ok?
    ensures Translates(Sources(items), Translate(SettingOf(script, r), items, from).result.value)
  {
    var p := SettingOf(script, r);
    ghost var good := (items: seq<Item>, translated: Answers) => Translates(Sources(items), translated);
    forall reply, batch | p.judge(reply, batch).Ok? ensures good(batch, p.judge(reply, batch).value) {
      JudgeTranslates(r, reply, batch);
    }
    forall a, b, left, right | good(a, left) && good(b, right) ensures good(a + b, left + right) {
      SourcesAppend(a, b);
      MergeTranslates(Sources(a), Sources(b), left, right);
    }
    ResultIsGood(p, good, items, from);
  }

  /** A reply is accepted exactly if it is an object that gives every item a text that is not blank,
      and every key one with the placeholders of its source; for no items, null will do. */
  lemma AcceptedExactly(r: Reader, raw: string, items: seq<Item>)
    ensures Judge(r, Raw(raw), items).Ok? <==>
      match r.read(raw)
      case Unreadable(_) => false
      case Null => items == []
      case Fields(text) =>
        && (forall i :: 0 <= i < |items| ==> Answered(text, items[i].key))
        && (forall key :: key in Sources(items) && text(key).Some? ==>
              forall name :: Placeholders.Mentions(text(key).value, name) <==> Placeholders.Mentions(Sources(items)[key], name))
  {
    if r.read(raw).Fields? {
      FieldsAccepted(r, r.read(raw).text, items);
    }
  }

  lemma SameNames(a: string, b: string)
    ensures Placeholders.Extract(a) == Placeholders.Extract(b) <==>
      forall name :: Placeholders.Mentions(a, name) <==> Placeholders.Mentions(b, name)
  {
    forall name ensures (name in Placeholders.Extract(a) <==> Placeholders.Mentions(a, name))
                     && (name in Placeholders.Extract(b) <==> Placeholders.Mentions(b, name)) {
      Placeholders.ExtractIsExact(a, name);
      Placeholders.ExtractIsExact(b, name);
    }
    if forall name :: Placeholders.Mentions(a, name) <==> Placeholders.Mentions(b, name) {
      assert Placeholders.Extract(a) == Placeholders.Extract(b);
    }
  }

  lemma FieldsAccepted(r: Reader, text: string -> Option<string>, items: seq<Item>)
    ensures ReadFields(r, text, items).Ok? <==>
      && AllAnswered(text, items)
      && (forall key :: key in Sources(items) && text(key).Some? ==>
            forall name :: Placeholders.Mentions(text(key).value, name) <==> Placeholders.Mentions(Sources(items)[key], name))
  {
    if AllAnswered(text, items) {
      AnsweredSources(text, items);
      var sources := Sources(items);
      forall key | key in sources
        ensures Placeholders.Extract(sources[key]) == Placeholders.Extract(text(key).value) <==>
          forall name :: Placeholders.Mentions(text(key).value, name) <==> Placeholders.Mentions(sources[key], name)
      {
        SameNames(sources[key], text(key).value);
      }
    }
  }

  /** The value is what the reply, read as an object, has for the key. */
  ghost predicate Says(r: Reader, reply: Reply, key: string, value: string) {
    reply.Raw? && r.read(reply.raw).Fields? && r.read(reply.raw).text(key) == Some(value)
  }

  /** An accepted reply is taken word for word. */
  lemma AcceptedIsSaid(r: Reader, reply: Reply, items: seq<Item>, key: string)
    requires Judge(r, reply, items).Ok? && key in Judge(r, reply, items).value
    ensures Says(r, reply, key, Judge(r, reply, items).value[key])
    ensures exists i :: 0 <= i < |items| && items[i].key == key
  {
    SourcesKeys(items, key);
    if r.read(reply.raw).Fields? {
      AnsweredSources(r.read(reply.raw).text, items);
    }
  }

  /** What is said of the key was said in reply to the k-th prompt, which asked for it. */
  ghost predicate IsReplied(script: nat -> Reply, r: Reader, asked: seq<Prompt<Item>>, from: nat, k: nat, key: string, value: string) {
    && k < |asked| && Says(r, script(from + k), key, value)
    && exists i :: 0 <= i < |asked[k].items| && asked[k].items[i].key == key
  }

  lemma {:induction false} PartOfAll(parts: seq<Answers>, key: string)
    requires key in MergeAll(parts)
    ensures exists k :: 0 <= k < |parts| && key in parts[k] && parts[k][key] == MergeAll(parts)[key]
  {
    if key in MergeAll(parts[1..]) {
      PartOfAll(parts[1..], key);
      var k :| 0 <= k < |parts[1..]| && key in parts[1..][k] && parts[1..][k][key] == MergeAll(parts[1..])[key];
      assert key in parts[k + 1] && parts[k + 1][key] == MergeAll(parts)[key];
    }
  }

  /** Whatever the provider answers: every value that is returned is, word for word, what a reply it
      really gave has for the key, in answer to a prompt that asked for it. */
  lemma ValuesAreReplied(script: nat -> Reply, r: Reader, items: seq<Item>, from: nat, key: string)
    requires var o := Translate(SettingOf(script, r), items, from); o.result.Ok? && key in o.result.value
    ensures var o := Translate(SettingOf(script, r), items, from);
      exists k :: IsReplied(script, r, o.asked, from, k, key, o.result.value[key])
  {
    var p := SettingOf(script, r);
    var o := Translate(p, items, from);
    ResultIsMerged(p, items, from);
    var parts := Contributions(p, o.asked, from);
    PartOfAll(parts, key);
    var k :| 0 <= k < |parts| && key in parts[k] && parts[k][key] == o.result.value[key];
    AcceptedIsSaid(r, script(from + k), o.asked[k].items, key);
    assert IsReplied(script, r, o.asked, from, k, key, o.result.value[key]);
  }

  /** No two items with one key. */
  ghost predicate DistinctKeys(items: seq<Item>) {
    forall i, j :: 0 <= i < j < |items| ==> items[i].key != items[j].key
  }

  lemma {:induction false} SourceOfItem(items: seq<Item>, i: nat)
    requires DistinctKeys(items) && i < |items|
    ensures items[i].key in Sources(items) && Sources(items)[items[i].key] == items[i].text
  {
    if i < |items| - 1 {
      SourceOfItem(items[..|items| - 1], i);
    }
  }

  /** The promise of translateBatch for distinct keys, item by item. */
  lemma DistinctItemsTranslated(script: nat -> Reply, r: Reader, items: seq<Item>, from: nat)
    requires DistinctKeys(items) && Translate(SettingOf(script, r), items, from).result.Ok?
    ensures var translated := Translate(SettingOf(script, r), items, from).result.value;
      && (forall key :: key in translated <==> exists i :: 0 <= i < |items| && items[i].key == key)
      && forall i :: 0 <= i < |items| ==> Renders(items[i].text, translated[items[i].key])
  {
    ResultTranslates(script, r, items, from);
    var translated := Translate(SettingOf(script, r), items, from).result.value;
    forall key ensures key in translated <==> exists i :: 0 <= i < |items| && items[i].key == key {
      SourcesKeys(items, key);
    }
    forall i | 0 <= i < |items| ensures Renders(items[i].text, translated[items[i].key]) {
      SourceOfItem(items, i);
    }
  }

  const OVERLOADED := "overloaded"
  const TIMED_OUT := "Timed out"

  lemma OverloadedIsNoTimeout()
    ensures !IsPromptTimeoutError(OVERLOADED) && IsPromptTimeoutError(TIMED_OUT)
  {
    assert ToLower(TIMED_OUT) == "timed out";
    assert StartsAt(ToLower(TIMED_OUT), 0, "timed out");
    var t := ToLower(OVERLOADED);
    forall i | 0 <= i <= |t| ensures !StartsAt(t, i, "timed out") {
      if i + 9 <= |t| {
        assert t[i..i + 9][0] == t[i];
        assert i <= 1;
        assert t[0] == 'o' && t[1] == 'v';
      }
    }
  }

  /** Every reply is read as giving its own text for every key. */
  function Echo(): Reader {
    Reader(raw => Fields(key => Some(raw)), (_, _) => "")
  }

  /** The answer for one item: its text, or an x for a blank one, which has no placeholders either. */
  function EchoOf(item: Item): string {
    if IsBlank(item.text) then "x" else item.text
  }

  lemma MentionHasBrace(text: string, name: string)
    requires Placeholders.Mentions(text, name)
    ensures '{' in text
  {
    var part := "{" + name + "}";
    var i :| 0 <= i <= |text| && StartsAt(text, i, part);
    assert text[i..i + |part|][0] == part[0];
  }

  lemma NoBraceNoPlaceholder(text: string, name: string)
    requires '{' !in text
    ensures name !in Placeholders.Extract(text)
  {
    Placeholders.ExtractIsExact(text, name);
    if Placeholders.Mentions(text, name) {
      MentionHasBrace(text, name);
    }
  }

  lemma EchoIsAccepted(item: Item)
    ensures Judge(Echo(), Raw(EchoOf(item)), [item]).Ok?
  {
    var text := Echo().read(EchoOf(item)).text;
    assert [item][..0] == [];
    assert Sources([item]) == map[item.key := item.text];
    assert !IsBlank("x") by {
      assert !IsWhiteSpace("x"[0]);
    }
    AnsweredSources(text, [item]);
    if IsBlank(item.text) {
      forall name ensures name !in Placeholders.Extract(item.text) && name !in Placeholders.Extract("x") {
        NoBraceNoPlaceholder(item.text, name);
        NoBraceNoPlaceholder("x", name);
      }
      assert Placeholders.Extract(item.text) == Placeholders.Extract("x");
    }
  }

  /** For every non-empty batch some provider makes the translator use the whole bound before it
      succeeds. */
  lemma BoundIsReached(items: seq<Item>) returns (script: nat -> Reply, r: Reader)
    requires items != []
    ensures Translate(SettingOf(script, r), items, 0).result.Ok?
    ensures |Translate(SettingOf(script, r), items, 0).asked| == 4 * |items| - 2
  {
    var failed, late, answer := Fails(OVERLOADED), Fails(TIMED_OUT), (item: Item) => Raw(EchoOf(item));
    var replies := WorstReplies(items, failed, late, answer);
    script := n => if 0 <= n < |replies| then replies[n] else failed;
    r := Echo();
    var p := SettingOf(script, r);
    OverloadedIsNoTimeout();
    forall i | 0 <= i < |items| ensures p.judge(answer(items[i]), [items[i]]).Ok? {
      EchoIsAccepted(items[i]);
    }
    WorstRun(p, items, failed, late, answer, 0);
  }

  // The translator as the source runs it.

  class Provider {
    const script: nat -> Reply
    var asked: seq<Prompt<Item>>

    constructor (script: nat -> Reply)
      ensures this.script == script && asked == []
    {
      this.script := script;
      asked := [];
    }

    method Ask(prompt: Prompt<Item>) returns (reply: Reply)
      modifies this
      ensures reply == script(|old(asked)|) && asked == old(asked) + [prompt]
    {
      reply := script(|asked|);
      asked := asked + [prompt];
    }
  }

  lemma {:induction false} FirstMissingAt(text: string -> Option<string>, items: seq<Item>, i: nat)
    requires i < |items| && AllAnswered(text, items[..i]) && !Answered(text, items[i].key)
    ensures !AllAnswered(text, items) && FirstMissing(text, items) == items[i].key
  {
    if i > 0 {
      assert Answered(text, items[..i][0].key);
      assert items[1..][..i - 1] == items[..i][1..];
      FirstMissingAt(text, items[1..], i - 1);
    }
  }

  lemma SourcesNext(items: seq<Item>, i: nat)
    requires i < |items|
    ensures Sources(items[..i + 1]) == Sources(items[..i])[items[i].key := items[i].text]
  {
    assert items[..i + 1][..i] == items[..i];
  }

  lemma AnsweredNext(text: string -> Option<string>, items: seq<Item>, i: nat)
    requires i < |items| && AllAnswered(text, items[..i]) && Answered(text, items[i].key)
    ensures AllAnswered(text, items[..i + 1])
  {
    PrefixNext(items, i);
  }

  /** parseTranslationBatchReply, item by item. */
  method ReadReply(r: Reader, text: string -> Option<string>, items: seq<Item>) returns (result: Result<Answers>)
    ensures result == ReadFields(r, text, items)
  {
    var translated: Answers, sources: Answers := map[], map[];
    var i := 0;
    while i < |items|
      invariant i <= |items|
      invariant AllAnswered(text, items[..i])
      invariant sources == Sources(items[..i])
      invariant translated.Keys == sources.Keys
      invariant forall key :: key in sources ==> text(key) == Some(translated[key])
    {
      var item := items[i];
      if !Answered(text, item.key) {
        FirstMissingAt(text, items, i);
        return Err(MissingMessage(item.key));
      }
      SourcesNext(items, i);
      AnsweredNext(text, items, i);
      translated := translated[item.key := text(item.key).value];
      sources := sources[item.key := item.text];
      i := i + 1;
    }
    PrefixAll(items);
    assert translated == AnswersOf(text, sources);
    result := if Parity(sources, translated) then Ok(translated) else Err(r.mismatch(sources, translated));
  }

  method JudgeReply(r: Reader, reply: Reply, items: seq<Item>) returns (result: Result<Answers>)
    ensures result == Judge(r, reply, items)
  {
    match reply
    case Fails(message) =>
      result := Err(message);
    case Raw(raw) =>
      match r.read(raw) {
        case Unreadable(message) =>
          result := Err(message);
        case Null =>
          result := if items == [] then Ok(map[]) else Err(NullMessage(items[0].key));
        case Fields(text) =>
          result := ReadReply(r, text, items);
      }
  }

  /** What was asked before, and what a translation of items asks and returns after it. */
  ghost function Continued(p: Setting<Item>, items: seq<Item>, asked: seq<Prompt<Item>>): Outcome<Item> {
    var o := Translate(p, items, |asked|);
    Outcome(o.result, asked + o.asked)
  }

  method TranslateHalves(provider: Provider, r: Reader, items: seq<Item>, ghost p: Setting<Item>) returns (result: Result<Answers>)
    requires p == SettingOf(provider.script, r) && |items| > 1
    modifies provider
    ensures result == Halves(p, items, |old(provider.asked)|).result
    ensures provider.asked == old(provider.asked) + Halves(p, items, |old(provider.asked)|).asked
    decreases |items|, 0
  {
    var midpoint := (|items| + 1) / 2;
    ghost var start := provider.asked;
    ghost var left0 := Translate(p, items[..midpoint], |start|);
    var left := TranslateBatch(provider, r, items[..midpoint], p);
    assert provider.asked == start + left0.asked;
    if left.Err? {
      return left;
    }
    ghost var right0 := Translate(p, items[midpoint..], |start| + |left0.asked|);
    var right := TranslateBatch(provider, r, items[midpoint..], p);
    assert provider.asked == start + (left0.asked + right0.asked);
    if right.Err? {
      return right;
    }
    result := Ok(left.value + right.value);
  }

  /** translateBatch: it does to the provider, and returns, exactly what Translate says. */
  method TranslateBatch(provider: Provider, r: Reader, items: seq<Item>, ghost p: Setting<Item>) returns (result: Result<Answers>)
    requires p == SettingOf(provider.script, r)
    modifies provider
    ensures Outcome(result, provider.asked) == Continued(p, items, old(provider.asked))
    decreases |items|, 1
  {
    ghost var whole := Continued(p, items, provider.asked);
    var lastError := "translation failed";
    var validationError := None;
    var attempt := 0;
    while attempt < TRANSLATE_MAX_ATTEMPTS
      invariant attempt <= TRANSLATE_MAX_ATTEMPTS
      invariant attempt < TRANSLATE_MAX_ATTEMPTS ==> Remains(p, items, attempt, validationError, provider.asked, whole)
      invariant attempt == TRANSLATE_MAX_ATTEMPTS ==> whole == Outcome(Err(lastError), provider.asked)
    {
      NextAttempt(p, items, attempt, validationError, provider.asked, whole);
      var reply := provider.Ask(Prompt(items, validationError));
      result := JudgeReply(r, reply, items);
      if result.Ok? {
        return;
      }
      lastError := result.message;
      if reply.Raw? {
        validationError := Some(lastError);
      }
      if IsPromptTimeoutError(lastError) && |items| > 1 {
        result := TranslateHalves(provider, r, items, p);
        return;
      }
      if IsPromptTimeoutError(lastError) {
        break;
      }
      attempt := attempt + 1;
    }
    result := Err(lastError);
  }
}
