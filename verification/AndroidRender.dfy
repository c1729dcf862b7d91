/** Positional format strings, the way String.format reads them with string arguments. */
module PositionalFormats {
  import opened Prelude
  import opened JsStrings
  import opened Replacing

  predicate IsDigit(c: char) {
    '0' <= c <= '9'
  }

  /** A number in decimal. */
  function Decimal(n: nat): (s: string)
    ensures s != "" && forall i :: 0 <= i < |s| ==> IsDigit(s[i])
  {
    if n < 10 then ['0' + n as char] else Decimal(n / 10) + ['0' + (n % 10) as char]
  }

  function DigitValue(c: char): nat {
    if IsDigit(c) then (c - '0') as nat else 0
  }

  function Number(s: string): nat
    requires forall i :: 0 <= i < |s| ==> IsDigit(s[i])
  {
    if s == "" then 0 else 10 * Number(s[..|s| - 1]) + DigitValue(s[|s| - 1])
  }

  lemma {:induction false} NumberOfDecimal(n: nat)
    ensures Number(Decimal(n)) == n
  {
    if n < 10 {
      assert Decimal(n)[..0] == "";
    } else {
      NumberOfDecimal(n / 10);
      assert Decimal(n)[..|Decimal(n)| - 1] == Decimal(n / 10);
    }
  }

  /** %% is a percent sign and %k$s the k-th argument; anything else after a percent sign is an error. */
  function Format(s: string, args: seq<string>): Option<string>
    decreases |s|
  {
    if s == "" then Some("")
    else if s[0] != '%' then
      var rest :- Format(s[1..], args);
      Some([s[0]] + rest)
    else if |s| > 1 && s[1] == '%' then
      var rest :- Format(s[2..], args);
      Some("%" + rest)
    else
      var end := RunEnd(IsDigit, s, 1);
      var k := Number(s[1..end]);
      if end + 1 < |s| && s[end] == '$' && s[end + 1] == 's' && 1 <= k <= |args| then
        var rest :- Format(s[end + 2..], args);
        Some(args[k - 1] + rest)
      else None
  }

  function Doubled(text: string): string {
    ReplaceAll(text, "%", "%%")
  }

  /** before, if all that follows it can be formatted. */
  function Prefixed(before: string, rest: Option<string>): Option<string> {
    if rest.None? then None else Some(before + rest.value)
  }

  lemma PrefixedNothing(rest: Option<string>)
    ensures Prefixed("", rest) == rest
  {
    if rest.Some? {
      assert "" + rest.value == rest.value;
    }
  }

  lemma PrefixedTwice(a: string, b: string, rest: Option<string>)
    ensures Prefixed(a, Prefixed(b, rest)) == Prefixed(a + b, rest)
  {
    if rest.Some? {
      assert a + (b + rest.value) == a + b + rest.value;
    }
  }

  lemma FormatOne(c: char, after: string, args: seq<string>)
    ensures Format((if c == '%' then "%%" else [c]) + after, args) == Prefixed([c], Format(after, args))
  {
    if c == '%' {
      assert ("%%" + after)[2..] == after;
    } else {
      assert ([c] + after)[1..] == after;
    }
  }

  lemma {:induction false} FormatDoubled(text: string, rest: string, args: seq<string>)
    ensures Format(Doubled(text) + rest, args) == Prefixed(text, Format(rest, args))
    decreases |text|
  {
    if text == "" {
      assert Doubled(text) + rest == rest;
      PrefixedNothing(Format(rest, args));
    } else {
      var after := Doubled(text[1..]) + rest;
      FormatDoubled(text[1..], rest, args);
      ReplaceOneStep(text, '%', "%%");
      FormatOne(text[0], after, args);
      assert Doubled(text) + rest == (if text[0] == '%' then "%%" else [text[0]]) + after;
      PrefixedTwice([text[0]], text[1..], Format(rest, args));
      assert text == [text[0]] + text[1..];
    }
  }

  function Argument(k: nat): string {
    "%" + Decimal(k) + "$s"
  }

  lemma {:induction false} DigitsOfDecimal(s: string, i: nat, end: nat)
    requires i <= end < |s| && (forall k :: i <= k < end ==> IsDigit(s[k])) && !IsDigit(s[end])
    ensures RunEnd(IsDigit, s, i) == end
    decreases end - i
  {
    if i < end {
      DigitsOfDecimal(s, i + 1, end);
    }
  }

  lemma ArgumentShape(k: nat, rest: string)
    ensures var s, end := Argument(k) + rest, 1 + |Decimal(k)|;
      && end + 1 < |s| && s[1..end] == Decimal(k)
      && s[0] == '%' && s[end] == '$' && s[end + 1] == 's' && s[end + 2..] == rest
      && forall i :: 1 <= i < end ==> s[i] == Decimal(k)[i - 1]
  {
  }

  lemma FormatArgument(k: nat, rest: string, args: seq<string>)
    requires 1 <= k <= |args|
    ensures Format(Argument(k) + rest, args) == Prefixed(args[k - 1], Format(rest, args))
  {
    var s, end := Argument(k) + rest, 1 + |Decimal(k)|;
    ArgumentShape(k, rest);
    DigitsOfDecimal(s, 1, end);
    NumberOfDecimal(k);
  }
}

/** Where the occurrences of a token are. */
module Occurrences {

  /** The positions of a token, from one. */
  function Positions(tokens: seq<string>, token: string): (ps: seq<nat>)
    ensures |ps| <= |tokens|
    ensures forall o :: 0 <= o < |ps| ==> 1 <= ps[o] <= |tokens| && tokens[ps[o] - 1] == token
    ensures |ps| == multiset(tokens)[token]
  {
    if tokens == [] then []
    else
      var n := |tokens| - 1;
      assert tokens == tokens[..n] + [tokens[n]];
      var ps := Positions(tokens[..n], token);
      if tokens[n] == token then ps + [n + 1] else ps
  }

  /** How many occurrences of the token at position p come before it. */
  function Rank(tokens: seq<string>, p: nat): nat
    requires 1 <= p <= |tokens|
  {
    |Positions(tokens[..p - 1], tokens[p - 1])|
  }

  lemma RankInPrefix(tokens: seq<string>, n: nat, p: nat)
    requires 1 <= p <= n <= |tokens|
    ensures Rank(tokens[..n], p) == Rank(tokens, p)
  {
    assert tokens[..n][..p - 1] == tokens[..p - 1];
  }

  lemma {:induction false} RankOfPosition(tokens: seq<string>, token: string, o: nat)
    requires o < |Positions(tokens, token)|
    ensures Rank(tokens, Positions(tokens, token)[o]) == o
  {
    var n := |tokens| - 1;
    if o < |Positions(tokens[..n], token)| {
      RankOfPosition(tokens[..n], token, o);
      RankInPrefix(tokens, n, Positions(tokens[..n], token)[o]);
    }
  }

  lemma {:induction false} PositionOfRank(tokens: seq<string>, p: nat)
    requires 1 <= p <= |tokens|
    ensures Rank(tokens, p) < |Positions(tokens, tokens[p - 1])|
    ensures Positions(tokens, tokens[p - 1])[Rank(tokens, p)] == p
  {
    var n := |tokens| - 1;
    if p <= n {
      PositionOfRank(tokens[..n], p);
      RankInPrefix(tokens, n, p);
      assert tokens[..n][p - 1] == tokens[p - 1];
    } else {
      assert tokens[..p - 1] == tokens[..n];
    }
  }

  /** The position in source of the occurrence that matches position p of translated. */
  function Pick(source: seq<string>, translated: seq<string>, p: nat): (q: nat)
    requires multiset(source) == multiset(translated) && 1 <= p <= |translated|
    ensures 1 <= q <= |source| && source[q - 1] == translated[p - 1]
  {
    PositionOfRank(translated, p);
    Positions(source, translated[p - 1])[Rank(translated, p)]
  }

  lemma {:induction false} PositionsRise(tokens: seq<string>, token: string)
    ensures forall a, b :: 0 <= a < b < |Positions(tokens, token)| ==> Positions(tokens, token)[a] < Positions(tokens, token)[b]
  {
    if tokens != [] {
      PositionsRise(tokens[..|tokens| - 1], token);
    }
  }

  lemma {:induction false} RankRises(tokens: seq<string>, p: nat, q: nat)
    requires 1 <= p < q <= |tokens| && tokens[p - 1] == tokens[q - 1]
    ensures Rank(tokens, p) < Rank(tokens, q)
    decreases q
  {
    var before := tokens[..q - 1];
    assert before[..p - 1] == tokens[..p - 1];
    PositionOfRank(before, p);
  }

  /** The occurrences of one token keep their order: the k-th in the translation stands for the
      k-th in the source. */
  lemma PickKeepsOrder(source: seq<string>, translated: seq<string>, p: nat, q: nat)
    requires multiset(source) == multiset(translated)
    requires 1 <= p < q <= |translated| && translated[p - 1] == translated[q - 1]
    ensures Pick(source, translated, p) < Pick(source, translated, q)
  {
    PositionOfRank(translated, p);
    PositionOfRank(translated, q);
    RankRises(translated, p, q);
    PositionsRise(source, translated[p - 1]);
  }

  /** Picking is undone by picking the other way: every source position is used exactly once. */
  lemma PickIsOneToOne(source: seq<string>, translated: seq<string>, p: nat)
    requires multiset(source) == multiset(translated) && 1 <= p <= |translated|
    ensures |source| == |translated|
    ensures Pick(translated, source, Pick(source, translated, p)) == p
  {
    assert |source| == |multiset(source)| == |multiset(translated)| == |translated|;
    PositionOfRank(translated, p);
    RankOfPosition(source, translated[p - 1], Rank(translated, p));
  }
}

/** Rendering a translated Kotlin template as an Android resource value. */
module AndroidRender {
  import opened Prelude
  import opened Sequences
  import opened Counting
  import opened KotlinTemplates
  import opened PositionalFormats
  import opened Occurrences
  import opened AndroidEscapes

  datatype RenderError = UnbalancedInterpolation | ChangedInterpolations

  datatype Rendering = Rendered(value: string) | Failed(error: RenderError)

  function Values(found: seq<Interpolation>): (tokens: seq<string>)
    ensures |tokens| == |found| && forall i :: 0 <= i < |found| ==> tokens[i] == found[i].value
  {
    seq(|found|, i requires 0 <= i < |found| => found[i].value)
  }

  /** From the j-th interpolation of the translation on, cursor being where the text before it starts. */
  function RenderFrom(source: seq<string>, translated: string, found: seq<Interpolation>, j: nat, cursor: nat): string
    requires multiset(source) == multiset(Values(found))
    requires j <= |found| && cursor <= |translated| && Tokens(translated, cursor, found[j..])
    decreases |found| - j
  {
    if j == |found| then Doubled(translated[cursor..])
    else
      Doubled(translated[cursor..found[j].start])
      + Argument(Pick(source, Values(found), j + 1))
      + RenderFrom(source, translated, found, j + 1, found[j].end)
  }

  function RenderTokens(source: seq<string>, translated: string, found: seq<Interpolation>): Rendering
    requires Tokens(translated, 0, found)
  {
    if multiset(source) != multiset(Values(found)) then Failed(ChangedInterpolations)
    else if source == [] then Rendered(EscapeAndroidResourceValue(translated))
    else Rendered(EscapeAndroidResourceValue(RenderFrom(source, translated, found, 0, 0)))
  }

  function Render(source: string, translated: string): Rendering {
    var inSource, inTranslated := ReadKotlinInterpolations(source), ReadKotlinInterpolations(translated);
    if inSource.None? || inTranslated.None? then Failed(UnbalancedInterpolation)
    else
      ReadTokens(translated, 0);
      RenderTokens(Values(inSource.value), translated, inTranslated.value)
  }

  lemma RenderStep(source: seq<string>, translated: string, found: seq<Interpolation>, j: nat, cursor: nat)
    requires multiset(source) == multiset(Values(found))
    requires j < |found| && cursor <= |translated| && Tokens(translated, cursor, found[j..])
    ensures cursor <= found[j].start < found[j].end <= |translated| && Tokens(translated, found[j].end, found[j + 1..])
    ensures translated[cursor..] == translated[cursor..found[j].start] + found[j].value + translated[found[j].end..]
    ensures RenderFrom(source, translated, found, j, cursor)
         == Doubled(translated[cursor..found[j].start]) + (Argument(Pick(source, Values(found), j + 1))
            + RenderFrom(source, translated, found, j + 1, found[j].end))
  {
    assert found[j..][0] == found[j] && found[j..][1..] == found[j + 1..];
    Regroup(Doubled(translated[cursor..found[j].start]), Argument(Pick(source, Values(found), j + 1)),
            RenderFrom(source, translated, found, j + 1, found[j].end));
  }

  lemma Regroup(a: string, b: string, c: string)
    ensures a + b + c == a + (b + c)
  {
  }

  lemma FormatNothingMore(text: string, args: seq<string>)
    ensures Format(Doubled(text), args) == Some(text)
  {
    FormatDoubled(text, "", args);
    assert Doubled(text) + "" == Doubled(text) && text + "" == text;
  }

  lemma FormatPieces(gap: string, k: nat, rest: string, source: seq<string>, after: string)
    requires 1 <= k <= |source| && Format(rest, source) == Some(after)
    ensures Format(Doubled(gap) + (Argument(k) + rest), source) == Some(gap + source[k - 1] + after)
  {
    FormatDoubled(gap, Argument(k) + rest, source);
    FormatArgument(k, rest, source);
    Regroup(gap, source[k - 1], after);
  }

  lemma {:induction false} FormatRendered(source: seq<string>, translated: string, found: seq<Interpolation>, j: nat, cursor: nat)
    requires multiset(source) == multiset(Values(found))
    requires j <= |found| && cursor <= |translated| && Tokens(translated, cursor, found[j..])
    ensures Format(RenderFrom(source, translated, found, j, cursor), source) == Some(translated[cursor..])
    decreases |found| - j
  {
    if j == |found| {
      FormatNothingMore(translated[cursor..], source);
    } else {
      var here, k := found[j], Pick(source, Values(found), j + 1);
      RenderStep(source, translated, found, j, cursor);
      FormatRendered(source, translated, found, j + 1, here.end);
      FormatPieces(translated[cursor..here.start], k, RenderFrom(source, translated, found, j + 1, here.end), source, translated[here.end..]);
    }
  }

  /** A rendered value means the translation: read by Android and, if the source interpolates
      anything, formatted with the source's interpolations, it is the translated text. */
  lemma RenderKeepsMeaning(source: string, translated: string)
    requires Render(source, translated).Rendered?
    ensures var tokens := Values(ReadKotlinInterpolations(source).value);
      var text := Unescape(Render(source, translated).value);
      if tokens == [] then text == translated else Format(text, tokens) == Some(translated)
  {
    var inSource, inTranslated := ReadKotlinInterpolations(source).value, ReadKotlinInterpolations(translated).value;
    ReadTokens(translated, 0);
    if Values(inSource) == [] {
      EscapeIsUndone(translated);
    } else {
      EscapeIsUndone(RenderFrom(Values(inSource), translated, inTranslated, 0, 0));
      FormatRendered(Values(inSource), translated, inTranslated, 0, 0);
      assert translated[0..] == translated;
    }
  }

  // Templates by their structure.

  /** The interpolations of a template, as they are written. */
  function TokensOf(t: Template<Piece>): seq<string> {
    match t
    case Tail(_) => []
    case Then(_, piece, rest) => [PieceText(piece)] + TokensOf(rest)
  }

  lemma {:induction false} ValuesOfTemplate(t: Template<Piece>, offset: nat)
    ensures Values(Interpolations(KOTLIN, t, offset)) == TokensOf(t)
    decreases t
  {
    match t
    case Tail(_) =>
    case Then(text, piece, rest) =>
      var end := offset + |text| + |KOTLIN.text(piece)|;
      ValuesOfTemplate(rest, end);
      var found := Interpolations(KOTLIN, t, offset);
      assert found[1..] == Interpolations(KOTLIN, rest, end) && Values(found)[0] == PieceText(piece);
      assert Values(found) == [PieceText(piece)] + Values(found[1..]);
  }

  /** A translated template is rendered exactly if it has the source's interpolations, each as
      often; if it has not, that is the error. */
  lemma TemplatesAreRendered(source: Template<Piece>, translated: Template<Piece>)
    requires TemplateOk(KOTLIN, source) && TemplateOk(KOTLIN, translated)
    ensures var rendering := Render(TemplateText(KOTLIN, source), TemplateText(KOTLIN, translated));
      if multiset(TokensOf(source)) == multiset(TokensOf(translated)) then rendering.Rendered?
      else rendering == Failed(ChangedInterpolations)
  {
    var inSource, inTranslated := Interpolations(KOTLIN, source, 0), Interpolations(KOTLIN, translated, 0);
    TemplateIsRead(source);
    TemplateIsRead(translated);
    ValuesOfTemplate(source, 0);
    ValuesOfTemplate(translated, 0);
    RenderedByTokens(TemplateText(KOTLIN, source), TemplateText(KOTLIN, translated), inSource, inTranslated);
  }

  lemma RenderedByTokens(source: string, translated: string, inSource: seq<Interpolation>, inTranslated: seq<Interpolation>)
    requires ReadKotlinInterpolations(source) == Some(inSource) && ReadKotlinInterpolations(translated) == Some(inTranslated)
    ensures if multiset(Values(inSource)) == multiset(Values(inTranslated)) then Render(source, translated).Rendered?
            else Render(source, translated) == Failed(ChangedInterpolations)
  {
    ReadTokens(translated, 0);
  }

  /** A source or a translation that is cut inside an expression is not rendered. */
  lemma CutTemplatesAreRejected(t: Template<Piece>, code: Code, part: string, other: string)
    requires TemplateOk(KOTLIN, t) && CodeOk(code) && part <= CodeText(code)
    ensures var cut := TemplateText(KOTLIN, t) + ("${" + part);
      Render(cut, other) == Failed(UnbalancedInterpolation) && Render(other, cut) == Failed(UnbalancedInterpolation)
  {
    CutTemplateIsUnbalanced(t, code, part);
  }

  /** A map of the positions found so far, as Positions gives them. */
  ghost predicate Indexes(tokens: seq<string>, indices: map<string, seq<nat>>) {
    forall t :: Positions(tokens, t) == if t in indices then indices[t] else []
  }

  function AddIndex(indices: map<string, seq<nat>>, token: string, index: nat): map<string, seq<nat>> {
    indices[token := (if token in indices then indices[token] else []) + [index]]
  }

  lemma IndexNext(tokens: seq<string>, i: nat, indices: map<string, seq<nat>>)
    requires i < |tokens| && Indexes(tokens[..i], indices)
    ensures Indexes(tokens[..i + 1], AddIndex(indices, tokens[i], i + 1))
  {
    assert tokens[..i + 1][..i] == tokens[..i];
  }

  method SourceIndices(tokens: seq<string>) returns (indices: map<string, seq<nat>>)
    ensures Indexes(tokens, indices)
  {
    indices := map[];
    assert tokens[..0] == [];
    var i: nat := 0;
    while i < |tokens|
      invariant i <= |tokens|
      invariant Indexes(tokens[..i], indices)
    {
      IndexNext(tokens, i, indices);
      indices := AddIndex(indices, tokens[i], i + 1);
      i := i + 1;
    }
    PrefixAll(tokens);
  }

  /** How often each token has been met so far. */
  ghost predicate Counted(tokens: seq<string>, occurrences: map<string, nat>) {
    forall t :: |Positions(tokens, t)| == if t in occurrences then occurrences[t] else 0
  }

  lemma CountNext(tokens: seq<string>, i: nat, occurrences: map<string, nat>, occurrence: nat)
    requires i < |tokens| && Counted(tokens[..i], occurrences)
    requires occurrence == if tokens[i] in occurrences then occurrences[tokens[i]] else 0
    ensures Counted(tokens[..i + 1], occurrences[tokens[i] := occurrence + 1])
  {
    assert tokens[..i + 1][..i] == tokens[..i];
  }

  /** The index the code looks up is the one Pick picks; it is always there. */
  lemma IndexIsPick(
      source: seq<string>, translated: seq<string>, p: nat, indices: map<string, seq<nat>>, occurrence: nat)
    requires multiset(source) == multiset(translated) && p < |translated|
    requires Indexes(source, indices) && occurrence == |Positions(translated[..p], translated[p])|
    ensures translated[p] in indices && occurrence < |indices[translated[p]]|
    ensures indices[translated[p]][occurrence] == Pick(source, translated, p + 1)
  {
    PositionOfRank(translated, p + 1);
    assert occurrence == Rank(translated, p + 1);
    assert |Positions(source, translated[p])| == |Positions(translated, translated[p])|;
  }

  /** What is rendered so far and what is still to be rendered make up the whole. */
  ghost predicate InProgress(source: seq<string>, translated: string, found: seq<Interpolation>, j: nat, cursor: nat, rendered: string, whole: string)
    requires multiset(source) == multiset(Values(found)) && Tokens(translated, 0, found)
  {
    && j <= |found| && cursor <= |translated| && Tokens(translated, cursor, found[j..])
    && rendered + RenderFrom(source, translated, found, j, cursor) == whole
  }

  lemma RenderNext(
      source: seq<string>, translated: string, found: seq<Interpolation>, j: nat, cursor: nat, rendered: string, whole: string)
    requires multiset(source) == multiset(Values(found)) && Tokens(translated, 0, found)
    requires j < |found| && InProgress(source, translated, found, j, cursor, rendered, whole)
    ensures cursor <= found[j].start < found[j].end <= |translated|
    ensures InProgress(source, translated, found, j + 1, found[j].end,
      rendered + Doubled(translated[cursor..found[j].start]) + Argument(Pick(source, Values(found), j + 1)), whole)
  {
    RenderStep(source, translated, found, j, cursor);
    var gap, arg := Doubled(translated[cursor..found[j].start]), Argument(Pick(source, Values(found), j + 1));
    var rest := RenderFrom(source, translated, found, j + 1, found[j].end);
    Regroup(rendered, gap, arg + rest);
    Regroup(rendered + gap, arg, rest);
  }

  lemma RenderBegins(source: seq<string>, translated: string, found: seq<Interpolation>)
    requires multiset(source) == multiset(Values(found)) && Tokens(translated, 0, found)
    ensures InProgress(source, translated, found, 0, 0, "", RenderFrom(source, translated, found, 0, 0))
    ensures Counted(Values(found)[..0], map[])
  {
    assert found[0..] == found;
    assert "" + RenderFrom(source, translated, found, 0, 0) == RenderFrom(source, translated, found, 0, 0);
  }

  /** The occurrence number of the next token, and the index it is found under. */
  method NextIndex(source: seq<string>, ghost tokens: seq<string>, ghost j: nat, token: string,
      sourceIndices: map<string, seq<nat>>, occurrences: map<string, nat>)
    returns (index: nat, next: map<string, nat>)
    requires multiset(source) == multiset(tokens) && j < |tokens| && tokens[j] == token
    requires Indexes(source, sourceIndices) && Counted(tokens[..j], occurrences)
    ensures index == Pick(source, tokens, j + 1) && Counted(tokens[..j + 1], next)
  {
    var occurrence := if token in occurrences then occurrences[token] else 0;
    CountNext(tokens, j, occurrences, occurrence);
    next := occurrences[token := occurrence + 1];
    IndexIsPick(source, tokens, j, sourceIndices, occurrence);
    index := sourceIndices[token][occurrence];
  }

  method RenderInterpolations(source: seq<string>, translated: string, found: seq<Interpolation>) returns (rendered: string)
    requires multiset(source) == multiset(Values(found)) && Tokens(translated, 0, found)
    ensures rendered == RenderFrom(source, translated, found, 0, 0)
  {
    ghost var tokens, whole := Values(found), RenderFrom(source, translated, found, 0, 0);
    var sourceIndices := SourceIndices(source);
    var translatedOccurrences: map<string, nat> := map[];
    var cursor: nat := 0;
    rendered := "";
    RenderBegins(source, translated, found);
    var j := 0;
    while j < |found|
      invariant j <= |found| && Counted(tokens[..j], translatedOccurrences)
      invariant InProgress(source, translated, found, j, cursor, rendered, whole)
    {
      var interpolation := found[j];
      RenderNext(source, translated, found, j, cursor, rendered, whole);
      var index;
      index, translatedOccurrences :=
        NextIndex(source, tokens, j, interpolation.value, sourceIndices, translatedOccurrences);
      rendered := rendered + Doubled(translated[cursor..interpolation.start]) + Argument(index);
      cursor := interpolation.end;
      j := j + 1;
    }
    rendered := rendered + Doubled(translated[cursor..]);
  }

  /** renderAndroidResourceValue. */
  method RenderAndroidResourceValue(source: string, translated: string) returns (rendering: Rendering)
    ensures rendering == Render(source, translated)
  {
    var sourceInterpolations := ReadInterpolations(source);
    var translatedInterpolations := ReadInterpolations(translated);
    if sourceInterpolations.None? || translatedInterpolations.None? {
      return Failed(UnbalancedInterpolation);
    }
    ReadTokens(translated, 0);
    var sourceTokens := Values(sourceInterpolations.value);
    var translatedTokens := Values(translatedInterpolations.value);
    var sourceCounts := CountOccurrences(sourceTokens);
    var translatedCounts := CountOccurrences(translatedTokens);
    SameCounts(sourceTokens, translatedTokens, sourceCounts, translatedCounts);
    if sourceCounts != translatedCounts {
      return Failed(ChangedInterpolations);
    }
    var rendered := translated;
    if |sourceTokens| > 0 {
      rendered := RenderInterpolations(sourceTokens, translated, translatedInterpolations.value);
    }
    rendering := Rendered(EscapeAndroidResourceValue(rendered));
  }
}
