/** The tokenizer of Kotlin string templates in scripts/android-app-i18n.ts. */
module KotlinTemplates {
  import opened Prelude
  import opened Sequences
  import opened JsStrings
  import opened Scanning
  import opened QuotedTexts

  datatype Interpolation = Interpolation(start: nat, end: nat, value: string)

  predicate NameStart(c: char) {
    'A' <= c <= 'Z' || 'a' <= c <= 'z' || c == '_'
  }

  predicate NamePart(c: char) {
    NameStart(c) || '0' <= c <= '9'
  }

  /** The state of the scan inside an expression in braces. */
  datatype Scan = Scan(depth: nat, quote: Option<char>, escaped: bool)

  /** One character of the expression. */
  function Advance(scan: Scan, c: char): Scan {
    if scan.escaped then scan.(escaped := false)
    else if scan.quote.Some? && c == '\\' then scan.(escaped := true)
    else if scan.quote == Some(c) then scan.(quote := None)
    else if scan.quote.None? && (c == '"' || c == '\'') then scan.(quote := Some(c))
    else if scan.quote.None? && c == '{' then scan.(depth := scan.depth + 1)
    else if scan.quote.None? && c == '}' && scan.depth > 0 then scan.(depth := scan.depth - 1)
    else scan
  }

  const EXPRESSION: Scanner<Scan> := Scanner((s, c) => Advance(s, c), (s, c) => Advance(s, c).depth == 0)

  const OPENED: Scan := Scan(1, None, false)

  /** A $ at i opens an interpolation. */
  predicate Opens(s: string, i: nat) {
    i + 1 < |s| && s[i] == '$' && (s[i + 1] == '{' || NameStart(s[i + 1]))
  }

  /** The end of the interpolation that opens at i, unless its braces never close. */
  function EndOf(s: string, i: nat): (end: Option<nat>)
    requires Opens(s, i)
    ensures end.Some? ==> i + 1 < end.value <= |s|
  {
    if s[i + 1] != '{' then Some(RunEnd(NamePart, s, i + 2))
    else
      var at :- Stop(EXPRESSION, s, i + 2, OPENED);
      Some(at + 1)
  }

  /** The interpolations from i on; none at all if one of them never closes. */
  function ReadFrom(s: string, i: nat): (found: Option<seq<Interpolation>>)
    requires i <= |s|
    decreases |s| - i
  {
    if i == |s| then Some([])
    else if !Opens(s, i) then ReadFrom(s, i + 1)
    else
      var end :- EndOf(s, i);
      var rest :- ReadFrom(s, end);
      Some([Interpolation(i, end, s[i..end])] + rest)
  }

  function ReadKotlinInterpolations(s: string): Option<seq<Interpolation>> {
    ReadFrom(s, 0)
  }

  /** Interpolations in order, apart, inside s, each with the text it covers. */
  ghost predicate Tokens(s: string, from: nat, found: seq<Interpolation>)
    requires from <= |s|
    decreases |found|
  {
    found == [] ||
    var first := found[0];
    && from <= first.start < first.end <= |s|
    && first.value == s[first.start..first.end]
    && Tokens(s, first.end, found[1..])
  }

  lemma {:induction false} ReadTokens(s: string, i: nat)
    requires i <= |s| && ReadFrom(s, i).Some?
    ensures Tokens(s, i, ReadFrom(s, i).value)
    decreases |s| - i
  {
    if i < |s| {
      if !Opens(s, i) {
        ReadTokens(s, i + 1);
      } else {
        ReadTokens(s, EndOf(s, i).value);
        var found := ReadFrom(s, i).value;
        assert found[1..] == ReadFrom(s, EndOf(s, i).value).value;
      }
    }
  }

  /** The scan that started at start is here, in this state. */
  ghost predicate Underway(s: string, start: nat, i: nat, scan: Scan) {
    var underway := start <= i <= |s| && Stop(EXPRESSION, s, i, scan) == Stop(EXPRESSION, s, start, OPENED);
    underway
  }

  lemma NextCharacter(s: string, start: nat, i: nat, scan: Scan)
    requires Underway(s, start, i, scan) && i < |s|
    ensures if Advance(scan, s[i]).depth == 0 then Stop(EXPRESSION, s, start, OPENED) == Some(i)
            else Underway(s, start, i + 1, Advance(scan, s[i]))
  {
  }

  /** The inner loop: the closing brace of the expression that starts at start. */
  method FindClosing(s: string, start: nat) returns (at: Option<nat>)
    requires start <= |s|
    ensures at == Stop(EXPRESSION, s, start, OPENED)
  {
    var depth, quote, escaped := 1, None, false;
    var index := start;
    while index < |s|
      invariant start <= index <= |s| && depth > 0
      invariant Underway(s, start, index, Scan(depth, quote, escaped))
    {
      var character := s[index];
      NextCharacter(s, start, index, Scan(depth, quote, escaped));
      if escaped {
        escaped := false;
      } else if quote.Some? && character == '\\' {
        escaped := true;
      } else if quote == Some(character) {
        quote := None;
      } else if quote.None? && (character == '"' || character == '\'') {
        quote := Some(character);
      } else if quote.None? && character == '{' {
        depth := depth + 1;
      } else if quote.None? && character == '}' {
        depth := depth - 1;
        if depth == 0 {
          return Some(index);
        }
      }
      index := index + 1;
    }
    at := None;
  }

  /** readKotlinInterpolations: it returns exactly the interpolations ReadFrom reads. */
  method ReadInterpolations(source: string) returns (found: Option<seq<Interpolation>>)
    ensures found == ReadKotlinInterpolations(source)
  {
    var interpolations: seq<Interpolation> := [];
    var index := 0;
    assert forall all: seq<Interpolation> :: [] + all == all;
    while index < |source|
      invariant index <= |source|
      invariant ReadKotlinInterpolations(source).None? <==> ReadFrom(source, index).None?
      invariant ReadFrom(source, index).Some? ==>
        ReadKotlinInterpolations(source) == Some(interpolations + ReadFrom(source, index).value)
      decreases |source| - index
    {
      if source[index] != '$' || index + 1 == |source| {
        index := index + 1;
        continue;
      }
      var next := source[index + 1];
      if next != '{' && !NameStart(next) {
        index := index + 1;
        continue;
      }
      var start := index;
      if next != '{' {
        index := RunEnd(NamePart, source, index + 2);
      } else {
        var at := FindClosing(source, index + 2);
        if at.None? {
          return None;
        }
        index := at.value + 1;
      }
      Extend(source, start, index, interpolations);
      interpolations := interpolations + [Interpolation(start, index, source[start..index])];
    }
    assert interpolations + [] == interpolations;
    found := Some(interpolations);
  }

  lemma Extend(s: string, start: nat, end: nat, before: seq<Interpolation>)
    requires Opens(s, start) && EndOf(s, start) == Some(end)
    ensures ReadFrom(s, start).None? <==> ReadFrom(s, end).None?
    ensures ReadFrom(s, end).Some? ==>
      before + ReadFrom(s, start).value == before + [Interpolation(start, end, s[start..end])] + ReadFrom(s, end).value
  {
  }

  // Templates by their structure.

  /** An expression: characters, quoted strings, and expressions in braces. */
  datatype Code =
    | End
    | Char(c: char, rest: Code)
    | Text(quote: char, chars: seq<QuotedChar>, rest: Code)
    | Block(inside: Code, rest: Code)

  datatype Piece = Name(name: string) | Braced(code: Code)

  /** Pieces, each with the text before it, and the text behind the last. */
  datatype Template<P> = Tail(text: string) | Then(text: string, piece: P, rest: Template<P>)

  /** How pieces are printed, which of them are well-formed, and which of them go on with every
      character a name goes on with. */
  datatype Printer<!P> = Printer(text: P -> string, ok: P -> bool, greedy: P -> bool)

  predicate CodeOk(code: Code) {
    match code
    case End => true
    case Char(c, rest) => c !in "\"'{}" && CodeOk(rest)
    case Text(quote, chars, rest) => (quote == '"' || quote == '\'') && QuotedOk(quote, chars) && CodeOk(rest)
    case Block(inside, rest) => CodeOk(inside) && CodeOk(rest)
  }

  function CodeText(code: Code): string {
    match code
    case End => ""
    case Char(c, rest) => [c] + CodeText(rest)
    case Text(quote, chars, rest) => [quote] + CharsText(chars) + [quote] + CodeText(rest)
    case Block(inside, rest) => "{" + CodeText(inside) + "}" + CodeText(rest)
  }

  predicate PieceOk(piece: Piece) {
    match piece
    case Name(name) => name != "" && NameStart(name[0]) && forall i :: 0 <= i < |name| ==> NamePart(name[i])
    case Braced(code) => CodeOk(code)
  }

  function PieceText(piece: Piece): string {
    match piece
    case Name(name) => "$" + name
    case Braced(code) => "${" + CodeText(code) + "}"
  }

  /** No $ in the text opens an interpolation. */
  predicate Opaque(text: string) {
    forall i :: 0 <= i < |text| ==> !Opens(text, i)
  }

  /** The text behind a name does not go on with it. */
  predicate TemplateOk<P>(p: Printer<P>, t: Template<P>) {
    Opaque(t.text) &&
    match t
    case Tail(_) => true
    case Then(_, piece, rest) =>
      && p.ok(piece) && TemplateOk(p, rest)
      && (p.greedy(piece) && rest.text != "" ==> !NamePart(rest.text[0]))
  }

  function TemplateText<P>(p: Printer<P>, t: Template<P>): string {
    match t
    case Tail(text) => text
    case Then(text, piece, rest) => text + p.text(piece) + TemplateText(p, rest)
  }

  /** The interpolations of a template that starts at offset. */
  function Interpolations<P>(p: Printer<P>, t: Template<P>, offset: nat): seq<Interpolation> {
    match t
    case Tail(_) => []
    case Then(text, piece, rest) =>
      var start := offset + |text|;
      var end := start + |p.text(piece)|;
      [Interpolation(start, end, p.text(piece))] + Interpolations(p, rest, end)
  }

  const KOTLIN: Printer<Piece> := Printer(piece => PieceText(piece), piece => PieceOk(piece), (piece: Piece) => piece.Name?)

  // An expression leaves the scan where it was.

  function Reading(depth: nat): Scan {
    Scan(depth, None, false)
  }

  function InQuotes(depth: nat, quote: char): Scan {
    Scan(depth, Some(quote), false)
  }

  lemma ReadChar(d: nat, quote: char, c: QuotedChar)
    requires d >= 1 && QuotedCharOk(quote, c)
    ensures Through(EXPRESSION, InQuotes(d, quote), CharText(c)) == Some(InQuotes(d, quote))
  {
    var s, e := InQuotes(d, quote), Scan(d, Some(quote), true);
    if c.Plain? {
      One(EXPRESSION, s, c.c);
    } else {
      One(EXPRESSION, s, '\\');
      One(EXPRESSION, e, c.c);
      Both(EXPRESSION, s, "\\", e, [c.c], s);
      assert "\\" + [c.c] == CharText(c);
    }
  }

  lemma {:induction false} ReadChars(d: nat, quote: char, chars: seq<QuotedChar>)
    requires d >= 1 && QuotedOk(quote, chars)
    ensures Through(EXPRESSION, InQuotes(d, quote), CharsText(chars)) == Some(InQuotes(d, quote))
  {
    if chars != [] {
      var s := InQuotes(d, quote);
      ReadChar(d, quote, chars[0]);
      ReadChars(d, quote, chars[1..]);
      Both(EXPRESSION, s, CharText(chars[0]), s, CharsText(chars[1..]), s);
    }
  }

  lemma ReadText(d: nat, quote: char, chars: seq<QuotedChar>)
    requires d >= 1 && (quote == '"' || quote == '\'') && QuotedOk(quote, chars)
    ensures Through(EXPRESSION, Reading(d), [quote] + CharsText(chars) + [quote]) == Some(Reading(d))
  {
    One(EXPRESSION, Reading(d), quote);
    ReadChars(d, quote, chars);
    One(EXPRESSION, InQuotes(d, quote), quote);
    Both(EXPRESSION, Reading(d), [quote], InQuotes(d, quote), CharsText(chars), InQuotes(d, quote));
    Both(EXPRESSION, Reading(d), [quote] + CharsText(chars), InQuotes(d, quote), [quote], Reading(d));
  }

  lemma ReadBlock(d: nat, inside: string)
    requires d >= 1 && Through(EXPRESSION, Reading(d + 1), inside) == Some(Reading(d + 1))
    ensures Through(EXPRESSION, Reading(d), "{" + inside + "}") == Some(Reading(d))
  {
    One(EXPRESSION, Reading(d), '{');
    One(EXPRESSION, Reading(d + 1), '}');
    Both(EXPRESSION, Reading(d), "{", Reading(d + 1), inside, Reading(d + 1));
    Both(EXPRESSION, Reading(d), "{" + inside, Reading(d + 1), "}", Reading(d));
  }

  lemma {:induction false} ReadCode(d: nat, code: Code)
    requires d >= 1 && CodeOk(code)
    ensures Through(EXPRESSION, Reading(d), CodeText(code)) == Some(Reading(d))
    decreases code
  {
    match code
    case End =>
    case Char(c, rest) =>
      One(EXPRESSION, Reading(d), c);
      ReadCode(d, rest);
      Both(EXPRESSION, Reading(d), [c], Reading(d), CodeText(rest), Reading(d));
    case Text(quote, chars, rest) =>
      ReadText(d, quote, chars);
      ReadCode(d, rest);
      Both(EXPRESSION, Reading(d), [quote] + CharsText(chars) + [quote], Reading(d), CodeText(rest), Reading(d));
    case Block(inside, rest) =>
      ReadCode(d + 1, inside);
      ReadBlock(d, CodeText(inside));
      ReadCode(d, rest);
      Both(EXPRESSION, Reading(d), "{" + CodeText(inside) + "}", Reading(d), CodeText(rest), Reading(d));
  }

  // Reading a template gives its interpolations.

  function Followed(found: seq<Interpolation>, rest: Option<seq<Interpolation>>): Option<seq<Interpolation>> {
    if rest.None? then None else Some(found + rest.value)
  }

  lemma FollowedTwice(a: seq<Interpolation>, b: seq<Interpolation>, rest: Option<seq<Interpolation>>)
    ensures Followed(a, Followed(b, rest)) == Followed(a + b, rest)
  {
    if rest.Some? {
      assert a + (b + rest.value) == (a + b) + rest.value;
    }
  }

  lemma {:induction false} SkipOpaque(s: string, i: nat, j: nat)
    requires i <= j <= |s| && forall k :: i <= k < j ==> !Opens(s, k)
    ensures ReadFrom(s, i) == ReadFrom(s, j)
    decreases j - i
  {
    if i < j {
      SkipOpaque(s, i + 1, j);
    }
  }

  /** The place is the end, or an interpolation may open there. */
  predicate AtDollar(s: string, i: nat) {
    i < |s| ==> s[i] == '$'
  }

  lemma CharAt(s: string, i: nat, text: string, k: nat)
    requires StartsAt(s, i, text) && k < |text|
    ensures i + |text| <= |s| && s[i + k] == text[k]
  {
    assert s[i..i + |text|][k] == s[i + k];
  }

  lemma SkipText(s: string, i: nat, text: string)
    requires StartsAt(s, i, text) && Opaque(text) && AtDollar(s, i + |text|)
    ensures i + |text| <= |s| && ReadFrom(s, i) == ReadFrom(s, i + |text|)
  {
    forall k | i <= k < i + |text| ensures !Opens(s, k) {
      CharAt(s, i, text, k - i);
      assert !Opens(text, k - i);
      if k + 1 < i + |text| {
        CharAt(s, i, text, k + 1 - i);
      }
    }
    SkipOpaque(s, i, i + |text|);
  }

  lemma NameIsRead(s: string, i: nat, name: string)
    requires StartsAt(s, i, PieceText(Name(name))) && PieceOk(Name(name))
    requires var end := i + 1 + |name|; end < |s| ==> !NamePart(s[end])
    ensures Opens(s, i) && EndOf(s, i) == Some(i + 1 + |name|)
  {
    var end, text := i + 1 + |name|, PieceText(Name(name));
    CharAt(s, i, text, 0);
    CharAt(s, i, text, 1);
    forall k | i + 2 <= k < end ensures NamePart(s[k]) {
      CharAt(s, i, text, k - i);
    }
    RunEnds(NamePart, s, i + 2, end);
  }

  lemma BracedIsRead(s: string, i: nat, code: Code)
    requires StartsAt(s, i, "${" + CodeText(code) + "}") && CodeOk(code)
    ensures Opens(s, i) && EndOf(s, i) == Some(i + 3 + |CodeText(code)|)
  {
    var text, start := CodeText(code), i + 2;
    SplitAt(s, i, "${" + text, "}");
    SplitAt(s, i, "${", text);
    CharAt(s, i, "${", 0);
    CharAt(s, i, "${", 1);
    CharAt(s, start + |text|, "}", 0);
    ReadCode(1, code);
    StopAfter(EXPRESSION, s, start, OPENED, text);
    NextAfter(s, start + |text|);
  }

  lemma NextAfter(s: string, i: nat)
    requires i < |s| && s[i] == '}'
    ensures Stop(EXPRESSION, s, i, OPENED) == Some(i)
  {
  }

  type Reader = nat -> Option<seq<Interpolation>>

  /** The interpolations of s, from each place on. */
  function ReaderOf(s: string): Reader {
    (i: nat) => if i <= |s| then ReadFrom(s, i) else None
  }

  /** The text stands at i and is read as one interpolation. */
  ghost predicate IsRead(read: Reader, s: string, i: nat, printed: string) {
    var end := i + |printed|;
    var isRead := i < end <= |s| && s[i] == '$' && read(i) == Followed([Interpolation(i, end, printed)], read(end));
    isRead
  }

  lemma PieceIsRead(s: string, i: nat, piece: Piece, printed: string)
    requires printed == PieceText(piece) && StartsAt(s, i, printed) && PieceOk(piece)
    requires var end := i + |printed|; piece.Name? && end < |s| ==> !NamePart(s[end])
    ensures IsRead(ReaderOf(s), s, i, printed)
  {
    match piece
    case Name(name) => NameIsRead(s, i, name);
    case Braced(code) => BracedIsRead(s, i, code);
  }

  /** A well-formed piece, wherever it stands, is read as one interpolation. */
  ghost predicate Reads<P>(read: Reader, p: Printer<P>, s: string, i: nat, piece: P) {
    var end := i + |p.text(piece)|;
    StartsAt(s, i, p.text(piece)) && p.ok(piece) && (p.greedy(piece) && end < |s| ==> !NamePart(s[end])) ==>
      IsRead(read, s, i, p.text(piece))
  }

  /** Text that opens nothing is passed over. */
  ghost predicate Skips(read: Reader, s: string, i: nat, text: string) {
    StartsAt(s, i, text) && Opaque(text) && AtDollar(s, i + |text|) ==> read(i) == read(i + |text|)
  }

  ghost predicate IsReader<P(!new)>(read: Reader, p: Printer<P>, s: string) {
    && (forall i, piece :: Reads(read, p, s, i, piece))
    && (forall i, text :: Skips(read, s, i, text))
    && (forall piece :: p.ok(piece) ==> p.text(piece) != "" && p.text(piece)[0] == '$')
  }

  lemma KotlinIsReader(s: string)
    ensures IsReader(ReaderOf(s), KOTLIN, s)
  {
    forall i: nat, piece ensures Reads(ReaderOf(s), KOTLIN, s, i, piece) {
      var end := i + |KOTLIN.text(piece)|;
      if StartsAt(s, i, KOTLIN.text(piece)) && KOTLIN.ok(piece) && (KOTLIN.greedy(piece) && end < |s| ==> !NamePart(s[end])) {
        PieceIsRead(s, i, piece, KOTLIN.text(piece));
      }
    }
    forall i: nat, text ensures Skips(ReaderOf(s), s, i, text) {
      if StartsAt(s, i, text) && Opaque(text) && AtDollar(s, i + |text|) {
        SkipText(s, i, text);
      }
    }
  }

  /** What a template shows first. */
  lemma FirstOf<P(!new)>(p: Printer<P>, s: string, i: nat, t: Template<P>)
    requires (forall piece :: p.ok(piece) ==> p.text(piece) != "" && p.text(piece)[0] == '$') && TemplateOk(p, t)
    requires StartsAt(s, i, TemplateText(p, t)) && AtDollar(s, i + |TemplateText(p, t)|)
    ensures i < |s| ==> s[i] == if t.text != "" then t.text[0] else '$'
  {
    if TemplateText(p, t) != "" {
      CharAt(s, i, TemplateText(p, t), 0);
    }
  }

  lemma Places(s: string, i: nat, a: string, b: string, c: string)
    requires StartsAt(s, i, a + b + c)
    ensures StartsAt(s, i, a) && StartsAt(s, i + |a|, b) && StartsAt(s, i + |a| + |b|, c)
  {
    SplitAt(s, i, a + b, c);
    SplitAt(s, i, a, b);
  }

  lemma TextAndPiece(read: Reader, s: string, i: nat, text: string, printed: string)
    requires Skips(read, s, i, text) && StartsAt(s, i, text) && Opaque(text) && IsRead(read, s, i + |text|, printed)
    ensures var start, end := i + |text|, i + |text| + |printed|;
      end <= |s| && read(i) == Followed([Interpolation(start, end, printed)], read(end))
  {
  }

  lemma HeadIsRead<P(!new)>(read: Reader, p: Printer<P>, s: string, i: nat, text: string, piece: P, rest: Template<P>)
    requires IsReader(read, p, s) && TemplateOk(p, rest) && Opaque(text) && p.ok(piece)
    requires p.greedy(piece) && rest.text != "" ==> !NamePart(rest.text[0])
    requires StartsAt(s, i, text) && StartsAt(s, i + |text|, p.text(piece))
    requires var end := i + |text| + |p.text(piece)|;
      StartsAt(s, end, TemplateText(p, rest)) && AtDollar(s, end + |TemplateText(p, rest)|)
    ensures var start, end := i + |text|, i + |text| + |p.text(piece)|;
      read(i) == Followed([Interpolation(start, end, p.text(piece))], read(end))
  {
    FirstOf(p, s, i + |text| + |p.text(piece)|, rest);
    assert Reads(read, p, s, i + |text|, piece) && Skips(read, s, i, text);
    TextAndPiece(read, s, i, text, p.text(piece));
  }

  /** A template is read as its interpolations, and what is behind it as it would be alone. */
  lemma {:induction false} TemplateThenMore<P(!new)>(read: Reader, p: Printer<P>, s: string, i: nat, t: Template<P>)
    requires IsReader(read, p, s) && TemplateOk(p, t)
    requires StartsAt(s, i, TemplateText(p, t)) && AtDollar(s, i + |TemplateText(p, t)|)
    ensures read(i) == Followed(Interpolations(p, t, i), read(i + |TemplateText(p, t)|))
    decreases t
  {
    match t
    case Tail(text) =>
      assert Skips(read, s, i, text);
      FollowedNothing(read(i + |text|));
    case Then(text, piece, rest) =>
      var printed := p.text(piece);
      var start, end := i + |text|, i + |text| + |printed|;
      Places(s, i, text, printed, TemplateText(p, rest));
      HeadIsRead(read, p, s, i, text, piece, rest);
      TemplateThenMore(read, p, s, end, rest);
      FollowedTwice([Interpolation(start, end, printed)], Interpolations(p, rest, end),
                    read(end + |TemplateText(p, rest)|));
  }

  lemma FollowedNothing(rest: Option<seq<Interpolation>>)
    ensures Followed([], rest) == rest
  {
    if rest.Some? {
      assert [] + rest.value == rest.value;
    }
  }

  /** Reading a printed template returns exactly its interpolations, at their places. */
  lemma TemplateIsRead(t: Template<Piece>)
    requires TemplateOk(KOTLIN, t)
    ensures ReadKotlinInterpolations(TemplateText(KOTLIN, t)) == Some(Interpolations(KOTLIN, t, 0))
  {
    var s := TemplateText(KOTLIN, t);
    assert s[0..|s|] == s;
    KotlinIsReader(s);
    TemplateThenMore(ReaderOf(s), KOTLIN, s, 0, t);
    assert Interpolations(KOTLIN, t, 0) + [] == Interpolations(KOTLIN, t, 0);
  }

  lemma CutExpression(s: string, i: nat, code: Code, part: string)
    requires CodeOk(code) && part <= CodeText(code) && StartsAt(s, i, "${" + part) && i + 2 + |part| == |s|
    ensures ReadFrom(s, i) == None
  {
    SplitAt(s, i, "${", part);
    CharAt(s, i, "${", 0);
    CharAt(s, i, "${", 1);
    ReadCode(1, code);
    PrefixThrough(EXPRESSION, OPENED, CodeText(code), |part|);
    assert CodeText(code)[..|part|] == part;
    StopAfter(EXPRESSION, s, i + 2, OPENED, part);
  }

  lemma NothingBehind(t: Template<Piece>, whole: string, cut: string)
    requires TemplateOk(KOTLIN, t) && whole == TemplateText(KOTLIN, t) && cut != "" && cut[0] == '$'
    requires ReaderOf(whole + cut)(|whole|) == None
    ensures ReaderOf(whole + cut)(0) == None
  {
    var s := whole + cut;
    assert s[0..|s|] == whole + cut;
    SplitAt(s, 0, whole, cut);
    StartsWith(s, |whole|, cut);
    KotlinIsReader(s);
    TemplateThenMore(ReaderOf(s), KOTLIN, s, 0, t);
  }

  /** A template that is cut inside an expression is not read at all. */
  lemma CutTemplateIsUnbalanced(t: Template<Piece>, code: Code, part: string)
    requires TemplateOk(KOTLIN, t) && CodeOk(code) && part <= CodeText(code)
    ensures ReadKotlinInterpolations(TemplateText(KOTLIN, t) + ("${" + part)) == None
  {
    var whole, cut := TemplateText(KOTLIN, t), "${" + part;
    var s := whole + cut;
    assert s[0..|s|] == whole + cut;
    SplitAt(s, 0, whole, cut);
    CutExpression(s, |whole|, code, part);
    NothingBehind(t, whole, cut);
  }
}
