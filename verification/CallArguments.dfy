/** Finding a call's closing parenthesis and splitting its arguments, as
    scripts/check-temp-path-guardrails.ts does it: two loops that each keep track of quotes. */
module CallArguments {
  import opened Prelude
  import opened Folds
  import opened JsStrings
  import opened Scanning
  import opened QuotedTexts

  datatype Quote = Quote(quote: Option<char>, escaped: bool)

  const UNQUOTED: Quote := Quote(None, false)

  predicate IsQuote(c: char) {
    c == '\'' || c == '"' || c == '`'
  }

  /** One character inside a quoted section. */
  function Consume(q: Quote, c: char): Quote {
    if q.escaped then q.(escaped := false)
    else if c == '\\' then q.(escaped := true)
    else if q.quote == Some(c) then q.(quote := None)
    else q
  }

  /** The state object both loops pass to their helpers. */
  class QuoteScanState {
    var quote: Option<char>
    var escaped: bool

    constructor ()
      ensures View() == UNQUOTED
    {
      quote, escaped := None, false;
    }

    ghost function View(): Quote
      reads this
    {
      Quote(quote, escaped)
    }

    method BeginQuotedSection(ch: char) returns (begun: bool)
      modifies this
      ensures begun <==> IsQuote(ch)
      ensures View() == if begun then old(View()).(quote := Some(ch)) else old(View())
    {
      if ch != '\'' && ch != '"' && ch != '`' {
        return false;
      }
      quote := Some(ch);
      begun := true;
    }

    method ConsumeQuotedChar(ch: char) returns (consumed: bool)
      modifies this
      ensures consumed <==> old(quote).Some?
      ensures View() == if consumed then Consume(old(View()), ch) else old(View())
    {
      if quote.None? {
        return false;
      }
      if escaped {
        escaped := false;
        return true;
      }
      if ch == '\\' {
        escaped := true;
        return true;
      }
      if Some(ch) == quote {
        quote := None;
      }
      consumed := true;
    }
  }

  // The first loop.

  datatype Search = Search(depth: int, quote: Quote)

  function SearchStep(s: Search, c: char): Search {
    if s.quote.quote.Some? then s.(quote := Consume(s.quote, c))
    else if IsQuote(c) then s.(quote := s.quote.(quote := Some(c)))
    else if c == '(' then s.(depth := s.depth + 1)
    else if c == ')' then s.(depth := s.depth - 1)
    else s
  }

  predicate Matches(s: Search, c: char) {
    s.quote.quote.None? && c == ')' && s.depth == 1
  }

  const PARENS: Scanner<Search> := Scanner((s, c) => SearchStep(s, c), (s, c) => Matches(s, c))

  /** The matching parenthesis of the one at openIndex. */
  function Matching(source: string, openIndex: nat): Option<nat> {
    if openIndex + 1 > |source| then None else Stop(PARENS, source, openIndex + 1, Search(1, UNQUOTED))
  }

  lemma SearchNext(source: string, i: nat, s: Search)
    requires i < |source|
    ensures Stop(PARENS, source, i, s) ==
      if Matches(s, source[i]) then Some(i) else Stop(PARENS, source, i + 1, SearchStep(s, source[i]))
  {
  }

  /** findMatchingParen; -1 stands for none. */
  method FindMatchingParen(source: string, openIndex: nat) returns (index: int)
    ensures match Matching(source, openIndex) case None => index == -1 case Some(i) => index == i
  {
    var depth := 1;
    var quoteState := new QuoteScanState();
    var i := openIndex + 1;
    while i < |source|
      invariant i == openIndex + 1 || i <= |source|
      invariant fresh(quoteState)
      invariant i <= |source| ==> Matching(source, openIndex) == Stop(PARENS, source, i, Search(depth, quoteState.View()))
    {
      var ch := source[i];
      SearchNext(source, i, Search(depth, quoteState.View()));
      i := i + 1;
      var consumed := quoteState.ConsumeQuotedChar(ch);
      if consumed {
        continue;
      }
      var begun := quoteState.BeginQuotedSection(ch);
      if begun {
        continue;
      }
      if ch == '(' {
        depth := depth + 1;
        continue;
      }
      if ch == ')' {
        depth := depth - 1;
        if depth == 0 {
          return i - 1;
        }
      }
    }
    index := -1;
  }

  // The second loop.

  datatype Split = Split(out: seq<string>, current: string, parens: nat, brackets: nat, braces: nat, quote: Quote)

  const UNSPLIT: Split := Split([], "", 0, 0, 0, UNQUOTED)

  function Down(depth: nat): nat {
    if depth > 0 then depth - 1 else 0
  }

  function Depth(s: Split, c: char): Split {
    match c
    case '(' => s.(parens := s.parens + 1)
    case ')' => s.(parens := Down(s.parens))
    case '[' => s.(brackets := s.brackets + 1)
    case ']' => s.(brackets := Down(s.brackets))
    case '{' => s.(braces := s.braces + 1)
    case '}' => s.(braces := Down(s.braces))
    case _ => s
  }

  predicate AtTop(s: Split) {
    s.parens == 0 && s.brackets == 0 && s.braces == 0
  }

  function SplitStep(s: Split, c: char): Split {
    if s.quote.quote.Some? then s.(current := s.current + [c], quote := Consume(s.quote, c))
    else if IsQuote(c) then s.(current := s.current + [c], quote := s.quote.(quote := Some(c)))
    else if c == ',' && AtTop(s) then s.(out := s.out + [Trim(s.current)], current := "")
    else Depth(s, c).(current := s.current + [c])
  }

  const SPLITTER: (Split, char) -> Split := (s, c) => SplitStep(s, c)

  function Splits(s: Split, source: string): Split {
    Fold(SPLITTER, s, source)
  }

  function Close(s: Split): seq<string> {
    if Trim(s.current) == "" then s.out else s.out + [Trim(s.current)]
  }

  function Arguments(source: string): seq<string> {
    Close(Splits(UNSPLIT, source))
  }

  lemma SplitNext(source: string, i: nat, s: Split)
    requires i < |source| && s == Splits(UNSPLIT, source[..i])
    ensures Splits(UNSPLIT, source[..i + 1]) == SplitStep(s, source[i])
  {
    assert source[..i + 1] == source[..i] + [source[i]];
    SplitsAppend(UNSPLIT, source[..i], [source[i]]);
    SplitsOne(s, source[i]);
  }

  lemma SplitsAppend(s: Split, a: string, b: string)
    ensures Splits(s, a + b) == Splits(Splits(s, a), b)
  {
    FoldAppend(SPLITTER, s, a, b);
  }

  lemma SplitsOne(s: Split, c: char)
    ensures Splits(s, [c]) == SplitStep(s, c)
  {
    assert [c][1..] == "";
    assert Fold(SPLITTER, SplitStep(s, c), "") == SplitStep(s, c);
  }

  /** splitTopLevelArguments. */
  method SplitTopLevelArguments(source: string) returns (out: seq<string>)
    ensures out == Arguments(source)
  {
    out := [];
    var current := "";
    var parenDepth: nat, bracketDepth: nat, braceDepth: nat := 0, 0, 0;
    var quoteState := new QuoteScanState();
    var i := 0;
    while i < |source|
      invariant i <= |source| && fresh(quoteState)
      invariant Splits(UNSPLIT, source[..i])
             == Split(out, current, parenDepth, bracketDepth, braceDepth, quoteState.View())
    {
      var ch := source[i];
      SplitNext(source, i, Split(out, current, parenDepth, bracketDepth, braceDepth, quoteState.View()));
      i := i + 1;
      if quoteState.quote.Some? {
        current := current + [ch];
        var _ := quoteState.ConsumeQuotedChar(ch);
        continue;
      }
      var begun := quoteState.BeginQuotedSection(ch);
      if begun {
        current := current + [ch];
        continue;
      }
      if ch == ',' && parenDepth == 0 && bracketDepth == 0 && braceDepth == 0 {
        out := out + [Trim(current)];
        current := "";
        continue;
      }
      if ch == '(' {
        parenDepth := parenDepth + 1;
      } else if ch == ')' {
        parenDepth := Down(parenDepth);
      } else if ch == '[' {
        bracketDepth := bracketDepth + 1;
      } else if ch == ']' {
        bracketDepth := Down(bracketDepth);
      } else if ch == '{' {
        braceDepth := braceDepth + 1;
      } else if ch == '}' {
        braceDepth := Down(braceDepth);
      }
      current := current + [ch];
    }
    assert source[..i] == source;
    if Trim(current) != "" {
      out := out + [Trim(current)];
    }
  }

  // Arguments by their structure.

  /** Code as a sequence of characters, quoted strings and bracketed groups. */
  datatype Code =
    | End
    | Char(c: char, rest: Code)
    | Text(quote: char, chars: seq<QuotedChar>, rest: Code)
    | Group(open: char, inside: Code, rest: Code)

  predicate IsBracket(c: char) {
    c in "()[]{}"
  }

  /** Closed quotes, balanced brackets and, at the top level, no comma outside them. */
  predicate CodeOk(code: Code, top: bool) {
    match code
    case End => true
    case Char(c, rest) => !IsQuote(c) && !IsBracket(c) && (top ==> c != ',') && CodeOk(rest, top)
    case Text(quote, chars, rest) => IsQuote(quote) && QuotedOk(quote, chars) && CodeOk(rest, top)
    case Group(open, inside, rest) => open in "([{" && CodeOk(inside, false) && CodeOk(rest, top)
  }

  function Closer(open: char): char {
    if open == '(' then ')' else if open == '[' then ']' else '}'
  }

  function CodeText(code: Code): string {
    match code
    case End => ""
    case Char(c, rest) => [c] + CodeText(rest)
    case Text(quote, chars, rest) => [quote] + CharsText(chars) + [quote] + CodeText(rest)
    case Group(open, inside, rest) => [open] + CodeText(inside) + [Closer(open)] + CodeText(rest)
  }

  // Code leaves the search for the parenthesis where it was.

  function Searching(depth: int): Search {
    Search(depth, UNQUOTED)
  }

  function InQuotes(depth: int, quote: char): Search {
    Search(depth, Quote(Some(quote), false))
  }

  lemma SearchChar(d: int, quote: char, c: QuotedChar)
    requires QuotedCharOk(quote, c)
    ensures Through(PARENS, InQuotes(d, quote), CharText(c)) == Some(InQuotes(d, quote))
  {
    var s, e := InQuotes(d, quote), Search(d, Quote(Some(quote), true));
    if c.Plain? {
      One(PARENS, s, c.c);
    } else {
      One(PARENS, s, '\\');
      One(PARENS, e, c.c);
      Both(PARENS, s, "\\", e, [c.c], s);
      assert "\\" + [c.c] == CharText(c);
    }
  }

  lemma {:induction false} SearchChars(d: int, quote: char, chars: seq<QuotedChar>)
    requires QuotedOk(quote, chars)
    ensures Through(PARENS, InQuotes(d, quote), CharsText(chars)) == Some(InQuotes(d, quote))
  {
    if chars != [] {
      var s := InQuotes(d, quote);
      SearchChar(d, quote, chars[0]);
      SearchChars(d, quote, chars[1..]);
      Both(PARENS, s, CharText(chars[0]), s, CharsText(chars[1..]), s);
    }
  }

  lemma SearchText(d: int, quote: char, chars: seq<QuotedChar>)
    requires IsQuote(quote) && QuotedOk(quote, chars)
    ensures Through(PARENS, Searching(d), [quote] + CharsText(chars) + [quote]) == Some(Searching(d))
  {
    One(PARENS, Searching(d), quote);
    SearchChars(d, quote, chars);
    One(PARENS, InQuotes(d, quote), quote);
    Both(PARENS, Searching(d), [quote], InQuotes(d, quote), CharsText(chars), InQuotes(d, quote));
    Both(PARENS, Searching(d), [quote] + CharsText(chars), InQuotes(d, quote), [quote], Searching(d));
  }

  lemma SearchGroup(d: int, open: char, inside: string)
    requires d >= 1 && open in "([{"
    requires Through(PARENS, Searching(if open == '(' then d + 1 else d), inside)
          == Some(Searching(if open == '(' then d + 1 else d))
    ensures Through(PARENS, Searching(d), [open] + inside + [Closer(open)]) == Some(Searching(d))
  {
    var e := Searching(if open == '(' then d + 1 else d);
    One(PARENS, Searching(d), open);
    One(PARENS, e, Closer(open));
    Both(PARENS, Searching(d), [open], e, inside, e);
    Both(PARENS, Searching(d), [open] + inside, e, [Closer(open)], Searching(d));
  }

  lemma {:induction false} SearchCode(d: int, code: Code, top: bool)
    requires d >= 1 && CodeOk(code, top)
    ensures Through(PARENS, Searching(d), CodeText(code)) == Some(Searching(d))
    decreases code
  {
    match code
    case End =>
    case Char(c, rest) =>
      One(PARENS, Searching(d), c);
      SearchCode(d, rest, top);
      Both(PARENS, Searching(d), [c], Searching(d), CodeText(rest), Searching(d));
    case Text(quote, chars, rest) =>
      SearchText(d, quote, chars);
      SearchCode(d, rest, top);
      Both(PARENS, Searching(d), [quote] + CharsText(chars) + [quote], Searching(d), CodeText(rest), Searching(d));
    case Group(open, inside, rest) =>
      SearchCode(if open == '(' then d + 1 else d, inside, false);
      SearchGroup(d, open, CodeText(inside));
      SearchCode(d, rest, top);
      Both(PARENS, Searching(d), [open] + CodeText(inside) + [Closer(open)], Searching(d), CodeText(rest), Searching(d));
  }

  // Code is collected by the split as it is.

  /** The state with text added to the current argument. */
  function Plus(s: Split, text: string): Split {
    s.(current := s.current + text)
  }

  lemma PlusBoth(s: Split, a: string, b: string)
    requires Splits(s, a) == Plus(s, a) && Splits(Plus(s, a), b) == Plus(Plus(s, a), b)
    ensures Splits(s, a + b) == Plus(s, a + b)
  {
    SplitsAppend(s, a, b);
    assert s.current + a + b == s.current + (a + b);
  }

  function Quoting(s: Split, quote: char): Split {
    s.(quote := Quote(Some(quote), false))
  }

  lemma SplitChar(s: Split, quote: char, c: QuotedChar)
    requires QuotedCharOk(quote, c) && s.quote == Quote(Some(quote), false)
    ensures Splits(s, CharText(c)) == Plus(s, CharText(c))
  {
    if c.Plain? {
      SplitsOne(s, c.c);
    } else {
      var e := Plus(s, "\\").(quote := Quote(Some(quote), true));
      SplitsOne(s, '\\');
      SplitsOne(e, c.c);
      SplitsAppend(s, "\\", [c.c]);
      assert "\\" + [c.c] == CharText(c);
      assert s.current + "\\" + [c.c] == s.current + CharText(c);
    }
  }

  lemma {:induction false} SplitChars(s: Split, quote: char, chars: seq<QuotedChar>)
    requires QuotedOk(quote, chars) && s.quote == Quote(Some(quote), false)
    ensures Splits(s, CharsText(chars)) == Plus(s, CharsText(chars))
    decreases |chars|
  {
    if chars == [] {
      assert s.current + "" == s.current;
    } else {
      SplitChar(s, quote, chars[0]);
      SplitChars(Plus(s, CharText(chars[0])), quote, chars[1..]);
      PlusBoth(s, CharText(chars[0]), CharsText(chars[1..]));
    }
  }

  lemma SplitText(s: Split, quote: char, chars: seq<QuotedChar>)
    requires IsQuote(quote) && QuotedOk(quote, chars) && s.quote == UNQUOTED
    ensures Splits(s, [quote] + CharsText(chars) + [quote]) == Plus(s, [quote] + CharsText(chars) + [quote])
  {
    var begun := Quoting(Plus(s, [quote]), quote);
    SplitsOne(s, quote);
    SplitChars(begun, quote, chars);
    SplitsAppend(s, [quote], CharsText(chars));
    SplitsOne(Plus(begun, CharsText(chars)), quote);
    SplitsAppend(s, [quote] + CharsText(chars), [quote]);
    assert s.current + [quote] + CharsText(chars) + [quote] == s.current + ([quote] + CharsText(chars) + [quote]);
  }

  lemma SplitGroup(s: Split, open: char, inside: string)
    requires s.quote == UNQUOTED && open in "([{"
    requires var deeper := Plus(Depth(s, open), [open]); Splits(deeper, inside) == Plus(deeper, inside)
    ensures Splits(s, [open] + inside + [Closer(open)]) == Plus(s, [open] + inside + [Closer(open)])
  {
    var deeper := Plus(Depth(s, open), [open]);
    SplitsOne(s, open);
    SplitsAppend(s, [open], inside);
    SplitsOne(Plus(deeper, inside), Closer(open));
    SplitsAppend(s, [open] + inside, [Closer(open)]);
    assert s.current + [open] + inside + [Closer(open)] == s.current + ([open] + inside + [Closer(open)]);
  }

  lemma {:induction false} SplitCode(s: Split, code: Code, top: bool)
    requires CodeOk(code, top) && s.quote == UNQUOTED && (top || !AtTop(s))
    ensures Splits(s, CodeText(code)) == Plus(s, CodeText(code))
    decreases code
  {
    match code
    case End =>
      assert s.current + "" == s.current;
    case Char(c, rest) =>
      SplitsOne(s, c);
      SplitCode(Plus(s, [c]), rest, top);
      PlusBoth(s, [c], CodeText(rest));
    case Text(quote, chars, rest) =>
      var text := [quote] + CharsText(chars) + [quote];
      SplitText(s, quote, chars);
      SplitCode(Plus(s, text), rest, top);
      PlusBoth(s, text, CodeText(rest));
    case Group(open, inside, rest) =>
      var text := [open] + CodeText(inside) + [Closer(open)];
      SplitCode(Plus(Depth(s, open), [open]), inside, false);
      SplitGroup(s, open, CodeText(inside));
      SplitCode(Plus(s, text), rest, top);
      PlusBoth(s, text, CodeText(rest));
  }

  // Printing a call and reading its arguments back.

  /** An argument: code without white space around it and without a top-level comma, perhaps none. */
  predicate ArgumentOk(code: Code) {
    CodeOk(code, true) && IsTight(CodeText(code))
  }

  predicate ArgumentsOk(args: seq<Code>) {
    forall i :: 0 <= i < |args| ==> ArgumentOk(args[i])
  }

  function Texts(args: seq<Code>): (texts: seq<string>)
    ensures |texts| == |args| && forall i :: 0 <= i < |args| ==> texts[i] == CodeText(args[i])
  {
    seq(|args|, i requires 0 <= i < |args| => CodeText(args[i]))
  }

  /** join(", "). */
  function Joined(texts: seq<string>): string {
    if texts == [] then ""
    else if |texts| == 1 then texts[0]
    else texts[0] + ", " + Joined(texts[1..])
  }

  /** Empty arguments are kept, but for the last. */
  function WithoutLastEmpty(texts: seq<string>): seq<string> {
    if texts != [] && texts[|texts| - 1] == "" then texts[..|texts| - 1] else texts
  }

  function Between(out: seq<string>, space: string): Split {
    UNSPLIT.(out := out, current := space)
  }

  /** A text the split collects whole, and trims of nothing but a space before it. */
  ghost predicate IsOne(text: string) {
    forall out, space :: space == "" || space == " " ==>
      && Splits(Between(out, space), text) == Plus(Between(out, space), text)
      && Trim(space + text) == text
  }

  lemma ArgumentIsOne(code: Code)
    requires ArgumentOk(code)
    ensures IsOne(CodeText(code))
  {
    forall out, space | space == "" || space == " "
      ensures Splits(Between(out, space), CodeText(code)) == Plus(Between(out, space), CodeText(code))
      ensures Trim(space + CodeText(code)) == CodeText(code)
    {
      SplitCode(Between(out, space), code, true);
      TrimIsTight(space, CodeText(code), "");
      assert space + CodeText(code) + "" == space + CodeText(code);
    }
  }

  lemma SplitNothing(out: seq<string>, space: string)
    requires space == "" || space == " "
    ensures Close(Splits(Between(out, space), "")) == out
  {
    assert TrimStart("") == "" && TrimStart(" ") == TrimStart(" "[1..]) == "";
    assert TrimEnd("") == "";
  }

  /** What the split comes to after out and space. */
  function Outcome(out: seq<string>, space: string, text: string): seq<string> {
    Close(Splits(Between(out, space), text))
  }

  predicate IsGap(space: string) {
    space == "" || space == " "
  }

  lemma OutcomeOfLast(out: seq<string>, space: string, text: string)
    requires IsGap(space) && IsOne(text)
    ensures Outcome(out, space, text) == if text == "" then out else out + [text]
  {
  }

  lemma OutcomeOfFirst(out: seq<string>, space: string, text: string, rest: string)
    requires IsGap(space) && IsOne(text)
    ensures Outcome(out, space, text + ", " + rest) == Outcome(out + [text], " ", rest)
  {
    SplitComma(Between(out, space), text);
    SplitsAppend(Between(out, space), text + ", ", rest);
  }

  ghost predicate ReadsNone(read: (seq<string>, string, string) -> seq<string>) {
    forall o, s :: IsGap(s) ==> read(o, s, "") == o
  }

  /** text is put out when the reading ends after it, and when a comma follows. */
  ghost predicate ReadsOne(read: (seq<string>, string, string) -> seq<string>, text: string) {
    && (forall o, s :: IsGap(s) ==> read(o, s, text) == if text == "" then o else o + [text])
    && (forall o, s, r :: IsGap(s) ==> read(o, s, text + ", " + r) == read(o + [text], " ", r))
  }

  const READER: (seq<string>, string, string) -> seq<string> := (o, s, t) => Outcome(o, s, t)

  lemma OutcomeReadsNone()
    ensures ReadsNone(READER)
  {
    forall o, s | IsGap(s) ensures READER(o, s, "") == o {
      SplitNothing(o, s);
    }
  }

  lemma OutcomeReadsOne(text: string)
    requires IsOne(text)
    ensures ReadsOne(READER, text)
  {
    forall o, s | IsGap(s) ensures READER(o, s, text) == if text == "" then o else o + [text] {
      OutcomeOfLast(o, s, text);
    }
    forall o, s, r | IsGap(s) ensures READER(o, s, text + ", " + r) == READER(o + [text], " ", r) {
      OutcomeOfFirst(o, s, text, r);
    }
  }

  lemma OneMore(out: seq<string>, texts: seq<string>, rest: seq<string>)
    requires |texts| > 1 && rest == texts[1..]
    ensures out + [texts[0]] + WithoutLastEmpty(rest) == out + WithoutLastEmpty(texts)
  {
    assert rest[|rest| - 1] == texts[|texts| - 1];
    assert WithoutLastEmpty(texts) == [texts[0]] + WithoutLastEmpty(rest);
  }

  /** Any reading that puts out one text after another puts out a joined list. */
  lemma {:induction false} ReadJoined(
      read: (seq<string>, string, string) -> seq<string>, out: seq<string>, space: string, texts: seq<string>)
    requires IsGap(space) && ReadsNone(read)
    requires forall i :: 0 <= i < |texts| ==> ReadsOne(read, texts[i])
    ensures read(out, space, Joined(texts)) == out + WithoutLastEmpty(texts)
    decreases |texts|
  {
    if |texts| > 1 {
      var rest := texts[1..];
      ReadJoined(read, out + [texts[0]], " ", rest);
      assert ReadsOne(read, texts[0]);
      OneMore(out, texts, rest);
    } else if |texts| == 1 {
      assert ReadsOne(read, texts[0]);
    }
  }

  /** All but the last argument are put out; the last is the current one. */
  lemma SplitJoined(texts: seq<string>)
    requires forall i :: 0 <= i < |texts| ==> IsOne(texts[i])
    ensures Arguments(Joined(texts)) == WithoutLastEmpty(texts)
  {
    OutcomeReadsNone();
    forall i | 0 <= i < |texts| ensures ReadsOne(READER, texts[i]) {
      OutcomeReadsOne(texts[i]);
    }
    ReadJoined(READER, [], "", texts);
    assert [] + WithoutLastEmpty(texts) == WithoutLastEmpty(texts);
  }

  /** A comma at the top puts the current argument out. */
  lemma SplitComma(s: Split, first: string)
    requires AtTop(s) && s.quote == UNQUOTED && Splits(s, first) == Plus(s, first)
    requires Trim(s.current + first) == first
    ensures Splits(s, first + ", ") == s.(out := s.out + [first], current := " ")
  {
    SplitsOne(Plus(s, first), ',');
    SplitsOne(s.(out := s.out + [first], current := ""), ' ');
    SplitsAppend(s, first, ",");
    SplitsAppend(s, first + ",", " ");
    assert first + "," + " " == first + ", ";
  }

  lemma {:induction false} SearchJoined(texts: seq<string>)
    requires forall i :: 0 <= i < |texts| ==> Through(PARENS, Searching(1), texts[i]) == Some(Searching(1))
    ensures Through(PARENS, Searching(1), Joined(texts)) == Some(Searching(1))
  {
    if |texts| > 1 {
      var s := Searching(1);
      Inert(PARENS, s, ", ");
      SearchJoined(texts[1..]);
      Both(PARENS, s, texts[0], s, ", ", s);
      Both(PARENS, s, texts[0] + ", ", s, Joined(texts[1..]), s);
    }
  }

  lemma PrintedShape(source: string, before: string, inside: string, after: string)
    requires source == before + "(" + inside + (")" + after)
    ensures |before| + 1 + |inside| < |source| && source[|before| + 1 + |inside|] == ')'
    ensures source[|before| + 1..|before| + 1 + |inside|] == inside
  {
  }

  lemma SearchInside(source: string, openIndex: nat, inside: string)
    requires openIndex + 1 + |inside| < |source|
    requires source[openIndex + 1..openIndex + 1 + |inside|] == inside && source[openIndex + 1 + |inside|] == ')'
    requires Through(PARENS, Searching(1), inside) == Some(Searching(1))
    ensures Matching(source, openIndex) == Some(openIndex + 1 + |inside|)
  {
    StopAfter(PARENS, source, openIndex + 1, Searching(1), inside);
  }

  lemma ArgumentsOfJoined(args: seq<Code>)
    requires ArgumentsOk(args)
    ensures Arguments(Joined(Texts(args))) == WithoutLastEmpty(Texts(args))
  {
    var texts := Texts(args);
    forall i | 0 <= i < |texts| ensures IsOne(texts[i]) {
      ArgumentIsOne(args[i]);
    }
    SplitJoined(texts);
  }

  lemma SearchArguments(args: seq<Code>)
    requires ArgumentsOk(args)
    ensures Through(PARENS, Searching(1), Joined(Texts(args))) == Some(Searching(1))
  {
    var texts := Texts(args);
    forall i | 0 <= i < |texts| ensures Through(PARENS, Searching(1), texts[i]) == Some(Searching(1)) {
      SearchCode(1, args[i], true);
    }
    SearchJoined(texts);
  }

  /** A printed call is read back: the matching parenthesis is the printed one, whatever follows
      it, and what it encloses splits into exactly the printed arguments, without the last if that
      one is empty. */
  lemma PrintedCallIsReadBack(source: string, before: string, args: seq<Code>, after: string)
    requires ArgumentsOk(args) && source == before + "(" + Joined(Texts(args)) + (")" + after)
    ensures Matching(source, |before|) == Some(|before| + 1 + |Joined(Texts(args))|)
    ensures Arguments(Joined(Texts(args))) == WithoutLastEmpty(Texts(args))
  {
    SearchArguments(args);
    PrintedShape(source, before, Joined(Texts(args)), after);
    SearchInside(source, |before|, Joined(Texts(args)));
    ArgumentsOfJoined(args);
  }

  /** A call that is cut short has no matching parenthesis. */
  lemma CutCallHasNoMatch(before: string, args: seq<Code>, part: string)
    requires ArgumentsOk(args) && part <= Joined(Texts(args))
    ensures Matching(before + "(" + part, |before|) == None
  {
    var source, inside := before + "(" + part, Joined(Texts(args));
    SearchArguments(args);
    PrefixThrough(PARENS, Searching(1), inside, |part|);
    assert inside[..|part|] == part;
    assert source[|before| + 1..|before| + 1 + |part|] == part;
    StopAfter(PARENS, source, |before| + 1, Searching(1), part);
  }
}
