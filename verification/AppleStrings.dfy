/** JSON string literals: what JSON.stringify writes for a string and JSON.parse reads back
    (section 7 of RFC 8259). */
module JsonLiterals {
  import opened Prelude
  import opened Folds

  function HexDigit(n: nat): (c: char)
    requires n < 16
    ensures c != '"' && c != '\\' && HexValue(c) == Some(n)
  {
    if n < 10 then '0' + n as char else 'a' + (n - 10) as char
  }

  function HexValue(c: char): Option<nat> {
    if '0' <= c <= '9' then Some((c - '0') as nat)
    else if 'a' <= c <= 'f' then Some((c - 'a') as nat + 10)
    else if 'A' <= c <= 'F' then Some((c - 'A') as nat + 10)
    else None
  }

  /** A character inside a literal. */
  function Escaped(c: char): (code: string)
    ensures code != ""
  {
    match c
    case '"' => "\\\""
    case '\\' => "\\\\"
    case '\U{0008}' => "\\b"
    case '\U{000C}' => "\\f"
    case '\n' => "\\n"
    case '\r' => "\\r"
    case '\t' => "\\t"
    case _ =>
      if c < ' ' then ['\\', 'u', '0', '0', HexDigit(c as nat / 16), HexDigit(c as nat % 16)] else [c]
  }

  const ESCAPES: char -> string := c => Escaped(c)

  function Quote(value: string): string {
    "\"" + Flat(ESCAPES, value) + "\""
  }

  function Unescaped(c: char): Option<char> {
    match c
    case '"' => Some('"')
    case '\\' => Some('\\')
    case '/' => Some('/')
    case 'b' => Some('\U{0008}')
    case 'f' => Some('\U{000C}')
    case 'n' => Some('\n')
    case 'r' => Some('\r')
    case 't' => Some('\t')
    case _ => None
  }

  /** The character of a four-digit escape; surrogates are not characters. */
  function FromHex(a: char, b: char, c: char, d: char): Option<char> {
    var a :- HexValue(a);
    var b :- HexValue(b);
    var c :- HexValue(c);
    var d :- HexValue(d);
    var n := ((a * 16 + b) * 16 + c) * 16 + d;
    if n < 0xD800 || 0xE000 <= n < 0x1_0000 then Some(n as char) else None
  }

  /** The characters between the quotes. */
  function ParseBody(s: string): Option<string>
    decreases |s|
  {
    if s == "" then Some("")
    else if s[0] == '\\' then
      if |s| >= 6 && s[1] == 'u' then
        var c :- FromHex(s[2], s[3], s[4], s[5]);
        var rest :- ParseBody(s[6..]);
        Some([c] + rest)
      else if |s| < 2 then None
      else
        var c :- Unescaped(s[1]);
        var rest :- ParseBody(s[2..]);
        Some([c] + rest)
    else if s[0] == '"' || s[0] < ' ' then None
    else
      var rest :- ParseBody(s[1..]);
      Some([s[0]] + rest)
  }

  function ParseLiteral(s: string): Option<string> {
    if |s| >= 2 && s[0] == '"' && s[|s| - 1] == '"' then ParseBody(s[1..|s| - 1]) else None
  }

  lemma ParsePlain(c: char, rest: string, read: string)
    requires ParseBody(rest) == Some(read) && c != '"' && c != '\\' && c >= ' '
    ensures ParseBody([c] + rest) == Some([c] + read)
  {
    assert ([c] + rest)[1..] == rest;
  }

  lemma ParseShort(e: char, c: char, rest: string, read: string)
    requires ParseBody(rest) == Some(read) && Unescaped(e) == Some(c)
    ensures ParseBody(['\\', e] + rest) == Some([c] + read)
  {
    assert (['\\', e] + rest)[2..] == rest;
  }

  lemma ParseHex(a: char, b: char, x: char, y: char, c: char, rest: string, read: string)
    requires ParseBody(rest) == Some(read) && FromHex(a, b, x, y) == Some(c)
    ensures ParseBody(['\\', 'u', a, b, x, y] + rest) == Some([c] + read)
  {
    assert (['\\', 'u', a, b, x, y] + rest)[6..] == rest;
  }

  lemma HexOfControl(c: char)
    requires c < ' '
    ensures FromHex('0', '0', HexDigit(c as nat / 16), HexDigit(c as nat % 16)) == Some(c)
  {
  }

  lemma ParseCode(c: char, rest: string, read: string)
    requires ParseBody(rest) == Some(read)
    ensures ParseBody(Escaped(c) + rest) == Some([c] + read)
  {
    match c
    case '"' => ParseShort('"', c, rest, read);
    case '\\' => ParseShort('\\', c, rest, read);
    case '\U{0008}' => ParseShort('b', c, rest, read);
    case '\U{000C}' => ParseShort('f', c, rest, read);
    case '\n' => ParseShort('n', c, rest, read);
    case '\r' => ParseShort('r', c, rest, read);
    case '\t' => ParseShort('t', c, rest, read);
    case _ =>
      if c < ' ' {
        HexOfControl(c);
        ParseHex('0', '0', HexDigit(c as nat / 16), HexDigit(c as nat % 16), c, rest, read);
      } else {
        ParsePlain(c, rest, read);
      }
  }

  /** What parse makes of a code is its character. */
  ghost predicate ReadsCode(parse: string -> Option<string>, code: char -> string, c: char, rest: string) {
    parse(rest).Some? ==> parse(code(c) + rest) == Some([c] + parse(rest).value)
  }

  lemma {:induction false} ReadsCodes(parse: string -> Option<string>, code: char -> string, value: string)
    requires parse("") == Some("") && forall c, rest :: ReadsCode(parse, code, c, rest)
    ensures parse(Flat(code, value)) == Some(value)
  {
    if value != "" {
      ReadsCodes(parse, code, value[1..]);
      assert ReadsCode(parse, code, value[0], Flat(code, value[1..]));
      assert value == [value[0]] + value[1..];
    }
  }

  lemma ParseEscaped(value: string)
    ensures ParseBody(Flat(ESCAPES, value)) == Some(value)
  {
    var parse := s => ParseBody(s);
    forall c, rest ensures ReadsCode(parse, ESCAPES, c, rest) {
      if parse(rest).Some? {
        ParseCode(c, rest, parse(rest).value);
      }
    }
    ReadsCodes(parse, ESCAPES, value);
  }

  /** Reading a printed literal gives the string back. */
  lemma QuoteIsRead(value: string)
    ensures ParseLiteral(Quote(value)) == Some(value)
  {
    var body := Flat(ESCAPES, value);
    assert Quote(value)[1..|Quote(value)| - 1] == body;
    ParseEscaped(value);
  }
}

/** Assignments of printed literals, and how they are matched when a literal is matched whole. */
module Assignments {
  import opened Prelude
  import opened Sequences
  import opened JsStrings

  /** A match: its literals as they are written, and where it ends. */
  datatype Match = Match(source: Option<string>, key: string, value: string, end: nat)

  /** Space, key, equals sign, value, semicolon; literal says where a literal ends. */
  function MatchAssignment(literal: (string, nat) -> Option<nat>, s: string, i: nat): Option<Match>
    requires i <= |s|
  {
    var keyStart := RunEnd(IsWhiteSpace, s, i);
    var keyEnd :- literal(s, keyStart);
    if !(keyStart <= keyEnd <= |s|) then None
    else
      var equals := RunEnd(IsWhiteSpace, s, keyEnd);
      if equals == |s| || s[equals] != '=' then None
      else
        var valueStart := RunEnd(IsWhiteSpace, s, equals + 1);
        var valueEnd :- literal(s, valueStart);
        if !(valueStart <= valueEnd < |s|) || s[valueEnd] != ';' then None
        else Some(Match(None, s[keyStart..keyEnd], s[valueStart..valueEnd], valueEnd + 1))
  }

  function Assignment(literal: (string, nat) -> Option<nat>): (string, nat) -> Option<Match> {
    (s: string, i: nat) => if i <= |s| then MatchAssignment(literal, s, i) else None
  }

  function AssignmentText(quote: string -> string): (string, string) -> string {
    (key, value) => quote(key) + " = " + quote(value) + ";"
  }

  ghost predicate IsRead(quote: string -> string, parse: string -> Option<string>) {
    forall v :: parse(quote(v)) == Some(v)
  }

  ghost predicate IsQuoted(quote: string -> string) {
    forall v :: quote(v) != "" && !IsWhiteSpace(quote(v)[0])
  }

  /** Where the printed v stands, it is matched whole. */
  predicate Delimits(quote: string -> string, literal: (string, nat) -> Option<nat>, s: string, i: nat, v: string) {
    StartsAt(s, i, quote(v)) ==> literal(s, i) == Some(i + |quote(v)|)
  }

  ghost predicate IsDelimited(quote: string -> string, literal: (string, nat) -> Option<nat>) {
    forall s, i: nat, v :: Delimits(quote, literal, s, i, v)
  }

  /** Where the assignment of v to k stands, it is matched whole. */
  predicate Assigns(quote: string -> string, text: (string, string) -> string, assignment: (string, nat) -> Option<Match>,
      s: string, i: nat, k: string, v: string)
  {
    StartsAt(s, i, text(k, v)) ==>
      assignment(s, i) == Some(Match(None, quote(k), quote(v), i + |text(k, v)|))
  }

  ghost predicate IsAssigned(
      quote: string -> string, text: (string, string) -> string, assignment: (string, nat) -> Option<Match>) {
    forall s, i: nat, k, v :: Assigns(quote, text, assignment, s, i, k, v)
  }

  ghost predicate StaysOnLine(text: (string, string) -> string) {
    forall k, v :: text(k, v) != "" && !IsWhiteSpace(text(k, v)[|text(k, v)| - 1])
  }

  /** Literals are printed so that they are matched whole. */
  ghost predicate IsPrinted(quote: string -> string, literal: (string, nat) -> Option<nat>) {
    var laws := IsDelimited(quote, literal) && IsQuoted(quote);
    laws
  }

  /** A printed literal, read where it stands. */
  lemma LiteralAt(quote: string -> string, literal: (string, nat) -> Option<nat>, s: string, i: nat, v: string, q: string)
    requires IsPrinted(quote, literal) && q == quote(v) && StartsAt(s, i, q)
    ensures literal(s, i) == Some(i + |q|) && q != "" && i + |q| <= |s|
    ensures s[i..i + |q|] == q && !IsWhiteSpace(s[i])
  {
    assert q != "" && !IsWhiteSpace(q[0]) && Delimits(quote, literal, s, i, v);
    StartsWith(s, i, q);
  }

  lemma SkipBlank(s: string, i: nat, blank: string)
    requires StartsAt(s, i, blank) && IsBlank(blank)
    requires i + |blank| < |s| && !IsWhiteSpace(s[i + |blank|])
    ensures RunEnd(IsWhiteSpace, s, i) == i + |blank|
  {
    forall k | i <= k < i + |blank| ensures IsWhiteSpace(s[k]) {
      assert s[i..i + |blank|][k - i] == s[k];
    }
    RunEnds(IsWhiteSpace, s, i, i + |blank|);
  }

  /** The places in an assignment: a and b are where its literals start, m and n where they end. */
  lemma MatchPlaces(literal: (string, nat) -> Option<nat>, s: string, i: nat, a: nat, m: nat, e: nat, b: nat, n: nat)
    requires i <= a <= m <= e < b <= n < |s| && s[e] == '=' && s[n] == ';'
    requires RunEnd(IsWhiteSpace, s, i) == a && RunEnd(IsWhiteSpace, s, m) == e && RunEnd(IsWhiteSpace, s, e + 1) == b
    requires literal(s, a) == Some(m) && literal(s, b) == Some(n)
    ensures MatchAssignment(literal, s, i) == Some(Match(None, s[a..m], s[b..n], n + 1))
  {
  }

  lemma FourPlaces(s: string, i: nat, a: string, b: string, c: string, d: string)
    requires StartsAt(s, i, a + b + c + d)
    ensures StartsAt(s, i, a) && StartsAt(s, i + |a|, b)
    ensures StartsAt(s, i + |a| + |b|, c) && StartsAt(s, i + |a| + |b| + |c|, d)
  {
    SplitAt(s, i, a + b + c, d);
    SplitAt(s, i, a + b, c);
    SplitAt(s, i, a, b);
  }

  predicate AreBlank(before: string, left: string, right: string) {
    var blank := IsBlank(before) && IsBlank(left) && IsBlank(right);
    blank
  }

  lemma SpacedRuns(s: string, i: nat, before: string, a: nat, m: nat, left: string, e: nat, right: string, b: nat, n: nat)
    requires a == i + |before| && e == m + |left| && b == e + 1 + |right| && a <= m && b <= n
    requires AreBlank(before, left, right)
    requires StartsAt(s, i, before) && StartsAt(s, m, left) && StartsAt(s, e + 1, right)
    requires StartsAt(s, e, "=") && StartsAt(s, n, ";")
    requires a < |s| && !IsWhiteSpace(s[a]) && b < |s| && !IsWhiteSpace(s[b])
    ensures n < |s| && s[e] == '=' && s[n] == ';'
    ensures RunEnd(IsWhiteSpace, s, i) == a && RunEnd(IsWhiteSpace, s, m) == e && RunEnd(IsWhiteSpace, s, e + 1) == b
  {
    StartsWith(s, e, "=");
    StartsWith(s, n, ";");
    SkipBlank(s, i, before);
    SkipBlank(s, m, left);
    SkipBlank(s, e + 1, right);
  }

  /** Two literals at their places. */
  lemma LiteralsAt(quote: string -> string, literal: (string, nat) -> Option<nat>, s: string,
      key: string, value: string, k: string, v: string, a: nat, m: nat, b: nat, n: nat)
    requires IsPrinted(quote, literal) && k == quote(key) && v == quote(value)
    requires StartsAt(s, a, k) && StartsAt(s, b, v) && m == a + |k| && n == b + |v|
    ensures a < m <= |s| && s[a..m] == k && !IsWhiteSpace(s[a]) && literal(s, a) == Some(m)
    ensures b < n <= |s| && s[b..n] == v && !IsWhiteSpace(s[b]) && literal(s, b) == Some(n)
  {
    LiteralAt(quote, literal, s, a, key, k);
    LiteralAt(quote, literal, s, b, value, v);
  }

  /** An assignment of printed literals is matched whole, with any white space before and within it:
      the literals end at m and n, and the equals sign stands at e. */
  lemma SpacedAssignmentIsMatched(quote: string -> string, literal: (string, nat) -> Option<nat>, s: string, i: nat,
      key: string, value: string, k: string, v: string, before: string, left: string, right: string,
      a: nat, m: nat, e: nat, b: nat, n: nat)
    requires IsPrinted(quote, literal) && k == quote(key) && v == quote(value)
    requires AreBlank(before, left, right)
    requires a == i + |before| && m == a + |k| && e == m + |left| && b == e + 1 + |right| && n == b + |v|
    requires StartsAt(s, i, before) && StartsAt(s, a, k) && StartsAt(s, m, left) && StartsAt(s, e, "=")
    requires StartsAt(s, e + 1, right) && StartsAt(s, b, v) && StartsAt(s, n, ";")
    ensures Assignment(literal)(s, i) == Some(Match(None, k, v, n + 1))
  {
    LiteralsAt(quote, literal, s, key, value, k, v, a, m, b, n);
    SpacedRuns(s, i, before, a, m, left, e, right, b, n);
    MatchPlaces(literal, s, i, a, m, e, b, n);
  }

  /** The places in an assignment, whatever its two literals. */
  lemma AssignmentPlaces(s: string, i: nat, k: string, v: string)
    requires StartsAt(s, i, k + " = " + v + ";")
    ensures var m := i + |k|;
      && StartsAt(s, i, "") && StartsAt(s, i, k) && StartsAt(s, m, " ") && StartsAt(s, m + 1, "=") && StartsAt(s, m + 2, " ")
      && StartsAt(s, m + 3, v) && StartsAt(s, m + 3 + |v|, ";")
  {
    FourPlaces(s, i, k, " = ", v, ";");
    assert " = " == " " + ("=" + " ");
    SplitAt(s, i + |k|, " ", "=" + " ");
    SplitAt(s, i + |k| + 1, "=", " ");
  }

  /** A printed assignment is matched whole. */
  lemma AssignmentIsMatched(quote: string -> string, literal: (string, nat) -> Option<nat>,
      s: string, i: nat, key: string, value: string, k: string, v: string)
    requires IsPrinted(quote, literal) && k == quote(key) && v == quote(value)
    requires StartsAt(s, i, k + " = " + v + ";")
    ensures Assignment(literal)(s, i) == Some(Match(None, k, v, i + |k + " = " + v + ";"|))
  {
    var m := i + |k|;
    AssignmentPlaces(s, i, k, v);
    SpacedAssignmentIsMatched(quote, literal, s, i, key, value, k, v, "", " ", " ", i, m, m + 1, m + 3, m + 3 + |v|);
  }

  lemma AssignmentsAreRead(quote: string -> string, literal: (string, nat) -> Option<nat>)
    requires IsDelimited(quote, literal) && IsQuoted(quote)
    ensures IsAssigned(quote, AssignmentText(quote), Assignment(literal)) && StaysOnLine(AssignmentText(quote))
  {
    forall s, i: nat, k, v ensures Assigns(quote, AssignmentText(quote), Assignment(literal), s, i, k, v) {
      if StartsAt(s, i, AssignmentText(quote)(k, v)) {
        AssignmentIsMatched(quote, literal, s, i, k, v, quote(k), quote(v));
      }
    }
  }
}

/** Files of commented assignments, read by a multi-line expression that is given by its parts.

    The parts are left open here: how a literal is printed, read and matched, and how an
    assignment is matched.  What is needed of them is collected in Lawful.
 */
module LineFiles {
  import opened Prelude
  import opened Sequences
  import opened JsStrings
  import opened Assignments

  /** A line with its source in a comment before it, or without. */
  datatype Line = Line(key: string, source: Option<string>, value: string)

  datatype Translation = Translation(source: Option<string>, value: string)

  type Translations = map<string, Translation>

  datatype Format = Format(
    open: string,                                    // the comment before a source's literal
    close: string,                                   //   and after it
    quote: string -> string,
    parse: string -> Option<string>,
    literal: (string, nat) -> Option<nat>,           // where a literal ends
    assignmentText: (string, string) -> string,      // key and value, printed
    assignment: (string, nat) -> Option<Match>)

  predicate IsLineTerminator(c: char) {
    c == '\n' || c == '\r' || c == '\U{2028}' || c == '\U{2029}'
  }

  /** The multi-line anchor. */
  predicate LineStart(s: string, i: nat) {
    i <= |s| && (i == 0 || IsLineTerminator(s[i - 1]))
  }

  /** The comment before an assignment, and the assignment at the start of the next line. */
  function MatchCommented(f: Format, s: string, i: nat): Option<Match> {
    if !StartsAt(s, i, f.open) then None
    else
      var start := i + |f.open|;
      var end :- f.literal(s, start);
      if !(start <= end <= |s| && StartsAt(s, end, f.close) && LineStart(s, end + |f.close|)) then None
      else
        var m :- f.assignment(s, end + |f.close|);
        Some(m.(source := Some(s[start..end])))
  }

  function MatchAt(f: Format): (string, nat) -> Option<Match> {
    (s: string, i: nat) =>
      if !LineStart(s, i) then None
      else if MatchCommented(f, s, i).Some? then MatchCommented(f, s, i)
      else f.assignment(s, i)
  }

  /** One match put into the map, unless reading one of its literals throws. */
  function Store(f: Format): (Translations, Match) -> Option<Translations> {
    (values: Translations, m: Match) =>
      var key :- f.parse(m.key);
      var value :- f.parse(m.value);
      if m.source.None? then Some(values[key := Translation(None, value)])
      else
        var source :- f.parse(m.source.value);
        Some(values[key := Translation(Some(source), value)])
  }

  /** All matches from i on, from left to right, each put into the map. */
  function ParseWith(at: (string, nat) -> Option<Match>, put: (Translations, Match) -> Option<Translations>,
      s: string, i: nat, values: Translations): Option<Translations>
    requires i <= |s|
    decreases |s| - i
  {
    if i == |s| then Some(values)
    else
      var m := at(s, i);
      if m.None? || !(i < m.value.end <= |s|) then ParseWith(at, put, s, i + 1, values)
      else
        var stored :- put(values, m.value);
        ParseWith(at, put, s, m.value.end, stored)
  }

  function ParseFrom(f: Format, s: string, i: nat, values: Translations): Option<Translations>
    requires i <= |s|
  {
    ParseWith(MatchAt(f), Store(f), s, i, values)
  }

  lemma ParseNext(at: (string, nat) -> Option<Match>, put: (Translations, Match) -> Option<Translations>,
      s: string, i: nat, values: Translations)
    requires i < |s|
    ensures ParseWith(at, put, s, i, values) ==
      var m := at(s, i);
      if m.None? || !(i < m.value.end <= |s|) then ParseWith(at, put, s, i + 1, values)
      else if put(values, m.value).None? then None
      else ParseWith(at, put, s, m.value.end, put(values, m.value).value)
  {
  }

  /** parseStringsFile; None stands for the exception JSON.parse throws. */
  method ParseStringsFile(f: Format, source: string) returns (result: Option<Translations>)
    ensures result == ParseFrom(f, source, 0, map[])
  {
    var values: Translations := map[];
    var i: nat := 0;
    while i < |source|
      invariant i <= |source|
      invariant ParseWith(MatchAt(f), Store(f), source, i, values) == ParseWith(MatchAt(f), Store(f), source, 0, map[])
      decreases |source| - i
    {
      ParseNext(MatchAt(f), Store(f), source, i, values);
      var m := MatchAt(f)(source, i);
      if m.None? || !(i < m.value.end <= |source|) {
        i := i + 1;
        continue;
      }
      var stored := Store(f)(values, m.value);
      if stored.None? {
        return None;
      }
      values := stored.value;
      i := m.value.end;
    }
    result := Some(values);
  }

  // Printing.

  function LineText(f: Format, line: Line): string {
    var assignment := f.assignmentText(line.key, line.value);
    if line.source.None? then assignment else f.open + f.quote(line.source.value) + f.close + assignment
  }

  function LinesText(f: Format, lines: seq<Line>): string {
    if lines == [] then "" else LineText(f, lines[0]) + "\n" + LinesText(f, lines[1..])
  }

  /** lines.join("\n") and a final newline. */
  function FileText(f: Format, lines: seq<Line>): string {
    if lines == [] then "\n" else LinesText(f, lines)
  }

  function Put(values: Translations, line: Line): Translations {
    values[line.key := Translation(line.source, line.value)]
  }

  /** The map a file stands for: later lines replace earlier ones of the same key. */
  function Meaning(values: Translations, lines: seq<Line>): Translations
    decreases |lines|
  {
    if lines == [] then values else Meaning(Put(values, lines[0]), lines[1..])
  }

  // What the parts of a format must do.

  ghost predicate LiteralLaws(f: Format) {
    IsRead(f.quote, f.parse) && IsDelimited(f.quote, f.literal)
  }

  ghost predicate AssignmentLaws(f: Format) {
    IsAssigned(f.quote, f.assignmentText, f.assignment) && StaysOnLine(f.assignmentText)
  }

  /** No assignment looks like a comment. */
  ghost predicate IsNoComment(f: Format, key: string, value: string) {
    var a := f.assignmentText(key, value);
    a != "" && f.open != "" && a[0] != f.open[0]
  }

  ghost predicate FrameLaws(f: Format) {
    && (forall key, value :: IsNoComment(f, key, value))
    && f.close != "" && IsLineTerminator(f.close[|f.close| - 1])
    && f.assignment("\n", 0) == None && !StartsAt("\n", 0, f.open)
  }

  datatype Law = Literals | Assignments | Frame

  ghost predicate Holds(f: Format, law: Law) {
    match law
    case Literals => LiteralLaws(f)
    case Assignments => AssignmentLaws(f)
    case Frame => FrameLaws(f)
  }

  ghost predicate Lawful(f: Format) {
    forall law :: Holds(f, law)
  }

  /** Behind a text that ends a line. */
  lemma LineStartsBehind(s: string, i: nat, text: string)
    requires StartsAt(s, i, text) && text != ""
    ensures LineStart(s, i + |text|) <==> IsLineTerminator(text[|text| - 1])
  {
    assert s[i..i + |text|][|text| - 1] == s[i + |text| - 1];
  }

  lemma CommentIsMatched(f: Format, s: string, i: nat, end: nat, m: Match)
    requires LineStart(s, i) && StartsAt(s, i, f.open)
    requires f.literal(s, i + |f.open|) == Some(end) && i + |f.open| <= end <= |s|
    requires StartsAt(s, end, f.close) && LineStart(s, end + |f.close|) && f.assignment(s, end + |f.close|) == Some(m)
    ensures MatchAt(f)(s, i) == Some(m.(source := Some(s[i + |f.open|..end])))
  {
    assert MatchCommented(f, s, i) == Some(m.(source := Some(s[i + |f.open|..end])));
  }

  lemma LawsAt(f: Format, s: string, i: nat, v: string, j: nat, key: string, value: string)
    requires LiteralLaws(f) && AssignmentLaws(f)
    requires StartsAt(s, i, f.quote(v)) && StartsAt(s, j, f.assignmentText(key, value))
    ensures f.literal(s, i) == Some(i + |f.quote(v)|)
    ensures f.assignment(s, j) == Some(Match(None, f.quote(key), f.quote(value), j + |f.assignmentText(key, value)|))
  {
    assert Delimits(f.quote, f.literal, s, i, v);
    assert Assigns(f.quote, f.assignmentText, f.assignment, s, j, key, value);
  }

  lemma FrameIsMatched(f: Format, s: string, i: nat, q: string, a: string, m: Match)
    requires f.close != "" && IsLineTerminator(f.close[|f.close| - 1])
    requires LineStart(s, i) && StartsAt(s, i, f.open + q + f.close + a)
    requires f.literal(s, i + |f.open|) == Some(i + |f.open| + |q|)
    requires f.assignment(s, i + |f.open| + |q| + |f.close|) == Some(m)
    ensures MatchAt(f)(s, i) == Some(m.(source := Some(q)))
  {
    FourPlaces(s, i, f.open, q, f.close, a);
    LineStartsBehind(s, i + |f.open| + |q|, f.close);
    CommentIsMatched(f, s, i, i + |f.open| + |q|, m);
  }

  /** A printed line with a comment is matched whole, with the literals that were printed. */
  lemma CommentedIsMatched(f: Format, s: string, i: nat, key: string, source: string, value: string, q: string, a: string)
    requires LiteralLaws(f) && AssignmentLaws(f) && f.close != "" && IsLineTerminator(f.close[|f.close| - 1])
    requires q == f.quote(source) && a == f.assignmentText(key, value)
    requires LineStart(s, i) && StartsAt(s, i, f.open + q + f.close + a)
    ensures MatchAt(f)(s, i) == Some(Match(Some(q), f.quote(key), f.quote(value), i + |f.open| + |q| + |f.close| + |a|))
  {
    var end := i + |f.open| + |q| + |f.close|;
    FourPlaces(s, i, f.open, q, f.close, a);
    LawsAt(f, s, i + |f.open|, source, end, key, value);
    FrameIsMatched(f, s, i, q, a, Match(None, f.quote(key), f.quote(value), end + |a|));
  }

  lemma PlainIsMatched(f: Format, s: string, i: nat, key: string, value: string, a: string)
    requires AssignmentLaws(f) && FrameLaws(f) && a == f.assignmentText(key, value)
    requires LineStart(s, i) && StartsAt(s, i, a)
    ensures MatchAt(f)(s, i) == Some(Match(None, f.quote(key), f.quote(value), i + |a|))
  {
    assert IsNoComment(f, key, value) && Assigns(f.quote, f.assignmentText, f.assignment, s, i, key, value);
    StartsWith(s, i, a);
    if StartsAt(s, i, f.open) {
      StartsWith(s, i, f.open);
    }
  }

  function MatchOf(f: Format, line: Line, end: nat): Match {
    Match(if line.source.None? then None else Some(f.quote(line.source.value)), f.quote(line.key), f.quote(line.value), end)
  }

  lemma LineIsMatched(f: Format, s: string, i: nat, line: Line)
    requires LiteralLaws(f) && AssignmentLaws(f) && FrameLaws(f)
    requires LineStart(s, i) && StartsAt(s, i, LineText(f, line))
    ensures MatchAt(f)(s, i) == Some(MatchOf(f, line, i + |LineText(f, line)|))
  {
    var a := f.assignmentText(line.key, line.value);
    if line.source.None? {
      PlainIsMatched(f, s, i, line.key, line.value, a);
    } else {
      CommentedIsMatched(f, s, i, line.key, line.source.value, line.value, f.quote(line.source.value), a);
    }
  }

  lemma LineIsStored(f: Format, values: Translations, line: Line, end: nat)
    requires LiteralLaws(f)
    ensures Store(f)(values, MatchOf(f, line, end)) == Some(Put(values, line))
  {
  }

  /** A match, then a place where nothing matches. */
  lemma MatchThenNone(at: (string, nat) -> Option<Match>, put: (Translations, Match) -> Option<Translations>,
      s: string, i: nat, m: Match, values: Translations, stored: Translations)
    requires i < m.end < |s| && at(s, i) == Some(m) && put(values, m) == Some(stored) && at(s, m.end) == None
    ensures ParseWith(at, put, s, i, values) == ParseWith(at, put, s, m.end + 1, stored)
  {
    ParseNext(at, put, s, i, values);
    ParseNext(at, put, s, m.end, stored);
  }

  lemma LineDoesNotEndLine(f: Format, line: Line)
    requires AssignmentLaws(f)
    ensures LineText(f, line) != "" && !IsLineTerminator(LineText(f, line)[|LineText(f, line)| - 1])
  {
    var a := f.assignmentText(line.key, line.value);
    assert a != "" && !IsLineTerminator(a[|a| - 1]);
  }

  /** One line and its line end. */
  lemma LineIsParsed(f: Format, s: string, i: nat, line: Line, text: string, values: Translations)
    requires LiteralLaws(f) && AssignmentLaws(f) && FrameLaws(f) && text == LineText(f, line)
    requires LineStart(s, i) && StartsAt(s, i, text + "\n")
    ensures LineStart(s, i + |text| + 1)
    ensures ParseFrom(f, s, i, values) == ParseFrom(f, s, i + |text| + 1, Put(values, line))
  {
    var m := MatchOf(f, line, i + |text|);
    SplitAt(s, i, text, "\n");
    LineDoesNotEndLine(f, line);
    LineStartsBehind(s, i, text);
    LineStartsBehind(s, i + |text|, "\n");
    LineIsMatched(f, s, i, line);
    LineIsStored(f, values, line, i + |text|);
    MatchThenNone(MatchAt(f), Store(f), s, i, m, values, Put(values, line));
  }

  lemma {:induction false} LinesAreParsed(f: Format, s: string, i: nat, lines: seq<Line>, values: Translations)
    requires LiteralLaws(f) && AssignmentLaws(f) && FrameLaws(f)
    requires LineStart(s, i) && StartsAt(s, i, LinesText(f, lines)) && i + |LinesText(f, lines)| == |s|
    ensures ParseFrom(f, s, i, values) == Some(Meaning(values, lines))
    decreases |lines|
  {
    if lines != [] {
      var text, rest := LineText(f, lines[0]), LinesText(f, lines[1..]);
      SplitAt(s, i, text + "\n", rest);
      LineIsParsed(f, s, i, lines[0], text, values);
      LinesAreParsed(f, s, i + |text| + 1, lines[1..], Put(values, lines[0]));
    }
  }

  /** Reading a printed file gives the map its lines stand for. */
  lemma FileIsParsed(f: Format, lines: seq<Line>)
    requires Lawful(f)
    ensures ParseFrom(f, FileText(f, lines), 0, map[]) == Some(Meaning(map[], lines))
  {
    assert Holds(f, Literals) && Holds(f, Assignments) && Holds(f, Frame);
    if lines == [] {
      ParseNext(MatchAt(f), Store(f), "\n", 0, map[]);
    } else {
      var s := FileText(f, lines);
      assert s[0..|s|] == s;
      LinesAreParsed(f, s, 0, lines, map[]);
    }
  }

  predicate DistinctKeys(lines: seq<Line>) {
    forall i, j :: 0 <= i < j < |lines| ==> lines[i].key != lines[j].key
  }

  lemma {:induction false} MeaningKeeps(values: Translations, lines: seq<Line>, key: string)
    requires forall i :: 0 <= i < |lines| ==> lines[i].key != key
    ensures (key in Meaning(values, lines) <==> key in values)
    ensures key in values ==> Meaning(values, lines)[key] == values[key]
    decreases |lines|
  {
    if lines != [] {
      MeaningKeeps(Put(values, lines[0]), lines[1..], key);
    }
  }

  lemma {:induction false} MeaningOfLine(values: Translations, lines: seq<Line>, i: nat)
    requires DistinctKeys(lines) && i < |lines|
    ensures lines[i].key in Meaning(values, lines)
    ensures Meaning(values, lines)[lines[i].key] == Translation(lines[i].source, lines[i].value)
    decreases |lines|
  {
    if i == 0 {
      MeaningKeeps(Put(values, lines[0]), lines[1..], lines[0].key);
    } else {
      MeaningOfLine(Put(values, lines[0]), lines[1..], i - 1);
    }
  }

  /** parsed has exactly the keys of the lines, each with its line's source and value. */
  ghost predicate Recovers(parsed: Translations, lines: seq<Line>) {
    && (forall key :: key in parsed ==> exists i :: 0 <= i < |lines| && lines[i].key == key)
    && forall i :: 0 <= i < |lines| ==>
         lines[i].key in parsed && parsed[lines[i].key] == Translation(lines[i].source, lines[i].value)
  }

  /** The round trip for distinct keys. */
  lemma RoundTrip(f: Format, lines: seq<Line>)
    requires Lawful(f) && DistinctKeys(lines)
    ensures ParseFrom(f, FileText(f, lines), 0, map[]).Some?
    ensures Recovers(ParseFrom(f, FileText(f, lines), 0, map[]).value, lines)
  {
    FileIsParsed(f, lines);
    MeaningRecovers(lines);
  }

  lemma MeaningRecovers(lines: seq<Line>)
    requires DistinctKeys(lines)
    ensures Recovers(Meaning(map[], lines), lines)
  {
    var meaning := Meaning(map[], lines);
    forall i | 0 <= i < |lines|
      ensures lines[i].key in meaning && meaning[lines[i].key] == Translation(lines[i].source, lines[i].value)
    {
      MeaningOfLine(map[], lines, i);
    }
    forall key | key in meaning ensures exists i :: 0 <= i < |lines| && lines[i].key == key {
      if forall i :: 0 <= i < |lines| ==> lines[i].key != key {
        MeaningKeeps(map[], lines, key);
        assert false;
      }
    }
  }
}

/** The InfoPlist.strings files of scripts/apple-app-i18n.ts: the parts of the expression that
    reads them, and the choice of the values they hold.

    The expression is deterministic: none of its parts can match in two ways at one place, so
    matching is reading from left to right.
 */
module AppleStrings {
  import opened Prelude
  import opened Sequences
  import opened Folds
  import opened JsStrings
  import opened JsonLiterals
  import opened Assignments
  import opened LineFiles
  import opened Selection

  /** Where a string's closing quote has been passed; a backslash takes any character of its line. */
  function StringEnd(s: string, i: nat): (end: Option<nat>)
    requires i <= |s|
    ensures end.Some? ==> i < end.value <= |s|
    decreases |s| - i
  {
    if i == |s| then None
    else if s[i] == '"' then Some(i + 1)
    else if s[i] != '\\' then StringEnd(s, i + 1)
    else if i + 1 < |s| && !IsLineTerminator(s[i + 1]) then StringEnd(s, i + 2)
    else None
  }

  function LiteralEnd(s: string, i: nat): (end: Option<nat>)
    requires i <= |s|
    ensures end.Some? ==> i < end.value <= |s|
  {
    if i < |s| && s[i] == '"' then StringEnd(s, i + 1) else None
  }

  const PRINT: string -> string := value => Quote(value)

  const READ: string -> Option<string> := literal => ParseLiteral(literal)

  const READ_LITERAL: (string, nat) -> Option<nat> :=
    (s: string, i: nat) => if i <= |s| then LiteralEnd(s, i) else None

  /** The files of the repository. */
  const OPENCLAW: Format := Format(
    "/* OpenClaw source: ", " */\n", PRINT, READ, READ_LITERAL, AssignmentText(PRINT), Assignment(READ_LITERAL))

  lemma PassPlain(s: string, i: nat, c: char)
    requires StartsAt(s, i, [c]) && c != '"' && c != '\\'
    ensures StringEnd(s, i) == StringEnd(s, i + 1)
  {
    StartsWith(s, i, [c]);
  }

  lemma {:induction false} PassPlains(s: string, i: nat, text: string)
    requires StartsAt(s, i, text) && '"' !in text && '\\' !in text
    ensures StringEnd(s, i) == StringEnd(s, i + |text|)
    decreases |text|
  {
    if text != "" {
      assert text == [text[0]] + text[1..];
      SplitAt(s, i, [text[0]], text[1..]);
      PassPlain(s, i, text[0]);
      PassPlains(s, i + 1, text[1..]);
    }
  }

  lemma PassEscape(s: string, i: nat, e: char, more: string)
    requires StartsAt(s, i, ['\\', e] + more) && !IsLineTerminator(e) && '"' !in more && '\\' !in more
    ensures StringEnd(s, i) == StringEnd(s, i + 2 + |more|)
  {
    SplitAt(s, i, ['\\', e], more);
    assert s[i..i + 2][0] == s[i] && s[i..i + 2][1] == s[i + 1];
    PassPlains(s, i + 2, more);
  }

  lemma PassCode(s: string, i: nat, c: char)
    requires StartsAt(s, i, Escaped(c))
    ensures StringEnd(s, i) == StringEnd(s, i + |Escaped(c)|)
  {
    var code := Escaped(c);
    if |code| == 1 {
      PassPlain(s, i, c);
    } else {
      assert code == ['\\', code[1]] + code[2..];
      PassEscape(s, i, code[1], code[2..]);
    }
  }

  /** A scan of s that stops at the same place whether it starts before a code or behind it. */
  ghost predicate PassesCode(s: string, stop: nat -> Option<nat>, code: char -> string, i: nat, c: char) {
    StartsAt(s, i, code(c)) ==> stop(i) == stop(i + |code(c)|)
  }

  lemma {:induction false} PassesCodes(s: string, stop: nat -> Option<nat>, code: char -> string, i: nat, value: string)
    requires forall k, c :: PassesCode(s, stop, code, k, c)
    requires StartsAt(s, i, Flat(code, value))
    ensures stop(i) == stop(i + |Flat(code, value)|)
    decreases |value|
  {
    if value != "" {
      SplitAt(s, i, code(value[0]), Flat(code, value[1..]));
      assert PassesCode(s, stop, code, i, value[0]);
      PassesCodes(s, stop, code, i + |code(value[0])|, value[1..]);
    }
  }

  lemma PassCodes(s: string, i: nat, value: string)
    requires StartsAt(s, i, Flat(ESCAPES, value))
    ensures StringEnd(s, i) == StringEnd(s, i + |Flat(ESCAPES, value)|)
  {
    var stop := (k: nat) => if k <= |s| then StringEnd(s, k) else None;
    forall k, c ensures PassesCode(s, stop, ESCAPES, k, c) {
      if StartsAt(s, k, Escaped(c)) {
        PassCode(s, k, c);
      }
    }
    PassesCodes(s, stop, ESCAPES, i, value);
  }

  /** A printed literal is matched whole. */
  lemma LiteralIsMatched(s: string, i: nat, value: string)
    requires StartsAt(s, i, Quote(value))
    ensures LiteralEnd(s, i) == Some(i + |Quote(value)|)
    ensures s[i..i + |Quote(value)|] == Quote(value)
  {
    var body := Flat(ESCAPES, value);
    SplitAt(s, i, "\"" + body, "\"");
    SplitAt(s, i, "\"", body);
    StartsWith(s, i, "\"");
    StartsWith(s, i + 1 + |body|, "\"");
    PassCodes(s, i + 1, value);
  }

  lemma LiteralsAreRead()
    ensures IsRead(PRINT, READ)
  {
    forall v ensures READ(PRINT(v)) == Some(v) {
      QuoteIsRead(v);
    }
  }

  lemma ReadLiteralAt(s: string, i: nat, v: string, printed: string)
    requires printed == Quote(v) && StartsAt(s, i, printed)
    ensures READ_LITERAL(s, i) == Some(i + |printed|)
  {
    LiteralIsMatched(s, i, v);
  }

  lemma LiteralsAreDelimited()
    ensures IsDelimited(PRINT, READ_LITERAL)
  {
    forall s, i: nat, v ensures Delimits(PRINT, READ_LITERAL, s, i, v) {
      if StartsAt(s, i, PRINT(v)) {
        ReadLiteralAt(s, i, v, PRINT(v));
      }
    }
  }

  lemma NothingInNewline()
    ensures Assignment(READ_LITERAL)("\n", 0) == None
  {
    assert RunEnd(IsWhiteSpace, "\n", 0) == 1;
  }

  lemma AssignmentsAreNoComments(f: Format, key: string, value: string)
    requires f.assignmentText == AssignmentText(PRINT) && f.open != "" && f.open[0] == '/'
    ensures IsNoComment(f, key, value)
  {
    var q := PRINT(key);
    assert q[0] == '"' && AssignmentText(PRINT)(key, value)[0] == q[0];
  }

  lemma FrameIsLawful(f: Format)
    requires f.assignmentText == AssignmentText(PRINT)
    requires f.open != "" && f.open[0] == '/' && f.close != "" && f.close[|f.close| - 1] == '\n'
    requires f.assignment == Assignment(READ_LITERAL)
    ensures FrameLaws(f)
  {
    NothingInNewline();
    forall key, value ensures IsNoComment(f, key, value) {
      AssignmentsAreNoComments(f, key, value);
    }
    if StartsAt("\n", 0, f.open) {
      StartsWith("\n", 0, f.open);
      assert false;
    }
  }

  /** What the expression does to printed files is what reading them back needs. */
  lemma OpenClawIsLawful()
    ensures Lawful(OPENCLAW)
  {
    LiteralsAreRead();
    LiteralsAreDelimited();
    assert IsQuoted(PRINT);
    AssignmentsAreRead(PRINT, READ_LITERAL);
    FrameIsLawful(OPENCLAW);
  }

  // Choosing the values of a file.

  datatype PlistEntry = PlistEntry(key: string, source: string)

  /** Candidates that are neither blank nor the source again. */
  function Usable(source: string, candidates: seq<string>): seq<string> {
    if candidates == [] then []
    else
      var rest := Usable(source, candidates[1..]);
      if Trim(candidates[0]) != "" && Trim(candidates[0]) != Trim(source) then [candidates[0]] + rest else rest
  }

  function SelectInfoPlistTranslation(source: string, candidates: seq<string>, existing: Option<Translation>): string {
    var usable := Usable(source, candidates);
    if usable != [] then Choose(source, usable)
    else if existing.Some? && existing.value.source == Some(source) && Trim(existing.value.value) != "" then existing.value.value
    else source
  }

  function Lookup(existing: Translations, key: string): Option<Translation> {
    if key in existing then Some(existing[key]) else None
  }

  /** The candidates of a source id: an artifact's translation, if it is there. */
  function CandidatesOf(artifact: Option<map<string, string>>, id: string): seq<string> {
    if artifact.Some? && id in artifact.value then [artifact.value[id]] else []
  }

  /** The lines of a file, unless a source has no id. */
  function LinesFor(entries: seq<PlistEntry>, ids: map<string, string>, artifact: Option<map<string, string>>, existing: Translations)
    : (lines: Option<seq<Line>>)
    ensures lines.Some? <==> forall i :: 0 <= i < |entries| ==> entries[i].source in ids
    ensures lines.Some? ==> |lines.value| == |entries|
    ensures lines.Some? ==>
      forall i :: 0 <= i < |entries| ==>
           lines.value[i] == Line(entries[i].key, Some(entries[i].source),
             SelectInfoPlistTranslation(entries[i].source, CandidatesOf(artifact, ids[entries[i].source]), Lookup(existing, entries[i].key)))
  {
    if entries == [] then Some([])
    else
      var e := entries[0];
      if e.source !in ids then None
      else
        var rest :- LinesFor(entries[1..], ids, artifact, existing);
        var value := SelectInfoPlistTranslation(e.source, CandidatesOf(artifact, ids[e.source]), Lookup(existing, e.key));
        Some([Line(e.key, Some(e.source), value)] + rest)
  }

  /** renderInfoPlistStrings for one source path; None stands for a missing id. */
  function RenderInfoPlistStrings(
      f: Format, entries: seq<PlistEntry>, ids: map<string, string>, artifact: Option<map<string, string>>, existing: Translations): Option<string>
  {
    var lines :- LinesFor(entries, ids, artifact, existing);
    Some(FileText(f, lines))
  }

  /** Choosing again, with the first choice as the existing translation. */
  lemma SelectIsStable(source: string, candidates: seq<string>, existing: Option<Translation>)
    ensures var value := SelectInfoPlistTranslation(source, candidates, existing);
      SelectInfoPlistTranslation(source, candidates, Some(Translation(Some(source), value))) == value
  {
  }

  /** Rendering again, with the rendered file read back as the existing translations, reproduces
      the file. */
  lemma RenderAgainIsSame(
      f: Format, entries: seq<PlistEntry>, ids: map<string, string>, artifact: Option<map<string, string>>, existing: Translations)
    requires Lawful(f) && forall i, j :: 0 <= i < j < |entries| ==> entries[i].key != entries[j].key
    requires RenderInfoPlistStrings(f, entries, ids, artifact, existing).Some?
    ensures var text := RenderInfoPlistStrings(f, entries, ids, artifact, existing).value;
      && ParseFrom(f, text, 0, map[]).Some?
      && RenderInfoPlistStrings(f, entries, ids, artifact, ParseFrom(f, text, 0, map[]).value) == Some(text)
  {
    var lines := LinesFor(entries, ids, artifact, existing).value;
    RoundTrip(f, lines);
    var parsed := ParseFrom(f, FileText(f, lines), 0, map[]).value;
    var again := LinesFor(entries, ids, artifact, parsed).value;
    forall i | 0 <= i < |entries| ensures again[i] == lines[i] {
      SelectIsStable(entries[i].source, CandidatesOf(artifact, ids[entries[i].source]), Lookup(existing, entries[i].key));
      assert Lookup(parsed, entries[i].key) == Some(Translation(lines[i].source, lines[i].value));
    }
    assert again == lines;
  }

  /** A candidate counts if there is something in it, and something else than the source. */
  predicate Counts(source: string, candidate: string) {
    !IsBlank(candidate) && Trim(candidate) != Trim(source)
  }

  lemma {:induction false} UsableCounts(source: string, candidates: seq<string>, v: string)
    ensures multiset(Usable(source, candidates))[v] == if Counts(source, v) then multiset(candidates)[v] else 0
  {
    if candidates != [] {
      UsableCounts(source, candidates[1..], v);
      TrimsToNothing(candidates[0]);
      assert candidates == [candidates[0]] + candidates[1..];
    }
  }

  lemma UsableMembers(source: string, candidates: seq<string>, v: string)
    ensures v in Usable(source, candidates) <==> v in candidates && Counts(source, v)
  {
    UsableCounts(source, candidates, v);
    assert v in multiset(Usable(source, candidates)) <==> v in Usable(source, candidates);
    assert v in multiset(candidates) <==> v in candidates;
  }

  /** The value is a candidate that counts, none of which is more frequent, and none as frequent
      comes before it. */
  ghost predicate IsBestOf(source: string, candidates: seq<string>, value: string) {
    && value in candidates && Counts(source, value)
    && forall v :: v in candidates && Counts(source, v) && v != value ==>
         && multiset(candidates)[v] <= multiset(candidates)[value]
         && (multiset(candidates)[v] == multiset(candidates)[value] ==> exists i :: FirstDifference(value, v, i))
  }

  /** Which value is selected: a candidate if any counts, else the existing value if it was made for
      this source and is not blank, else the source. */
  lemma SelectsByPrecedence(source: string, candidates: seq<string>, existing: Option<Translation>)
    ensures var value := SelectInfoPlistTranslation(source, candidates, existing);
      if exists v :: v in candidates && Counts(source, v) then IsBestOf(source, candidates, value)
      else if existing.Some? && existing.value.source == Some(source) && !IsBlank(existing.value.value)
        then value == existing.value.value
      else value == source
  {
    var usable := Usable(source, candidates);
    forall v ensures v in usable <==> v in candidates && Counts(source, v) {
      UsableMembers(source, candidates, v);
    }
    forall v ensures Counts(source, v) ==> multiset(usable)[v] == multiset(candidates)[v] {
      UsableCounts(source, candidates, v);
    }
    if existing.Some? {
      TrimsToNothing(existing.value.value);
    }
    if usable != [] {
      assert usable[0] in candidates;
      ChoosesMostFrequent(source, usable);
    }
  }

  /** The rendered file, read back: every key has its source, and as its value the artifact's
      translation for the source's id unless that is blank or the source again; else the existing
      value if it is not blank and was made for this source; else the source. */
  lemma RenderedValues(
      f: Format, entries: seq<PlistEntry>, ids: map<string, string>, artifact: Option<map<string, string>>, existing: Translations,
      i: nat)
    requires Lawful(f) && forall j, k :: 0 <= j < k < |entries| ==> entries[j].key != entries[k].key
    requires RenderInfoPlistStrings(f, entries, ids, artifact, existing).Some? && i < |entries|
    ensures entries[i].source in ids
    ensures var parsed := ParseFrom(f, RenderInfoPlistStrings(f, entries, ids, artifact, existing).value, 0, map[]);
      var e, id := entries[i], ids[entries[i].source];
      && parsed.Some? && e.key in parsed.value && parsed.value[e.key].source == Some(e.source)
      && var value := parsed.value[e.key].value;
        if artifact.Some? && id in artifact.value && Counts(e.source, artifact.value[id]) then value == artifact.value[id]
        else if e.key in existing && existing[e.key].source == Some(e.source) && !IsBlank(existing[e.key].value)
          then value == existing[e.key].value
        else value == e.source
  {
    var lines := LinesFor(entries, ids, artifact, existing).value;
    RoundTrip(f, lines);
    var e := entries[i];
    var candidates := CandidatesOf(artifact, ids[e.source]);
    SelectsByPrecedence(e.source, candidates, Lookup(existing, e.key));
    assert forall v :: v in candidates ==> v == candidates[0];
    if candidates != [] {
      assert candidates[0] in candidates;
    }
    assert lines[i] == Line(e.key, Some(e.source), SelectInfoPlistTranslation(e.source, candidates, Lookup(existing, e.key)));
  }
}
