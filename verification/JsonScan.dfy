/** JSON texts by their grammar (sections 2 to 7 of RFC 8259), insignificant whitespace included. */
module JsonTexts {
  import opened Prelude

  datatype StringChar = Plain(c: char) | Escape(c: char) | Unicode(hex: string)

  datatype Exponent = Exponent(letter: char, sign: string, digits: string)

  datatype Value =
    | Word(text: string)
    | Number(minus: bool, whole: string, fraction: Option<string>, exponent: Option<Exponent>)
    | Text(chars: seq<StringChar>)
    | Array(blank: string, items: Items)
    | Object(blank: string, members: Members)

  /** Array elements, each with the whitespace around it. */
  datatype Items = NoItems | Item(before: string, value: Value, after: string, rest: Items)

  /** Object members, each with the whitespace around its name and its value. */
  datatype Members =
    | NoMembers
    | Member(before: string, name: seq<StringChar>, mid: string, space: string, value: Value, after: string, rest: Members)

  predicate IsDigits(s: string) {
    s != "" && forall i :: 0 <= i < |s| ==> '0' <= s[i] <= '9'
  }

  predicate IsHex(c: char) {
    '0' <= c <= '9' || 'a' <= c <= 'f' || 'A' <= c <= 'F'
  }

  predicate IsJsonSpace(s: string) {
    forall i :: 0 <= i < |s| ==> s[i] in " \t\n\r"
  }

  predicate CharOk(c: StringChar) {
    match c
    case Plain(c) => c != '"' && c != '\\' && c >= ' '
    case Escape(c) => c in "\"\\/bfnrt"
    case Unicode(hex) => |hex| == 4 && forall i :: 0 <= i < 4 ==> IsHex(hex[i])
  }

  predicate CharsOk(chars: seq<StringChar>) {
    forall i :: 0 <= i < |chars| ==> CharOk(chars[i])
  }

  predicate ExponentOk(e: Exponent) {
    (e.letter == 'e' || e.letter == 'E') && (e.sign == "" || e.sign == "+" || e.sign == "-") && IsDigits(e.digits)
  }

  predicate NumberOk(whole: string, fraction: Option<string>, exponent: Option<Exponent>) {
    && IsDigits(whole) && (|whole| > 1 ==> whole[0] != '0')
    && (fraction.Some? ==> IsDigits(fraction.value))
    && (exponent.Some? ==> ExponentOk(exponent.value))
  }

  predicate ValueOk(v: Value) {
    match v
    case Word(text) => text == "true" || text == "false" || text == "null"
    case Number(_, whole, fraction, exponent) => NumberOk(whole, fraction, exponent)
    case Text(chars) => CharsOk(chars)
    case Array(blank, items) => IsJsonSpace(blank) && ItemsOk(items)
    case Object(blank, members) => IsJsonSpace(blank) && MembersOk(members)
  }

  predicate ItemsOk(items: Items) {
    match items
    case NoItems => true
    case Item(before, value, after, rest) => IsJsonSpace(before) && ValueOk(value) && IsJsonSpace(after) && ItemsOk(rest)
  }

  predicate MembersOk(members: Members) {
    match members
    case NoMembers => true
    case Member(before, name, mid, space, value, after, rest) =>
      && IsJsonSpace(before) && CharsOk(name) && IsJsonSpace(mid) && IsJsonSpace(space)
      && ValueOk(value) && IsJsonSpace(after) && MembersOk(rest)
  }

  function CharText(c: StringChar): string {
    match c
    case Plain(c) => [c]
    case Escape(c) => ['\\', c]
    case Unicode(hex) => "\\u" + hex
  }

  function CharsText(chars: seq<StringChar>): string {
    if chars == [] then "" else CharText(chars[0]) + CharsText(chars[1..])
  }

  function StringText(chars: seq<StringChar>): string {
    "\"" + CharsText(chars) + "\""
  }

  function NumberText(minus: bool, whole: string, fraction: Option<string>, exponent: Option<Exponent>): string {
    (if minus then "-" else "") + whole
    + (if fraction.Some? then "." + fraction.value else "")
    + (if exponent.Some? then [exponent.value.letter] + exponent.value.sign + exponent.value.digits else "")
  }

  function ValueText(v: Value): string {
    match v
    case Word(text) => text
    case Number(minus, whole, fraction, exponent) => NumberText(minus, whole, fraction, exponent)
    case Text(chars) => StringText(chars)
    case Array(blank, items) => "[" + (if items.NoItems? then blank else ItemsText(items)) + "]"
    case Object(blank, members) => "{" + (if members.NoMembers? then blank else MembersText(members)) + "}"
  }

  function ItemsText(items: Items): string {
    match items
    case NoItems => ""
    case Item(before, value, after, rest) =>
      before + ValueText(value) + after + if rest.NoItems? then "" else "," + ItemsText(rest)
  }

  function MembersText(members: Members): string {
    match members
    case NoMembers => ""
    case Member(before, name, mid, space, value, after, rest) =>
      before + StringText(name) + mid + ":" + space + ValueText(value) + after
      + if rest.NoMembers? then "" else "," + MembersText(rest)
  }
}

/** The scanner of scripts/code-mode-model-matrix.ts that cuts the first JSON object off an output. */
module JsonScan {
  import opened Prelude
  import opened JsStrings
  import opened JsonTexts
  import opened Scanning

  datatype State = State(depth: int, escaped: bool, inString: bool)

  const START: State := State(0, false, false)

  function Outside(depth: int): State {
    State(depth, false, false)
  }

  function Step(s: State, c: char): State {
    if s.inString then
      if s.escaped then s.(escaped := false)
      else if c == '\\' then s.(escaped := true)
      else if c == '"' then s.(inString := false)
      else s
    else if c == '"' then s.(inString := true)
    else if c == '{' then s.(depth := s.depth + 1)
    else if c == '}' then s.(depth := s.depth - 1)
    else s
  }

  /** The character closes the first object. */
  predicate Closes(s: State, c: char) {
    !s.inString && c == '}' && s.depth == 1
  }

  const BRACES: Scanner<State> := Scanner((s, c) => Step(s, c), (s, c) => Closes(s, c))

  datatype Output<V> =
    | Envelope(envelope: V, trailing: string)
    | Malformed                              // JSON.parse threw
    | Missing                                // no JSON envelope
    | Misplaced                              // did not begin with a JSON envelope
    | Incomplete                             // incomplete JSON envelope

  function Read<V>(stdout: string, parse: string -> Option<V>): Output<V> {
    var value := TrimStart(stdout);
    if value == "" then Missing
    else if value[0] != '{' then Misplaced
    else
      var at := Stop(BRACES, value, 0, START);
      if at.None? then Incomplete else Cut(value, at.value + 1, parse)
  }

  /** The text of the object and what is left behind it. */
  function Cut<V>(value: string, end: nat, parse: string -> Option<V>): Output<V>
    requires end <= |value|
  {
    var envelope := parse(value[..end]);
    if envelope.None? then Malformed else Envelope(envelope.value, Trim(value[end..]))
  }

  lemma NextCharacter(value: string, i: nat, s: State)
    requires i < |value|
    ensures Stop(BRACES, value, i, s) ==
      if Closes(s, value[i]) then Some(i) else Stop(BRACES, value, i + 1, Step(s, value[i]))
  {
  }

  /** parseAgentExecOutput, with JSON.parse as parse. */
  method ParseAgentExecOutput<V>(stdout: string, parse: string -> Option<V>) returns (output: Output<V>)
    ensures output == Read(stdout, parse)
  {
    var value := TrimStart(stdout);
    if value == "" {
      return Missing;
    }
    if value[0] != '{' {
      return Misplaced;
    }
    ghost var goal := Stop(BRACES, value, 0, START);
    var depth, escaped, inString := 0, false, false;
    var index: nat := 0;
    while index < |value|
      invariant index <= |value|
      invariant Stop(BRACES, value, index, State(depth, escaped, inString)) == goal
    {
      var character := value[index];
      NextCharacter(value, index, State(depth, escaped, inString));
      if inString {
        if escaped {
          escaped := false;
        } else if character == '\\' {
          escaped := true;
        } else if character == '"' {
          inString := false;
        }
        index := index + 1;
        continue;
      }
      if character == '"' {
        inString := true;
      } else if character == '{' {
        depth := depth + 1;
      } else if character == '}' {
        depth := depth - 1;
        if depth == 0 {
          return Cut(value, index + 1, parse);
        }
      }
      index := index + 1;
    }
    output := Incomplete;
  }

  // Texts the scan runs through.

  function Inside(depth: int): State {
    State(depth, false, true)
  }

  lemma {:induction false} HexInside(d: int, hex: string)
    requires forall i :: 0 <= i < |hex| ==> IsHex(hex[i])
    ensures Through(BRACES, Inside(d), hex) == Some(Inside(d))
  {
    if hex != "" {
      HexInside(d, hex[1..]);
    }
  }

  lemma CharInside(d: int, c: StringChar)
    requires CharOk(c)
    ensures Through(BRACES, Inside(d), CharText(c)) == Some(Inside(d))
  {
    match c
    case Plain(p) => One(BRACES, Inside(d), p);
    case Escape(e) =>
      One(BRACES, Inside(d), '\\');
      One(BRACES, State(d, true, true), e);
      Both(BRACES, Inside(d), "\\", State(d, true, true), [e], Inside(d));
      assert CharText(c) == "\\" + [e];
    case Unicode(hex) =>
      One(BRACES, Inside(d), '\\');
      One(BRACES, State(d, true, true), 'u');
      Both(BRACES, Inside(d), "\\", State(d, true, true), "u", Inside(d));
      HexInside(d, hex);
      Both(BRACES, Inside(d), "\\u", Inside(d), hex, Inside(d));
  }

  lemma {:induction false} CharsInside(d: int, chars: seq<StringChar>)
    requires CharsOk(chars)
    ensures Through(BRACES, Inside(d), CharsText(chars)) == Some(Inside(d))
  {
    if chars != [] {
      CharInside(d, chars[0]);
      CharsInside(d, chars[1..]);
      Both(BRACES, Inside(d), CharText(chars[0]), Inside(d), CharsText(chars[1..]), Inside(d));
    }
  }

  /** A string leaves the scan where it was, whatever braces, quotes and escapes it contains. */
  lemma StringThrough(d: int, chars: seq<StringChar>)
    requires CharsOk(chars)
    ensures Through(BRACES, Outside(d), StringText(chars)) == Some(Outside(d))
  {
    One(BRACES, Outside(d), '"');
    CharsInside(d, chars);
    One(BRACES, Inside(d), '"');
    Both(BRACES, Outside(d), "\"", Inside(d), CharsText(chars), Inside(d));
    Both(BRACES, Outside(d), "\"" + CharsText(chars), Inside(d), "\"", Outside(d));
  }

  lemma InertBoth(a: string, b: string)
    requires '"' !in a && '{' !in a && '}' !in a && '"' !in b && '{' !in b && '}' !in b
    ensures '"' !in a + b && '{' !in a + b && '}' !in a + b
  {
  }

  lemma SpaceThrough(d: int, space: string)
    requires IsJsonSpace(space)
    ensures Through(BRACES, Outside(d), space) == Some(Outside(d))
  {
    Inert(BRACES, Outside(d), space);
  }

  lemma NumberThrough(d: int, minus: bool, whole: string, fraction: Option<string>, exponent: Option<Exponent>)
    requires NumberOk(whole, fraction, exponent)
    ensures Through(BRACES, Outside(d), NumberText(minus, whole, fraction, exponent)) == Some(Outside(d))
  {
    var a := if minus then "-" else "";
    var b := if fraction.Some? then "." + fraction.value else "";
    var c := if exponent.Some? then [exponent.value.letter] + exponent.value.sign + exponent.value.digits else "";
    InertBoth(a, whole);
    InertBoth(a + whole, b);
    InertBoth(a + whole + b, c);
    Inert(BRACES, Outside(d), a + whole + b + c);
  }

  /** Inside an object, every value leaves the scan where it was. */
  lemma {:induction false} ValueThrough(d: int, v: Value)
    requires d >= 1 && ValueOk(v)
    ensures Through(BRACES, Outside(d), ValueText(v)) == Some(Outside(d))
    decreases v, 1
  {
    match v
    case Word(text) => Inert(BRACES, Outside(d), text);
    case Number(minus, whole, fraction, exponent) => NumberThrough(d, minus, whole, fraction, exponent);
    case Text(chars) => StringThrough(d, chars);
    case Array(blank, items) =>
      var inside := if items.NoItems? then blank else ItemsText(items);
      ItemsThrough(d, items);
      SpaceThrough(d, blank);
      Bracketed(d, '[', inside, ']');
    case Object(blank, members) =>
      var inside := if members.NoMembers? then blank else MembersText(members);
      ObjectInside(d + 1, blank, members);
      Braced(d, inside);
  }

  lemma Bracketed(d: int, open: char, inside: string, close: char)
    requires open != '"' && open != '{' && open != '}' && close != '"' && close != '{' && close != '}'
    requires Through(BRACES, Outside(d), inside) == Some(Outside(d))
    ensures Through(BRACES, Outside(d), [open] + inside + [close]) == Some(Outside(d))
  {
    One(BRACES, Outside(d), open);
    One(BRACES, Outside(d), close);
    Both(BRACES, Outside(d), [open], Outside(d), inside, Outside(d));
    Both(BRACES, Outside(d), [open] + inside, Outside(d), [close], Outside(d));
  }

  lemma Braced(d: int, inside: string)
    requires d >= 1 && Through(BRACES, Outside(d + 1), inside) == Some(Outside(d + 1))
    ensures Through(BRACES, Outside(d), "{" + inside + "}") == Some(Outside(d))
  {
    One(BRACES, Outside(d), '{');
    One(BRACES, Outside(d + 1), '}');
    Both(BRACES, Outside(d), "{", Outside(d + 1), inside, Outside(d + 1));
    Both(BRACES, Outside(d), "{" + inside, Outside(d + 1), "}", Outside(d));
  }

  lemma {:induction false} ObjectInside(d: int, blank: string, members: Members)
    requires d >= 1 && IsJsonSpace(blank) && MembersOk(members)
    ensures Through(BRACES, Outside(d), if members.NoMembers? then blank else MembersText(members)) == Some(Outside(d))
    decreases members, 1
  {
    SpaceThrough(d, blank);
    MembersThrough(d, members);
  }

  lemma {:induction false} ItemsThrough(d: int, items: Items)
    requires d >= 1 && ItemsOk(items)
    ensures Through(BRACES, Outside(d), ItemsText(items)) == Some(Outside(d))
    decreases items, 0
  {
    match items
    case NoItems =>
    case Item(before, value, after, rest) =>
      var more := if rest.NoItems? then "" else "," + ItemsText(rest);
      SpaceThrough(d, before);
      ValueThrough(d, value);
      SpaceThrough(d, after);
      ItemsThrough(d, rest);
      Commaed(d, rest.NoItems?, ItemsText(rest));
      Both(BRACES, Outside(d), before, Outside(d), ValueText(value), Outside(d));
      Both(BRACES, Outside(d), before + ValueText(value), Outside(d), after, Outside(d));
      Both(BRACES, Outside(d), before + ValueText(value) + after, Outside(d), more, Outside(d));
  }

  lemma Commaed(d: int, last: bool, rest: string)
    requires Through(BRACES, Outside(d), rest) == Some(Outside(d))
    ensures Through(BRACES, Outside(d), if last then "" else "," + rest) == Some(Outside(d))
  {
    One(BRACES, Outside(d), ',');
    Both(BRACES, Outside(d), ",", Outside(d), rest, Outside(d));
  }

  /** The part of a member before its value. */
  lemma NameThrough(d: int, before: string, name: seq<StringChar>, mid: string, space: string)
    requires IsJsonSpace(before) && CharsOk(name) && IsJsonSpace(mid) && IsJsonSpace(space)
    ensures Through(BRACES, Outside(d), before + StringText(name) + mid + ":" + space) == Some(Outside(d))
  {
    SpaceThrough(d, before);
    StringThrough(d, name);
    SpaceThrough(d, mid);
    SpaceThrough(d, space);
    One(BRACES, Outside(d), ':');
    Both(BRACES, Outside(d), before, Outside(d), StringText(name), Outside(d));
    Both(BRACES, Outside(d), before + StringText(name), Outside(d), mid, Outside(d));
    Both(BRACES, Outside(d), before + StringText(name) + mid, Outside(d), ":", Outside(d));
    Both(BRACES, Outside(d), before + StringText(name) + mid + ":", Outside(d), space, Outside(d));
  }

  lemma {:induction false} MembersThrough(d: int, members: Members)
    requires d >= 1 && MembersOk(members)
    ensures Through(BRACES, Outside(d), MembersText(members)) == Some(Outside(d))
    decreases members, 0
  {
    match members
    case NoMembers =>
    case Member(before, name, mid, space, value, after, rest) =>
      var start := before + StringText(name) + mid + ":" + space;
      var more := if rest.NoMembers? then "" else "," + MembersText(rest);
      NameThrough(d, before, name, mid, space);
      ValueThrough(d, value);
      SpaceThrough(d, after);
      MembersThrough(d, rest);
      Commaed(d, rest.NoMembers?, MembersText(rest));
      Both(BRACES, Outside(d), start, Outside(d), ValueText(value), Outside(d));
      Both(BRACES, Outside(d), start + ValueText(value), Outside(d), after, Outside(d));
      Both(BRACES, Outside(d), start + ValueText(value) + after, Outside(d), more, Outside(d));
  }

  // Where the scan stops.

  /** An object text up to, but not including, its closing brace. */
  lemma OpenObject(v: Value) returns (open: string)
    requires v.Object? && ValueOk(v)
    ensures ValueText(v) == open + "}" && open != "" && open[0] == '{'
    ensures Through(BRACES, START, open) == Some(Outside(1))
  {
    var inside := if v.members.NoMembers? then v.blank else MembersText(v.members);
    open := "{" + inside;
    One(BRACES, START, '{');
    ObjectInside(1, v.blank, v.members);
    Both(BRACES, START, "{", Outside(1), inside, Outside(1));
  }

  /** What stands first decides: nothing but white space is no envelope, and an envelope begins with
      a brace. */
  lemma FirstCharacterDecides<V>(stdout: string, parse: string -> Option<V>)
    ensures Read(stdout, parse) == Missing <==> IsBlank(stdout)
    ensures Read(stdout, parse) == Misplaced <==> exists i: nat :: FirstIs(stdout, i) && stdout[i] != '{'
  {
    var before := TrimStartSplits(stdout);
    var value, n := TrimStart(stdout), |before|;
    if value == "" {
      NothingFirst(stdout, before);
    } else {
      OnlyFirst(stdout, before, value);
      assert FirstIs(stdout, n);
    }
  }

  /** The character at i is the first that is not white space. */
  predicate FirstIs(s: string, i: nat) {
    i < |s| && IsBlank(s[..i]) && !IsWhiteSpace(s[i])
  }

  lemma NothingFirst(s: string, blank: string)
    requires IsBlank(blank) && s == blank + ""
    ensures IsBlank(s) && forall i: nat :: !FirstIs(s, i)
  {
    assert s == blank;
  }

  lemma OnlyFirst(s: string, blank: string, rest: string)
    requires IsBlank(blank) && s == blank + rest && rest != "" && !IsWhiteSpace(rest[0])
    ensures !IsBlank(s) && s[|blank|] == rest[0] && forall i: nat :: FirstIs(s, i) <==> i == |blank|
  {
    var n := |blank|;
    assert s[..n] == blank && s[n] == rest[0];
    BlankPrefix(s, n);
    forall i: nat | FirstIs(s, i) ensures i == n {
      BlankPrefix(s, i);
    }
  }

  lemma BlankPrefix(s: string, n: nat)
    requires n <= |s|
    ensures IsBlank(s[..n]) <==> forall k :: 0 <= k < n ==> IsWhiteSpace(s[k])
  {
    assert forall k :: 0 <= k < n ==> s[..n][k] == s[k];
  }

  /** Any JSON object, after any white space and before any other text: the scan ends exactly at
      the object's closing brace, and the rest is what is reported as trailing. */
  lemma ObjectIsCutExactly<V>(blank: string, v: Value, trailing: string, parse: string -> Option<V>)
    requires IsBlank(blank) && v.Object? && ValueOk(v)
    ensures Read(blank + ValueText(v) + trailing, parse)
      == (var envelope := parse(ValueText(v));
          if envelope.None? then Malformed else Envelope(envelope.value, Trim(trailing)))
  {
    var open := OpenObject(v);
    var text, value := ValueText(v), ValueText(v) + trailing;
    assert blank + text + trailing == blank + value;
    assert value[0] == '{';
    TrimStartSkips(blank, value);
    assert value[0..|open|] == open;
    StopAfter(BRACES, value, 0, START, open);
    assert value[|open|] == '}';
    assert value[..|open| + 1] == text && value[|open| + 1..] == trailing;
  }

  /** An object cut short is reported as incomplete, wherever it is cut. */
  lemma CutShortIsIncomplete<V>(v: Value, n: nat, parse: string -> Option<V>)
    requires v.Object? && ValueOk(v) && 0 < n < |ValueText(v)|
    ensures Read(ValueText(v)[..n], parse) == Incomplete
  {
    var open := OpenObject(v);
    var value := ValueText(v)[..n];
    assert value == open[..n];
    assert value[0] == '{';
    PrefixThrough(BRACES, START, open, n);
    assert value[0..n] == value;
    StopAfter(BRACES, value, 0, START, value);
  }
}
