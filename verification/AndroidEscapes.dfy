/** String.prototype.replaceAll with a string pattern, and chains of it over coded texts. */
module Replacing {
  import opened Sequences
  import opened Folds
  import opened JsStrings

  /** Matches are replaced from the left and do not overlap. */
  function ReplaceAll(s: string, pattern: string, replacement: string): string
    requires pattern != ""
    decreases |s|
  {
    if s == "" then ""
    else if StartsAt(s, 0, pattern) then replacement + ReplaceAll(s[|pattern|..], pattern, replacement)
    else [s[0]] + ReplaceAll(s[1..], pattern, replacement)
  }

  lemma ReplaceOneStep(s: string, c: char, replacement: string)
    requires s != ""
    ensures ReplaceAll(s, [c], replacement) == (if s[0] == c then replacement else [s[0]]) + ReplaceAll(s[1..], [c], replacement)
  {
    assert s[0..1] == [s[0]];
  }

  /** A one-character pattern never straddles anything. */
  lemma {:induction false} ReplaceOneAppend(a: string, b: string, c: char, replacement: string)
    ensures ReplaceAll(a + b, [c], replacement) == ReplaceAll(a, [c], replacement) + ReplaceAll(b, [c], replacement)
    decreases |a|
  {
    if a == "" {
      assert a + b == b;
    } else {
      assert (a + b)[1..] == a[1..] + b;
      ReplaceOneStep(a + b, c, replacement);
      ReplaceOneStep(a, c, replacement);
      ReplaceOneAppend(a[1..], b, c, replacement);
    }
  }

  /** No match starts inside code, by looking one character ahead. */
  predicate Quiet(code: string, rest: string, pattern: string)
    requires |pattern| >= 2
  {
    forall i :: 0 <= i < |code| && code[i] == pattern[0] ==>
      i + 1 == |code + rest| || (code + rest)[i + 1] != pattern[1]
  }

  lemma MatchStarts(s: string, pattern: string)
    requires |pattern| >= 2 && StartsAt(s, 0, pattern)
    ensures |s| >= 2 && s[0] == pattern[0] && s[1] == pattern[1]
  {
    assert s[0..|pattern|][0] == s[0] && s[0..|pattern|][1] == s[1];
  }

  /** A character that does not occur is not replaced. */
  lemma {:induction false} ReplaceAbsent(s: string, c: char, replacement: string)
    requires c !in s
    ensures ReplaceAll(s, [c], replacement) == s
  {
    if s != "" {
      assert s[0..1][0] == s[0];
      ReplaceAbsent(s[1..], c, replacement);
    }
  }

  lemma ReplaceSingle(c: char, replacement: string)
    ensures ReplaceAll([c], [c], replacement) == replacement
  {
    TakeMatch("", [c], replacement);
    assert [c] + "" == [c];
  }

  lemma {:induction false} SkipQuiet(code: string, rest: string, pattern: string, replacement: string)
    requires |pattern| >= 2 && Quiet(code, rest, pattern)
    ensures ReplaceAll(code + rest, pattern, replacement) == code + ReplaceAll(rest, pattern, replacement)
    decreases |code|
  {
    if code == "" {
      assert code + rest == rest;
    } else {
      var s := code + rest;
      if StartsAt(s, 0, pattern) {
        MatchStarts(s, pattern);
        assert false;
      }
      assert s[1..] == code[1..] + rest;
      forall i | 0 <= i < |code[1..]| && code[1..][i] == pattern[0]
        ensures i + 1 == |code[1..] + rest| || (code[1..] + rest)[i + 1] != pattern[1]
      {
        assert code[i + 1] == pattern[0];
      }
      SkipQuiet(code[1..], rest, pattern, replacement);
      assert code == [code[0]] + code[1..];
    }
  }

  lemma TakeMatch(rest: string, pattern: string, replacement: string)
    requires pattern != ""
    ensures ReplaceAll(pattern + rest, pattern, replacement) == replacement + ReplaceAll(rest, pattern, replacement)
  {
    assert (pattern + rest)[0..|pattern|] == pattern;
    assert (pattern + rest)[|pattern|..] == rest;
  }

  /** The next code is the pattern and becomes the replacement, or it is untouched. */
  predicate Settled(f: char -> string, g: char -> string, pattern: string, replacement: string, c: char, rest: string)
    requires |pattern| >= 2
  {
    || (f(c) == pattern && g(c) == replacement)
    || (f(c) == g(c) && Quiet(f(c), rest, pattern))
  }

  /** Replacing in a coded text changes the code. */
  lemma {:induction false} ReplaceCodes(f: char -> string, g: char -> string, pattern: string, replacement: string, v: string)
    requires |pattern| >= 2
    requires forall i :: 0 <= i < |v| ==> Settled(f, g, pattern, replacement, v[i], Flat(f, v[i + 1..]))
    ensures ReplaceAll(Flat(f, v), pattern, replacement) == Flat(g, v)
    decreases |v|
  {
    if v != "" {
      var rest := Flat(f, v[1..]);
      assert Settled(f, g, pattern, replacement, v[0], rest);
      forall i | 0 <= i < |v[1..]| ensures Settled(f, g, pattern, replacement, v[1..][i], Flat(f, v[1..][i + 1..])) {
        assert v[1..][i + 1..] == v[i + 2..];
        assert Settled(f, g, pattern, replacement, v[i + 1], Flat(f, v[i + 2..]));
      }
      ReplaceCodes(f, g, pattern, replacement, v[1..]);
      if f(v[0]) == pattern && g(v[0]) == replacement {
        TakeMatch(rest, pattern, replacement);
      } else {
        SkipQuiet(f(v[0]), rest, pattern, replacement);
      }
    }
  }

  // Counting one character.

  function Count(s: string, c: char): nat {
    if s == "" then 0 else (if s[0] == c then 1 else 0) + Count(s[1..], c)
  }

  lemma {:induction false} CountAppend(a: string, b: string, c: char)
    ensures Count(a + b, c) == Count(a, c) + Count(b, c)
    decreases |a|
  {
    if a == "" {
      assert a + b == b;
    } else {
      assert (a + b)[1..] == a[1..] + b;
      CountAppend(a[1..], b, c);
    }
  }

  lemma {:induction false} CountAbsent(a: string, b: string, c: char)
    requires c !in a
    ensures Count(a + b, c) == Count(b, c)
    decreases |a|
  {
    if a == "" {
      assert a + b == b;
    } else {
      assert (a + b)[1..] == a[1..] + b;
      CountAbsent(a[1..], b, c);
    }
  }

  /** Replacing a pattern without c by a text without c leaves the number of c's alone. */
  lemma {:induction false} ReplaceKeepsCount(s: string, pattern: string, replacement: string, c: char)
    requires pattern != "" && Count(pattern, c) == 0 && Count(replacement, c) == 0
    ensures Count(ReplaceAll(s, pattern, replacement), c) == Count(s, c)
    decreases |s|
  {
    if s != "" {
      if StartsAt(s, 0, pattern) {
        var rest := s[|pattern|..];
        assert s == pattern + rest;
        ReplaceKeepsCount(rest, pattern, replacement, c);
        CountAppend(pattern, rest, c);
        CountAppend(replacement, ReplaceAll(rest, pattern, replacement), c);
      } else {
        ReplaceKeepsCount(s[1..], pattern, replacement, c);
        assert ([s[0]] + ReplaceAll(s[1..], pattern, replacement))[1..] == ReplaceAll(s[1..], pattern, replacement);
      }
    }
  }
}

/** The resource-value escaper of scripts/android-app-i18n.ts and its decoder. */
module AndroidEscapes {
  import opened Sequences
  import opened Folds
  import opened Replacing
  import opened JsStrings

  function EscapeBackslashes(value: string): string {
    var s1 := ReplaceAll(value, "\\", "\\\\");
    var s2 := ReplaceAll(s1, "\n", "\\n");
    var s3 := ReplaceAll(s2, "'", "\\'");
    ReplaceAll(s3, "\"", "\\\"")
  }

  function EscapeEntities(value: string): string {
    var s1 := ReplaceAll(value, "&", "&amp;");
    var s2 := ReplaceAll(s1, "<", "&lt;");
    ReplaceAll(s2, ">", "&gt;")
  }

  /** The seven replacements, one after another. */
  function EscapeAndroidResourceValue(value: string): string {
    EscapeEntities(EscapeBackslashes(value))
  }

  function Pattern(k: nat): (p: string)
    requires 1 <= k <= 8
    ensures |p| >= 2
  {
    match k
    case 1 => "&lt;"
    case 2 => "&gt;"
    case 3 => "&quot;"
    case 4 => "&amp;"
    case 5 => "\\n"
    case 6 => "\\'"
    case 7 => "\\\""
    case 8 => "\\\\"
  }

  function Replacement(k: nat): string
    requires 1 <= k <= 8
  {
    match k
    case 1 => "<"
    case 2 => ">"
    case 3 => "\""
    case 4 => "&"
    case 5 => "\n"
    case 6 => "'"
    case 7 => "\""
    case 8 => "\\"
  }

  /** The first n of decodeXml's eight replacements. */
  function Decoded(value: string, n: nat): string
    requires n <= 8
  {
    if n == 0 then value else ReplaceAll(Decoded(value, n - 1), Pattern(n), Replacement(n))
  }

  function DecodeXml(value: string): string {
    Decoded(value, 8)
  }

  function DecodeAndroidResourceValue(rawValue: string): string {
    var trimmed := Trim(rawValue);
    var unquoted := if |trimmed| >= 2 && trimmed[0] == '"' && trimmed[|trimmed| - 1] == '"'
                    then trimmed[1..|trimmed| - 1] else if trimmed == "\"" then "" else trimmed;
    DecodeXml(unquoted)
  }

  /** What is left of a character's code once k of the decoder's replacements are done. */
  function CodeAfter(k: nat, c: char): string {
    match c
    case '<' => if k >= 1 then "<" else "&lt;"
    case '>' => if k >= 2 then ">" else "&gt;"
    case '&' => if k >= 4 then "&" else "&amp;"
    case '\n' => if k >= 5 then "\n" else "\\n"
    case '\'' => if k >= 6 then "'" else "\\'"
    case '"' => if k >= 7 then "\"" else "\\\""
    case '\\' => if k >= 8 then "\\" else "\\\\"
    case _ => [c]
  }

  function Code(k: nat): char -> string {
    c => CodeAfter(k, c)
  }

  lemma BackslashesAppend(a: string, b: string)
    ensures EscapeBackslashes(a + b) == EscapeBackslashes(a) + EscapeBackslashes(b)
  {
    var a1, b1 := ReplaceAll(a, "\\", "\\\\"), ReplaceAll(b, "\\", "\\\\");
    var a2, b2 := ReplaceAll(a1, "\n", "\\n"), ReplaceAll(b1, "\n", "\\n");
    var a3, b3 := ReplaceAll(a2, "'", "\\'"), ReplaceAll(b2, "'", "\\'");
    ReplaceOneAppend(a, b, '\\', "\\\\");
    ReplaceOneAppend(a1, b1, '\n', "\\n");
    ReplaceOneAppend(a2, b2, '\'', "\\'");
    ReplaceOneAppend(a3, b3, '"', "\\\"");
  }

  lemma EntitiesAppend(a: string, b: string)
    ensures EscapeEntities(a + b) == EscapeEntities(a) + EscapeEntities(b)
  {
    var a1, b1 := ReplaceAll(a, "&", "&amp;"), ReplaceAll(b, "&", "&amp;");
    var a2, b2 := ReplaceAll(a1, "<", "&lt;"), ReplaceAll(b1, "<", "&lt;");
    ReplaceOneAppend(a, b, '&', "&amp;");
    ReplaceOneAppend(a1, b1, '<', "&lt;");
    ReplaceOneAppend(a2, b2, '>', "&gt;");
  }

  /** What one of the replacements does to what the earlier ones made of a character. */
  lemma Stage(s: string, c: char, replacement: string)
    requires s == [c] || c !in s
    ensures ReplaceAll(s, [c], replacement) == if s == [c] then replacement else s
  {
    if s == [c] {
      ReplaceSingle(c, replacement);
    } else {
      ReplaceAbsent(s, c, replacement);
    }
  }

  lemma BackslashesOne(c: char)
    ensures EscapeBackslashes([c]) == CodeAfter(4, c)
  {
    Stage([c], '\\', "\\\\");
    var s1 := if c == '\\' then "\\\\" else [c];
    Stage(s1, '\n', "\\n");
    var s2 := if c == '\n' then "\\n" else s1;
    Stage(s2, '\'', "\\'");
    var s3 := if c == '\'' then "\\'" else s2;
    Stage(s3, '"', "\\\"");
  }

  lemma EntitiesOne(c: char)
    ensures EscapeEntities(CodeAfter(4, c)) == CodeAfter(0, c)
  {
    if c == '&' {
      ReplaceSingle(c, "&amp;");
      ReplaceAbsent("&amp;", '<', "&lt;");
      ReplaceAbsent("&amp;", '>', "&gt;");
    } else if c == '<' {
      ReplaceAbsent("<", '&', "&amp;");
      ReplaceSingle(c, "&lt;");
      ReplaceAbsent("&lt;", '>', "&gt;");
    } else if c == '>' {
      ReplaceAbsent(">", '&', "&amp;");
      ReplaceAbsent(">", '<', "&lt;");
      ReplaceSingle(c, "&gt;");
    } else {
      NoEntities(CodeAfter(4, c));
    }
  }

  lemma NoEntities(s: string)
    requires '&' !in s && '<' !in s && '>' !in s
    ensures EscapeEntities(s) == s
  {
    ReplaceAbsent(s, '&', "&amp;");
    ReplaceAbsent(s, '<', "&lt;");
    ReplaceAbsent(s, '>', "&gt;");
  }

  /** The seven replacements one after another are one pass with a fixed code per character. */
  lemma {:induction false} EscapeIsOnePass(value: string)
    ensures EscapeAndroidResourceValue(value) == Flat(Code(0), value)
  {
    if value == "" {
    } else {
      var first := [value[0]];
      assert value == first + value[1..];
      BackslashesAppend(first, value[1..]);
      EntitiesAppend(EscapeBackslashes(first), EscapeBackslashes(value[1..]));
      BackslashesOne(value[0]);
      EntitiesOne(value[0]);
      EscapeIsOnePass(value[1..]);
    }
  }

  /** How Android reads a resource text: entities, and backslash before n or before any character. */
  function Unescape(s: string): string
    decreases |s|
  {
    if s == "" then ""
    else if s[0] == '\\' && |s| > 1 then [if s[1] == 'n' then '\n' else s[1]] + Unescape(s[2..])
    else if StartsAt(s, 0, "&amp;") then "&" + Unescape(s[5..])
    else if StartsAt(s, 0, "&lt;") then "<" + Unescape(s[4..])
    else if StartsAt(s, 0, "&gt;") then ">" + Unescape(s[4..])
    else [s[0]] + Unescape(s[1..])
  }

  lemma CodeStarts(code: string, rest: string)
    ensures StartsAt(code + rest, 0, code) && (code + rest)[|code|..] == rest
  {
    assert (code + rest)[0..|code|] == code;
  }

  lemma UnescapeEntity(c: char, rest: string)
    requires c in "<>&"
    ensures Unescape(CodeAfter(0, c) + rest) == [c] + Unescape(rest)
  {
    var code := CodeAfter(0, c);
    var s := code + rest;
    CodeStarts(code, rest);
    assert s[0] == code[0] && s[1] == code[1];
    if StartsAt(s, 0, "&amp;") {
      MatchStarts(s, "&amp;");
    }
    if StartsAt(s, 0, "&lt;") {
      MatchStarts(s, "&lt;");
    }
  }

  lemma UnescapeCode(c: char, rest: string)
    ensures Unescape(CodeAfter(0, c) + rest) == [c] + Unescape(rest)
  {
    if c in "<>&" {
      UnescapeEntity(c, rest);
    } else {
      var code := CodeAfter(0, c);
      var s := code + rest;
      CodeStarts(code, rest);
      assert s[0] == code[0];
      if |code| == 2 {
        assert s[1] == code[1];
      } else {
        PlainStart(s);
      }
    }
  }

  lemma PlainStart(s: string)
    requires s != "" && s[0] != '&'
    ensures !StartsAt(s, 0, "&amp;") && !StartsAt(s, 0, "&lt;") && !StartsAt(s, 0, "&gt;")
  {
    forall p: string | StartsAt(s, 0, p) && p != "" ensures p[0] == s[0] {
      assert s[0..|p|][0] == s[0];
    }
  }

  lemma {:induction false} UnescapeCodes(value: string)
    ensures Unescape(Flat(Code(0), value)) == value
  {
    if value != "" {
      UnescapeCode(value[0], Flat(Code(0), value[1..]));
      UnescapeCodes(value[1..]);
    }
  }

  /** Escaping loses nothing: Android reads back the value, so different values stay different. */
  lemma EscapeIsUndone(value: string)
    ensures Unescape(EscapeAndroidResourceValue(value)) == value
  {
    EscapeIsOnePass(value);
    UnescapeCodes(value);
  }

  lemma EscapeIsInjective(a: string, b: string)
    requires EscapeAndroidResourceValue(a) == EscapeAndroidResourceValue(b)
    ensures a == b
  {
    EscapeIsUndone(a);
    EscapeIsUndone(b);
  }

  predicate EntityAt(s: string, i: nat) {
    StartsAt(s, i, "&amp;") || StartsAt(s, i, "&lt;") || StartsAt(s, i, "&gt;")
  }

  /** The character at i does no harm in a resource file: no markup, no line end, no quote without a
      backslash, no ampersand that is not an entity's. */
  ghost predicate SafeAt(s: string, i: nat)
    requires i < |s|
  {
    && s[i] != '<' && s[i] != '>' && s[i] != '\n'
    && (s[i] == '\'' || s[i] == '"' ==> i > 0 && s[i - 1] == '\\')
    && (s[i] == '&' ==> EntityAt(s, i))
  }

  ghost predicate Safe(s: string) {
    forall i :: 0 <= i < |s| ==> SafeAt(s, i)
  }

  lemma CodeIsSafe(c: char)
    ensures Safe(Code(0)(c))
  {
  }

  lemma StartsLonger(a: string, b: string, i: nat, part: string)
    requires StartsAt(a, i, part)
    ensures StartsAt(a + b, i, part)
  {
    assert (a + b)[i..i + |part|] == a[i..i + |part|];
  }

  lemma StartsBehind(a: string, b: string, i: nat, part: string)
    requires StartsAt(b, i, part)
    ensures StartsAt(a + b, |a| + i, part)
  {
    assert (a + b)[|a| + i..|a| + i + |part|] == b[i..i + |part|];
  }

  lemma EntityLonger(a: string, b: string, i: nat)
    requires EntityAt(a, i)
    ensures EntityAt(a + b, i)
  {
    if StartsAt(a, i, "&amp;") {
      StartsLonger(a, b, i, "&amp;");
    } else if StartsAt(a, i, "&lt;") {
      StartsLonger(a, b, i, "&lt;");
    } else {
      StartsLonger(a, b, i, "&gt;");
    }
  }

  lemma EntityBehind(a: string, b: string, i: nat)
    requires EntityAt(b, i)
    ensures EntityAt(a + b, |a| + i)
  {
    if StartsAt(b, i, "&amp;") {
      StartsBehind(a, b, i, "&amp;");
    } else if StartsAt(b, i, "&lt;") {
      StartsBehind(a, b, i, "&lt;");
    } else {
      StartsBehind(a, b, i, "&gt;");
    }
  }

  lemma SafeBoth(a: string, b: string)
    requires Safe(a) && Safe(b)
    ensures Safe(a + b)
  {
    forall i | 0 <= i < |a + b| ensures SafeAt(a + b, i) {
      if i < |a| {
        assert SafeAt(a, i);
        if a[i] == '&' {
          EntityLonger(a, b, i);
        }
      } else {
        assert SafeAt(b, i - |a|);
        if b[i - |a|] == '&' {
          EntityBehind(a, b, i - |a|);
        }
      }
    }
  }

  lemma {:induction false} CodesAreSafe(value: string)
    ensures Safe(Flat(Code(0), value))
  {
    if value != "" {
      CodeIsSafe(value[0]);
      CodesAreSafe(value[1..]);
      SafeBoth(Code(0)(value[0]), Flat(Code(0), value[1..]));
    }
  }

  /** An escaped value holds no markup, no line end, no bare quote and no bare ampersand. */
  lemma EscapedIsSafe(value: string)
    ensures Safe(EscapeAndroidResourceValue(value))
  {
    EscapeIsOnePass(value);
    CodesAreSafe(value);
  }

  // The decoder, one replacement at a time.

  /** A backslash followed by the letter n. */
  predicate BackslashN(v: string, i: nat) {
    i + 1 < |v| && v[i] == '\\' && v[i + 1] == 'n'
  }

  predicate HasBackslashN(v: string) {
    exists i :: 0 <= i < |v| && BackslashN(v, i)
  }

  /** What may follow a code of the k-th stage. */
  predicate Follows(k: nat, c: char, rest: string) {
    rest != "" ==>
      && (k == 5 && c == '\\' ==> rest[0] != 'n')
      && (k == 6 ==> rest[0] != '\'')
      && (k == 7 ==> rest[0] != '"')
  }

  lemma EntityStage(k: nat, c: char, rest: string)
    requires 1 <= k <= 4
    ensures Settled(Code(k - 1), Code(k), Pattern(k), Replacement(k), c, rest)
  {
    var code := CodeAfter(k - 1, c);
    assert forall i :: 0 < i < |code| ==> code[i] != '&';
    assert |code| > 1 && code[0] == '&' ==> (code + rest)[1] == code[1];
  }

  lemma BackslashStage(k: nat, c: char, rest: string)
    requires 5 <= k <= 8 && Follows(k, c, rest)
    ensures Settled(Code(k - 1), Code(k), Pattern(k), Replacement(k), c, rest)
  {
    var code := CodeAfter(k - 1, c);
    assert |code| <= 2;
    assert |code| == 2 ==> (code + rest)[1] == code[1];
    assert |code| == 2 && rest != "" ==> (code + rest)[2] == rest[0];
  }

  lemma NextCode(k: nat, v: string, i: nat)
    requires 1 <= k <= 8 && i < |v| && (k == 5 ==> !BackslashN(v, i))
    ensures Follows(k, v[i], Flat(Code(k - 1), v[i + 1..]))
  {
    if i + 1 < |v| {
      assert v[i + 1..][0] == v[i + 1];
    }
  }

  lemma Settles(v: string, k: nat, i: nat)
    requires 1 <= k <= 8 && i < |v| && (k == 5 ==> !BackslashN(v, i))
    ensures Settled(Code(k - 1), Code(k), Pattern(k), Replacement(k), v[i], Flat(Code(k - 1), v[i + 1..]))
  {
    if k <= 4 {
      EntityStage(k, v[i], Flat(Code(k - 1), v[i + 1..]));
    } else {
      NextCode(k, v, i);
      BackslashStage(k, v[i], Flat(Code(k - 1), v[i + 1..]));
    }
  }

  lemma OneStage(v: string, k: nat)
    requires 1 <= k <= 8 && (k == 5 ==> !HasBackslashN(v))
    ensures ReplaceAll(Flat(Code(k - 1), v), Pattern(k), Replacement(k)) == Flat(Code(k), v)
  {
    forall i | 0 <= i < |v|
      ensures Settled(Code(k - 1), Code(k), Pattern(k), Replacement(k), v[i], Flat(Code(k - 1), v[i + 1..]))
    {
      Settles(v, k, i);
    }
    ReplaceCodes(Code(k - 1), Code(k), Pattern(k), Replacement(k), v);
  }

  /** texts(k) becomes texts(k + 1) under the decoder's next replacement. */
  ghost predicate Stages(texts: nat -> string, n: nat)
    requires n <= 8
  {
    forall k :: 1 <= k <= n ==> ReplaceAll(texts(k - 1), Pattern(k), Replacement(k)) == texts(k)
  }

  lemma {:induction false} DecodedChain(texts: nat -> string, n: nat)
    requires n <= 8 && Stages(texts, n)
    ensures Decoded(texts(0), n) == texts(n)
  {
    if n > 0 {
      DecodedChain(texts, n - 1);
    }
  }

  function Codes(v: string): nat -> string {
    (k: nat) => Flat(Code(k), v)
  }

  lemma CodeStages(v: string, n: nat)
    requires n <= 8 && (n >= 5 ==> !HasBackslashN(v))
    ensures Stages(Codes(v), n)
  {
    forall k | 1 <= k <= n ensures ReplaceAll(Codes(v)(k - 1), Pattern(k), Replacement(k)) == Codes(v)(k) {
      OneStage(v, k);
    }
  }

  /** The decoder's replacements take the codes back one by one. */
  lemma DecodedCodes(v: string, n: nat)
    requires n <= 8 && (n >= 5 ==> !HasBackslashN(v))
    ensures Decoded(Flat(Code(0), v), n) == Flat(Code(n), v)
  {
    CodeStages(v, n);
    DecodedChain(Codes(v), n);
  }

  lemma {:induction false} LastCodes(v: string)
    ensures Flat(Code(8), v) == v
  {
    if v != "" {
      LastCodes(v[1..]);
    }
  }

  // Where it goes wrong: the fifth replacement makes newlines out of backslash and n.

  function NewlinesGained(v: string): nat {
    if v == "" then 0 else (if BackslashN(v, 0) then 1 else 0) + NewlinesGained(v[1..])
  }

  lemma {:induction false} GainsWhereFound(v: string, i: nat)
    requires BackslashN(v, i)
    ensures NewlinesGained(v) > 0
  {
    if i > 0 {
      GainsWhereFound(v[1..], i - 1);
    }
  }

  const NEWLINE := "\\n"

  /** Newlines after the fifth replacement. */
  function Newlines(s: string): nat {
    Count(ReplaceAll(s, NEWLINE, "\n"), '\n')
  }

  lemma SkipNoNewline(code: string, rest: string)
    requires Quiet(code, rest, NEWLINE) && '\n' !in code
    ensures Newlines(code + rest) == Newlines(rest)
  {
    SkipQuiet(code, rest, NEWLINE, "\n");
    CountAbsent(code, ReplaceAll(rest, NEWLINE, "\n"), '\n');
  }

  lemma TakeNewline(rest: string)
    ensures Newlines(NEWLINE + rest) == 1 + Newlines(rest)
  {
    TakeMatch(rest, NEWLINE, "\n");
    CountAppend("\n", ReplaceAll(rest, NEWLINE, "\n"), '\n');
  }

  lemma NewlineStep(c: char, rest: string)
    requires c != '\\'
    ensures Newlines(CodeAfter(4, c) + rest) == (if c == '\n' then 1 else 0) + Newlines(rest)
  {
    if c == '\n' {
      TakeNewline(rest);
    } else {
      BackslashStage(5, c, rest);
      SkipNoNewline(CodeAfter(4, c), rest);
    }
  }

  /** The second backslash of a code and the n behind it become a newline. */
  lemma EatsN(tail: string)
    ensures Newlines("\\\\" + ("n" + tail)) == 1 + Newlines("n" + tail)
  {
    assert "\\\\" + ("n" + tail) == "\\" + (NEWLINE + tail);
    SkipNoNewline("\\", NEWLINE + tail);
    TakeNewline(tail);
    SkipNoNewline("n", tail);
  }

  lemma BackslashStep(rest: string)
    ensures Newlines("\\\\" + rest) == (if rest != "" && rest[0] == 'n' then 1 else 0) + Newlines(rest)
  {
    if rest != "" && rest[0] == 'n' {
      assert rest == "n" + rest[1..];
      EatsN(rest[1..]);
    } else {
      SkipNoNewline("\\\\", rest);
    }
  }

  lemma FirstIsN(v: string)
    ensures (Flat(Code(4), v) != "" && Flat(Code(4), v)[0] == 'n') <==> v != "" && v[0] == 'n'
  {
  }

  lemma {:induction false} NewlinesAfter(v: string)
    ensures Newlines(Flat(Code(4), v)) == Count(v, '\n') + NewlinesGained(v)
  {
    if v != "" {
      var rest := Flat(Code(4), v[1..]);
      NewlinesAfter(v[1..]);
      FirstIsN(v[1..]);
      if v[0] == '\\' {
        BackslashStep(rest);
      } else {
        NewlineStep(v[0], rest);
      }
    }
  }

  lemma LaterStagesKeepNewlines(s: string)
    ensures Count(Decoded(s, 8), '\n') == Count(Decoded(s, 5), '\n')
  {
    ReplaceKeepsCount(Decoded(s, 5), Pattern(6), Replacement(6), '\n');
    ReplaceKeepsCount(Decoded(s, 6), Pattern(7), Replacement(7), '\n');
    ReplaceKeepsCount(Decoded(s, 7), Pattern(8), Replacement(8), '\n');
  }

  lemma QuotedIsUnquoted(s: string)
    ensures DecodeAndroidResourceValue("\"" + s + "\"") == DecodeXml(s)
  {
    var raw := "\"" + s + "\"";
    assert raw[0] == '"' && raw[|raw| - 1] == '"';
    assert Trim(raw) == raw;
    assert raw[1..|raw| - 1] == s;
  }

  /** Decoding a quoted, escaped value gives the value back exactly when no backslash in it is
      followed by an n. */
  lemma DecodeUndoesEscape(v: string)
    ensures DecodeAndroidResourceValue("\"" + EscapeAndroidResourceValue(v) + "\"") == v <==> !HasBackslashN(v)
  {
    var escaped := EscapeAndroidResourceValue(v);
    QuotedIsUnquoted(escaped);
    EscapeIsOnePass(v);
    if HasBackslashN(v) {
      var i :| 0 <= i < |v| && BackslashN(v, i);
      GainsWhereFound(v, i);
      DecodedCodes(v, 4);
      NewlinesAfter(v);
      LaterStagesKeepNewlines(escaped);
    } else {
      DecodedCodes(v, 8);
      LastCodes(v);
    }
  }

  /** One value the decoder does not give back: a backslash and an n. */
  lemma BackslashNIsLost()
    ensures DecodeAndroidResourceValue("\"" + EscapeAndroidResourceValue("\\n") + "\"") != "\\n"
  {
    assert BackslashN("\\n", 0);
    DecodeUndoesEscape("\\n");
  }

  // Texts that are not escaped.

  predicate IsPlain(s: string) {
    '&' !in s && '\\' !in s
  }

  lemma NothingReplaced(s: string, pattern: string, replacement: string)
    requires |pattern| >= 2 && Quiet(s, "", pattern)
    ensures ReplaceAll(s, pattern, replacement) == s
  {
    SkipQuiet(s, "", pattern, replacement);
    assert s + "" == s;
  }

  lemma PatternStarts(k: nat)
    requires 1 <= k <= 8
    ensures Pattern(k)[0] == '&' || Pattern(k)[0] == '\\'
  {
  }

  lemma PlainIsQuiet(s: string, pattern: string)
    requires IsPlain(s) && |pattern| >= 2 && (pattern[0] == '&' || pattern[0] == '\\')
    ensures Quiet(s, "", pattern)
  {
  }

  /** One stage leaves a plain text alone. */
  lemma PlainStage(s: string, k: nat)
    requires IsPlain(s) && 1 <= k <= 8
    ensures ReplaceAll(s, Pattern(k), Replacement(k)) == s
  {
    PatternStarts(k);
    PlainIsQuiet(s, Pattern(k));
    NothingReplaced(s, Pattern(k), Replacement(k));
  }

  /** All stages leave a plain text alone. */
  lemma PlainStages(s: string)
    requires IsPlain(s)
    ensures DecodeXml(s) == s
  {
    var texts := (k: nat) => s;
    forall k | 0 <= k < 8 ensures texts(k + 1) == ReplaceAll(texts(k), Pattern(k + 1), Replacement(k + 1)) {
      PlainStage(s, k + 1);
    }
    DecodedChain(texts, 8);
  }

  lemma QuoteStage(x: string, y: string)
    requires IsPlain(x) && IsPlain(y)
    ensures ReplaceAll(x + "&quot;" + y, "&quot;", "\"") == x + "\"" + y
  {
    assert x + "&quot;" + y == x + ("&quot;" + y);
    SkipQuiet(x, "&quot;" + y, "&quot;", "\"");
    TakeMatch(y, "&quot;", "\"");
    NothingReplaced(y, "&quot;", "\"");
  }

  lemma OtherEntities(x: string, y: string, k: nat)
    requires IsPlain(x) && IsPlain(y) && (k == 1 || k == 2)
    ensures ReplaceAll(x + "&quot;" + y, Pattern(k), Replacement(k)) == x + "&quot;" + y
  {
    NothingReplaced(x + "&quot;" + y, Pattern(k), Replacement(k));
  }

  /** The fifth entity is decoded too. */
  lemma QuoteIsDecoded(x: string, y: string)
    requires IsPlain(x) && IsPlain(y)
    ensures DecodeXml(x + "&quot;" + y) == x + "\"" + y
  {
    var value := x + "&quot;" + y;
    var result := x + "\"" + y;
    var texts := (k: nat) => if k < 3 then value else result;
    forall k | 0 <= k < 8 ensures texts(k + 1) == ReplaceAll(texts(k), Pattern(k + 1), Replacement(k + 1)) {
      if k < 2 {
        OtherEntities(x, y, k + 1);
      } else if k == 2 {
        QuoteStage(x, y);
      } else {
        PlainStage(result, k + 1);
      }
    }
    DecodedChain(texts, 8);
  }

  /** A plain value is trimmed, and loses a pair of quotes around it. */
  lemma PlainIsTrimmedAndUnquoted(before: string, value: string, after: string)
    requires IsBlank(before) && IsBlank(after) && IsPlain(value)
    ensures IsTight(value) && (value != "" ==> value[0] != '"') ==>
      DecodeAndroidResourceValue(before + value + after) == value
    ensures DecodeAndroidResourceValue(before + ("\"" + value + "\"") + after) == value
  {
    var quoted := "\"" + value + "\"";
    TrimIsTight(before, quoted, after);
    assert quoted[1..|quoted| - 1] == value;
    PlainStages(value);
    if IsTight(value) {
      TrimIsTight(before, value, after);
    }
  }
}
