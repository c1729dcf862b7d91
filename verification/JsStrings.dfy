/** Strings as JavaScript trims and searches them. */
module JsStrings {
  import opened Sequences

  /** The characters String.prototype.trim removes. */
  predicate IsWhiteSpace(c: char) {
    || c == ' ' || '\t' <= c <= '\r' || c == '\U{00A0}' || c == '\U{1680}' || '\U{2000}' <= c <= '\U{200A}'
    || c == '\U{2028}' || c == '\U{2029}' || c == '\U{202F}' || c == '\U{205F}' || c == '\U{3000}' || c == '\U{FEFF}'
  }

  predicate IsBlank(s: string) {
    forall i :: 0 <= i < |s| ==> IsWhiteSpace(s[i])
  }

  function TrimStart(s: string): (t: string) {
    if s != "" && IsWhiteSpace(s[0]) then TrimStart(s[1..]) else s
  }

  function TrimEnd(s: string): (t: string) {
    if s != "" && IsWhiteSpace(s[|s| - 1]) then TrimEnd(s[..|s| - 1]) else s
  }

  /** String.prototype.trim. */
  function Trim(s: string): string {
    TrimEnd(TrimStart(s))
  }

  /** The text neither starts nor ends with white space. */
  predicate IsTight(s: string) {
    s == "" || (!IsWhiteSpace(s[0]) && !IsWhiteSpace(s[|s| - 1]))
  }

  lemma {:induction false} TrimStartSkips(blank: string, rest: string)
    requires IsBlank(blank) && (rest == "" || !IsWhiteSpace(rest[0]))
    ensures TrimStart(blank + rest) == rest
  {
    if blank == "" {
      assert blank + rest == rest;
    } else {
      assert (blank + rest)[1..] == blank[1..] + rest;
      TrimStartSkips(blank[1..], rest);
    }
  }

  lemma {:induction false} TrimEndSkips(rest: string, blank: string)
    requires IsBlank(blank) && (rest == "" || !IsWhiteSpace(rest[|rest| - 1]))
    ensures TrimEnd(rest + blank) == rest
  {
    if blank == "" {
      assert rest + blank == rest;
    } else {
      assert (rest + blank)[..|rest + blank| - 1] == rest + blank[..|blank| - 1];
      TrimEndSkips(rest, blank[..|blank| - 1]);
    }
  }

  /** Trimming takes away exactly the white space around a text. */
  lemma TrimIsTight(before: string, text: string, after: string)
    requires IsBlank(before) && IsTight(text) && IsBlank(after)
    ensures Trim(before + text + after) == text
  {
    assert before + text + after == before + (text + after);
    if text == "" {
      assert before + (text + after) == (before + after) + "" && IsBlank(before + after);
      TrimStartSkips(before + after, "");
    } else {
      TrimStartSkips(before, text + after);
      TrimEndSkips(text, after);
    }
  }

  lemma {:induction false} TrimStartSplits(s: string) returns (before: string)
    ensures IsBlank(before) && s == before + TrimStart(s) && (TrimStart(s) == "" || !IsWhiteSpace(TrimStart(s)[0]))
  {
    before := "";
    if s != "" && IsWhiteSpace(s[0]) {
      var more := TrimStartSplits(s[1..]);
      before := [s[0]] + more;
    }
  }

  lemma {:induction false} TrimEndSplits(s: string) returns (after: string)
    ensures IsBlank(after) && s == TrimEnd(s) + after
    ensures TrimEnd(s) == "" || !IsWhiteSpace(TrimEnd(s)[|TrimEnd(s)| - 1])
  {
    after := "";
    if s != "" && IsWhiteSpace(s[|s| - 1]) {
      var more := TrimEndSplits(s[..|s| - 1]);
      after := more + [s[|s| - 1]];
    }
  }

  /** Every text is a tight one with white space around it. */
  lemma TrimSplits(s: string) returns (before: string, after: string)
    ensures IsBlank(before) && IsTight(Trim(s)) && IsBlank(after) && s == before + Trim(s) + after
  {
    before := TrimStartSplits(s);
    after := TrimEndSplits(TrimStart(s));
    if Trim(s) != "" {
      assert TrimStart(s)[0] == Trim(s)[0];
    }
  }

  lemma BlankAround(before: string, after: string)
    requires IsBlank(before) && IsBlank(after)
    ensures IsBlank(before + "" + after)
  {
  }

  lemma TrimsToNothing(s: string)
    ensures Trim(s) == "" <==> IsBlank(s)
  {
    var before, after := TrimSplits(s);
    if Trim(s) == "" {
      BlankAround(before, after);
    }
    if IsBlank(s) {
      TrimIsTight(s, "", "");
      assert s + "" + "" == s;
    }
  }

  /** String.prototype.includes. */
  predicate Includes(s: string, part: string) {
    exists i :: 0 <= i <= |s| && StartsAt(s, i, part)
  }

  /** Lower case as far as ASCII goes. */
  function ToLower(s: string): (t: string)
    ensures |t| == |s|
  {
    seq(|s|, i requires 0 <= i < |s| => if 'A' <= s[i] <= 'Z' then s[i] - 'A' + 'a' else s[i])
  }

  /** The end of the run of characters of one kind that starts at i. */
  function RunEnd(kind: char -> bool, s: string, i: nat): (end: nat)
    requires i <= |s|
    ensures i <= end <= |s|
    ensures forall k :: i <= k < end ==> kind(s[k])
    ensures end < |s| ==> !kind(s[end])
    decreases |s| - i
  {
    if i < |s| && kind(s[i]) then RunEnd(kind, s, i + 1) else i
  }

  /** Where a run of characters of one kind ends. */
  lemma {:induction false} RunEnds(kind: char -> bool, s: string, i: nat, j: nat)
    requires i <= j <= |s| && (forall k :: i <= k < j ==> kind(s[k])) && (j < |s| ==> !kind(s[j]))
    ensures RunEnd(kind, s, i) == j
    decreases j - i
  {
    if i < j {
      RunEnds(kind, s, i + 1, j);
    }
  }
}
