/** The bounded output capture of scripts/control-ui-i18n.ts, over UTF-16 code units, with the
    surrogate-safe slice of packages/normalization-core/src/utf16-slice.ts. */
module OutputTail {
  import opened Prelude
  import opened Utf8

  datatype Capture = Capture(text: seq<Unit>, truncatedChars: nat)

  const NOTHING: Capture := Capture([], 0)

  /** A cut before position i would separate a surrogate pair. */
  predicate SplitsPair(s: seq<Unit>, i: int) {
    0 < i < |s| && IsLowSurrogate(s[i]) && IsHighSurrogate(s[i - 1])
  }

  /** Where a surrogate-safe slice of the last maxChars units starts. */
  function SafeStart(input: seq<Unit>, maxChars: nat): (start: nat)
    ensures start <= |input| && |input| - start <= maxChars
    ensures maxChars > 0 && |input| > maxChars ==> |input| - start >= maxChars - 1
  {
    var from := if |input| > maxChars then |input| - maxChars else 0;
    if SplitsPair(input, from) then from + 1 else from
  }

  /** sliceUtf16Safe(input, -maxChars). */
  function SliceUtf16Safe(input: seq<Unit>, maxChars: nat): seq<Unit> {
    input[SafeStart(input, maxChars)..]
  }

  function AppendBoundedProcessOutput(capture: Capture, chunk: seq<Unit>, maxChars: nat): Capture {
    var nextText := capture.text + chunk;
    if |nextText| <= maxChars then Capture(nextText, capture.truncatedChars)
    else
      var text := SliceUtf16Safe(nextText, maxChars);
      Capture(text, capture.truncatedChars + |nextText| - |text|)
  }

  /** What the whole stream comes to, cut once: nothing is lost uncounted, at most one unit of
      room is left unused, and no surrogate pair is cut. */
  function Tail(stream: seq<Unit>, maxChars: nat): (capture: Capture)
    ensures |capture.text| <= maxChars
    ensures capture.truncatedChars <= |stream| && capture.text == stream[capture.truncatedChars..]
    ensures |stream| <= maxChars ==> capture.text == stream
    ensures |stream| > maxChars ==>
      |capture.text| == maxChars || (|capture.text| == maxChars - 1 && SplitsPair(stream, |stream| - maxChars))
    ensures !SplitsPair(stream, capture.truncatedChars)
  {
    Capture(SliceUtf16Safe(stream, maxChars), SafeStart(stream, maxChars))
  }

  /** Chunk by chunk from the first, each decoded on its own. */
  function CaptureAll(chunks: seq<seq<Byte>>, maxChars: nat): Capture
  {
    if chunks == [] then NOTHING
    else AppendBoundedProcessOutput(CaptureAll(Init(chunks), maxChars), Decode(Last(chunks)), maxChars)
  }

  function Init<T>(xs: seq<T>): seq<T>
    requires xs != []
  {
    xs[..|xs| - 1]
  }

  function Last<T>(xs: seq<T>): T
    requires xs != []
  {
    xs[|xs| - 1]
  }

  /** All bytes of the output. */
  function Stream(chunks: seq<seq<Byte>>): seq<Byte> {
    if chunks == [] then [] else Stream(Init(chunks)) + Last(chunks)
  }

  /** What the chunks decode to one by one. */
  function DecodedApart(chunks: seq<seq<Byte>>): seq<Unit> {
    if chunks == [] then [] else DecodedApart(Init(chunks)) + Decode(Last(chunks))
  }

  lemma SplitsShifted(s: seq<Unit>, cut: nat, i: nat)
    requires cut <= |s| && 0 < i <= |s| - cut
    ensures SplitsPair(s[cut..], i) <==> SplitsPair(s, cut + i)
  {
  }

  lemma SplitsExtended(s: seq<Unit>, more: seq<Unit>, i: nat)
    requires i < |s|
    ensures SplitsPair(s, i) <==> SplitsPair(s + more, i)
  {
  }

  /** Where the tail of a stream starts once more of it has come. */
  lemma StartMoves(stream: seq<Unit>, chunk: seq<Unit>, maxChars: nat)
    requires maxChars > 0
    ensures var cut, all := SafeStart(stream, maxChars), stream + chunk;
      SafeStart(all, maxChars) == if |all| - cut <= maxChars then cut else cut + SafeStart(all[cut..], maxChars)
  {
    var cut, all := SafeStart(stream, maxChars), stream + chunk;
    if |all| - cut > maxChars {
      SplitsShifted(all, cut, |all| - cut - maxChars);
    } else if |stream| > maxChars {
      if chunk == [] {
        assert all == stream;
      } else {
        SplitsExtended(stream, chunk, cut - 1);
      }
    }
  }

  /** Cutting the tail of a tail with more output behind it is cutting the tail of everything. */
  lemma TailOfTail(stream: seq<Unit>, chunk: seq<Unit>, maxChars: nat)
    requires maxChars > 0
    ensures AppendBoundedProcessOutput(Tail(stream, maxChars), chunk, maxChars) == Tail(stream + chunk, maxChars)
  {
    StartMoves(stream, chunk, maxChars);
    var cut, all := SafeStart(stream, maxChars), stream + chunk;
    DropExtended(stream, chunk, cut);
    if |all| - cut > maxChars {
      DropDrop(all, cut, SafeStart(all[cut..], maxChars));
    }
  }

  lemma DropExtended(s: seq<Unit>, more: seq<Unit>, cut: nat)
    requires cut <= |s|
    ensures s[cut..] + more == (s + more)[cut..]
  {
  }

  lemma DropDrop(s: seq<Unit>, cut: nat, k: nat)
    requires cut + k <= |s|
    ensures s[cut..][k..] == s[cut + k..]
  {
  }

  /** Nothing is cut twice: what is kept is the tail that a single surrogate-safe cut of the decoded
      chunks would keep, and every code unit is either kept or counted. */
  lemma {:induction false} CaptureIsOneCut(chunks: seq<seq<Byte>>, maxChars: nat)
    requires maxChars > 0
    ensures CaptureAll(chunks, maxChars) == Tail(DecodedApart(chunks), maxChars)
  {
    if chunks != [] {
      CaptureIsOneCut(Init(chunks), maxChars);
      TailOfTail(DecodedApart(Init(chunks)), Decode(Last(chunks)), maxChars);
    }
  }

  // Where the chunking shows.

  /** The last boundary between chunks cuts a UTF-8 sequence. */
  predicate CutAtLast(chunks: seq<seq<Byte>>) {
    chunks != [] && CutsSequence(Stream(Init(chunks)), Last(chunks))
  }

  /** No boundary between chunks cuts a UTF-8 sequence. */
  predicate Whole(chunks: seq<seq<Byte>>) {
    chunks == [] || (Whole(Init(chunks)) && !CutAtLast(chunks))
  }

  /** The boundaries that cut a sequence cut off its fourth byte. */
  predicate CutsAreLate(chunks: seq<seq<Byte>>) {
    || chunks == []
    || (CutsAreLate(Init(chunks)) && (CutAtLast(chunks) ==> |BegunAfter([], Stream(Init(chunks)))| == 3))
  }

  /** Where in the decoded output the last cut sequence ends, if there is one. */
  function LastCutEnd(chunks: seq<seq<Byte>>): nat {
    if chunks == [] then 0
    else if CutAtLast(chunks) then |Decode(Stream(Init(chunks)))| + 1
    else LastCutEnd(Init(chunks))
  }

  /** Every cut sequence has as many units as its parts have replacements, and is truncated. */
  predicate CutsAreLost(chunks: seq<seq<Byte>>, maxChars: nat) {
    && CutsAreLate(chunks)
    && (LastCutEnd(chunks) == 0 || LastCutEnd(chunks) + maxChars <= |Decode(Stream(chunks))|)
  }

  lemma FourthByte(p: seq<Byte>, b: seq<Byte>)
    requires Begun(p) && |p| == 3 && b != [] && Continues(p, b[0])
    ensures Leads(p + [b[0]]) && Length(p[0]) == 4
    ensures DecodeFrom(p, b) == Units(CodePoint(p + [b[0]])) + Decode(b[1..])
    ensures Decode(b) == [REPLACEMENT] + Decode(b[1..])
  {
    PushContinues(p, b[0]);
  }

  /** A sequence of which only the fourth byte is cut off. */
  lemma LateCut(a: seq<Byte>, b: seq<Byte>)
    requires CutsSequence(a, b) && |BegunAfter([], a)| == 3
    ensures |Decode(a)| > 0
    ensures exists high, low ::
              && IsHighSurrogate(high) && IsLowSurrogate(low)
              && Decode(a + b) == Init(Decode(a)) + ([high, low] + Decode(b[1..]))
    ensures Decode(b) == [REPLACEMENT] + Decode(b[1..])
  {
    var p := BegunAfter([], a);
    DecodeAppend([], a, b);
    DecodeSettled(a);
    FourthByte(p, b);
    var units := Units(CodePoint(p + [b[0]]));
    assert units == [units[0], units[1]];
    assert Init(Decode(a)) == Settled([], a);
  }

  /** What two decodings have in common if the last sequence that differs ends at end. */
  ghost predicate AgreeFrom(apart: seq<Unit>, whole: seq<Unit>, end: nat) {
    && |apart| == |whole| && end <= |whole|
    && apart[end..] == whole[end..]
    && (end > 0 ==>
          && end >= 2 && apart[end - 1] == REPLACEMENT
          && IsHighSurrogate(whole[end - 2]) && IsLowSurrogate(whole[end - 1]))
  }

  lemma AgreeLonger(apart: seq<Unit>, whole: seq<Unit>, end: nat, more: seq<Unit>)
    requires AgreeFrom(apart, whole, end)
    ensures AgreeFrom(apart + more, whole + more, end)
  {
    assert (apart + more)[end..] == apart[end..] + more;
    assert (whole + more)[end..] == whole[end..] + more;
  }

  lemma AgreeBehind(apart: seq<Unit>, whole: seq<Unit>, high: Unit, low: Unit, more: seq<Unit>)
    requires |apart| == |whole| > 0 && IsHighSurrogate(high) && IsLowSurrogate(low)
    ensures AgreeFrom(apart + ([REPLACEMENT] + more), Init(whole) + ([high, low] + more), |whole| + 1)
  {
    var a, w := apart + ([REPLACEMENT] + more), Init(whole) + ([high, low] + more);
    assert a[|whole| + 1..] == more == w[|whole| + 1..];
  }

  /** A cut makes the decoding shorter than its parts, but for a late cut. */
  lemma CutShortens(a: seq<Byte>, b: seq<Byte>)
    ensures |Decode(a + b)| <= |Decode(a)| + |Decode(b)|
    ensures CutsSequence(a, b) && |BegunAfter([], a)| != 3 ==> |Decode(a + b)| < |Decode(a)| + |Decode(b)|
  {
    if CutsSequence(a, b) {
      DecodeAppend([], a, b);
      DecodeSettled(a);
      ApartIsLonger(BegunAfter([], a), b);
    } else {
      UncutIsInvisible(a, b);
    }
  }

  lemma LateCutAgrees(a: seq<Byte>, b: seq<Byte>, apart: seq<Unit>)
    requires CutsSequence(a, b) && |BegunAfter([], a)| == 3 && |apart| == |Decode(a)|
    ensures AgreeFrom(apart + Decode(b), Decode(a + b), |Decode(a)| + 1)
  {
    LateCut(a, b);
    var high, low :|
      && IsHighSurrogate(high) && IsLowSurrogate(low)
      && Decode(a + b) == Init(Decode(a)) + ([high, low] + Decode(b[1..]));
    AgreeBehind(apart, Decode(a), high, low, Decode(b[1..]));
  }

  lemma CompareOneMore(a: seq<Byte>, b: seq<Byte>, apart: seq<Unit>, late: bool, end: nat)
    requires |Decode(a)| <= |apart|
    requires if late then AgreeFrom(apart, Decode(a), end) else |Decode(a)| < |apart|
    ensures |Decode(a + b)| <= |apart + Decode(b)|
    ensures if late && (CutsSequence(a, b) ==> |BegunAfter([], a)| == 3)
      then AgreeFrom(apart + Decode(b), Decode(a + b), if CutsSequence(a, b) then |Decode(a)| + 1 else end)
      else |Decode(a + b)| < |apart + Decode(b)|
  {
    CutShortens(a, b);
    if late && !CutsSequence(a, b) {
      UncutIsInvisible(a, b);
      AgreeLonger(apart, Decode(a), end, Decode(b));
    } else if late && |BegunAfter([], a)| == 3 {
      LateCutAgrees(a, b, apart);
    }
  }

  lemma {:induction false} Compare(chunks: seq<seq<Byte>>)
    ensures |Decode(Stream(chunks))| <= |DecodedApart(chunks)|
    ensures if CutsAreLate(chunks) then AgreeFrom(DecodedApart(chunks), Decode(Stream(chunks)), LastCutEnd(chunks))
            else |Decode(Stream(chunks))| < |DecodedApart(chunks)|
  {
    if chunks != [] {
      Compare(Init(chunks));
      CompareOneMore(Stream(Init(chunks)), Last(chunks), DecodedApart(Init(chunks)),
                     CutsAreLate(Init(chunks)), LastCutEnd(Init(chunks)));
    }
  }

  lemma AgreeAt(apart: seq<Unit>, whole: seq<Unit>, end: nat, i: nat)
    requires end <= i < |whole| == |apart| && apart[end..] == whole[end..]
    ensures apart[i] == whole[i]
  {
    assert apart[end..][i - end] == apart[i];
    assert whole[end..][i - end] == whole[i];
  }

  lemma SplitAlike(apart: seq<Unit>, whole: seq<Unit>, end: nat, from: nat)
    requires AgreeFrom(apart, whole, end) && (end == 0 || end <= from)
    ensures SplitsPair(apart, from) <==> SplitsPair(whole, from)
  {
    if 0 < from < |whole| {
      AgreeAt(apart, whole, end, from);
      if end < from {
        AgreeAt(apart, whole, end, from - 1);
      }
    }
  }

  /** A cut that starts behind the last difference. */
  lemma LostInTail(apart: seq<Unit>, whole: seq<Unit>, end: nat, maxChars: nat)
    requires AgreeFrom(apart, whole, end) && maxChars > 0
    requires end == 0 || end + maxChars <= |whole|
    ensures Tail(apart, maxChars) == Tail(whole, maxChars)
  {
    SplitAlike(apart, whole, end, if |whole| > maxChars then |whole| - maxChars else 0);
    var start := SafeStart(whole, maxChars);
    DropDrop(apart, end, start - end);
    DropDrop(whole, end, start - end);
  }

  /** A cut that leaves the last difference in. */
  lemma ShownInTail(apart: seq<Unit>, whole: seq<Unit>, end: nat, maxChars: nat)
    requires AgreeFrom(apart, whole, end)
    requires end > 0 && end + maxChars > |whole|
    ensures Tail(apart, maxChars) != Tail(whole, maxChars)
  {
    var start := SafeStart(whole, maxChars);
    if start < end {
      assert apart[start..][end - 1 - start] == apart[end - 1];
      assert whole[start..][end - 1 - start] == whole[end - 1];
    }
  }

  /** The capture is the tail of the decoded output exactly if every sequence that a chunk boundary
      cuts is lost to the limit with as many units as its parts make. */
  lemma ChunkingIsInvisible(chunks: seq<seq<Byte>>, maxChars: nat)
    requires maxChars > 0
    ensures CaptureAll(chunks, maxChars) == Tail(Decode(Stream(chunks)), maxChars) <==> CutsAreLost(chunks, maxChars)
  {
    CaptureIsOneCut(chunks, maxChars);
    Compare(chunks);
    if CutsAreLate(chunks) {
      var apart, whole, end := DecodedApart(chunks), Decode(Stream(chunks)), LastCutEnd(chunks);
      if end == 0 || end + maxChars <= |whole| {
        LostInTail(apart, whole, end, maxChars);
      } else {
        ShownInTail(apart, whole, end, maxChars);
      }
    }
  }

  lemma {:induction false} WholeMeansUncut(chunks: seq<seq<Byte>>)
    ensures Whole(chunks) <==> CutsAreLate(chunks) && LastCutEnd(chunks) == 0
  {
    if chunks != [] {
      WholeMeansUncut(Init(chunks));
    }
  }

  /** If no boundary cuts a sequence the chunking does not show; if nothing was truncated it does
      not show only then. */
  lemma WholeChunksDoNotShow(chunks: seq<seq<Byte>>, maxChars: nat)
    requires maxChars > 0
    ensures Whole(chunks) ==> CaptureAll(chunks, maxChars) == Tail(Decode(Stream(chunks)), maxChars)
    ensures CaptureAll(chunks, maxChars).truncatedChars == 0 ==>
      (CaptureAll(chunks, maxChars).text == Decode(Stream(chunks)) <==> Whole(chunks))
  {
    ChunkingIsInvisible(chunks, maxChars);
    WholeMeansUncut(chunks);
    CaptureIsOneCut(chunks, maxChars);
    Compare(chunks);
  }

  function EncodeChunks(texts: seq<seq<Scalar>>): (chunks: seq<seq<Byte>>)
    ensures |chunks| == |texts|
  {
    if texts == [] then [] else EncodeChunks(Init(texts)) + [EncodeAll(Last(texts))]
  }

  function TextStream(texts: seq<seq<Scalar>>): seq<Unit> {
    if texts == [] then [] else TextStream(Init(texts)) + Utf16(Last(texts))
  }

  /** Output that is text, cut between characters, is captured as the tail of the text. */
  lemma {:induction false} TextIsCaptured(texts: seq<seq<Scalar>>, maxChars: nat)
    requires maxChars > 0
    ensures CaptureAll(EncodeChunks(texts), maxChars) == Tail(TextStream(texts), maxChars)
  {
    if texts != [] {
      var chunks := EncodeChunks(texts);
      assert Init(chunks) == EncodeChunks(Init(texts));
      TextIsCaptured(Init(texts), maxChars);
      DecodeUndoesEncode(Last(texts));
      TailOfTail(TextStream(Init(texts)), Utf16(Last(texts)), maxChars);
    }
  }

  /** An e with an acute accent. */
  lemma AccentDecodes()
    ensures Decode([0xC3, 0xA9]) == [0xE9]
    ensures Decode([0xC3]) == [REPLACEMENT] && Decode([0xA9]) == [REPLACEMENT]
  {
    var p, rest := [0xC3 as Byte], [0xA9 as Byte];
    assert p + rest == [0xC3, 0xA9] && [0xC3 as Byte, 0xA9][1..] == rest && p[1..] == [] && rest[1..] == [];
    assert DecodeFrom(p, rest) == [0xE9];
  }

  lemma CaptureOne(chunk: seq<Byte>, maxChars: nat)
    requires |Decode(chunk)| <= maxChars
    ensures CaptureAll([chunk], maxChars) == Capture(Decode(chunk), 0)
  {
    assert Init([chunk]) == [];
  }

  /** It is captured from one chunk, but not from two. */
  lemma TwoChunksShow()
    ensures CaptureAll([[0xC3, 0xA9]], 2) == Capture([0xE9], 0)
    ensures CaptureAll([[0xC3], [0xA9]], 2) == Capture([REPLACEMENT, REPLACEMENT], 0)
  {
    AccentDecodes();
    CaptureOne([0xC3, 0xA9], 2);
    CaptureOne([0xC3], 2);
    var first, second := [0xC3 as Byte], [0xA9 as Byte];
    assert Init([first, second]) == [first] && Last([first, second]) == second;
  }
}
