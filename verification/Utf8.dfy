/** UTF-8 as String(chunk) decodes a Buffer: every chunk on its own, ill-formed parts replaced.

    Sections 3 and 4 of RFC 3629, with one U+FFFD for each maximal part of an ill-formed sequence.
 */
module Utf8 {
  import opened Prelude

  /** A UTF-16 code unit. */
  newtype Unit = x: int | 0 <= x < 0x1_0000

  const REPLACEMENT: Unit := 0xFFFD

  predicate IsHighSurrogate(u: Unit) {
    0xD800 <= u <= 0xDBFF
  }

  predicate IsLowSurrogate(u: Unit) {
    0xDC00 <= u <= 0xDFFF
  }

  /** How many bytes a sequence has that starts so; none starts with the others. */
  function Length(lead: Byte): nat {
    if lead < 0x80 then 1
    else if 0xC2 <= lead <= 0xDF then 2
    else if 0xE0 <= lead <= 0xEF then 3
    else if 0xF0 <= lead <= 0xF4 then 4
    else 0
  }

  /** A byte that can stand at position i of a sequence with this lead. */
  predicate Fits(lead: Byte, i: nat, b: Byte) {
    && 0x80 <= b <= 0xBF
    && (i == 1 && lead == 0xE0 ==> 0xA0 <= b)
    && (i == 1 && lead == 0xED ==> b <= 0x9F)
    && (i == 1 && lead == 0xF0 ==> 0x90 <= b)
    && (i == 1 && lead == 0xF4 ==> b <= 0x8F)
  }

  /** The first bytes of a well-formed sequence, perhaps all of it. */
  predicate Leads(p: seq<Byte>) {
    && 0 < |p| <= Length(p[0])
    && forall i :: 1 <= i < |p| ==> Fits(p[0], i, p[i])
  }

  /** Nothing, or the first bytes of a well-formed sequence that is not complete. */
  predicate Begun(p: seq<Byte>) {
    p == [] || (Leads(p) && |p| < Length(p[0]))
  }

  predicate Continues(p: seq<Byte>, b: Byte)
    requires Begun(p)
  {
    p != [] && Fits(p[0], |p|, b)
  }

  function CodePoint(p: seq<Byte>): (code: nat)
    requires Leads(p) && |p| == Length(p[0])
    ensures if |p| == 4 then 0x1_0000 <= code < 0x11_0000 else code < 0x1_0000
  {
    if |p| == 1 then p[0] as nat
    else if |p| == 2 then (p[0] as nat - 0xC0) * 0x40 + Low(p[1])
    else if |p| == 3 then (p[0] as nat - 0xE0) * 0x1000 + Low(p[1]) * 0x40 + Low(p[2])
    else (p[0] as nat - 0xF0) * 0x4_0000 + Low(p[1]) * 0x1000 + Low(p[2]) * 0x40 + Low(p[3])
  }

  /** What a continuation byte holds. */
  function Low(b: Byte): nat {
    b as nat % 0x40
  }

  /** A code point in UTF-16. */
  function Units(code: nat): (units: seq<Unit>)
    requires code < 0x11_0000
    ensures code < 0x1_0000 ==> |units| == 1
    ensures 0x1_0000 <= code ==> |units| == 2 && IsHighSurrogate(units[0]) && IsLowSurrogate(units[1])
  {
    if code < 0x1_0000 then [code as Unit]
    else [(0xD800 + (code - 0x1_0000) / 0x400) as Unit, (0xDC00 + (code - 0x1_0000) % 0x400) as Unit]
  }

  datatype Pushed = Pushed(units: seq<Unit>, begun: seq<Byte>)

  function Flush(p: seq<Byte>): seq<Unit> {
    if p == [] then [] else [REPLACEMENT]
  }

  /** More of a well-formed sequence. */
  function Grown(p: seq<Byte>): (next: Pushed)
    requires Leads(p)
    ensures Begun(next.begun)
  {
    if |p| == Length(p[0]) then Pushed(Units(CodePoint(p)), []) else Pushed([], p)
  }

  /** The decoder takes one byte. */
  function Push(p: seq<Byte>, b: Byte): (next: Pushed)
    requires Begun(p)
    ensures Begun(next.begun)
  {
    if Continues(p, b) then Grown(p + [b])
    else if Length(b) == 0 then Pushed(Flush(p) + [REPLACEMENT], [])
    else Pushed(Flush(p) + Grown([b]).units, Grown([b]).begun)
  }

  /** What the bytes decode to behind a sequence that has begun. */
  function DecodeFrom(p: seq<Byte>, bytes: seq<Byte>): seq<Unit>
    requires Begun(p)
    decreases |bytes|
  {
    if bytes == [] then Flush(p) else Push(p, bytes[0]).units + DecodeFrom(Push(p, bytes[0]).begun, bytes[1..])
  }

  /** String(chunk). */
  function Decode(bytes: seq<Byte>): seq<Unit> {
    DecodeFrom([], bytes)
  }

  /** The sequence that has begun behind p and the bytes and is not complete. */
  function BegunAfter(p: seq<Byte>, bytes: seq<Byte>): (q: seq<Byte>)
    requires Begun(p)
    ensures Begun(q)
    decreases |bytes|
  {
    if bytes == [] then p else BegunAfter(Push(p, bytes[0]).begun, bytes[1..])
  }

  /** The boundary between the bytes cuts a sequence: b starts with more of what a ends in. */
  predicate CutsSequence(a: seq<Byte>, b: seq<Byte>) {
    b != [] && Continues(BegunAfter([], a), b[0])
  }

  /** What the bytes decode to without what has only begun. */
  function Settled(p: seq<Byte>, bytes: seq<Byte>): seq<Unit>
    requires Begun(p)
    decreases |bytes|
  {
    if bytes == [] then [] else Push(p, bytes[0]).units + Settled(Push(p, bytes[0]).begun, bytes[1..])
  }

  lemma Regroup<T>(x: seq<T>, y: seq<T>, z: seq<T>)
    ensures (x + y) + z == x + (y + z)
  {
  }

  lemma {:induction false} DecodeAppend(p: seq<Byte>, a: seq<Byte>, b: seq<Byte>)
    requires Begun(p)
    ensures DecodeFrom(p, a + b) == Settled(p, a) + DecodeFrom(BegunAfter(p, a), b)
    decreases |a|
  {
    if a == [] {
      assert a + b == b;
    } else {
      var next := Push(p, a[0]);
      assert (a + b)[0] == a[0] && (a + b)[1..] == a[1..] + b;
      DecodeAppend(next.begun, a[1..], b);
      Regroup(next.units, Settled(next.begun, a[1..]), DecodeFrom(BegunAfter(p, a), b));
    }
  }

  lemma DecodeSettled(a: seq<Byte>)
    ensures Decode(a) == Settled([], a) + Flush(BegunAfter([], a))
  {
    DecodeAppend([], a, []);
    assert a + [] == a;
  }

  /** A byte that does not continue what has begun. */
  lemma PushApart(p: seq<Byte>, b: Byte)
    requires Begun(p) && !Continues(p, b)
    ensures Push(p, b).units == Flush(p) + Push([], b).units
    ensures Push(p, b).begun == Push([], b).begun
  {
  }

  lemma PushContinues(p: seq<Byte>, b: Byte)
    requires Begun(p) && Continues(p, b)
    ensures Leads(p + [b]) && Length((p + [b])[0]) == Length(p[0])
    ensures Push(p, b) == Grown(p + [b])
    ensures Push([], b) == Pushed([REPLACEMENT], [])
  {
  }

  lemma DecodeApart(p: seq<Byte>, b: seq<Byte>)
    requires Begun(p) && !(b != [] && Continues(p, b[0]))
    ensures DecodeFrom(p, b) == Flush(p) + Decode(b)
  {
    if b != [] {
      PushApart(p, b[0]);
      Regroup(Flush(p), Push([], b[0]).units, DecodeFrom(Push([], b[0]).begun, b[1..]));
    }
  }

  /** A boundary that cuts no sequence does not show. */
  lemma UncutIsInvisible(a: seq<Byte>, b: seq<Byte>)
    requires !CutsSequence(a, b)
    ensures Decode(a + b) == Decode(a) + Decode(b)
  {
    var p := BegunAfter([], a);
    DecodeAppend([], a, b);
    DecodeSettled(a);
    DecodeApart(p, b);
    Regroup(Settled([], a), Flush(p), Decode(b));
  }

  /** How many more units the bytes make when they are decoded apart from what p begins. */
  lemma {:induction false} ApartIsLonger(p: seq<Byte>, b: seq<Byte>)
    requires p != [] && Begun(p)
    ensures |DecodeFrom(p, b)| <= 1 + |Decode(b)|
    ensures b != [] && Continues(p, b[0]) && |p| < 3 ==> |DecodeFrom(p, b)| < 1 + |Decode(b)|
    decreases |b|
  {
    if b != [] && Continues(p, b[0]) {
      var q := p + [b[0]];
      PushContinues(p, b[0]);
      assert Decode(b) == [REPLACEMENT] + Decode(b[1..]);
      if |q| < Length(q[0]) {
        ApartIsLonger(q, b[1..]);
      }
    }
  }

  // Text that is encoded as section 3 of RFC 3629 says decodes to itself.

  predicate IsScalar(code: nat) {
    code < 0xD800 || 0xE000 <= code < 0x11_0000
  }

  /** A continuation byte for the lowest six bits. */
  function Continuation(code: nat): (b: Byte)
    ensures 0x80 <= b <= 0xBF && Low(b) == code % 0x40
  {
    (0x80 + code % 0x40) as Byte
  }

  function Encode(code: nat): seq<Byte>
    requires IsScalar(code)
  {
    if code < 0x80 then [code as Byte]
    else if code < 0x800 then [(0xC0 + code / 0x40) as Byte, Continuation(code)]
    else if code < 0x1_0000 then
      [(0xE0 + code / 0x1000) as Byte, Continuation(code / 0x40), Continuation(code)]
    else
      [(0xF0 + code / 0x4_0000) as Byte, Continuation(code / 0x1000), Continuation(code / 0x40), Continuation(code)]
  }

  lemma Sextets(code: nat)
    ensures code == code / 0x40 * 0x40 + code % 0x40
    ensures code / 0x40 == code / 0x1000 * 0x40 + code / 0x40 % 0x40
    ensures code / 0x1000 == code / 0x4_0000 * 0x40 + code / 0x1000 % 0x40
  {
    assert code / 0x1000 == code / 0x40 / 0x40;
    assert code / 0x4_0000 == code / 0x1000 / 0x40;
  }

  lemma ShortEncodeStandsFor(code: nat)
    requires code < 0x800
    ensures Leads(Encode(code)) && |Encode(code)| == Length(Encode(code)[0])
    ensures CodePoint(Encode(code)) == code
  {
    Sextets(code);
  }

  lemma MediumEncodeStandsFor(code: nat)
    requires IsScalar(code) && 0x800 <= code < 0x1_0000
    ensures Leads(Encode(code)) && |Encode(code)| == Length(Encode(code)[0])
    ensures CodePoint(Encode(code)) == code
  {
    Sextets(code);
  }

  lemma LongEncodeStandsFor(code: nat)
    requires IsScalar(code) && 0x1_0000 <= code
    ensures Leads(Encode(code)) && |Encode(code)| == Length(Encode(code)[0])
    ensures CodePoint(Encode(code)) == code
  {
    Sextets(code);
  }

  /** The encoding is well-formed and complete, and stands for the code point. */
  lemma EncodeStandsFor(code: nat)
    requires IsScalar(code)
    ensures Leads(Encode(code)) && |Encode(code)| == Length(Encode(code)[0])
    ensures CodePoint(Encode(code)) == code
  {
    if code < 0x800 {
      ShortEncodeStandsFor(code);
    } else if code < 0x1_0000 {
      MediumEncodeStandsFor(code);
    } else {
      LongEncodeStandsFor(code);
    }
  }

  type Scalar = code: nat | IsScalar(code)

  function EncodeAll(text: seq<Scalar>): seq<Byte> {
    if text == [] then [] else Encode(text[0]) + EncodeAll(text[1..])
  }

  function Utf16(text: seq<Scalar>): seq<Unit> {
    if text == [] then [] else Units(text[0]) + Utf16(text[1..])
  }

  /** Its next byte makes the beginning of a well-formed sequence longer. */
  lemma PushGrows(p: seq<Byte>, k: nat)
    requires Leads(p) && |p| == Length(p[0]) && k < |p|
    ensures Leads(p[..k + 1]) && Begun(p[..k])
    ensures Push(p[..k], p[k]) == Grown(p[..k + 1])
  {
    assert p[..k] + [p[k]] == p[..k + 1];
    if k > 0 {
      assert Continues(p[..k], p[k]);
    }
  }

  lemma {:induction false} SequenceDecodes(p: seq<Byte>, k: nat)
    requires Leads(p) && |p| == Length(p[0]) && k < |p| && Begun(p[..k])
    ensures Settled(p[..k], p[k..]) == Units(CodePoint(p)) && BegunAfter(p[..k], p[k..]) == []
    decreases |p| - k
  {
    PushGrows(p, k);
    assert p[k..][0] == p[k] && p[k..][1..] == p[k + 1..];
    if k + 1 < |p| {
      SequenceDecodes(p, k + 1);
    } else {
      assert p[..k + 1] == p;
    }
  }

  lemma {:induction false} DecodeUndoesEncode(text: seq<Scalar>)
    ensures Decode(EncodeAll(text)) == Utf16(text) && BegunAfter([], EncodeAll(text)) == []
  {
    if text != [] {
      var p, rest := Encode(text[0]), EncodeAll(text[1..]);
      EncodeStandsFor(text[0]);
      assert p[..0] == [] && p[0..] == p;
      SequenceDecodes(p, 0);
      DecodeAppend([], p, rest);
      BegunAppend([], p, rest);
      DecodeUndoesEncode(text[1..]);
    }
  }

  lemma {:induction false} BegunAppend(p: seq<Byte>, a: seq<Byte>, b: seq<Byte>)
    requires Begun(p)
    ensures BegunAfter(p, a + b) == BegunAfter(BegunAfter(p, a), b)
    decreases |a|
  {
    if a == [] {
      assert a + b == b;
    } else {
      assert (a + b)[0] == a[0] && (a + b)[1..] == a[1..] + b;
      BegunAppend(Push(p, a[0]).begun, a[1..], b);
    }
  }

  // Nothing else decodes without a replacement.

  lemma LowOf(b: Byte)
    requires 0x80 <= b <= 0xBF
    ensures b as nat == 0x80 + Low(b) && Continuation(Low(b)) == b && Low(b) < 0x40
  {
  }

  lemma ContinuationOfSum(high: nat, low: nat)
    requires low < 0x40
    ensures (high * 0x40 + low) / 0x40 == high && Continuation(high * 0x40 + low) == Continuation(low)
  {
  }

  lemma EncodeTwo(p: seq<Byte>)
    requires Leads(p) && |p| == 2 == Length(p[0])
    ensures IsScalar(CodePoint(p)) && Encode(CodePoint(p)) == p
  {
    assert Fits(p[0], 1, p[1]);
    LowOf(p[1]);
    ContinuationOfSum(p[0] as nat - 0xC0, Low(p[1]));
  }

  lemma EncodeThree(p: seq<Byte>)
    requires Leads(p) && |p| == 3 == Length(p[0])
    ensures IsScalar(CodePoint(p)) && Encode(CodePoint(p)) == p
  {
    assert Fits(p[0], 1, p[1]) && Fits(p[0], 2, p[2]);
    LowOf(p[1]);
    LowOf(p[2]);
    var high := p[0] as nat - 0xE0;
    ContinuationOfSum(high, Low(p[1]));
    ContinuationOfSum(high * 0x40 + Low(p[1]), Low(p[2]));
    Sextets(CodePoint(p));
  }

  lemma EncodeFour(p: seq<Byte>)
    requires Leads(p) && |p| == 4 == Length(p[0])
    ensures IsScalar(CodePoint(p)) && Encode(CodePoint(p)) == p
  {
    assert Fits(p[0], 1, p[1]) && Fits(p[0], 2, p[2]) && Fits(p[0], 3, p[3]);
    LowOf(p[1]);
    LowOf(p[2]);
    LowOf(p[3]);
    var high := p[0] as nat - 0xF0;
    ContinuationOfSum(high, Low(p[1]));
    ContinuationOfSum(high * 0x40 + Low(p[1]), Low(p[2]));
    ContinuationOfSum((high * 0x40 + Low(p[1])) * 0x40 + Low(p[2]), Low(p[3]));
    Sextets(CodePoint(p));
  }

  /** A complete well-formed sequence is the encoding of its code point, and no other is. */
  lemma EncodeUndoesCodePoint(p: seq<Byte>)
    requires Leads(p) && |p| == Length(p[0])
    ensures IsScalar(CodePoint(p)) && Encode(CodePoint(p)) == p
  {
    if |p| == 2 {
      EncodeTwo(p);
    } else if |p| == 3 {
      EncodeThree(p);
    } else if |p| == 4 {
      EncodeFour(p);
    } else {
      assert p == [p[0]];
    }
  }

  lemma ReplacementShows(p: seq<Byte>, b: Byte, q: seq<Byte>)
    requires Begun(p) && REPLACEMENT !in Push(p, b).units && q == p + [b]
    ensures Leads(q)
    ensures Push(p, b) == if |q| == Length(q[0]) then Pushed(Units(CodePoint(q)), []) else Pushed([], q)
  {
    if !Continues(p, b) {
      assert p == [];
    }
  }

  lemma FirstPush(p: seq<Byte>, bytes: seq<Byte>)
    requires Begun(p) && bytes != [] && REPLACEMENT !in DecodeFrom(p, bytes)
    ensures REPLACEMENT !in Push(p, bytes[0]).units
    ensures REPLACEMENT !in DecodeFrom(Push(p, bytes[0]).begun, bytes[1..])
  {
    var a, b := Push(p, bytes[0]).units, DecodeFrom(Push(p, bytes[0]).begun, bytes[1..]);
    assert forall u :: u in a ==> u in a + b;
    assert forall u :: u in b ==> u in a + b;
  }

  lemma TextBegins(q: seq<Byte>, rest: seq<Scalar>)
    requires Leads(q) && |q| == Length(q[0])
    ensures IsScalar(CodePoint(q))
    ensures EncodeAll([CodePoint(q)] + rest) == q + EncodeAll(rest)
    ensures Utf16([CodePoint(q)] + rest) == Units(CodePoint(q)) + Utf16(rest)
  {
    EncodeUndoesCodePoint(q);
    assert ([CodePoint(q)] + rest)[1..] == rest;
  }

  lemma DecodeStep(p: seq<Byte>, bytes: seq<Byte>, units: seq<Unit>, begun: seq<Byte>)
    requires Begun(p) && bytes != [] && Push(p, bytes[0]) == Pushed(units, begun)
    ensures Begun(begun) && DecodeFrom(p, bytes) == units + DecodeFrom(begun, bytes[1..])
  {
  }

  /** The bytes behind p complete the encoding of the text. */
  ghost predicate Spells(p: seq<Byte>, bytes: seq<Byte>, text: seq<Scalar>)
    requires Begun(p)
  {
    var spells := p + bytes == EncodeAll(text) && DecodeFrom(p, bytes) == Utf16(text);
    spells
  }

  lemma SpellsMore(p: seq<Byte>, bytes: seq<Byte>, q: seq<Byte>, text: seq<Scalar>)
    requires Begun(p) && bytes != [] && Begun(q) && q == p + [bytes[0]] && Push(p, bytes[0]) == Pushed([], q)
    requires Spells(q, bytes[1..], text)
    ensures Spells(p, bytes, text)
  {
    DecodeStep(p, bytes, [], q);
    Moved(p, bytes, q, bytes[1..]);
  }

  lemma SpellsAnother(p: seq<Byte>, bytes: seq<Byte>, q: seq<Byte>, rest: seq<Scalar>)
    requires Begun(p) && bytes != [] && q == p + [bytes[0]] && Leads(q) && |q| == Length(q[0])
    requires Push(p, bytes[0]) == Pushed(Units(CodePoint(q)), []) && Spells([], bytes[1..], rest)
    ensures IsScalar(CodePoint(q)) && Spells(p, bytes, [CodePoint(q)] + rest)
  {
    var more := bytes[1..];
    assert [] + more == more;
    Moved(p, bytes, q, more);
    DecodeStep(p, bytes, Units(CodePoint(q)), []);
    TextBegins(q, rest);
  }

  lemma Moved(p: seq<Byte>, bytes: seq<Byte>, q: seq<Byte>, more: seq<Byte>)
    requires bytes != [] && q == p + [bytes[0]] && more == bytes[1..]
    ensures p + bytes == q + more
  {
  }

  lemma {:induction false} DecodedFrom(p: seq<Byte>, bytes: seq<Byte>) returns (text: seq<Scalar>)
    requires Begun(p) && REPLACEMENT !in DecodeFrom(p, bytes)
    ensures Spells(p, bytes, text)
    decreases |bytes|
  {
    text := [];
    if bytes != [] {
      var q := p + [bytes[0]];
      FirstPush(p, bytes);
      ReplacementShows(p, bytes[0], q);
      if |q| < Length(q[0]) {
        text := DecodedFrom(q, bytes[1..]);
        SpellsMore(p, bytes, q, text);
      } else {
        var rest := DecodedFrom([], bytes[1..]);
        SpellsAnother(p, bytes, q, rest);
        text := [CodePoint(q)] + rest;
      }
    }
  }

  /** Bytes that decode without a replacement are the encoding of a text, and decode to it: no
      overlong form, no surrogate and nothing beyond the last code point passes. */
  lemma OnlyEncodedTextDecodes(bytes: seq<Byte>) returns (text: seq<Scalar>)
    requires REPLACEMENT !in Decode(bytes)
    ensures bytes == EncodeAll(text) && Decode(bytes) == Utf16(text)
  {
    text := DecodedFrom([], bytes);
    assert [] + bytes == bytes;
  }
}
