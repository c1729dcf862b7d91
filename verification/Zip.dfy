/** Archives with an index at the end: parts one after another, then one header per part that
    records where the part starts.  Reading follows the headers back to the parts. */
module Directories {
  import opened Prelude
  import opened Sequences
  import opened Folds

  /** The headers of entries whose first part starts at offset. */
  function Index<E, B>(entries: seq<E>, part: E -> seq<B>, header: (E, nat) -> seq<B>, offset: nat): seq<B> {
    if entries == [] then []
    else header(entries[0], offset) + Index(entries[1..], part, header, offset + |part(entries[0])|)
  }

  lemma PartsStep<E, B>(entries: seq<E>, i: nat, part: E -> seq<B>, header: (E, nat) -> seq<B>, ps: seq<B>, hs: seq<B>)
    requires i < |entries|
    ensures ps + Flat(part, entries[i..]) == ps + part(entries[i]) + Flat(part, entries[i + 1..])
    ensures hs + Index(entries[i..], part, header, |ps|)
         == hs + header(entries[i], |ps|) + Index(entries[i + 1..], part, header, |ps + part(entries[i])|)
  {
    assert entries[i..][1..] == entries[i + 1..];
  }

  /** Exactly count entries, each read off the front together with the length it takes. */
  function ReadAll<E, B>(read: seq<B> -> Option<(E, nat)>, s: seq<B>, count: nat): Option<seq<E>>
    decreases count
  {
    if count == 0 then if s == [] then Some([]) else None
    else
      var (entry, length) :- read(s);
      if |s| < length then None
      else
        var rest :- ReadAll(read, s[length..], count - 1);
        Some([entry] + rest)
  }

  /** read recovers an entry from its header wherever the entry's part is where the header says. */
  ghost predicate Recovers<E(!new), B(!new)>(
      read: seq<B> -> Option<(E, nat)>, store: seq<B>, part: E -> seq<B>, header: (E, nat) -> seq<B>, e: E) {
    forall offset: nat, rest :: StartsAt(store, offset, part(e)) ==>
      read(header(e, offset) + rest) == Some((e, |header(e, offset)|))
  }

  lemma {:induction false} ReadIndex<E(!new), B(!new)>(
      read: seq<B> -> Option<(E, nat)>, store: seq<B>, entries: seq<E>,
      part: E -> seq<B>, header: (E, nat) -> seq<B>, offset: nat)
    requires forall e :: e in entries ==> Recovers(read, store, part, header, e)
    requires StartsAt(store, offset, Flat(part, entries))
    ensures ReadAll(read, Index(entries, part, header, offset), |entries|) == Some(entries)
    decreases |entries|
  {
    if entries != [] {
      var e := entries[0];
      var p, ps := part(e), Flat(part, entries[1..]);
      var h, hs := header(e, offset), Index(entries[1..], part, header, offset + |p|);
      var here := store[offset..offset + |p + ps|];
      assert store[offset..offset + |p|] == here[..|p|];
      assert store[offset + |p|..offset + |p| + |ps|] == here[|p|..];
      assert StartsAt(store, offset, part(e)) && Recovers(read, store, part, header, e);
      assert read(header(e, offset) + hs) == Some((e, |h|));
      assert (h + hs)[|h|..] == hs;
      ReadIndex(read, store, entries[1..], part, header, offset + |p|);
      assert [e] + entries[1..] == entries;
    }
  }
}

/** The ZIP writer of scripts/control-ui-mock-attachments.ts and a reader for what it writes.

    The writer keeps two lists of parts and a running offset; the reader starts from the end
    record, walks the central directory, and follows the recorded offsets back to the local
    entries (PKWARE APPNOTE.TXT, sections 4.3.7, 4.3.12 and 4.3.16).
 */
module Zip {
  import opened Prelude
  import opened Sequences
  import opened Directories
  import opened Folds
  import Crc32

  datatype Entry = Entry(name: seq<Byte>, body: seq<Byte>)

  /** The compressor, the decompressor and the checksum an archive is written and read with. */
  datatype Codec = Codec(
    deflate: seq<Byte> -> seq<Byte>,
    inflate: seq<Byte> -> Option<seq<Byte>>,
    checksum: seq<Byte> -> nat)

  const LOCAL_SIGNATURE := 0x04034b50
  const CENTRAL_SIGNATURE := 0x02014b50
  const END_SIGNATURE := 0x06054b50
  const VERSION := 20
  const DEFLATED := 8

  const SHORT: nat := 2
  const LONG: nat := 4

  // Little-endian fields.

  function ToByte(n: nat): (b: Byte)
    requires n < 256
    ensures b as nat == n
  {
    n as Byte
  }

  function Limit(width: nat): nat {
    if width == 0 then 1 else 256 * Limit(width - 1)
  }

  datatype Write = Write(offset: nat, width: nat, value: nat)

  function Put(s: seq<Byte>, value: nat, o: nat, width: nat): (t: seq<Byte>)
    requires o + width <= |s|
    ensures |t| == |s|
    ensures forall i :: 0 <= i < |s| && !(o <= i < o + width) ==> t[i] == s[i]
    decreases width
  {
    if width == 0 then s else Put(s[o := ToByte(value % 256)], value / 256, o + 1, width - 1)
  }

  function Get(s: seq<Byte>, o: nat, width: nat): nat
    requires o + width <= |s|
    decreases width
  {
    if width == 0 then 0 else (s[o] as nat) + 256 * Get(s, o + 1, width - 1)
  }

  lemma {:induction false} GetSame(s: seq<Byte>, t: seq<Byte>, o: nat, p: nat, width: nat)
    requires o + width <= |s| && p + width <= |t|
    requires s[o..o + width] == t[p..p + width]
    ensures Get(s, o, width) == Get(t, p, width)
    decreases width
  {
    if width != 0 {
      assert s[o] == s[o..o + width][0] && t[p] == t[p..p + width][0];
      assert s[o + 1..o + width] == s[o..o + width][1..];
      assert t[p + 1..p + width] == t[p..p + width][1..];
      GetSame(s, t, o + 1, p + 1, width - 1);
    }
  }

  lemma {:induction false} GetPut(s: seq<Byte>, value: nat, o: nat, width: nat)
    requires value < Limit(width) && o + width <= |s|
    ensures Get(Put(s, value, o, width), o, width) == value
    decreases width
  {
    if width != 0 {
      GetPut(s[o := ToByte(value % 256)], value / 256, o + 1, width - 1);
    }
  }

  lemma GetPutApart(s: seq<Byte>, value: nat, o: nat, width: nat, v: Write)
    requires o + width <= |s| && v.offset + v.width <= |s|
    requires v.offset + v.width <= o || o + width <= v.offset
    ensures Get(Put(s, value, o, width), v.offset, v.width) == Get(s, v.offset, v.width)
  {
    var t := Put(s, value, o, width);
    assert t[v.offset..v.offset + v.width] == s[v.offset..v.offset + v.width];
    GetSame(t, s, v.offset, v.offset, v.width);
  }

  // Records of fixed length: fields written into zeros.

  function Zeros(n: nat): (s: seq<Byte>)
    ensures |s| == n
  {
    seq(n, _ => 0)
  }

  ghost predicate Allowed(n: nat, writes: seq<Write>) {
    forall w :: w in writes ==> w.offset + w.width <= n
  }

  predicate Apart(v: Write, w: Write) {
    v.offset + v.width <= w.offset || w.offset + w.width <= v.offset
  }

  ghost predicate AllApart(writes: seq<Write>) {
    forall i, j :: 0 <= i < j < |writes| ==> Apart(writes[i], writes[j])
  }

  ghost function Written(s: seq<Byte>, writes: seq<Write>): (t: seq<Byte>)
    requires Allowed(|s|, writes)
    ensures |t| == |s|
    decreases |writes|
  {
    if writes == [] then s
    else
      var w := writes[|writes| - 1];
      Put(Written(s, writes[..|writes| - 1]), w.value, w.offset, w.width)
  }

  /** What was written apart from everything else can be read back. */
  lemma {:induction false} ReadWritten(s: seq<Byte>, writes: seq<Write>, k: nat)
    requires Allowed(|s|, writes) && AllApart(writes) && k < |writes|
    requires writes[k].value < Limit(writes[k].width)
    ensures Get(Written(s, writes), writes[k].offset, writes[k].width) == writes[k].value
    decreases |writes|
  {
    var last := |writes| - 1;
    var w := writes[last];
    var before := Written(s, writes[..last]);
    if k == last {
      GetPut(before, w.value, w.offset, w.width);
    } else {
      var v := writes[k];
      assert v == writes[..last][k];
      ReadWritten(s, writes[..last], k);
      assert Apart(v, w);
      GetPutApart(before, w.value, w.offset, w.width, v);
    }
  }

  lemma {:induction false} ReadUnwritten(s: seq<Byte>, writes: seq<Write>, v: Write)
    requires Allowed(|s|, writes) && v.offset + v.width <= |s|
    requires forall w :: w in writes ==> Apart(v, w)
    ensures Get(Written(s, writes), v.offset, v.width) == Get(s, v.offset, v.width)
    decreases |writes|
  {
    if writes != [] {
      var last := |writes| - 1;
      assert writes[last] in writes;
      ReadUnwritten(s, writes[..last], v);
      var w := writes[last];
      GetPutApart(Written(s, writes[..last]), w.value, w.offset, w.width, v);
    }
  }

  lemma {:induction false} ReadZeros(n: nat, o: nat, width: nat)
    requires o + width <= n
    ensures Get(Zeros(n), o, width) == 0
    decreases width
  {
    if width != 0 {
      ReadZeros(n, o + 1, width - 1);
    }
  }

  datatype LocalInfo = LocalInfo(
    signature: nat, compression: nat, checksum: nat, compressedSize: nat, size: nat, nameLength: nat, extraLength: nat)

  datatype CentralInfo = CentralInfo(
    signature: nat, compression: nat, checksum: nat, compressedSize: nat, size: nat,
    nameLength: nat, extraLength: nat, commentLength: nat, offset: nat)

  datatype EndInfo = EndInfo(
    signature: nat, disk: nat, centralDisk: nat, diskCount: nat, count: nat, size: nat, offset: nat, commentLength: nat)

  function ParseLocal(s: seq<Byte>): LocalInfo
    requires |s| >= 30
  {
    LocalInfo(Get(s, 0, LONG), Get(s, 8, SHORT), Get(s, 14, LONG), Get(s, 18, LONG), Get(s, 22, LONG),
              Get(s, 26, SHORT), Get(s, 28, SHORT))
  }

  function ParseCentral(s: seq<Byte>): CentralInfo
    requires |s| >= 46
  {
    CentralInfo(Get(s, 0, LONG), Get(s, 10, SHORT), Get(s, 16, LONG), Get(s, 20, LONG), Get(s, 24, LONG),
                Get(s, 28, SHORT), Get(s, 30, SHORT), Get(s, 32, SHORT), Get(s, 42, LONG))
  }

  function ParseEnd(s: seq<Byte>): EndInfo
    requires |s| == 22
  {
    EndInfo(Get(s, 0, LONG), Get(s, 4, SHORT), Get(s, 6, SHORT), Get(s, 8, SHORT), Get(s, 10, SHORT),
            Get(s, 12, LONG), Get(s, 16, LONG), Get(s, 20, SHORT))
  }

  datatype Fields = Fields(name: seq<Byte>, checksum: nat, compressedSize: nat, size: nat)

  ghost predicate FitsFields(f: Fields) {
    && |f.name| < 0x1_0000
    && f.checksum < 0x1_0000_0000
    && f.compressedSize < 0x1_0000_0000
    && f.size < 0x1_0000_0000
  }

  function LocalWrites(f: Fields): seq<Write> {
    [ Write(0, LONG, LOCAL_SIGNATURE),
      Write(4, SHORT, VERSION),
      Write(8, SHORT, DEFLATED),
      Write(14, LONG, f.checksum),
      Write(18, LONG, f.compressedSize),
      Write(22, LONG, f.size),
      Write(26, SHORT, |f.name|) ]
  }

  function CentralWrites(f: Fields, offset: nat): seq<Write> {
    [ Write(0, LONG, CENTRAL_SIGNATURE),
      Write(4, SHORT, VERSION),
      Write(6, SHORT, VERSION),
      Write(10, SHORT, DEFLATED),
      Write(16, LONG, f.checksum),
      Write(20, LONG, f.compressedSize),
      Write(24, LONG, f.size),
      Write(28, SHORT, |f.name|),
      Write(42, LONG, offset) ]
  }

  function EndWrites(count: nat, size: nat, offset: nat): seq<Write> {
    [ Write(0, LONG, END_SIGNATURE),
      Write(8, SHORT, count),
      Write(10, SHORT, count),
      Write(12, LONG, size),
      Write(16, LONG, offset) ]
  }

  lemma Limits()
    ensures Limit(SHORT) == 0x1_0000 && Limit(LONG) == 0x1_0000_0000
  {
  }

  ghost function LocalRecord(f: Fields): (h: seq<Byte>)
    ensures |h| == 30 + |f.name|
  {
    Written(Zeros(30 + |f.name|), LocalWrites(f))
  }

  ghost function CentralRecord(f: Fields, offset: nat): (h: seq<Byte>)
    ensures |h| == 46 + |f.name|
  {
    Written(Zeros(46 + |f.name|), CentralWrites(f, offset))
  }

  ghost function EndRecord(count: nat, size: nat, offset: nat): (h: seq<Byte>)
    ensures |h| == 22
  {
    Written(Zeros(22), EndWrites(count, size, offset))
  }

  lemma LocalApart(f: Fields)
    ensures AllApart(LocalWrites(f))
  {
  }

  lemma LocalField(f: Fields, k: nat)
    requires FitsFields(f) && k < 7
    ensures var w := LocalWrites(f)[k]; w.offset + w.width <= 30 && Get(LocalRecord(f), w.offset, w.width) == w.value
  {
    Limits();
    LocalApart(f);
    ReadWritten(Zeros(30 + |f.name|), LocalWrites(f), k);
  }

  lemma LocalFields(f: Fields)
    requires FitsFields(f)
    ensures ParseLocal(LocalRecord(f))
         == LocalInfo(LOCAL_SIGNATURE, DEFLATED, f.checksum, f.compressedSize, f.size, |f.name|, 0)
  {
    LocalField(f, 0);
    LocalField(f, 2);
    LocalField(f, 3);
    LocalField(f, 4);
    LocalField(f, 5);
    LocalField(f, 6);
    ReadUnwritten(Zeros(30 + |f.name|), LocalWrites(f), Write(28, SHORT, 0));
    ReadZeros(30 + |f.name|, 28, SHORT);
  }

  lemma CentralApart(f: Fields, offset: nat)
    ensures AllApart(CentralWrites(f, offset))
  {
  }

  lemma CentralField(f: Fields, offset: nat, k: nat)
    requires FitsFields(f) && offset < 0x1_0000_0000 && k < 9
    ensures var w := CentralWrites(f, offset)[k];
      w.offset + w.width <= 46 && Get(CentralRecord(f, offset), w.offset, w.width) == w.value
  {
    Limits();
    CentralApart(f, offset);
    ReadWritten(Zeros(46 + |f.name|), CentralWrites(f, offset), k);
  }

  lemma CentralRest(f: Fields, offset: nat, o: nat)
    requires o == 30 || o == 32
    ensures Get(CentralRecord(f, offset), o, SHORT) == 0
  {
    ReadUnwritten(Zeros(46 + |f.name|), CentralWrites(f, offset), Write(o, SHORT, 0));
    ReadZeros(46 + |f.name|, o, SHORT);
  }

  lemma CentralFields(f: Fields, offset: nat)
    requires FitsFields(f) && offset < 0x1_0000_0000
    ensures ParseCentral(CentralRecord(f, offset))
         == CentralInfo(CENTRAL_SIGNATURE, DEFLATED, f.checksum, f.compressedSize, f.size, |f.name|, 0, 0, offset)
  {
    CentralField(f, offset, 0);
    CentralField(f, offset, 3);
    CentralField(f, offset, 4);
    CentralField(f, offset, 5);
    CentralField(f, offset, 6);
    CentralField(f, offset, 7);
    CentralField(f, offset, 8);
    CentralRest(f, offset, 30);
    CentralRest(f, offset, 32);
  }

  lemma EndField(count: nat, size: nat, offset: nat, k: nat)
    requires count < 0x1_0000 && size < 0x1_0000_0000 && offset < 0x1_0000_0000 && k < 5
    ensures var w := EndWrites(count, size, offset)[k];
      w.offset + w.width <= 22 && Get(EndRecord(count, size, offset), w.offset, w.width) == w.value
  {
    Limits();
    ReadWritten(Zeros(22), EndWrites(count, size, offset), k);
  }

  lemma EndRest(count: nat, size: nat, offset: nat, o: nat)
    requires o == 4 || o == 6 || o == 20
    ensures Get(EndRecord(count, size, offset), o, SHORT) == 0
  {
    ReadUnwritten(Zeros(22), EndWrites(count, size, offset), Write(o, SHORT, 0));
    ReadZeros(22, o, SHORT);
  }

  lemma EndFields(count: nat, size: nat, offset: nat)
    requires count < 0x1_0000 && size < 0x1_0000_0000 && offset < 0x1_0000_0000
    ensures ParseEnd(EndRecord(count, size, offset)) == EndInfo(END_SIGNATURE, 0, 0, count, count, size, offset, 0)
  {
    EndField(count, size, offset, 0);
    EndField(count, size, offset, 1);
    EndField(count, size, offset, 2);
    EndField(count, size, offset, 3);
    EndField(count, size, offset, 4);
    EndRest(count, size, offset, 4);
    EndRest(count, size, offset, 6);
    EndRest(count, size, offset, 20);
  }

  // The records byte by byte.

  /** A number in little-endian bytes. */
  function Bytes(value: nat, width: nat): (bytes: seq<Byte>)
    ensures |bytes| == width
    decreases width
  {
    if width == 0 then [] else [(value % 256) as Byte] + Bytes(value / 256, width - 1)
  }

  lemma {:induction false} BytesOfField(s: seq<Byte>, o: nat, width: nat)
    requires o + width <= |s|
    ensures s[o..o + width] == Bytes(Get(s, o, width), width)
    decreases width
  {
    if width != 0 {
      var rest := Get(s, o + 1, width - 1);
      BytesOfField(s, o + 1, width - 1);
      assert s[o..o + width] == [s[o]] + s[o + 1..o + width];
      LowestByte(s[o], rest);
    }
  }

  lemma LowestByte(b: Byte, rest: nat)
    ensures ((b as nat + 256 * rest) % 256) as Byte == b && (b as nat + 256 * rest) / 256 == rest
  {
  }

  lemma Numbers()
    ensures Bytes(0x04034b50, 4) == [0x50, 0x4b, 3, 4]
    ensures Bytes(0x02014b50, 4) == [0x50, 0x4b, 1, 2]
    ensures Bytes(0x06054b50, 4) == [0x50, 0x4b, 5, 6]
    ensures Bytes(20, 2) == [20, 0] && Bytes(8, 2) == [8, 0] && Bytes(0, 2) == [0, 0]
  {
    assert Bytes(0x04034b, 3) == [0x4b, 3, 4] by { assert Bytes(0x0403, 2) == [3, 4]; }
    assert Bytes(0x02014b, 3) == [0x4b, 1, 2] by { assert Bytes(0x0201, 2) == [1, 2]; }
    assert Bytes(0x06054b, 3) == [0x4b, 5, 6] by { assert Bytes(0x0605, 2) == [5, 6]; }
  }

  lemma LocalFieldBytes(f: Fields, k: nat)
    requires FitsFields(f) && k < 7
    ensures var w := LocalWrites(f)[k];
      w.offset + w.width <= 30 && LocalRecord(f)[w.offset..w.offset + w.width] == Bytes(w.value, w.width)
  {
    var w := LocalWrites(f)[k];
    LocalField(f, k);
    BytesOfField(LocalRecord(f), w.offset, w.width);
  }

  lemma LocalZeros(f: Fields, o: nat)
    requires o == 6 || o == 10 || o == 12 || o == 28
    ensures LocalRecord(f)[o..o + 2] == Bytes(0, 2)
  {
    ReadUnwritten(Zeros(30 + |f.name|), LocalWrites(f), Write(o, SHORT, 0));
    ReadZeros(30 + |f.name|, o, SHORT);
    BytesOfField(LocalRecord(f), o, SHORT);
  }

  /** The local record: signature, version 2.0, no flags, method 8, no date, the checksum, the two
      sizes, the length of the name, no extra field. */
  lemma LocalBytes(f: Fields)
    requires FitsFields(f)
    ensures var h := LocalRecord(f);
      && h[0..4] == [0x50, 0x4b, 3, 4] && h[4..6] == [20, 0] && h[6..8] == [0, 0] && h[8..10] == [8, 0]
      && h[10..12] == [0, 0] && h[12..14] == [0, 0] && h[14..18] == Bytes(f.checksum, 4)
      && h[18..22] == Bytes(f.compressedSize, 4) && h[22..26] == Bytes(f.size, 4)
      && h[26..28] == Bytes(|f.name|, 2) && h[28..30] == [0, 0]
  {
    Numbers();
    LocalFieldBytes(f, 0);
    LocalFieldBytes(f, 1);
    LocalFieldBytes(f, 2);
    LocalFieldBytes(f, 3);
    LocalFieldBytes(f, 4);
    LocalFieldBytes(f, 5);
    LocalFieldBytes(f, 6);
    LocalZeros(f, 6);
    LocalZeros(f, 10);
    LocalZeros(f, 12);
    LocalZeros(f, 28);
  }

  lemma CentralFieldBytes(f: Fields, offset: nat, k: nat)
    requires FitsFields(f) && offset < 0x1_0000_0000 && k < 9
    ensures var w := CentralWrites(f, offset)[k];
      w.offset + w.width <= 46 && CentralRecord(f, offset)[w.offset..w.offset + w.width] == Bytes(w.value, w.width)
  {
    var w := CentralWrites(f, offset)[k];
    CentralField(f, offset, k);
    BytesOfField(CentralRecord(f, offset), w.offset, w.width);
  }

  lemma CentralZeros(f: Fields, offset: nat, o: nat)
    requires o == 8 || o == 12 || o == 14 || (30 <= o <= 40 && o % 2 == 0)
    ensures CentralRecord(f, offset)[o..o + 2] == [0, 0]
  {
    Numbers();
    ReadUnwritten(Zeros(46 + |f.name|), CentralWrites(f, offset), Write(o, SHORT, 0));
    ReadZeros(46 + |f.name|, o, SHORT);
    BytesOfField(CentralRecord(f, offset), o, SHORT);
  }

  lemma CentralStart(f: Fields, offset: nat)
    requires FitsFields(f) && offset < 0x1_0000_0000
    ensures var h := CentralRecord(f, offset);
      h[0..4] == [0x50, 0x4b, 1, 2] && h[4..6] == [20, 0] && h[6..8] == [20, 0] && h[10..12] == [8, 0]
  {
    Numbers();
    CentralFieldBytes(f, offset, 0);
    CentralFieldBytes(f, offset, 1);
    CentralFieldBytes(f, offset, 2);
    CentralFieldBytes(f, offset, 3);
  }

  lemma CentralSizes(f: Fields, offset: nat)
    requires FitsFields(f) && offset < 0x1_0000_0000
    ensures var h := CentralRecord(f, offset);
      && h[16..20] == Bytes(f.checksum, 4) && h[20..24] == Bytes(f.compressedSize, 4) && h[24..28] == Bytes(f.size, 4)
      && h[28..30] == Bytes(|f.name|, 2) && h[42..46] == Bytes(offset, 4)
  {
    CentralFieldBytes(f, offset, 4);
    CentralFieldBytes(f, offset, 5);
    CentralFieldBytes(f, offset, 6);
    CentralFieldBytes(f, offset, 7);
    CentralFieldBytes(f, offset, 8);
  }

  /** The central record, likewise, with the version twice, and the entry's offset last; CentralZeros
      says that all between is zero. */
  lemma CentralBytes(f: Fields, offset: nat)
    requires FitsFields(f) && offset < 0x1_0000_0000
    ensures var h := CentralRecord(f, offset);
      && h[0..4] == [0x50, 0x4b, 1, 2] && h[4..6] == [20, 0] && h[6..8] == [20, 0] && h[10..12] == [8, 0]
      && h[16..20] == Bytes(f.checksum, 4) && h[20..24] == Bytes(f.compressedSize, 4) && h[24..28] == Bytes(f.size, 4)
      && h[28..30] == Bytes(|f.name|, 2) && h[42..46] == Bytes(offset, 4)
  {
    CentralStart(f, offset);
    CentralSizes(f, offset);
  }

  /** The end record: signature, disk numbers zero, twice the count, size and offset of the central
      directory, no comment. */
  lemma EndBytes(count: nat, size: nat, offset: nat)
    requires count < 0x1_0000 && size < 0x1_0000_0000 && offset < 0x1_0000_0000
    ensures var h := EndRecord(count, size, offset);
      && h[0..4] == [0x50, 0x4b, 5, 6] && h[4..6] == [0, 0] && h[6..8] == [0, 0]
      && h[8..10] == Bytes(count, 2) && h[10..12] == Bytes(count, 2)
      && h[12..16] == Bytes(size, 4) && h[16..20] == Bytes(offset, 4) && h[20..22] == [0, 0]
  {
    var h := EndRecord(count, size, offset);
    Numbers();
    EndFields(count, size, offset);
    BytesOfField(h, 0, 4);
    BytesOfField(h, 4, 2);
    BytesOfField(h, 6, 2);
    BytesOfField(h, 8, 2);
    BytesOfField(h, 10, 2);
    BytesOfField(h, 12, 4);
    BytesOfField(h, 16, 4);
    BytesOfField(h, 20, 2);
  }

  // The reader.

  /** The body of the entry at the front of local, whose central header said f. */
  function LocalBody(info: LocalInfo, local: seq<Byte>, f: Fields, codec: Codec): Option<seq<Byte>> {
    var start := 30 + info.nameLength + info.extraLength;
    if info.signature != LOCAL_SIGNATURE || info.compression != DEFLATED then None
    else if info.checksum != f.checksum || info.compressedSize != f.compressedSize || info.size != f.size then None
    else if info.nameLength != |f.name| || |local| < start + f.compressedSize || local[30..30 + |f.name|] != f.name then None
    else
      var body :- codec.inflate(local[start..start + f.compressedSize]);
      if |body| == f.size && codec.checksum(body) == f.checksum then Some(body) else None
  }

  function ReadLocal(local: seq<Byte>, f: Fields, codec: Codec): Option<seq<Byte>> {
    if |local| < 30 then None else LocalBody(ParseLocal(local), local, f, codec)
  }

  function EntryAt(info: CentralInfo, archive: seq<Byte>, central: seq<Byte>, codec: Codec): Option<Entry> {
    if info.signature != CENTRAL_SIGNATURE || info.compression != DEFLATED then None
    else if |central| < 46 + info.nameLength || |archive| < info.offset then None
    else
      var name := central[46..46 + info.nameLength];
      var body :- ReadLocal(archive[info.offset..], Fields(name, info.checksum, info.compressedSize, info.size), codec);
      Some(Entry(name, body))
  }

  function ReadHeader(archive: seq<Byte>, central: seq<Byte>, codec: Codec): Option<(Entry, nat)> {
    if |central| < 46 then None
    else
      var info := ParseCentral(central);
      var entry :- EntryAt(info, archive, central, codec);
      Some((entry, 46 + info.nameLength + info.extraLength + info.commentLength))
  }

  function HeaderReader(archive: seq<Byte>, codec: Codec): seq<Byte> -> Option<(Entry, nat)> {
    central => ReadHeader(archive, central, codec)
  }

  function EntriesAt(end: EndInfo, archive: seq<Byte>, read: seq<Byte> -> Option<(Entry, nat)>): Option<seq<Entry>> {
    if end.signature != END_SIGNATURE || end.disk != 0 || end.centralDisk != 0 || end.commentLength != 0 then None
    else if end.diskCount != end.count || |archive| < 22 + end.offset + end.size then None
    else ReadAll(read, archive[end.offset..end.offset + end.size], end.count)
  }

  /** Reads an archive without a comment from its end record. */
  function Unzip(archive: seq<Byte>, codec: Codec): Option<seq<Entry>> {
    if |archive| < 22 then None
    else EntriesAt(ParseEnd(archive[|archive| - 22..]), archive, HeaderReader(archive, codec))
  }

  // The archive.

  function FieldsOf(e: Entry, codec: Codec): Fields {
    Fields(e.name, codec.checksum(e.body), |codec.deflate(e.body)|, |e.body|)
  }

  ghost function LocalPart(codec: Codec): Entry -> seq<Byte> {
    (e: Entry) => LocalRecord(FieldsOf(e, codec))[..30] + e.name + codec.deflate(e.body)
  }

  ghost function CentralPart(codec: Codec): (Entry, nat) -> seq<Byte> {
    (e: Entry, offset: nat) => CentralRecord(FieldsOf(e, codec), offset)[..46] + e.name
  }

  ghost function Locals(entries: seq<Entry>, codec: Codec): seq<Byte> {
    Flat(LocalPart(codec), entries)
  }

  ghost function Centrals(entries: seq<Entry>, codec: Codec): seq<Byte> {
    Index(entries, LocalPart(codec), CentralPart(codec), 0)
  }

  ghost predicate AllFit(entries: seq<Entry>, codec: Codec) {
    forall k :: 0 <= k < |entries| ==> FitsFields(FieldsOf(entries[k], codec))
  }

  /** No write of the archive's fields is out of range. */
  ghost predicate Fits(entries: seq<Entry>, codec: Codec) {
    && AllFit(entries, codec)
    && |entries| < 0x1_0000
    && |Centrals(entries, codec)| < 0x1_0000_0000
    && |Locals(entries, codec)| < 0x1_0000_0000
  }

  ghost function Archive(entries: seq<Entry>, codec: Codec): seq<Byte> {
    Locals(entries, codec)
    + Centrals(entries, codec)
    + EndRecord(|entries|, |Centrals(entries, codec)|, |Locals(entries, codec)|)
  }

  // Reading back what was written.

  lemma GetFixed(h: seq<Byte>, n: nat, s: seq<Byte>, o: nat, width: nat)
    requires o + width <= n <= |h| && n <= |s| && s[..n] == h[..n]
    ensures Get(s, o, width) == Get(h, o, width)
  {
    assert s[o..o + width] == s[..n][o..o + width];
    assert h[o..o + width] == h[..n][o..o + width];
    GetSame(s, h, o, o, width);
  }

  lemma ParseLocalSame(h: seq<Byte>, s: seq<Byte>)
    requires |h| >= 30 && |s| >= 30 && s[..30] == h[..30]
    ensures ParseLocal(s) == ParseLocal(h)
  {
    GetFixed(h, 30, s, 0, LONG);
    GetFixed(h, 30, s, 8, SHORT);
    GetFixed(h, 30, s, 14, LONG);
    GetFixed(h, 30, s, 18, LONG);
    GetFixed(h, 30, s, 22, LONG);
    GetFixed(h, 30, s, 26, SHORT);
    GetFixed(h, 30, s, 28, SHORT);
  }

  lemma ParseCentralSame(h: seq<Byte>, s: seq<Byte>)
    requires |h| >= 46 && |s| >= 46 && s[..46] == h[..46]
    ensures ParseCentral(s) == ParseCentral(h)
  {
    GetFixed(h, 46, s, 0, LONG);
    GetFixed(h, 46, s, 10, SHORT);
    GetFixed(h, 46, s, 16, LONG);
    GetFixed(h, 46, s, 20, LONG);
    GetFixed(h, 46, s, 24, LONG);
    GetFixed(h, 46, s, 28, SHORT);
    GetFixed(h, 46, s, 30, SHORT);
    GetFixed(h, 46, s, 32, SHORT);
    GetFixed(h, 46, s, 42, LONG);
  }

  lemma LocalBodyBack(head: seq<Byte>, f: Fields, data: seq<Byte>, rest: seq<Byte>, body: seq<Byte>, codec: Codec)
    requires |head| == 30 && f == Fields(f.name, codec.checksum(body), |data|, |body|)
    requires codec.inflate(data) == Some(body)
    ensures LocalBody(LocalInfo(LOCAL_SIGNATURE, DEFLATED, f.checksum, |data|, |body|, |f.name|, 0),
                      head + f.name + data + rest, f, codec) == Some(body)
  {
    var local := head + f.name + data + rest;
    var start := 30 + |f.name|;
    assert local[30..start] == f.name;
    assert local[start..start + |data|] == data;
  }

  lemma ParseLocalBack(f: Fields, rest: seq<Byte>)
    requires FitsFields(f)
    ensures ParseLocal(LocalRecord(f)[..30] + rest)
         == LocalInfo(LOCAL_SIGNATURE, DEFLATED, f.checksum, f.compressedSize, f.size, |f.name|, 0)
  {
    var record := LocalRecord(f);
    LocalFields(f);
    assert (record[..30] + rest)[..30] == record[..30];
    ParseLocalSame(record, record[..30] + rest);
  }

  lemma LocalFrom(local: seq<Byte>, head: seq<Byte>, f: Fields, data: seq<Byte>, rest: seq<Byte>, body: seq<Byte>, codec: Codec)
    requires |head| == 30 && local == head + f.name + data + rest
    requires ParseLocal(local) == LocalInfo(LOCAL_SIGNATURE, DEFLATED, f.checksum, |data|, |body|, |f.name|, 0)
    requires f == Fields(f.name, codec.checksum(body), |data|, |body|)
    requires codec.inflate(data) == Some(body)
    ensures ReadLocal(local, f, codec) == Some(body)
  {
    LocalBodyBack(head, f, data, rest, body, codec);
  }

  lemma ReadLocalBack(e: Entry, codec: Codec, rest: seq<Byte>)
    requires FitsFields(FieldsOf(e, codec))
    requires codec.inflate(codec.deflate(e.body)) == Some(e.body)
    ensures ReadLocal(LocalPart(codec)(e) + rest, FieldsOf(e, codec), codec) == Some(e.body)
  {
    var f := FieldsOf(e, codec);
    var head := LocalRecord(f)[..30];
    var data := codec.deflate(e.body);
    ParseLocalBack(f, f.name + data + rest);
    assert head + f.name + data + rest == head + (f.name + data + rest);
    LocalFrom(head + f.name + data + rest, head, f, data, rest, e.body, codec);
  }

  lemma EntryBack(archive: seq<Byte>, head: seq<Byte>, e: Entry, f: Fields, codec: Codec, offset: nat, rest: seq<Byte>)
    requires |head| == 46 && f.name == e.name && offset <= |archive|
    requires ReadLocal(archive[offset..], f, codec) == Some(e.body)
    ensures EntryAt(CentralInfo(CENTRAL_SIGNATURE, DEFLATED, f.checksum, f.compressedSize, f.size, |f.name|, 0, 0, offset),
                    archive, head + e.name + rest, codec) == Some(e)
  {
    assert (head + e.name + rest)[46..46 + |e.name|] == e.name;
  }

  lemma ParseCentralBack(f: Fields, offset: nat, rest: seq<Byte>)
    requires FitsFields(f) && offset < 0x1_0000_0000
    ensures ParseCentral(CentralRecord(f, offset)[..46] + rest)
         == CentralInfo(CENTRAL_SIGNATURE, DEFLATED, f.checksum, f.compressedSize, f.size, |f.name|, 0, 0, offset)
  {
    var record := CentralRecord(f, offset);
    CentralFields(f, offset);
    assert (record[..46] + rest)[..46] == record[..46];
    ParseCentralSame(record, record[..46] + rest);
  }

  lemma HeaderFrom(archive: seq<Byte>, central: seq<Byte>, head: seq<Byte>, e: Entry, f: Fields, codec: Codec,
                   offset: nat, rest: seq<Byte>)
    requires |head| == 46 && f.name == e.name && offset <= |archive| && central == head + e.name + rest
    requires ParseCentral(central)
          == CentralInfo(CENTRAL_SIGNATURE, DEFLATED, f.checksum, f.compressedSize, f.size, |f.name|, 0, 0, offset)
    requires ReadLocal(archive[offset..], f, codec) == Some(e.body)
    ensures ReadHeader(archive, central, codec) == Some((e, 46 + |e.name|))
  {
    EntryBack(archive, head, e, f, codec, offset, rest);
  }

  lemma HeaderBack(archive: seq<Byte>, e: Entry, codec: Codec, offset: nat, rest: seq<Byte>)
    requires FitsFields(FieldsOf(e, codec)) && offset < 0x1_0000_0000 && offset <= |archive|
    requires ReadLocal(archive[offset..], FieldsOf(e, codec), codec) == Some(e.body)
    ensures HeaderReader(archive, codec)(CentralPart(codec)(e, offset) + rest) == Some((e, |CentralPart(codec)(e, offset)|))
  {
    var f := FieldsOf(e, codec);
    var head := CentralRecord(f, offset)[..46];
    ParseCentralBack(f, offset, e.name + rest);
    assert head + e.name + rest == head + (e.name + rest);
    HeaderFrom(archive, head + e.name + rest, head, e, f, codec, offset, rest);
  }

  lemma HeadersRecover(archive: seq<Byte>, locals: seq<Byte>, e: Entry, codec: Codec)
    requires FitsFields(FieldsOf(e, codec)) && codec.inflate(codec.deflate(e.body)) == Some(e.body)
    requires |locals| < 0x1_0000_0000 && locals <= archive
    ensures Recovers(HeaderReader(archive, codec), locals, LocalPart(codec), CentralPart(codec), e)
  {
    var part, header, read := LocalPart(codec), CentralPart(codec), HeaderReader(archive, codec);
    forall offset: nat, rest | StartsAt(locals, offset, part(e))
      ensures read(header(e, offset) + rest) == Some((e, |header(e, offset)|))
    {
      var tail := archive[offset + |part(e)|..];
      assert archive[offset..offset + |part(e)|] == locals[offset..offset + |part(e)|];
      assert archive[offset..] == part(e) + tail;
      ReadLocalBack(e, codec, tail);
      HeaderBack(archive, e, codec, offset, rest);
    }
  }

  lemma UnzipParts(archive: seq<Byte>, locals: seq<Byte>, centrals: seq<Byte>, end: seq<Byte>, count: nat, codec: Codec)
    requires archive == locals + centrals + end && |end| == 22
    requires ParseEnd(end) == EndInfo(END_SIGNATURE, 0, 0, count, count, |centrals|, |locals|, 0)
    ensures Unzip(archive, codec) == ReadAll(HeaderReader(archive, codec), centrals, count)
  {
    assert archive[|archive| - 22..] == end;
    assert archive[|locals|..|locals| + |centrals|] == centrals;
  }

  /** Reading a written archive returns exactly its entries, in order. */
  lemma UnzipArchive(entries: seq<Entry>, codec: Codec)
    requires Fits(entries, codec)
    requires forall e :: e in entries ==> codec.inflate(codec.deflate(e.body)) == Some(e.body)
    ensures Unzip(Archive(entries, codec), codec) == Some(entries)
  {
    var archive := Archive(entries, codec);
    var locals, centrals := Locals(entries, codec), Centrals(entries, codec);
    var end := EndRecord(|entries|, |centrals|, |locals|);
    EndFields(|entries|, |centrals|, |locals|);
    UnzipParts(archive, locals, centrals, end, |entries|, codec);
    forall e | e in entries ensures Recovers(HeaderReader(archive, codec), locals, LocalPart(codec), CentralPart(codec), e) {
      HeadersRecover(archive, locals, e, codec);
    }
    ReadIndex(HeaderReader(archive, codec), locals, entries, LocalPart(codec), CentralPart(codec), 0);
  }

  // The writer.

  method WriteLE(buf: array<Byte>, value: nat, o: nat, width: nat)
    requires o + width <= buf.Length
    modifies buf
    ensures buf[..] == Put(old(buf[..]), value, o, width)
  {
    var rest := value;
    for k := 0 to width
      invariant Put(buf[..], rest, o + k, width - k) == Put(old(buf[..]), value, o, width)
    {
      ghost var before := buf[..];
      buf[o + k] := ToByte(rest % 256);
      assert buf[..] == before[o + k := ToByte(rest % 256)];
      rest := rest / 256;
    }
  }

  /** One writeUInt call into a buffer that already holds the writes in done. */
  method WriteField(buf: array<Byte>, value: nat, o: nat, width: nat, ghost done: seq<Write>) returns (ghost next: seq<Write>)
    requires o + width <= buf.Length
    requires Allowed(buf.Length, done) && buf[..] == Written(Zeros(buf.Length), done)
    modifies buf
    ensures next == done + [Write(o, width, value)]
    ensures Allowed(buf.Length, next) && buf[..] == Written(Zeros(buf.Length), next)
  {
    WriteLE(buf, value, o, width);
    next := done + [Write(o, width, value)];
    assert next[..|next| - 1] == done;
  }

  method CopyInto(name: seq<Byte>, buf: array<Byte>, o: nat)
    requires o + |name| <= buf.Length
    modifies buf
    ensures buf[..] == old(buf[..])[..o] + name + old(buf[..])[o + |name|..]
  {
    for k := 0 to |name|
      invariant buf[..] == old(buf[..])[..o] + name[..k] + old(buf[..])[o + k..]
    {
      ghost var was := buf[..];
      buf[o + k] := name[k];
      assert buf[..] == was[o + k := name[k]];
      CopyNext(old(buf[..]), name, o, k);
    }
  }

  lemma CopyNext(buf: seq<Byte>, name: seq<Byte>, o: nat, k: nat)
    requires k < |name| && o + |name| <= |buf|
    ensures (buf[..o] + name[..k] + buf[o + k..])[o + k := name[k]] == buf[..o] + name[..k + 1] + buf[o + (k + 1)..]
  {
  }

  method LocalHeader(f: Fields) returns (header: seq<Byte>)
    ensures header == LocalRecord(f)[..30] + f.name
  {
    var buf := new Byte[30 + |f.name|](_ => 0);
    assert buf[..] == Zeros(buf.Length);
    ghost var done := WriteField(buf, LOCAL_SIGNATURE, 0, LONG, []);
    done := WriteField(buf, VERSION, 4, SHORT, done);
    done := WriteField(buf, DEFLATED, 8, SHORT, done);
    done := WriteField(buf, f.checksum, 14, LONG, done);
    done := WriteField(buf, f.compressedSize, 18, LONG, done);
    done := WriteField(buf, f.size, 22, LONG, done);
    done := WriteField(buf, |f.name|, 26, SHORT, done);
    assert done == LocalWrites(f);
    CopyInto(f.name, buf, 30);
    header := buf[..];
  }

  method CentralHeader(f: Fields, offset: nat) returns (header: seq<Byte>)
    ensures header == CentralRecord(f, offset)[..46] + f.name
  {
    var buf := new Byte[46 + |f.name|](_ => 0);
    assert buf[..] == Zeros(buf.Length);
    ghost var done := WriteField(buf, CENTRAL_SIGNATURE, 0, LONG, []);
    done := WriteField(buf, VERSION, 4, SHORT, done);
    done := WriteField(buf, VERSION, 6, SHORT, done);
    done := WriteField(buf, DEFLATED, 10, SHORT, done);
    done := WriteField(buf, f.checksum, 16, LONG, done);
    done := WriteField(buf, f.compressedSize, 20, LONG, done);
    done := WriteField(buf, f.size, 24, LONG, done);
    done := WriteField(buf, |f.name|, 28, SHORT, done);
    done := WriteField(buf, offset, 42, LONG, done);
    assert done == CentralWrites(f, offset);
    CopyInto(f.name, buf, 46);
    header := buf[..];
  }

  method EndHeader(count: nat, size: nat, offset: nat) returns (header: seq<Byte>)
    ensures header == EndRecord(count, size, offset)
  {
    var buf := new Byte[22](_ => 0);
    assert buf[..] == Zeros(buf.Length);
    ghost var done := WriteField(buf, END_SIGNATURE, 0, LONG, []);
    done := WriteField(buf, count, 8, SHORT, done);
    done := WriteField(buf, count, 10, SHORT, done);
    done := WriteField(buf, size, 12, LONG, done);
    done := WriteField(buf, offset, 16, LONG, done);
    assert done == EndWrites(count, size, offset);
    header := buf[..];
  }

  /** One turn of the loop: the parts an entry adds, or None where a writeUInt call throws. */
  method AddEntry(e: Entry, codec: Codec, offset: nat) returns (parts: Option<(seq<Byte>, seq<Byte>)>)
    ensures parts == if FitsFields(FieldsOf(e, codec)) && offset < 0x1_0000_0000
                     then Some((LocalPart(codec)(e), CentralPart(codec)(e, offset))) else None
  {
    var compressed := codec.deflate(e.body);
    var f := Fields(e.name, codec.checksum(e.body), |compressed|, |e.body|);
    if f.checksum >= 0x1_0000_0000 || f.compressedSize >= 0x1_0000_0000 || f.size >= 0x1_0000_0000 || |f.name| >= 0x1_0000 {
      return None;
    }
    var localHeader := LocalHeader(f);
    if offset >= 0x1_0000_0000 {
      return None;
    }
    var centralHeader := CentralHeader(f, offset);
    return Some((localHeader + compressed, centralHeader));
  }

  /** No write of a part's fields is out of range, nor is the offset a part starts at. */
  ghost predicate PartsFit(entries: seq<Entry>, codec: Codec) {
    forall k :: 0 <= k < |entries| ==> PartFits(entries, codec, k)
  }

  ghost predicate PartFits(entries: seq<Entry>, codec: Codec, k: nat)
    requires k < |entries|
  {
    FitsFields(FieldsOf(entries[k], codec)) && |Locals(entries[..k], codec)| < 0x1_0000_0000
  }

  lemma LocalsNext(entries: seq<Entry>, codec: Codec, k: nat)
    requires k < |entries|
    ensures Locals(entries[..k + 1], codec) == Locals(entries[..k], codec) + LocalPart(codec)(entries[k])
  {
    PrefixNext(entries, k);
    FlatAppend(LocalPart(codec), entries[..k], [entries[k]]);
    assert [entries[k]][1..] == [];
  }

  lemma LocalsGrow(entries: seq<Entry>, codec: Codec, k: nat)
    requires k <= |entries|
    ensures |Locals(entries[..k], codec)| <= |Locals(entries, codec)|
  {
    FlatAppend(LocalPart(codec), entries[..k], entries[k..]);
    assert entries == entries[..k] + entries[k..];
  }

  lemma FitsMeansPartsFit(entries: seq<Entry>, codec: Codec)
    requires Fits(entries, codec)
    ensures PartsFit(entries, codec)
  {
    forall k | 0 <= k < |entries| ensures PartFits(entries, codec, k) {
      LocalsGrow(entries, codec, k);
    }
  }

  /** The parts of the first i entries. */
  ghost predicate Collected(entries: seq<Entry>, codec: Codec, i: nat, localParts: seq<Byte>, centralParts: seq<Byte>)
    requires i <= |entries|
  {
    && localParts == Locals(entries[..i], codec)
    && Centrals(entries, codec)
       == centralParts + Index(entries[i..], LocalPart(codec), CentralPart(codec), |localParts|)
  }

  lemma CollectedNext(entries: seq<Entry>, codec: Codec, i: nat, localParts: seq<Byte>, centralParts: seq<Byte>)
    requires i < |entries| && Collected(entries, codec, i, localParts, centralParts)
    ensures Collected(entries, codec, i + 1, localParts + LocalPart(codec)(entries[i]),
                      centralParts + CentralPart(codec)(entries[i], |localParts|))
  {
    PartsStep(entries, i, LocalPart(codec), CentralPart(codec), localParts, centralParts);
    LocalsNext(entries, codec, i);
  }

  lemma CollectedAll(entries: seq<Entry>, codec: Codec, localParts: seq<Byte>, centralParts: seq<Byte>)
    requires Collected(entries, codec, |entries|, localParts, centralParts)
    ensures localParts == Locals(entries, codec) && centralParts == Centrals(entries, codec)
  {
    PrefixAll(entries);
  }

  /** The loop over the entries. */
  method CollectParts(entries: seq<Entry>, codec: Codec) returns (parts: Option<(seq<Byte>, seq<Byte>)>)
    ensures parts == if PartsFit(entries, codec) then Some((Locals(entries, codec), Centrals(entries, codec))) else None
  {
    var localParts, centralParts: seq<Byte> := [], [];
    for i := 0 to |entries|
      invariant forall k :: 0 <= k < i ==> PartFits(entries, codec, k)
      invariant Collected(entries, codec, i, localParts, centralParts)
    {
      CollectedNext(entries, codec, i, localParts, centralParts);
      var more := AddEntry(entries[i], codec, |localParts|);
      if more.None? {
        assert !PartFits(entries, codec, i);
        return None;
      }
      centralParts := centralParts + more.value.1;
      localParts := localParts + more.value.0;
    }
    CollectedAll(entries, codec, localParts, centralParts);
    parts := Some((localParts, centralParts));
  }

  /** zipAsset: None where the source throws. */
  method ZipAsset(entries: seq<Entry>, codec: Codec) returns (archive: Option<seq<Byte>>)
    ensures archive == if Fits(entries, codec) then Some(Archive(entries, codec)) else None
  {
    var parts := CollectParts(entries, codec);
    if parts.None? {
      if Fits(entries, codec) {
        FitsMeansPartsFit(entries, codec);
      }
      return None;
    }
    var (locals, centrals) := parts.value;
    forall k | 0 <= k < |entries| ensures FitsFields(FieldsOf(entries[k], codec)) {
      assert PartFits(entries, codec, k);
    }
    if |entries| >= 0x1_0000 || |centrals| >= 0x1_0000_0000 || |locals| >= 0x1_0000_0000 {
      return None;
    }
    var end := EndHeader(|entries|, |centrals|, |locals|);
    archive := Some(locals + centrals + end);
  }

  // The archive the server sends uses CRC-32.

  function Crc(body: seq<Byte>): (checksum: nat)
    ensures checksum < 0x1_0000_0000
  {
    Crc32.Checksum(body) as nat
  }

  /** For every compressor with a left inverse and every list of entries within the field widths,
      unzipping the written archive checks every name, size and CRC-32 and returns the entries. */
  lemma ZipRoundTrip(entries: seq<Entry>, deflate: seq<Byte> -> seq<Byte>, inflate: seq<Byte> -> Option<seq<Byte>>)
    requires forall b :: inflate(deflate(b)) == Some(b)
    requires Fits(entries, Codec(deflate, inflate, Crc))
    ensures var codec := Codec(deflate, inflate, Crc); Unzip(Archive(entries, codec), codec) == Some(entries)
  {
    UnzipArchive(entries, Codec(deflate, inflate, Crc));
  }
}
