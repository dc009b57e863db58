/** The serialised form of an ORC split, as a stream of tokens. The bytes the
    split writes itself are individual `Byte` tokens, with `int` and `long`
    written big-endian as `java.io.DataOutput` specifies; what other
    components serialise (the Hadoop file split header, a delta's metadata,
    the synthetic file id, the variable-length integer coding) is one token
    each. */
module OrcPayload {
  import opened Common
  import opened ByteOrder
  import opened OrcSplit

  datatype Token =
    | Byte(b: UInt8)
    | VInt(n: Int)
    | Header(h: FileSplitHeader)
    | Delta(d: DeltaMetaData)
    | Synthetic(id: SyntheticFileId)

  /** A value read, and the tokens after it. */
  datatype Read<+T> = Read(value: T, rest: seq<Token>)

  function ByteTokens(bs: seq<UInt8>): (ts: seq<Token>)
    ensures |ts| == |bs| && forall i :: 0 <= i < |bs| ==> ts[i] == Byte(bs[i])
  {
    seq(|bs|, i requires 0 <= i < |bs| => Byte(bs[i]))
  }

  function IntTokens(v: Int): seq<Token> {
    ByteTokens(SignedBytes(v, 4))
  }

  function LongTokens(v: Long): seq<Token> {
    ByteTokens(SignedBytes(v, 8))
  }

  /** `readFully`: exactly `n` bytes, or end of stream. */
  function ReadBytes(ts: seq<Token>, n: nat): (r: Result<Read<seq<UInt8>>, SplitError>)
    ensures r.Success? ==> |r.value.value| == n && n <= |ts| && r.value.rest == ts[n..]
    ensures r.Success? ==> forall i :: 0 <= i < n ==> ts[i] == Byte(r.value.value[i])
    ensures r.Failure? ==> r.error == EndOfStream || r.error == Corrupt
    ensures (forall i :: 0 <= i < |ts| ==> ts[i].Byte?) ==> (r.Success? <==> n <= |ts|)
    decreases n
  {
    if n == 0 then Success(Read([], ts))
    else if |ts| == 0 then Failure(EndOfStream)
    else if !ts[0].Byte? then Failure(Corrupt)
    else
      var r :- ReadBytes(ts[1..], n - 1);
      Success(Read([ts[0].b] + r.value, r.rest))
  }

  lemma {:induction false} ReadBytesOfBytes(bs: seq<UInt8>, rest: seq<Token>)
    ensures ReadBytes(ByteTokens(bs) + rest, |bs|) == Success(Read(bs, rest))
    decreases |bs|
  {
    var ts := ByteTokens(bs) + rest;
    if |bs| == 0 {
      assert ts == rest;
    } else {
      assert ts[0] == Byte(bs[0]);
      assert ts[1..] == ByteTokens(bs[1..]) + rest;
      ReadBytesOfBytes(bs[1..], rest);
      assert [bs[0]] + bs[1..] == bs;
    }
  }

  /** A stream too short for `n` bytes ends the read. */
  lemma {:induction false} ReadBytesOfShortStream(bs: seq<UInt8>, n: nat)
    requires |bs| < n
    ensures ReadBytes(ByteTokens(bs), n) == Failure(EndOfStream)
    decreases |bs|
  {
    if |bs| > 0 {
      assert ByteTokens(bs)[1..] == ByteTokens(bs[1..]);
      ReadBytesOfShortStream(bs[1..], n - 1);
    }
  }

  function ReadByte(ts: seq<Token>): (r: Result<Read<UInt8>, SplitError>)
    ensures r.Success? <==> |ts| > 0 && ts[0].Byte?
    ensures r.Success? ==> r.value == Read(ts[0].b, ts[1..])
  {
    var r :- ReadBytes(ts, 1);
    Success(Read(r.value[0], r.rest))
  }

  function ReadInt(ts: seq<Token>): (r: Result<Read<Int>, SplitError>) {
    var r :- ReadBytes(ts, 4);
    Success(Read(FromSignedBytes(r.value), r.rest))
  }

  function ReadLong(ts: seq<Token>): (r: Result<Read<Long>, SplitError>) {
    var r :- ReadBytes(ts, 8);
    Success(Read(FromSignedBytes(r.value), r.rest))
  }

  lemma ReadIntOfInt(v: Int, rest: seq<Token>)
    ensures ReadInt(IntTokens(v) + rest) == Success(Read(v, rest))
  {
    ReadBytesOfBytes(SignedBytes(v, 4), rest);
    SignedBytesInverse(v, 4);
  }

  lemma ReadLongOfLong(v: Long, rest: seq<Token>)
    ensures ReadLong(LongTokens(v) + rest) == Success(Read(v, rest))
  {
    ReadBytesOfBytes(SignedBytes(v, 8), rest);
    SignedBytesInverse(v, 8);
  }

  // ---------------------------------------------------------------------
  // Other components' tokens
  // ---------------------------------------------------------------------

  function ReadVInt(ts: seq<Token>): (r: Result<Read<Int>, SplitError>)
    ensures r.Success? <==> |ts| > 0 && ts[0].VInt?
  {
    if |ts| == 0 then Failure(EndOfStream)
    else if !ts[0].VInt? then Failure(Corrupt)
    else Success(Read(ts[0].n, ts[1..]))
  }

  function ReadHeader(ts: seq<Token>): (r: Result<Read<FileSplitHeader>, SplitError>)
    ensures r.Success? <==> |ts| > 0 && ts[0].Header?
  {
    if |ts| == 0 then Failure(EndOfStream)
    else if !ts[0].Header? then Failure(Corrupt)
    else Success(Read(ts[0].h, ts[1..]))
  }

  function ReadSynthetic(ts: seq<Token>): (r: Result<Read<SyntheticFileId>, SplitError>)
    ensures r.Success? <==> |ts| > 0 && ts[0].Synthetic?
  {
    if |ts| == 0 then Failure(EndOfStream)
    else if !ts[0].Synthetic? then Failure(Corrupt)
    else Success(Read(ts[0].id, ts[1..]))
  }

  function DeltaTokens(ds: seq<DeltaMetaData>): (ts: seq<Token>)
    ensures |ts| == |ds| && forall i :: 0 <= i < |ds| ==> ts[i] == Delta(ds[i])
  {
    seq(|ds|, i requires 0 <= i < |ds| => Delta(ds[i]))
  }

  /** The delta loop: `n` delta records; a count of zero or less reads
      none. */
  function ReadDeltas(ts: seq<Token>, n: int): (r: Result<Read<seq<DeltaMetaData>>, SplitError>)
    ensures r.Success? ==> |r.value.value| == if n <= 0 then 0 else n
    decreases n
  {
    if n <= 0 then Success(Read([], ts))
    else if |ts| == 0 then Failure(EndOfStream)
    else if !ts[0].Delta? then Failure(Corrupt)
    else
      var r :- ReadDeltas(ts[1..], n - 1);
      Success(Read([ts[0].d] + r.value, r.rest))
  }

  lemma {:induction false} ReadDeltasOfDeltas(ds: seq<DeltaMetaData>, rest: seq<Token>)
    ensures ReadDeltas(DeltaTokens(ds) + rest, |ds|) == Success(Read(ds, rest))
    decreases |ds|
  {
    var ts := DeltaTokens(ds) + rest;
    if |ds| == 0 {
      assert ts == rest;
    } else {
      assert ts[0] == Delta(ds[0]);
      assert ts[1..] == DeltaTokens(ds[1..]) + rest;
      ReadDeltasOfDeltas(ds[1..], rest);
      assert [ds[0]] + ds[1..] == ds;
    }
  }

  // ---------------------------------------------------------------------
  // The payload
  // ---------------------------------------------------------------------

  function TailTokens(t: OrcTail): seq<Token>
    requires |t.minimal| <= INT_MAX
  {
    [VInt(|t.minimal|)] + ByteTokens(t.minimal)
  }

  function KeyTokens(k: FileKey): seq<Token> {
    match k
    case LongKey(id) => LongTokens(id)
    case WritableKey(id) => [Synthetic(id)]
    case _ => []
  }

  /** A split whose payload can be written: besides `Writable`, its tail
      fits the `int` length prefix (a Java array never holds more). */
  predicate Serialisable(s: Split) {
    Writable(s) && (s.hasFooter ==> |s.orcTail.value.minimal| <= INT_MAX)
  }

  /** The split's own payload: flags, delta count, deltas, the tail when
      there is a footer, the file id when it is a `Long` or writable, and
      the file length. */
  function WritePayload(s: Split): (ts: seq<Token>)
    requires Serialisable(s)
    ensures |ts| == 1 + 4 + |s.deltas| + (if s.hasFooter then 1 + |s.orcTail.value.minimal| else 0)
                   + (if s.fileKey.LongKey? then 8 else if s.fileKey.WritableKey? then 1 else 0) + 8
    ensures ts[0] == Byte(EncodeFlags(FlagsOf(s)) as int)
  {
    [Byte(EncodeFlags(FlagsOf(s)) as int)]
    + IntTokens(|s.deltas|)
    + DeltaTokens(s.deltas)
    + (if s.hasFooter then TailTokens(s.orcTail.value) else [])
    + KeyTokens(s.fileKey)
    + LongTokens(s.fileLen)
  }

  /** Everything the split writes: the file split header, then the payload. */
  function Write(s: Split): (ts: seq<Token>)
    requires Serialisable(s)
    ensures |ts| > 0 && ts[0] == Header(s.header) && ts[1..] == WritePayload(s)
  {
    [Header(s.header)] + WritePayload(s)
  }

  /** The tail part: a length, then that many bytes. A negative length
      fails allocating the buffer. */
  function ReadTail(ts: seq<Token>): (r: Result<Read<OrcTail>, SplitError>)
    ensures |ts| > 0 && ts[0].VInt? && ts[0].n < 0 ==> r == Failure(NegativeArraySize)
    ensures r.Success? ==>
      && |ts| > 0 && ts[0].VInt? && ts[0].n == |r.value.value.minimal|
      && |r.value.rest| + 1 + |r.value.value.minimal| == |ts|
      && forall i :: 0 <= i < |r.value.value.minimal| ==> ts[1 + i] == Byte(r.value.value.minimal[i])
  {
    var len :- ReadVInt(ts);
    if len.value < 0 then Failure(NegativeArraySize)
    else
      var bytes :- ReadBytes(len.rest, len.value);
      Success(Read(OrcTail(bytes.value), bytes.rest))
  }

  function ReadKey(ts: seq<Token>, f: Flags, prior: FileKey): (r: Result<Read<FileKey>, SplitError>)
    ensures !f.hasLongFileId && !f.hasWritableFileId ==> r == Success(Read(prior, ts))
    ensures r.Success? && f.hasLongFileId ==> r.value.value.LongKey? && |r.value.rest| + 8 == |ts|
    ensures r.Success? && !f.hasLongFileId && f.hasWritableFileId ==>
      |ts| > 0 && ts[0].Synthetic? && r.value.value == WritableKey(ts[0].id) && r.value.rest == ts[1..]
  {
    if f.hasLongFileId then
      var id :- ReadLong(ts);
      Success(Read(LongKey(id.value), id.rest))
    else if f.hasWritableFileId then
      var id :- ReadSynthetic(ts);
      Success(Read(WritableKey(id.value), id.rest))
    else Success(Read(prior, ts))
  }

  /** `readFields` into the split `prior`: fields the payload does not
      carry keep their values in `prior` (the tail without a footer flag,
      the file key without an id flag, the projected size always). */
  function ReadFields(prior: Split, ts: seq<Token>): (r: Result<Read<Split>, SplitError>)
    ensures r.Success? ==> r.value.value.projColsUncompressedSize == prior.projColsUncompressedSize
    ensures r.Success? ==> !r.value.value.hasFooter ==> r.value.value.orcTail == prior.orcTail
  {
    var header :- ReadHeader(ts);
    ReadPayload(prior.(header := header.value), header.rest)
  }

  /** The payload after the header: flags, delta count and deltas, then
      the parts the flags announce. */
  function ReadPayload(prior: Split, ts: seq<Token>): (r: Result<Read<Split>, SplitError>)
    ensures r.Success? ==> r.value.value.header == prior.header
    ensures r.Success? ==> r.value.value.projColsUncompressedSize == prior.projColsUncompressedSize
    ensures r.Success? ==> !r.value.value.hasFooter ==> r.value.value.orcTail == prior.orcTail
  {
    var flagsByte :- ReadByte(ts);
    var f :- DecodeFlags(flagsByte.value as bv8);
    var count :- ReadInt(flagsByte.rest);
    var deltas :- ReadDeltas(count.rest, count.value);
    ReadAnnounced(prior.(hasFooter := f.hasFooter, isOriginal := f.isOriginal, hasBase := f.hasBase,
                         deltas := deltas.value), f, deltas.rest)
  }

  /** The tail if there is a footer, the file id if there is one, and the
      file length. */
  function ReadAnnounced(prior: Split, f: Flags, ts: seq<Token>): (r: Result<Read<Split>, SplitError>)
    requires prior.hasFooter == f.hasFooter
    ensures r.Success? ==> r.value.value == prior.(orcTail := r.value.value.orcTail, fileKey := r.value.value.fileKey,
                                                   fileLen := r.value.value.fileLen)
    ensures r.Success? ==> !f.hasFooter ==> r.value.value.orcTail == prior.orcTail
  {
    var tail :-
      if f.hasFooter then
        var t :- ReadTail(ts);
        Success(Read(Some(t.value), t.rest))
      else Success(Read(prior.orcTail, ts));
    ReadKeyAndLength(prior.(orcTail := tail.value), f, tail.rest)
  }

  /** The last two fields: the file key the flags announce, then the file
      length. */
  function ReadKeyAndLength(prior: Split, f: Flags, ts: seq<Token>): (r: Result<Read<Split>, SplitError>)
    ensures r.Success? ==> r.value.value == prior.(fileKey := r.value.value.fileKey, fileLen := r.value.value.fileLen)
  {
    var key :- ReadKey(ts, f, prior.fileKey);
    var fileLen :- ReadLong(key.rest);
    Success(Read(prior.(fileKey := key.value, fileLen := fileLen.value), fileLen.rest))
  }

  /** What reading a written split into `prior` gives back: the split, except
      for the fields the payload does not carry. */
  function Restored(prior: Split, s: Split): Split {
    s.(fileKey := if s.fileKey.LongKey? || s.fileKey.WritableKey? then s.fileKey else prior.fileKey,
       orcTail := if s.hasFooter then s.orcTail else prior.orcTail,
       projColsUncompressedSize := prior.projColsUncompressedSize)
  }

  lemma ReadTailOfTail(t: OrcTail, rest: seq<Token>)
    requires |t.minimal| <= INT_MAX
    ensures ReadTail(TailTokens(t) + rest) == Success(Read(t, rest))
  {
    var ts := TailTokens(t) + rest;
    assert ts[1..] == ByteTokens(t.minimal) + rest;
    ReadBytesOfBytes(t.minimal, rest);
  }

  lemma ReadKeyOfKey(k: FileKey, prior: FileKey, f: Flags, rest: seq<Token>)
    requires f.hasLongFileId == k.LongKey? && f.hasWritableFileId == k.WritableKey?
    ensures ReadKey(KeyTokens(k) + rest, f, prior)
         == Success(Read(if k.LongKey? || k.WritableKey? then k else prior, rest))
  {
    if k.LongKey? {
      ReadLongOfLong(k.id, rest);
    } else if k.WritableKey? {
      assert ([Synthetic(k.synthetic)] + rest)[1..] == rest;
    } else {
      assert KeyTokens(k) + rest == rest;
    }
  }

  /** Reading back what a split wrote gives the split again (up to the
      fields the payload does not carry), and leaves whatever followed. */
  lemma WriteThenRead(prior: Split, s: Split, rest: seq<Token>)
    requires Serialisable(s)
    ensures ReadFields(prior, Write(s) + rest) == Success(Read(Restored(prior, s), rest))
  {
    assert Write(s) + rest == [Header(s.header)] + (WritePayload(s) + rest);
    assert ([Header(s.header)] + (WritePayload(s) + rest))[1..] == WritePayload(s) + rest;
    PayloadThenRead(prior.(header := s.header), s, rest);
  }

  lemma PayloadThenRead(prior: Split, s: Split, rest: seq<Token>)
    requires Serialisable(s) && prior.header == s.header
    ensures ReadPayload(prior, WritePayload(s) + rest) == Success(Read(Restored(prior, s), rest))
  {
    var f := FlagsOf(s);
    var tail := if s.hasFooter then TailTokens(s.orcTail.value) else [];
    var r4 := tail + KeyTokens(s.fileKey) + LongTokens(s.fileLen) + rest;
    var r3 := DeltaTokens(s.deltas) + r4;
    PayloadLayout(s, rest);
    SplitFlagsDecode(s);
    FlagsByteValue(EncodeFlags(f));
    ReadIntOfInt(|s.deltas|, r3);
    ReadDeltasOfDeltas(s.deltas, r4);
    AnnouncedThenRead(prior.(hasFooter := f.hasFooter, isOriginal := f.isOriginal, hasBase := f.hasBase,
                             deltas := s.deltas), s, rest);
  }

  /** The flags byte goes into the stream as its unsigned value and comes
      back unchanged. */
  lemma FlagsByteValue(b: bv8)
    ensures (b as int) as bv8 == b
  {
  }

  /** The payload followed by `rest`, as the reader takes it apart. */
  lemma PayloadLayout(s: Split, rest: seq<Token>)
    requires Serialisable(s)
    ensures var tail := if s.hasFooter then TailTokens(s.orcTail.value) else [];
      var r2 := IntTokens(|s.deltas|) + (DeltaTokens(s.deltas) + (tail + KeyTokens(s.fileKey) + LongTokens(s.fileLen) + rest));
      && WritePayload(s) + rest == [Byte(EncodeFlags(FlagsOf(s)) as int)] + r2
      && (WritePayload(s) + rest)[0] == Byte(EncodeFlags(FlagsOf(s)) as int)
      && (WritePayload(s) + rest)[1..] == r2
  {
    var tail := if s.hasFooter then TailTokens(s.orcTail.value) else [];
    Regroup(Byte(EncodeFlags(FlagsOf(s)) as int), IntTokens(|s.deltas|), DeltaTokens(s.deltas),
            tail, KeyTokens(s.fileKey), LongTokens(s.fileLen), rest);
  }

  /** Regrouping a token sequence built from a first token and six parts. */
  lemma Regroup(t: Token, a: seq<Token>, b: seq<Token>, c: seq<Token>, d: seq<Token>, e: seq<Token>, rest: seq<Token>)
    ensures var r2 := a + (b + (c + d + e + rest));
      && [t] + a + b + c + d + e + rest == [t] + r2
      && ([t] + a + b + c + d + e + rest)[0] == t
      && ([t] + a + b + c + d + e + rest)[1..] == r2
  {
    var r2 := a + (b + (c + d + e + rest));
    assert [t] + a + b + c + d + e + rest == [t] + r2;
  }

  lemma AnnouncedThenRead(prior: Split, s: Split, rest: seq<Token>)
    requires Serialisable(s)
    requires prior == s.(fileKey := prior.fileKey, orcTail := prior.orcTail,
                         projColsUncompressedSize := prior.projColsUncompressedSize, fileLen := prior.fileLen)
    ensures var tail := if s.hasFooter then TailTokens(s.orcTail.value) else [];
      ReadAnnounced(prior, FlagsOf(s), tail + KeyTokens(s.fileKey) + LongTokens(s.fileLen) + rest)
      == Success(Read(Restored(prior, s), rest))
  {
    var tail := if s.hasFooter then TailTokens(s.orcTail.value) else [];
    var r5 := KeyTokens(s.fileKey) + LongTokens(s.fileLen) + rest;
    assert tail + KeyTokens(s.fileKey) + LongTokens(s.fileLen) + rest == tail + r5;
    if s.hasFooter {
      ReadTailOfTail(s.orcTail.value, r5);
    } else {
      assert tail + r5 == r5;
    }
    var withTail := prior.(orcTail := if s.hasFooter then s.orcTail else prior.orcTail);
    KeyAndLengthThenRead(withTail, s, rest);
  }

  /** The key and the file length read back from their tokens. */
  lemma KeyAndLengthThenRead(prior: Split, s: Split, rest: seq<Token>)
    ensures ReadKeyAndLength(prior, FlagsOf(s), KeyTokens(s.fileKey) + LongTokens(s.fileLen) + rest)
         == Success(Read(prior.(fileKey := if s.fileKey.LongKey? || s.fileKey.WritableKey? then s.fileKey else prior.fileKey,
                                fileLen := s.fileLen), rest))
  {
    var r6 := LongTokens(s.fileLen) + rest;
    assert KeyTokens(s.fileKey) + LongTokens(s.fileLen) + rest == KeyTokens(s.fileKey) + r6;
    ReadKeyOfKey(s.fileKey, prior.fileKey, FlagsOf(s), r6);
    ReadLongOfLong(s.fileLen, rest);
  }

  /** For a constructed split read into a fresh one, only a key the payload
      cannot carry and the projected size are lost; in particular the ACID
      and LLAP answers survive. */
  lemma ConstructedSplitRoundTrip(s: Split, rest: seq<Token>)
    requires Serialisable(s) && (s.hasFooter <==> s.orcTail.Some?)
    ensures var r := ReadFields(EmptySplit(), Write(s) + rest);
      && r.Success? && r.value.rest == rest
      && r.value.value == s.(fileKey := if s.fileKey.OtherKey? then NullKey else s.fileKey,
                             projColsUncompressedSize := 0)
      && (IsAcid(r.value.value) <==> IsAcid(s))
      && (CanUseLlapIo(r.value.value) <==> CanUseLlapIo(s))
  {
    WriteThenRead(EmptySplit(), s, rest);
  }

  /** A flags byte naming both kinds of file id stops the read right after
      the byte, whatever follows. */
  lemma BothIdsRejected(prior: Split, h: FileSplitHeader, b: UInt8, rest: seq<Token>)
    requires (b as bv8) & HAS_LONG_FILEID_FLAG != 0 && (b as bv8) & HAS_SYNTHETIC_FILEID_FLAG != 0
    ensures ReadFields(prior, [Header(h), Byte(b)] + rest) == Failure(BothFileIdTypes)
  {
    assert ([Header(h), Byte(b)] + rest)[1..] == [Byte(b)] + rest;
  }

  /** A negative delta count reads no deltas and goes on with the tail. */
  lemma NegativeDeltaCountReadsNone(ts: seq<Token>, n: int)
    requires n <= 0
    ensures ReadDeltas(ts, n) == Success(Read([], ts))
  {
  }

  /** A footer flag followed by a negative tail length fails. */
  lemma NegativeTailLengthRejected(n: Int, rest: seq<Token>)
    requires n < 0
    ensures ReadTail([VInt(n)] + rest) == Failure(NegativeArraySize)
  {
  }

  /** A payload cut short anywhere in the file length ends the read. */
  lemma TruncatedFileLength(v: Long, k: nat)
    requires k < 8
    ensures ReadLong(LongTokens(v)[..k]) == Failure(EndOfStream)
  {
    var bs := SignedBytes(v, 8);
    assert LongTokens(v)[..k] == ByteTokens(bs[..k]);
    ReadBytesOfShortStream(bs[..k], 8);
  }
}
