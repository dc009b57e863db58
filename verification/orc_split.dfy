/** The ORC input split: the file-level metadata a split carries besides the
    Hadoop file split (path, start, length), the flags byte that announces
    which optional parts of its payload are present, and the two questions
    the reader asks of it (is it ACID, can LLAP I/O read it). */
module OrcSplit {
  import opened Common

  /** The flag bits of the payload's first byte. */
  const HAS_SYNTHETIC_FILEID_FLAG: bv8 := 16
  const HAS_LONG_FILEID_FLAG: bv8 := 8
  const BASE_FLAG: bv8 := 4
  const ORIGINAL_FLAG: bv8 := 2
  const FOOTER_FLAG: bv8 := 1

  /** What the Hadoop file split itself serialises. */
  datatype FileSplitHeader = FileSplitHeader(path: string, start: Long, length: Long)

  /** An ACID delta directory's metadata; its own serialisation is a
      record of the ACID input format, kept whole here. */
  datatype DeltaMetaData = DeltaMetaData(record: seq<UInt8>)

  /** The synthetic (writable) file id; its fields are serialised by the id
      itself, kept whole here. */
  datatype SyntheticFileId = SyntheticFileId(record: seq<UInt8>)

  /** The ORC file tail, identified with its minimal serialised form. */
  datatype OrcTail = OrcTail(minimal: seq<UInt8>)

  /** The file key: absent, a `Long` inode id, a writable synthetic id, or
      any other object (which the payload does not carry). */
  datatype FileKey = NullKey | LongKey(id: Long) | WritableKey(synthetic: SyntheticFileId) | OtherKey(description: string)

  datatype Split = Split(
    header: FileSplitHeader,
    fileKey: FileKey,
    orcTail: Option<OrcTail>,
    hasFooter: bool,
    isOriginal: bool,
    hasBase: bool,
    deltas: seq<DeltaMetaData>,
    projColsUncompressedSize: Long,
    fileLen: Long)

  /** The five facts the flags byte carries. */
  datatype Flags = Flags(hasFooter: bool, isOriginal: bool, hasBase: bool,
                         hasLongFileId: bool, hasWritableFileId: bool)

  datatype SplitError = BothFileIdTypes | EndOfStream | Corrupt | NegativeArraySize

  /** A split the payload writer can serialise: a footer flag comes with a
      tail, and the delta count fits the `int` it is written as (a Java
      list never holds more). */
  predicate Writable(s: Split) {
    && (s.hasFooter ==> s.orcTail.Some?)
    && |s.deltas| <= INT_MAX
  }

  /** The split the public constructor builds. */
  function NewSplit(path: string, fileKey: FileKey, offset: Long, length: Long, orcTail: Option<OrcTail>,
                    isOriginal: bool, hasBase: bool, deltas: seq<DeltaMetaData>,
                    projectedDataSize: Long, fileLen: Long): (s: Split)
    requires |deltas| <= INT_MAX
    ensures s.header == FileSplitHeader(path, offset, length) && s.fileKey == fileKey && s.orcTail == orcTail
    ensures s.hasFooter <==> orcTail.Some?
    ensures s.isOriginal == isOriginal && s.hasBase == hasBase && s.deltas == deltas
    ensures projectedDataSize > 0 ==> s.projColsUncompressedSize == projectedDataSize
    ensures projectedDataSize <= 0 ==> s.projColsUncompressedSize == length
    ensures s.fileLen > 0
    ensures fileLen > 0 ==> s.fileLen == fileLen
    ensures fileLen <= 0 ==> s.fileLen == LONG_MAX
    ensures Writable(s)
  {
    Split(FileSplitHeader(path, offset, length), fileKey, orcTail, orcTail.Some?, isOriginal, hasBase, deltas,
          if projectedDataSize <= 0 then length else projectedDataSize,
          if fileLen <= 0 then LONG_MAX else fileLen)
  }

  /** The split the no-argument constructor builds, to be filled in by
      reading a payload. */
  function EmptySplit(): Split {
    Split(FileSplitHeader("", 0, 0), NullKey, None, false, false, false, [], 0, 0)
  }

  /** For sure ACID: a base directory or at least one delta. A split for
      which this is false may still be ACID. */
  predicate IsAcid(s: Split) {
    s.hasBase || |s.deltas| > 0
  }

  /** LLAP I/O reads original (non-ACID-layout) files without deltas. */
  predicate CanUseLlapIo(s: Split) {
    s.isOriginal && |s.deltas| == 0
  }

  /** The flags a split's payload announces. */
  function FlagsOf(s: Split): (f: Flags)
    ensures !(f.hasLongFileId && f.hasWritableFileId)
  {
    Flags(s.hasFooter, s.isOriginal, s.hasBase, s.fileKey.LongKey?, s.fileKey.WritableKey?)
  }

  /** The flags byte: one bit per fact. */
  function EncodeFlags(f: Flags): (b: bv8)
    ensures (b & FOOTER_FLAG != 0) == f.hasFooter
    ensures (b & ORIGINAL_FLAG != 0) == f.isOriginal
    ensures (b & BASE_FLAG != 0) == f.hasBase
    ensures (b & HAS_LONG_FILEID_FLAG != 0) == f.hasLongFileId
    ensures (b & HAS_SYNTHETIC_FILEID_FLAG != 0) == f.hasWritableFileId
    ensures b <= 31
  {
    (if f.hasBase then BASE_FLAG else 0)
    | (if f.isOriginal then ORIGINAL_FLAG else 0)
    | (if f.hasFooter then FOOTER_FLAG else 0)
    | (if f.hasLongFileId then HAS_LONG_FILEID_FLAG else 0)
    | (if f.hasWritableFileId then HAS_SYNTHETIC_FILEID_FLAG else 0)
  }

  /** Decoding the flags byte. The byte is read signed and masked with
      each flag; sign extension only touches bits above the flags, so the
      masks see the byte's own low bits and bits 5 to 7 are ignored. A byte
      announcing both kinds of file id is rejected. */
  function DecodeFlags(b: bv8): (r: Result<Flags, SplitError>)
    ensures r.Failure? <==> b & HAS_LONG_FILEID_FLAG != 0 && b & HAS_SYNTHETIC_FILEID_FLAG != 0
    ensures r.Failure? ==> r.error == BothFileIdTypes
  {
    var f := Flags(b & FOOTER_FLAG != 0, b & ORIGINAL_FLAG != 0, b & BASE_FLAG != 0,
                   b & HAS_LONG_FILEID_FLAG != 0, b & HAS_SYNTHETIC_FILEID_FLAG != 0);
    if f.hasLongFileId && f.hasWritableFileId then Failure(BothFileIdTypes) else Success(f)
  }

  /** Decoding inverts encoding for every flag set naming at most one kind
      of file id. */
  lemma DecodeEncodeFlags(f: Flags)
    requires !(f.hasLongFileId && f.hasWritableFileId)
    ensures DecodeFlags(EncodeFlags(f)) == Success(f)
  {
  }

  /** Encoding inverts decoding up to the ignored high bits. */
  lemma EncodeDecodeFlags(b: bv8)
    requires DecodeFlags(b).Success?
    ensures EncodeFlags(DecodeFlags(b).value) == b & 31
  {
  }

  /** A split never announces both kinds of file id, so its flags byte is
      always accepted and decodes to its flags. */
  lemma SplitFlagsDecode(s: Split)
    ensures !(FlagsOf(s).hasLongFileId && FlagsOf(s).hasWritableFileId)
    ensures EncodeFlags(FlagsOf(s)) & HAS_LONG_FILEID_FLAG == 0 || EncodeFlags(FlagsOf(s)) & HAS_SYNTHETIC_FILEID_FLAG == 0
    ensures DecodeFlags(EncodeFlags(FlagsOf(s))) == Success(FlagsOf(s))
  {
    DecodeEncodeFlags(FlagsOf(s));
  }
}
