/**
  The in-memory model of the Whisper on-disk format: metadata, archive
  descriptors, archives of points, and the size arithmetic that fixes where
  each part of a file lives. Every value here is plain data; the Rust
  structures are immutable once built, so each becomes a datatype whose
  destructors are the accessors.
 */
module Types {

  /** Rust `u32` and `u64`, as ranges of the mathematical integers. */
  const U32Limit: int := 0x1_0000_0000
  const U64Limit: int := 0x1_0000_0000_0000_0000
  type U32 = x: int | 0 <= x < 0x1_0000_0000
  type U64 = x: int | 0 <= x < 0x1_0000_0000_0000_0000

  /** IEEE-754 values are carried as their raw bit patterns; no arithmetic is done on them. */
  type F32 = bv32
  type F64 = bv64

  /** Widths in bytes of the fields of the on-disk records. */
  const U32Bytes: nat := 4
  const F32Bytes: nat := 4
  const F64Bytes: nat := 8

  /** Bytes taken by one encoded Metadata, ArchiveInfo and Point record. */
  const MetadataStorage: U64 := 16
  const ArchiveInfoStorage: U64 := 12
  const PointStorage: U64 := 12

  /** The largest archive an ArchiveInfo can describe: u32::MAX points. */
  const MaxArchiveSize: nat := 12 * (U32Limit - 1)

  datatype Option<T> = None | Some(value: T)

  /** How points are rolled up into coarser archives; `#[repr(u32)]` with discriminants 1..8. */
  datatype AggregationType = Average | Sum | Last | Max | Min | AvgZero | AbsMax | AbsMin
  {
    /** The `u32` discriminant the variant is stored as. */
    function Discriminant(): (d: U32)
      ensures 1 <= d <= 8
    {
      match this
      case Average => 1
      case Sum => 2
      case Last => 3
      case Max => 4
      case Min => 5
      case AvgZero => 6
      case AbsMax => 7
      case AbsMin => 8
    }

    /** A checked conversion back from a discriminant, defined by this model as the inverse of `Discriminant`; every value outside 1..8 has no variant. */
    static function FromDiscriminant(d: U32): (r: Option<AggregationType>)
      ensures r.Some? <==> 1 <= d <= 8
      ensures r.Some? ==> r.value.Discriminant() == d
    {
      if d == 1 then Some(Average)
      else if d == 2 then Some(Sum)
      else if d == 3 then Some(Last)
      else if d == 4 then Some(Max)
      else if d == 5 then Some(Min)
      else if d == 6 then Some(AvgZero)
      else if d == 7 then Some(AbsMax)
      else if d == 8 then Some(AbsMin)
      else None
    }
  }

  /** `AggregationType::default()`. */
  function DefaultAggregation(): (a: AggregationType)
    ensures a.Discriminant() == 1
  {
    Average
  }

  /** The discriminant table is a bijection between the eight variants and 1..8. */
  lemma DiscriminantRoundTrip(a: AggregationType, d: U32)
    ensures AggregationType.FromDiscriminant(a.Discriminant()) == Some(a)
    ensures AggregationType.FromDiscriminant(d) == Some(a) <==> a.Discriminant() == d
  {
  }

  /** The fixed part of a header: aggregation method, retention, x-files factor, archive count. */
  datatype Metadata = Metadata(
    aggregation: AggregationType,
    maxRetention: U32,
    xFilesFactor: F32,
    archiveCount: U32)
  {
    /** Bytes taken by the archive-info records that follow the metadata. */
    function ArchiveInfoSize(): (r: U64)
      ensures r % ArchiveInfoStorage == 0
      ensures r / ArchiveInfoStorage == archiveCount
    {
      archiveCount * ArchiveInfoStorage
    }
  }

  /** Where an archive starts in the file, its step in seconds, and its capacity in points. */
  datatype ArchiveInfo = ArchiveInfo(offset: U32, secondsPerPoint: U32, numPoints: U32)
  {
    /** Bytes taken by the archive's points; `u32` widened to `u64`, so it cannot overflow. */
    function ArchiveSize(): (r: U64)
      ensures r % PointStorage == 0
      ensures r / PointStorage == numPoints
      ensures r <= MaxArchiveSize
    {
      PointStorage * numPoints
    }

    /** Whether `num_points * seconds_per_point` is representable as a `u32`. */
    predicate RetentionFits()
    {
      numPoints * secondsPerPoint < U32Limit
    }

    /** The time span the archive covers, computed as a `u32` product that wraps on overflow. */
    function Retention(): (r: U32)
      ensures RetentionFits() ==> r == numPoints * secondsPerPoint
      ensures !RetentionFits() ==> r < numPoints * secondsPerPoint
      ensures (numPoints * secondsPerPoint - r) % U32Limit == 0
    {
      (numPoints * secondsPerPoint) % U32Limit
    }
  }

  /** Total bytes of the archives described by `infos`, summed in order. */
  function SumArchiveSizes(infos: seq<ArchiveInfo>): nat
  {
    if infos == [] then 0 else infos[0].ArchiveSize() + SumArchiveSizes(infos[1..])
  }

  /** The left fold over `infos` that adds each archive's size to the running total `acc`. */
  function FoldArchiveSizes(acc: nat, infos: seq<ArchiveInfo>): (r: nat)
    ensures r == acc + SumArchiveSizes(infos)
    decreases |infos|
  {
    if infos == [] then acc else FoldArchiveSizes(acc + infos[0].ArchiveSize(), infos[1..])
  }

  /** A file header: the metadata and the archive descriptors, in file order. */
  datatype Header = Header(metadata: Metadata, archiveInfo: seq<ArchiveInfo>)
  {
    /** Bytes taken by the header; it counts `metadata.archiveCount` records, not `archiveInfo`. */
    function Size(): (r: U64)
      ensures r == MetadataStorage + metadata.ArchiveInfoSize()
      ensures (r - MetadataStorage) / ArchiveInfoStorage == metadata.archiveCount
    {
      MetadataStorage + ArchiveInfoStorage * metadata.archiveCount
    }

    /** Bytes taken by the whole file: the header followed by every archive. */
    function FileSize(): (r: nat)
      ensures r == Size() + SumArchiveSizes(archiveInfo)
      ensures r >= Size()
    {
      FoldArchiveSizes(Size(), archiveInfo)
    }
  }

  /** One slot of an archive: a timestamp and an opaque `f64` value. */
  datatype Point = Point(timestamp: U32, value: F64)

  /** The points of one archive, in slot order. */
  datatype Archive = Archive(points: seq<Point>)

  /** The archives of a file, in the order of their descriptors. */
  datatype Data = Data(archives: seq<Archive>)

  /** A whole decoded file. */
  datatype MementoDatabase = MementoDatabase(header: Header, data: Data)

  /** The derived `Default` header: default metadata and no archive descriptors. */
  function DefaultHeader(): (h: Header)
    ensures h.Size() == MetadataStorage && h.FileSize() == MetadataStorage
  {
    Header(Metadata(DefaultAggregation(), 0, 0, 0), [])
  }

  /** Each constructor keeps its arguments and each accessor gives them back. */
  lemma ConstructorsStoreArguments(
    agg: AggregationType, maxRetention: U32, xff: F32, count: U32,
    infos: seq<ArchiveInfo>, offset: U32, step: U32, numPoints: U32,
    ts: U32, value: F64, points: seq<Point>, archives: seq<Archive>)
    ensures var m := Metadata(agg, maxRetention, xff, count);
      m.aggregation == agg && m.maxRetention == maxRetention
      && m.xFilesFactor == xff && m.archiveCount == count
    ensures var i := ArchiveInfo(offset, step, numPoints);
      i.offset == offset && i.secondsPerPoint == step && i.numPoints == numPoints
    ensures var h := Header(Metadata(agg, maxRetention, xff, count), infos);
      h.metadata == Metadata(agg, maxRetention, xff, count) && h.archiveInfo == infos
    ensures Point(ts, value).timestamp == ts && Point(ts, value).value == value
    ensures Archive(points).points == points
    ensures Data(archives).archives == archives
    ensures var db := MementoDatabase(Header(Metadata(agg, maxRetention, xff, count), infos), Data(archives));
      db.header.archiveInfo == infos && db.data.archives == archives
  {
  }

  /** The record sizes are the sums of their fields' widths. */
  lemma StorageMatchesFieldWidths()
    ensures MetadataStorage == 3 * U32Bytes + F32Bytes
    ensures ArchiveInfoStorage == 3 * U32Bytes
    ensures PointStorage == U32Bytes + F64Bytes
  {
  }

  /** The header size depends on the metadata's archive count only. */
  lemma SizeIgnoresArchiveInfo(m: Metadata, a: seq<ArchiveInfo>, b: seq<ArchiveInfo>)
    ensures Header(m, a).Size() == Header(m, b).Size()
    ensures |a| == m.archiveCount ==> Header(m, a).Size() == MetadataStorage + ArchiveInfoStorage * |a|
  {
  }

  /** Summing archive sizes distributes over concatenation. */
  lemma {:induction false} SumArchiveSizesAppend(a: seq<ArchiveInfo>, b: seq<ArchiveInfo>)
    ensures SumArchiveSizes(a + b) == SumArchiveSizes(a) + SumArchiveSizes(b)
  {
    if a == [] {
      assert a + b == b;
    } else {
      assert (a + b)[1..] == a[1..] + b;
      SumArchiveSizesAppend(a[1..], b);
    }
  }

  /** The archives of a longer prefix take at least as many bytes. */
  lemma SumArchiveSizesPrefix(s: seq<ArchiveInfo>, i: nat, j: nat)
    requires i <= j <= |s|
    ensures SumArchiveSizes(s[..i]) <= SumArchiveSizes(s[..j])
    ensures SumArchiveSizes(s[..j]) == SumArchiveSizes(s[..i]) + SumArchiveSizes(s[i..j])
  {
    assert s[..j] == s[..i] + s[i..j];
    SumArchiveSizesAppend(s[..i], s[i..j]);
  }

  /** No archive list is larger than as many maximal archives. */
  lemma {:induction false} SumArchiveSizesBound(infos: seq<ArchiveInfo>)
    ensures SumArchiveSizes(infos) <= |infos| * MaxArchiveSize
  {
    if infos != [] {
      SumArchiveSizesBound(infos[1..]);
    }
  }

  /** Appending a descriptor grows the file by exactly that archive's size. */
  lemma FileSizeAppendArchive(h: Header, info: ArchiveInfo)
    ensures Header(h.metadata, h.archiveInfo + [info]).FileSize() == h.FileSize() + info.ArchiveSize()
  {
    SumArchiveSizesAppend(h.archiveInfo, [info]);
    assert [info][1..] == [];
  }

  /** The `u64` fold in `file_size` cannot overflow for fewer than 2^28 archives. */
  lemma FileSizeFitsU64(h: Header)
    requires |h.archiveInfo| < 0x1000_0000
    ensures h.FileSize() < U64Limit
  {
    SumArchiveSizesBound(h.archiveInfo);
  }
}
