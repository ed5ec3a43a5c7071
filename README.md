# Whisper file model (memento core types)

This project models the in-memory structures of the Whisper round-robin
time-series file format as the memento core defines them, and the size
arithmetic that fixes the on-disk layout:

- a file (`MementoDatabase`) is a `Header` followed by `Data`;
- a `Header` is a 16-byte `Metadata` record (aggregation method, maximum
  retention, x-files factor, archive count) followed by 12-byte `ArchiveInfo`
  records (offset, seconds per point, number of points);
- `Data` is one `Archive` per descriptor, and an `Archive` is a sequence of
  12-byte `Point`s (timestamp, value).

All structures are immutable values in the source, so each is a Dafny
`datatype` whose destructors are the Rust accessors. The IEEE-754 fields
(`x_files_factor: f32`, `Point.value: f64`) are carried as raw `bv32`/`bv64`
bit patterns and never computed with. `u32` and `u64` are subset types of
`int`, so `Header.Size`, `Metadata.ArchiveInfoSize` and
`ArchiveInfo.ArchiveSize` also prove that their `u64` results cannot overflow.
`Header.FileSize` is an unbounded `nat`; its `u64` bound is the conditional
lemma `FileSizeFitsU64` (fewer than 2^28 descriptors).

Files:

- `types.dfy` (module `Types`): the datatypes, record sizes, `Header.Size`,
  `Header.FileSize` (the `iter().fold` as `FoldArchiveSizes`, proved equal to
  an independent in-order sum), `ArchiveInfo.ArchiveSize`,
  `ArchiveInfo.Retention`, the aggregation discriminants and a model-level
  checked inverse of them (`core/src/types.rs` has no conversion from
  `u32`).
- `layout.dfy` (module `Layout`): a model-level predicate for a contiguous
  offset chain (first archive right after the header, each next one right after
  the previous), its closed form, and the lemmas that such a chain ends exactly
  at `FileSize()` and keeps every archive inside the file and apart from the
  others. Nothing in `core/src/types.rs` computes offsets; the predicate
  describes the layout the unit-test fixture exhibits.
- `fixture.dfy` (module `Fixture`): the header of the `test_header_size` unit
  test and its asserted sizes.

The Whisper format requires more of a well-formed file than the types in
`core/src/types.rs` enforce; where the two differ, the model follows the source:

- `Header::size()` counts `metadata.archive_count` descriptors, while
  `Header::file_size()` sums over the `archive_info` list actually present.
  The format requires `archive_count == len(archive_info)`, but nothing in
  `core/src/types.rs` makes the two agree (`Header::new` accepts any list), so
  the model keeps them independent
  (`SizeIgnoresArchiveInfo`); their equality is only an assumption of the
  lemmas that need it.
- `ArchiveInfo::retention()` is a `u32` product, while the format defines the
  retention as the exact product `num_points × seconds_per_point`. The model
  states the wrap-around of the `u32` arithmetic explicitly and proves the
  exact value only when the product fits.
- The format requires one `Archive` per descriptor and `num_points` points in
  each archive. `core/src/types.rs` ties neither `len(data.archives)` to
  `len(archive_info)` nor `len(points)` to `num_points`, and the model does
  not either: `Data`, `Archive` and `Header` are independent values.

## Model

| member | source | states |
|---|---|---|
| `Types.AggregationType.Discriminant` | core/src/types.rs:78-88 | each variant is stored as the u32 listed in the enum, always in 1..8 |
| `Types.AggregationType.FromDiscriminant` | core/src/types.rs:77-88 | a model-level checked inverse of the enum's discriminants (`core/src/types.rs` has no conversion from u32): a discriminant has a variant exactly when it is in 1..8, and that variant's discriminant is the one given |
| `Types.DiscriminantRoundTrip` | core/src/types.rs:79-88 | Average=1 … AbsMin=8 is a bijection: decoding a variant's discriminant gives that variant back, and a discriminant decodes to a variant iff it is that variant's discriminant |
| `Types.DefaultAggregation` | core/src/types.rs:90-94 | the default aggregation method is the one with discriminant 1 (Average) |
| `Types.StorageMatchesFieldWidths` | core/src/types.rs:119-122 | the fixed record sizes 16 (metadata), 12 (archive info, lines 166-169) and 12 (point, lines 243-246) are the sums of the widths of their u32/f32/f64 fields |
| `Types.Metadata.ArchiveInfoSize` | core/src/types.rs:144-147 | the descriptor area is a whole number of 12-byte records, exactly `archive_count` of them, and fits in a u64 |
| `Types.ArchiveInfo.ArchiveSize` | core/src/types.rs:171-174 | an archive takes a whole number of 12-byte points, exactly `num_points` of them, at most 12 × u32::MAX bytes |
| `Types.ArchiveInfo.Retention` | core/src/types.rs:191-194 | the retention is `num_points × seconds_per_point` when that fits in a u32; otherwise it is smaller and congruent to it modulo 2^32 (u32 wrap-around) |
| `Types.Header.Size` | core/src/types.rs:62-66 | the header size is the metadata's 16 bytes plus `Metadata.ArchiveInfoSize()`, and recovers `archive_count` as (size − 16) / 12 |
| `Types.SizeIgnoresArchiveInfo` | core/src/types.rs:64-66 | the header size depends only on the metadata's archive count, not on the descriptor list; when the two agree it is 16 + 12 × the number of descriptors |
| `Types.FoldArchiveSizes` | core/src/types.rs:70-74 | the left fold of `archive_size` over the descriptors, started at `acc`, equals `acc` plus the in-order sum of the archive sizes |
| `Types.Header.FileSize` | core/src/types.rs:68-74 | the file size is the header size plus the sum of every archive's size, hence never below the header size |
| `Types.SumArchiveSizesAppend` | core/src/types.rs:70-74 | the summed archive sizes of two descriptor lists joined together are the sum of their separate totals |
| `Types.FileSizeAppendArchive` | core/src/types.rs:70-74 | appending one descriptor increases the file size by exactly that archive's size |
| `Types.FileSizeFitsU64` | core/src/types.rs:70-74 | with fewer than 2^28 descriptors the u64 fold cannot overflow |
| `Types.DefaultHeader` | core/src/types.rs:38-42 | the derived default header (default metadata, no descriptors) is 16 bytes and so is its file |
| `Types.ConstructorsStoreArguments` | core/src/types.rs:13-256 | every `new` constructor keeps its arguments and each accessor returns the argument it was built from |
| `Layout.ContiguousIffAfterPrefix` | core/src/types.rs:266-270 | the step-by-step offset chain (first offset = header size, each next = previous + previous archive size) holds iff each offset equals the header size plus the sizes of all earlier archives |
| `Layout.ContiguousIsAfterPrefix` | core/src/types.rs:266-270 | in a contiguous chain, each of the first n offsets is the header size plus the sizes of the archives before it |
| `Layout.ChainEndsAtFileSize` | core/src/types.rs:266-275 | in a contiguous chain the last offset plus the last archive's size is exactly `FileSize()` |
| `Layout.ArchivesInsideFileAndDisjoint` | core/src/types.rs:266-275 | in a contiguous chain every archive starts at or after the header's end, ends at or before `FileSize()`, and ends at or before every later archive's start |
| `Fixture.FixtureHeader` | core/src/types.rs:265-272 | the fixture's metadata declares as many archives as its list holds, five |
| `Fixture.FixtureSizes` | core/src/types.rs:264-276 | the fixture header is 76 bytes and its file 744556 bytes |
| `Fixture.FixtureIsContiguous` | core/src/types.rs:266-275 | the fixture's offsets 76, 103756, 224716, 328396, 639436 form a contiguous chain whose last archive ends at 744556 |
| `Fixture.FixtureRetention` | core/src/types.rs:265-270 | no fixture retention wraps, and the maximum retention 31536000 equals the coarsest archive's retention, 3600 × 8760 |

## Left out

- The binary parser and encoder, the errors module, the fetch and write engines and the memory-mapped, lock-guarded file stream: their modules (`parser`, `encoder`, `errors`, `read`, `write`, `io`) are declared in `core/src/lib.rs` and `src/lib.rs` but their source is not part of this model, so nothing of them is reconstructed.
- Validation of an archive schema (ascending precision, divisible steps, covering retention, x-files factor in [0, 1]) and the computation of offsets at file creation: nothing in `core/src/types.rs` does either. `Layout.ContiguousOffsets` only describes the layout such code would produce.
- `src/file.rs`: an older, serde-serialisable duplicate of the same structures with accessors only; the model keeps the single canonical definition from `core/src/types.rs`.
- `src/lib.rs`, `core/src/lib.rs`: crate wiring and re-exports, with no behaviour.
- `cabi/build.rs` (C header generation) and the fuzzing target: build tooling and a harness around the parser.
- Floating-point values: `x_files_factor` and point values are opaque bit patterns; the derived `PartialEq` on `f32`/`f64` is modelled as bit equality, which differs from IEEE-754 comparison in two cases: a NaN compares unequal to itself, and +0.0 and −0.0 compare equal.
- `Types.ArchiveInfo.Retention`: models the wrap-around of release builds; a debug build panics on the overflowing `u32` multiplication, which the model does not represent.
- `Types.Header.FileSize`: computes the exact sum as an unbounded integer; the `u64` fold wraps (or panics in a debug build) only beyond 2^28 descriptors, a case `Types.FileSizeFitsU64` excludes and the model does not represent.
- The derived `Default` of `MementoDatabase`, `ArchiveInfo`, `Data`, `Archive` and `Point` (numeric fields zero, vectors empty, aggregation Average): only the defaults of `Header` (`Types.DefaultHeader`, which builds `Metadata`'s default inside it) and `AggregationType` (`Types.DefaultAggregation`) are modelled, because these are the ones with size arithmetic or a chosen variant.
- The derived `Debug`, `Clone` and `Hash` implementations: Dafny values are copied and compared structurally, so they carry no behaviour to model.
