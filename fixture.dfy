/**
  The header of the `test_header_size` unit test: five archives of
  10 s x 1 day, 1 min x 7 days, 5 min x 30 days, 10 min x 180 days and
  1 h x 365 days, aggregated by average with an x-files factor of 0.5.
 */
module Fixture {
  import opened Types
  import opened Layout

  /** 0.5 as an IEEE-754 single. */
  const Half: F32 := 0x3F00_0000

  function FixtureHeader(): (h: Header)
    ensures h.metadata.archiveCount == |h.archiveInfo| == 5
  {
    Header(
      Metadata(Average, 31536000, Half, 5),
      [ ArchiveInfo(76, 10, 8640),
        ArchiveInfo(103756, 60, 10080),
        ArchiveInfo(224716, 300, 8640),
        ArchiveInfo(328396, 600, 25920),
        ArchiveInfo(639436, 3600, 8760) ])
  }

  /** The sizes the unit test asserts: a 76-byte header in a 744556-byte file. */
  lemma FixtureSizes()
    ensures FixtureHeader().Size() == 76
    ensures FixtureHeader().FileSize() == 744556
  {
  }

  /** The fixture's offsets form the contiguous chain 76, 103756, 224716, 328396, 639436, ending at 744556. */
  lemma FixtureIsContiguous()
    ensures ContiguousOffsets(FixtureHeader())
    ensures var last := FixtureHeader().archiveInfo[4];
      last.offset + last.ArchiveSize() == FixtureHeader().FileSize() == 744556
  {
  }

  /** No fixture retention wraps, and the maximum retention is the coarsest archive's, 3600 x 8760. */
  lemma FixtureRetention()
    ensures forall i :: 0 <= i < 5 ==> FixtureHeader().archiveInfo[i].RetentionFits()
    ensures FixtureHeader().metadata.maxRetention == FixtureHeader().archiveInfo[4].Retention() == 3600 * 8760
  {
  }
}
