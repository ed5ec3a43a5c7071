/**
  Where the archives of a file lie. A header's archive descriptors are laid
  out contiguously when the first archive starts right after the header and
  each next one starts where the previous one ends; this module proves what
  such a chain implies about `Header.FileSize`.
 */
module Layout {
  import opened Types

  /** The offset chain, step by step: first at the header's end, each next after the previous archive. */
  predicate ContiguousOffsets(h: Header)
  {
    var infos := h.archiveInfo;
    && (|infos| > 0 ==> infos[0].offset == h.Size())
    && forall i :: 0 < i < |infos| ==> infos[i].offset == infos[i - 1].offset + infos[i - 1].ArchiveSize()
  }

  /** The same chain in closed form: archive i starts after the header and the archives before it. */
  predicate OffsetsAfterPrefix(h: Header)
  {
    var infos := h.archiveInfo;
    forall i :: 0 <= i < |infos| ==> infos[i].offset == h.Size() + SumArchiveSizes(infos[..i])
  }

  /** The prefix sum grows by one archive at a time. */
  lemma SumArchiveSizesStep(s: seq<ArchiveInfo>, i: nat)
    requires i < |s|
    ensures SumArchiveSizes(s[..i + 1]) == SumArchiveSizes(s[..i]) + s[i].ArchiveSize()
  {
    assert s[..i + 1] == s[..i] + [s[i]];
    SumArchiveSizesAppend(s[..i], [s[i]]);
    assert [s[i]][1..] == [];
  }

  /** The step-by-step chain and the closed form describe the same layouts. */
  lemma ContiguousIffAfterPrefix(h: Header)
    ensures ContiguousOffsets(h) <==> OffsetsAfterPrefix(h)
  {
    var infos := h.archiveInfo;
    if |infos| > 0 {
      assert infos[..0] == [];
    }
    forall i | 0 < i < |infos|
      ensures SumArchiveSizes(infos[..i]) == SumArchiveSizes(infos[..i - 1]) + infos[i - 1].ArchiveSize()
    {
      SumArchiveSizesStep(infos, i - 1);
    }
    if ContiguousOffsets(h) {
      ContiguousIsAfterPrefix(h, |infos|);
    }
  }

  /** Induction over the length of the chain checked so far. */
  lemma {:induction false} ContiguousIsAfterPrefix(h: Header, n: nat)
    requires ContiguousOffsets(h)
    requires n <= |h.archiveInfo|
    ensures forall i :: 0 <= i < n ==> h.archiveInfo[i].offset == h.Size() + SumArchiveSizes(h.archiveInfo[..i])
  {
    var infos := h.archiveInfo;
    if n == 1 {
      assert infos[..0] == [];
    } else if n > 1 {
      ContiguousIsAfterPrefix(h, n - 1);
      SumArchiveSizesStep(infos, n - 2);
      assert infos[..n - 2 + 1] == infos[..n - 1];
    }
  }

  /** In a contiguous layout the last archive ends exactly at the end of the file. */
  lemma ChainEndsAtFileSize(h: Header)
    requires ContiguousOffsets(h)
    requires |h.archiveInfo| > 0
    ensures var last := h.archiveInfo[|h.archiveInfo| - 1];
      last.offset + last.ArchiveSize() == h.FileSize()
  {
    var infos := h.archiveInfo;
    var n := |infos|;
    ContiguousIffAfterPrefix(h);
    SumArchiveSizesStep(infos, n - 1);
    assert infos[..n] == infos;
  }

  /** In a contiguous layout every archive lies inside the file, after the header and before the next one. */
  lemma ArchivesInsideFileAndDisjoint(h: Header)
    requires ContiguousOffsets(h)
    ensures forall i :: 0 <= i < |h.archiveInfo| ==>
      h.Size() <= h.archiveInfo[i].offset
      && h.archiveInfo[i].offset + h.archiveInfo[i].ArchiveSize() <= h.FileSize()
    ensures forall i, j :: 0 <= i < j < |h.archiveInfo| ==>
      h.archiveInfo[i].offset + h.archiveInfo[i].ArchiveSize() <= h.archiveInfo[j].offset
  {
    var infos := h.archiveInfo;
    var n := |infos|;
    ContiguousIffAfterPrefix(h);
    assert infos[..n] == infos;
    forall i | 0 <= i < n
      ensures infos[i].offset + infos[i].ArchiveSize() <= h.FileSize()
    {
      SumArchiveSizesStep(infos, i);
      SumArchiveSizesPrefix(infos, i + 1, n);
    }
    forall i, j | 0 <= i < j < n
      ensures infos[i].offset + infos[i].ArchiveSize() <= infos[j].offset
    {
      SumArchiveSizesStep(infos, i);
      SumArchiveSizesPrefix(infos, i + 1, j);
    }
  }
}
