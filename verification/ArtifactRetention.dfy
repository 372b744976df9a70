// artifact_preservation_edge.py: from staging a content to reading it back, chunk by chunk.
module ArtifactRetention {
  import opened Utf8
  import opened ArchiveStore
  import ArtifactPaging

  /** Every loss of power in a stretch of a run found the archive durable. */
  ghost predicate Spared(trace: seq<Disk>, from: nat, to: nat, digest: nat)
  {
    forall k :: from <= k < to < |trace| && AfterPowerLoss(trace[k], trace[k + 1]) ==> Durable(trace[k], digest)
  }

  lemma {:induction false} StaysHeld(trace: seq<Disk>, hash: Hash, from: nat, to: nat, digest: nat, content: Bytes)
    requires Run(trace, hash) && from <= to < |trace| && Spared(trace, from, to, digest)
    requires Holds(trace[from], digest, content)
    ensures Holds(trace[to], digest, content)
  {
    if from < to {
      var last: nat := to - 1;
      StaysHeld(trace, hash, from, last, digest, content);
      EveryReachableDiskIsSound(trace, hash, last);
      assert Next(trace[last], trace[last + 1], hash);
      ArchivesNeverChange(trace[last], trace[to], hash, digest, content);
    }
  }

  /** What a read finds under a digest. */
  function Stored(disk: Disk, digest: nat): Bytes
    requires Archive(digest) in disk.names && disk.names[Archive(digest)] in disk.inodes
  {
    disk.inodes[disk.names[Archive(digest)]].content
  }

  /**
   * A readable content that was archived is read back at any later time, whatever the store has done since
   * and whatever size each read asks for: the chunks are its bytes, and their texts its text.
   */
  lemma {:induction false} StagedContentReadsBack(trace: seq<Disk>, from: nat, to: nat, digest: nat, content: Bytes,
                                                  sizes: nat -> nat, screens: ArtifactPaging.Screens)
    requires Run(trace, screens.sha) && from <= to < |trace| && Spared(trace, from, to, digest)
    requires Holds(trace[from], digest, content)
    requires ArtifactPaging.Readable(content, digest, screens) && ArtifactPaging.SizesAllowed(sizes)
    ensures Holds(trace[to], digest, content)
    ensures ArtifactPaging.Refusal(Stored(trace[to], digest), digest, 0, sizes(0), screens).None?
    ensures var pages := ArtifactPaging.Pages(Stored(trace[to], digest), digest, 0, sizes, 0, screens);
      && (forall c :: c in pages ==> c.byteOffset + c.byteCount <= |content|)
      && ArtifactPaging.Bytes(content, pages) == content
      && Decode(content).Some? && ArtifactPaging.Text(pages) == Decode(content).value
  {
    StaysHeld(trace, screens.sha, from, to, digest, content);
    ArtifactPaging.PagingReassembles(content, digest, sizes, screens);
  }
}
