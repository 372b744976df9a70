// artifact_preservation_edge.py: the content-addressed archive. A file is written beside its final
// name, synced, renamed into place, and its directory synced; any call may be cut short anywhere.
// Archives stand in directories named by the first two characters of their digest, made on demand.
module ArchiveStore {
  import opened Utf8

  type Bytes = seq<Byte>

  /** The digest of a content, as the number its hexadecimal text denotes. */
  type Hash = Bytes -> nat

  ghost predicate CollisionFree(hash: Hash)
  {
    forall a, b :: hash(a) == hash(b) ==> a == b
  }

  datatype Name = Archive(digest: nat) | Temp(digest: nat, token: nat)

  /** The directory of a digest: the first two of its 64 hexadecimal characters. */
  function Prefix(digest: nat): nat
  {
    digest / PREFIX_UNIT
  }

  const PREFIX_UNIT: nat := 0x1_00000000_00000000_00000000_00000000_00000000_00000000_00000000_000000

  /** `synced` says that the content would survive a loss of power. */
  datatype Inode = Inode(content: Bytes, synced: bool)

  /**
   * `durable` holds the entries of the prefix directories as they would survive a loss of power, and
   * `durablePrefixes` the prefix directories that would; `next` is a fresh inode number.
   */
  datatype Disk = Disk(
    prefixes: set<nat>,
    durablePrefixes: set<nat>,
    names: map<Name, nat>,
    durable: map<Name, nat>,
    inodes: map<nat, Inode>,
    next: nat)

  const EMPTY := Disk({}, {}, map[], map[], map[], 0)

  ghost predicate SoundEntries(entries: map<Name, nat>, disk: Disk, hash: Hash)
  {
    forall n :: n in entries && n.Archive? ==> SoundInode(disk, entries[n], n.digest, hash)
  }

  /** Every name stands in a prefix directory that is there. */
  ghost predicate Housed(disk: Disk)
  {
    disk.durablePrefixes <= disk.prefixes && forall n :: n in disk.names ==> Prefix(n.digest) in disk.prefixes
  }

  predicate SoundInode(disk: Disk, id: nat, digest: nat, hash: Hash)
  {
    id in disk.inodes && id < disk.next && disk.inodes[id].synced && hash(disk.inodes[id].content) == digest
  }

  /** Every archive name, present or surviving, holds synced bytes with its digest. */
  ghost predicate Sound(disk: Disk, hash: Hash)
  {
    Housed(disk) && SoundEntries(disk.names, disk, hash) && SoundEntries(disk.durable, disk, hash)
  }

  predicate Holds(disk: Disk, digest: nat, content: Bytes)
  {
    Archive(digest) in disk.names && disk.names[Archive(digest)] in disk.inodes
    && disk.inodes[disk.names[Archive(digest)]].content == content
  }

  // ---------------------------------------------------------------- the states of one store call

  /** How far a call has come: each moment is one system call after the one before. */
  datatype Moment =
    | Untouched
    | Prepared
    | Writing(content: Bytes, synced: bool)
    | Discarded(content: Bytes, synced: bool)
    | Placed(content: Bytes)
    | Finished(content: Bytes)

  function WithPrefix(base: Disk, digest: nat): Disk
  {
    base.(prefixes := base.prefixes + {Prefix(digest)})
  }

  function Pending(base: Disk, temp: Name, content: Bytes, synced: bool): Disk
  {
    WithPrefix(base, temp.digest).(
      names := base.names[temp := base.next], inodes := base.inodes[base.next := Inode(content, synced)], next := base.next + 1)
  }

  function Unlinked(disk: Disk, temp: Name): Disk
  {
    disk.(names := disk.names - {temp})
  }

  function Renamed(disk: Disk, temp: Name, archive: Name): Disk
    requires temp in disk.names
  {
    disk.(names := (disk.names - {temp})[archive := disk.names[temp]])
  }

  /** Syncing a prefix directory makes its own entries durable, and nothing else. */
  function DirectorySynced(disk: Disk, prefix: nat): Disk
  {
    disk.(durable :=
      (map n | n in disk.durable && Prefix(n.digest) != prefix :: disk.durable[n]) +
      (map n | n in disk.names && Prefix(n.digest) == prefix :: disk.names[n]))
  }

  function StateAt(base: Disk, temp: Name, m: Moment): Disk
    requires temp.Temp?
  {
    match m
    case Untouched => base
    case Prepared => WithPrefix(base, temp.digest)
    case Writing(content, synced) => Pending(base, temp, content, synced)
    case Discarded(content, synced) => Unlinked(Pending(base, temp, content, synced), temp)
    case Placed(content) => Renamed(Pending(base, temp, content, true), temp, Archive(temp.digest))
    case Finished(content) =>
      DirectorySynced(Renamed(Pending(base, temp, content, true), temp, Archive(temp.digest)), Prefix(temp.digest))
  }

  /** A call goes on past the directory only for a missing archive, and places only bytes with the digest. */
  predicate Possible(base: Disk, temp: Name, m: Moment, hash: Hash)
    requires temp.Temp?
  {
    && (m.Untouched? || m.Prepared? || (Archive(temp.digest) !in base.names && temp !in base.names))
    && (m.Placed? || m.Finished? ==> hash(m.content) == temp.digest)
  }

  /** One system call later. */
  predicate Successive(m: Moment, n: Moment)
  {
    match (m, n)
    case (Untouched, Prepared) => true
    case (Prepared, Writing(c, synced)) => c == [] && !synced
    case (Writing(c, false), Writing(d, false)) => c < d
    case (Writing(c, false), Writing(d, true)) => c == d
    case (Writing(c, synced), Discarded(d, wasSynced)) => c == d && synced == wasSynced
    case (Writing(c, true), Placed(d)) => c == d
    case (Placed(c), Finished(d)) => c == d
    case _ => false
  }

  ghost predicate Chain(moments: seq<Moment>)
  {
    && moments != [] && moments[0] == Untouched
    && forall k :: 0 <= k < |moments| - 1 ==> Successive(moments[k], moments[k + 1])
  }

  /** An archive that is there stays, with the same bytes. */
  ghost predicate Keeps(before: Disk, after: Disk)
  {
    && before.next <= after.next
    && forall d :: Archive(d) in before.names ==>
      && Archive(d) in after.names && after.names[Archive(d)] == before.names[Archive(d)]
      && (before.names[Archive(d)] in before.inodes && before.names[Archive(d)] < before.next ==>
            before.names[Archive(d)] in after.inodes
            && after.inodes[before.names[Archive(d)]] == before.inodes[before.names[Archive(d)]])
  }

  /**
   * What is left after a loss of power: each prefix directory that is durable, perhaps others; in them each
   * name as it is or as it was synced; unsynced bytes arbitrary.
   */
  ghost predicate AfterPowerLoss(before: Disk, after: Disk)
  {
    && after.next >= before.next && after.durable == after.names && after.durablePrefixes == after.prefixes
    && before.durablePrefixes <= after.prefixes <= before.prefixes
    && (forall n :: n in after.names ==> Prefix(n.digest) in after.prefixes && MayRemain(before, n, after.names[n]))
    && (forall n :: n in before.names && n in before.durable && before.names[n] == before.durable[n] && Prefix(n.digest) in after.prefixes ==>
          n in after.names && after.names[n] == before.names[n])
    && (forall id :: id in before.inodes && before.inodes[id].synced ==> id in after.inodes && after.inodes[id] == before.inodes[id])
  }

  ghost predicate MayRemain(before: Disk, n: Name, id: nat)
  {
    (n in before.names && id == before.names[n]) || (n in before.durable && id == before.durable[n])
  }

  lemma {:induction false} PowerLossKeepsSound(before: Disk, after: Disk, hash: Hash)
    requires Sound(before, hash) && AfterPowerLoss(before, after)
    ensures Sound(after, hash)
  {
  }

  /** No state of any call harms an archive: its own comes whole, the others stay. */
  lemma {:induction false} EveryMomentIsSound(base: Disk, temp: Name, m: Moment, hash: Hash)
    requires Sound(base, hash) && temp.Temp? && Possible(base, temp, m, hash)
    ensures Sound(StateAt(base, temp, m), hash)
    ensures Keeps(base, StateAt(base, temp, m))
  {
    match m
    case Placed(content) => PlacedIsSound(base, temp, content, hash);
    case Finished(content) => FinishedIsSound(base, temp, content, hash);
    case _ => EarlyMomentIsSound(base, temp, m, hash);
  }

  lemma {:induction false} EarlyMomentIsSound(base: Disk, temp: Name, m: Moment, hash: Hash)
    requires Sound(base, hash) && temp.Temp? && Possible(base, temp, m, hash) && !m.Placed? && !m.Finished?
    ensures Sound(StateAt(base, temp, m), hash)
    ensures Keeps(base, StateAt(base, temp, m))
  {
  }

  lemma {:induction false} FinishedIsSound(base: Disk, temp: Name, content: Bytes, hash: Hash)
    requires Sound(base, hash) && temp.Temp? && Possible(base, temp, Finished(content), hash)
    ensures Sound(StateAt(base, temp, Finished(content)), hash)
    ensures Keeps(base, StateAt(base, temp, Finished(content)))
  {
    var placed, finished := StateAt(base, temp, Placed(content)), StateAt(base, temp, Finished(content));
    PlacedIsSound(base, temp, content, hash);
    SyncKeepsSound(base, placed, finished, Prefix(temp.digest), hash);
  }

  lemma {:induction false} SyncKeepsSound(base: Disk, disk: Disk, synced: Disk, prefix: nat, hash: Hash)
    requires Sound(disk, hash) && Keeps(base, disk) && synced == DirectorySynced(disk, prefix)
    ensures Sound(synced, hash) && Keeps(base, synced)
  {
  }

  lemma {:induction false} PlacedIsSound(base: Disk, temp: Name, content: Bytes, hash: Hash)
    requires Sound(base, hash) && temp.Temp? && Possible(base, temp, Placed(content), hash)
    ensures Sound(StateAt(base, temp, Placed(content)), hash)
    ensures Keeps(base, StateAt(base, temp, Placed(content)))
  {
  }

  /** What a call did: its moments form a chain of single system calls that ends in the final state. */
  ghost predicate Course(base: Disk, temp: Name, after: Disk, moments: seq<Moment>, hash: Hash)
    requires temp.Temp?
  {
    && Chain(moments) && (forall k :: 0 <= k < |moments| ==> Possible(base, temp, moments[k], hash))
    && after == StateAt(base, temp, moments[|moments| - 1])
  }

  lemma {:induction false} CourseSnoc(base: Disk, temp: Name, after: Disk, moments: seq<Moment>, m: Moment, hash: Hash)
    requires temp.Temp? && Course(base, temp, after, moments, hash)
    requires Successive(moments[|moments| - 1], m) && Possible(base, temp, m, hash)
    ensures Course(base, temp, StateAt(base, temp, m), moments + [m], hash)
  {
  }

  /** A temporary file that holds some content so far. */
  ghost predicate InProgress(base: Disk, temp: Name, content: Bytes, moments: seq<Moment>, hash: Hash)
  {
    && temp.Temp? && Archive(temp.digest) !in base.names && temp !in base.names
    && Course(base, temp, Pending(base, temp, content, false), moments, hash)
    && moments[|moments| - 1] == Writing(content, false)
  }

  lemma {:induction false} Begin(base: Disk, temp: Name, hash: Hash)
    requires temp.Temp? && Archive(temp.digest) !in base.names && temp !in base.names
    ensures InProgress(base, temp, [], [Untouched, Prepared, Writing([], false)], hash)
  {
    CourseSnoc(base, temp, base, [Untouched], Prepared, hash);
    CourseSnoc(base, temp, WithPrefix(base, temp.digest), [Untouched, Prepared], Writing([], false), hash);
    assert [Untouched, Prepared] + [Writing([], false)] == [Untouched, Prepared, Writing([], false)];
  }

  lemma {:induction false} WriteSnoc(base: Disk, temp: Name, content: Bytes, more: Bytes, moments: seq<Moment>, hash: Hash)
    requires InProgress(base, temp, content, moments, hash) && content < more
    ensures InProgress(base, temp, more, moments + [Writing(more, false)], hash)
  {
    CourseSnoc(base, temp, Pending(base, temp, content, false), moments, Writing(more, false), hash);
  }

  // ---------------------------------------------------------------- writing

  datatype Problem = SourceDigestMismatch | ArchiveDigestMismatch | Unavailable

  datatype Result = Stored | Failed(problem: Problem)

  /** Where the operating system reports an error, if anywhere; writes are counted. */
  datatype Fault = NoFault | AtMakeDirectory | AtCreate | AtWrite(call: nat) | AtSync | AtRename | AtDirectorySync

  /** How many bytes each write call takes; at least one of a non-empty buffer. */
  type Writes = nat -> nat

  function Taken(writes: Writes, call: nat, available: nat): (n: nat)
    requires available > 0
    ensures 1 <= n <= available
  {
    if writes(call) == 0 then 1 else if writes(call) > available then available else writes(call)
  }

  /** Writes one buffer at the end of the temporary file, however short the single writes are. */
  method WriteBuffer(start: Bytes, buffer: Bytes, firstCall: nat, writes: Writes, fault: Fault,
                     ghost base: Disk, ghost temp: Name, ghost before: seq<Moment>, ghost hash: Hash)
    returns (content: Bytes, calls: nat, ok: bool, ghost moments: seq<Moment>)
    requires InProgress(base, temp, start, before, hash)
    ensures ok ==> content == start + buffer
    ensures !ok ==> fault.AtWrite?
    ensures InProgress(base, temp, content, moments, hash)
  {
    content, calls, moments := start, firstCall, before;
    var view := buffer;
    while view != []
      invariant content + view == start + buffer
      invariant InProgress(base, temp, content, moments, hash)
      decreases |view|
    {
      if fault == AtWrite(calls) {
        return content, calls, false, moments;
      }
      var n := Taken(writes, calls, |view|);
      assert content + view == (content + view[..n]) + view[n..];
      WriteSnoc(base, temp, content, content + view[..n], moments, hash);
      content, view, calls := content + view[..n], view[n..], calls + 1;
      moments := moments + [Writing(content, false)];
    }
    ok := true;
  }

  function Concat(chunks: seq<Bytes>): Bytes
  {
    if chunks == [] then [] else Concat(chunks[..|chunks| - 1]) + chunks[|chunks| - 1]
  }

  /** Copies what the reads of the source return, one buffer after the other. */
  method WriteChunks(chunks: seq<Bytes>, writes: Writes, fault: Fault, ghost base: Disk, ghost temp: Name, ghost hash: Hash)
    returns (content: Bytes, ok: bool, ghost moments: seq<Moment>)
    requires temp.Temp? && Archive(temp.digest) !in base.names && temp !in base.names
    ensures ok ==> content == Concat(chunks)
    ensures !ok ==> fault.AtWrite?
    ensures InProgress(base, temp, content, moments, hash)
  {
    content, moments := [], [Untouched, Prepared, Writing([], false)];
    Begin(base, temp, hash);
    var calls := 0;
    for i := 0 to |chunks|
      invariant content == Concat(chunks[..i])
      invariant InProgress(base, temp, content, moments, hash)
    {
      assert chunks[..i + 1][..i] == chunks[..i];
      content, calls, ok, moments := WriteBuffer(content, chunks[i], calls, writes, fault, base, temp, moments, hash);
      if !ok {
        return;
      }
    }
    assert chunks[..|chunks|] == chunks;
    ok := true;
  }

  // ---------------------------------------------------------------- one store call

  /** From the temporary file to the archive: sync, rename, sync the directory. */
  method Publish(disk: Disk, temp: Name, content: Bytes, written: bool, fault: Fault, ghost begun: seq<Moment>, hash: Hash)
    returns (result: Result, after: Disk, ghost moments: seq<Moment>)
    requires InProgress(disk, temp, content, begun, hash)
    ensures Course(disk, temp, after, moments, hash)
    ensures result.Stored? <==> written && hash(content) == temp.digest && fault !in {AtSync, AtRename, AtDirectorySync}
    ensures moments[|moments| - 1] ==
      if !written || hash(content) != temp.digest || fault == AtSync then Discarded(content, false)
      else if fault == AtRename then Writing(content, true)
      else if fault == AtDirectorySync then Placed(content)
      else Finished(content)
  {
    moments, after := begun, Pending(disk, temp, content, false);
    if !written || hash(content) != temp.digest || fault == AtSync {
      CourseSnoc(disk, temp, after, moments, Discarded(content, false), hash);
      moments, after := moments + [Discarded(content, false)], Unlinked(after, temp);
      return Failed(if written && hash(content) != temp.digest then SourceDigestMismatch else Unavailable), after, moments;
    }
    CourseSnoc(disk, temp, after, moments, Writing(content, true), hash);
    moments, after := moments + [Writing(content, true)], Pending(disk, temp, content, true);
    if fault == AtRename {
      return Failed(Unavailable), after, moments;
    }
    CourseSnoc(disk, temp, after, moments, Placed(content), hash);
    moments, after := moments + [Placed(content)], Renamed(after, temp, Archive(temp.digest));
    if fault == AtDirectorySync {
      return Failed(Unavailable), after, moments;
    }
    CourseSnoc(disk, temp, after, moments, Finished(content), hash);
    moments, after := moments + [Finished(content)], DirectorySynced(after, Prefix(temp.digest));
    return Stored, after, moments;
  }

  /**
   * Copying a source that yields `chunks` into the archive. An archive that is there already is never
   * touched; and a call that returns leaves the archive holding bytes with the digest, the source's
   * own if hashing is free of collisions.
   */
  method CopyOrValidate(disk: Disk, digest: nat, chunks: seq<Bytes>, token: nat, writes: Writes, fault: Fault, hash: Hash)
    returns (result: Result, after: Disk, ghost moments: seq<Moment>)
    requires Sound(disk, hash)
    ensures Course(disk, Temp(digest, token), after, moments, hash)
    ensures Archive(digest) in disk.names ==> after == disk
    ensures result.Stored? ==> hash(Concat(chunks)) == digest && HoldsDigest(after, digest, hash)
    ensures result.Stored? && CollisionFree(hash) ==> Holds(after, digest, Concat(chunks))
    ensures result.Stored? && Archive(digest) !in disk.names ==>
      after == StateAt(disk, Temp(digest, token), Finished(Concat(chunks)))
    ensures result.Failed? && Archive(digest) in after.names && Archive(digest) !in disk.names ==>
      fault == AtDirectorySync && after == StateAt(disk, Temp(digest, token), Placed(Concat(chunks)))
    ensures fault == NoFault && Temp(digest, token) !in disk.names ==> (result.Stored? <==> hash(Concat(chunks)) == digest)
  {
    moments, after := [Untouched], disk;
    var archive, temp := Archive(digest), Temp(digest, token);
    if fault == AtMakeDirectory {
      return Failed(Unavailable), after, moments;
    }
    MakeDirectory(disk, temp, hash);
    moments, after := [Untouched, Prepared], WithPrefix(disk, digest);
    if archive in disk.names {
      assert SoundInode(disk, disk.names[archive], digest, hash);
      if hash(Concat(chunks)) != digest {
        return Failed(SourceDigestMismatch), after, moments;
      }
      if !HoldsDigest(disk, digest, hash) {
        return Failed(ArchiveDigestMismatch), after, moments;
      }
      return Stored, after, moments;
    }
    if fault == AtCreate || temp in disk.names {
      return Failed(Unavailable), after, moments;
    }
    var content, written;
    ghost var grown;
    content, written, grown := WriteChunks(chunks, writes, fault, disk, temp, hash);
    result, after, moments := Publish(disk, temp, content, written, fault, grown, hash);
  }

  lemma {:induction false} MakeDirectory(disk: Disk, temp: Name, hash: Hash)
    requires Sound(disk, hash) && temp.Temp?
    ensures Course(disk, temp, WithPrefix(disk, temp.digest), [Untouched, Prepared], hash)
    ensures Archive(temp.digest) in disk.names ==> WithPrefix(disk, temp.digest) == disk
  {
    CourseSnoc(disk, temp, disk, [Untouched], Prepared, hash);
    assert [Untouched] + [Prepared] == [Untouched, Prepared];
    if Archive(temp.digest) in disk.names {
      assert Prefix(Archive(temp.digest).digest) in disk.prefixes;
      assert disk.prefixes + {Prefix(temp.digest)} == disk.prefixes;
    }
  }

  predicate HoldsDigest(disk: Disk, digest: nat, hash: Hash)
  {
    Archive(digest) in disk.names && disk.names[Archive(digest)] in disk.inodes
    && hash(disk.inodes[disk.names[Archive(digest)]].content) == digest
  }

  /** The archive's own entry was synced, in whatever directory it stands. */
  predicate EntrySynced(disk: Disk, digest: nat)
  {
    Archive(digest) in disk.names && Archive(digest) in disk.durable
    && disk.durable[Archive(digest)] == disk.names[Archive(digest)]
  }

  /** The entry was synced, and its directory would itself survive. */
  predicate Durable(disk: Disk, digest: nat)
  {
    EntrySynced(disk, digest) && Prefix(digest) in disk.durablePrefixes
  }

  /** Retaining bytes from memory: the digest is checked before anything is touched. */
  method StageBytes(disk: Disk, digest: nat, content: Bytes, token: nat, writes: Writes, fault: Fault, hash: Hash)
    returns (result: Result, after: Disk, ghost moments: seq<Moment>)
    requires Sound(disk, hash)
    ensures Course(disk, Temp(digest, token), after, moments, hash)
    ensures Archive(digest) in disk.names ==> after == disk
    ensures result.Stored? ==> hash(content) == digest && HoldsDigest(after, digest, hash)
    ensures result.Stored? && CollisionFree(hash) ==> Holds(after, digest, content)
    ensures result.Stored? && Archive(digest) !in disk.names ==> after == StateAt(disk, Temp(digest, token), Finished(content))
    ensures result.Failed? && fault != AtDirectorySync ==> after.names == disk.names
    ensures result.Failed? && Archive(digest) in after.names && Archive(digest) !in disk.names ==>
      fault == AtDirectorySync && after == StateAt(disk, Temp(digest, token), Placed(content))
    ensures fault == AtDirectorySync && Archive(digest) !in disk.names && Temp(digest, token) !in disk.names && hash(content) == digest ==>
      result.Failed? && Archive(digest) in after.names
    ensures fault == NoFault && Temp(digest, token) !in disk.names ==> (result.Stored? <==> hash(content) == digest)
  {
    moments, after := [Untouched], disk;
    if hash(content) != digest {
      return Failed(SourceDigestMismatch), disk, moments;
    }
    var archive, temp := Archive(digest), Temp(digest, token);
    if fault == AtMakeDirectory {
      return Failed(Unavailable), after, moments;
    }
    MakeDirectory(disk, temp, hash);
    moments, after := [Untouched, Prepared], WithPrefix(disk, digest);
    if archive in disk.names {
      assert SoundInode(disk, disk.names[archive], digest, hash);
      if !HoldsDigest(disk, digest, hash) {
        return Failed(ArchiveDigestMismatch), after, moments;
      }
      return Stored, after, moments;
    }
    if fault == AtCreate || temp in disk.names {
      return Failed(Unavailable), after, moments;
    }
    result, after, moments := StageNew(disk, temp, content, writes, fault, hash);
  }

  /** The bytes are written beside their final name and published; a failed rename removes the temporary file. */
  method StageNew(disk: Disk, temp: Name, content: Bytes, writes: Writes, fault: Fault, hash: Hash)
    returns (result: Result, after: Disk, ghost moments: seq<Moment>)
    requires temp.Temp? && Archive(temp.digest) !in disk.names && temp !in disk.names && hash(content) == temp.digest
    ensures Course(disk, temp, after, moments, hash)
    ensures result.Stored? ==> after == StateAt(disk, temp, Finished(content))
    ensures fault == NoFault ==> result.Stored?
    ensures result.Failed? && fault != AtDirectorySync ==> after.names == disk.names
    ensures fault == AtDirectorySync ==> result.Failed? && after == StateAt(disk, temp, Placed(content))
  {
    var stored, calls, written;
    ghost var grown;
    Begin(disk, temp, hash);
    stored, calls, written, grown := WriteBuffer([], content, 0, writes, fault, disk, temp, [Untouched, Prepared, Writing([], false)], hash);
    assert [] + content == content;
    result, after, moments := Publish(disk, temp, stored, written, fault, grown, hash);
    if result.Failed? && fault == AtRename {
      CourseSnoc(disk, temp, after, moments, Discarded(stored, true), hash);
      moments, after := moments + [Discarded(stored, true)], Unlinked(after, temp);
    }
    if result.Failed? && fault != AtDirectorySync {
      assert after.names == disk.names[temp := disk.next] - {temp} == disk.names;
    }
  }

  // ---------------------------------------------------------------- all runs

  /** A call cut short at any moment, or a loss of power. */
  ghost predicate Next(before: Disk, after: Disk, hash: Hash)
  {
    || AfterPowerLoss(before, after)
    || exists temp: Name, m :: temp.Temp? && Possible(before, temp, m, hash) && after == StateAt(before, temp, m)
  }

  ghost predicate Run(trace: seq<Disk>, hash: Hash)
  {
    && trace != [] && trace[0] == EMPTY
    && forall i :: 0 <= i < |trace| - 1 ==> Next(trace[i], trace[i + 1], hash)
  }

  /** In every run, cut short wherever it may be, an archive name is absent or holds bytes with its digest. */
  lemma {:induction false} EveryReachableDiskIsSound(trace: seq<Disk>, hash: Hash, i: nat)
    requires Run(trace, hash) && i < |trace|
    ensures Sound(trace[i], hash)
  {
    if i > 0 {
      EveryReachableDiskIsSound(trace, hash, i - 1);
      var before, after := trace[i - 1], trace[i];
      assert Next(before, after, hash);
      if AfterPowerLoss(before, after) {
        PowerLossKeepsSound(before, after, hash);
      } else {
        var temp: Name, m :| temp.Temp? && Possible(before, temp, m, hash) && after == StateAt(before, temp, m);
        EveryMomentIsSound(before, temp, m, hash);
      }
    }
  }

  /**
   * An archive, once there, is there in every later state of the run with the same bytes, until power
   * is lost; a loss of power can take only an archive that is not durable.
   */
  lemma {:induction false} ArchivesNeverChange(before: Disk, after: Disk, hash: Hash, digest: nat, content: Bytes)
    requires Sound(before, hash) && Next(before, after, hash) && Holds(before, digest, content)
    ensures Holds(after, digest, content) || (AfterPowerLoss(before, after) && !Durable(before, digest))
  {
    assert SoundInode(before, before.names[Archive(digest)], digest, hash);
    if !AfterPowerLoss(before, after) {
      var temp: Name, m :| temp.Temp? && Possible(before, temp, m, hash) && after == StateAt(before, temp, m);
      EveryMomentIsSound(before, temp, m, hash);
    }
  }

  ghost predicate SurvivesPowerLoss(disk: Disk, digest: nat, content: Bytes)
  {
    forall after :: AfterPowerLoss(disk, after) ==> Holds(after, digest, content)
  }

  /** The least that a loss of power leaves. */
  function Remains(disk: Disk): Disk
  {
    var kept := map n | n in disk.names && n in disk.durable && disk.names[n] == disk.durable[n]
                        && Prefix(n.digest) in disk.durablePrefixes :: disk.names[n];
    Disk(disk.durablePrefixes, disk.durablePrefixes, kept, kept, disk.inodes, disk.next)
  }

  /**
   * An archive survives every loss of power exactly when its own entry was synced and the directory it
   * stands in is durable too.
   */
  lemma {:induction false} SurvivesExactlyWhenDurable(disk: Disk, hash: Hash, digest: nat, content: Bytes)
    requires Sound(disk, hash) && Holds(disk, digest, content)
    ensures SurvivesPowerLoss(disk, digest, content) <==> Durable(disk, digest)
  {
    assert SoundInode(disk, disk.names[Archive(digest)], digest, hash);
    if !Durable(disk, digest) {
      assert AfterPowerLoss(disk, Remains(disk)) && !Holds(Remains(disk), digest, content);
    }
  }

  /**
   * A call that returns with a new archive has synced the archive's entry but not the directory's own: the
   * archive survives exactly when its prefix directory was durable before the call.
   */
  lemma {:induction false} NewArchiveSurvivesExactlyWithItsPrefix(base: Disk, temp: Name, content: Bytes, hash: Hash)
    requires Sound(base, hash) && temp.Temp? && Possible(base, temp, Finished(content), hash)
    ensures var after := StateAt(base, temp, Finished(content));
      && Holds(after, temp.digest, content) && EntrySynced(after, temp.digest)
      && (SurvivesPowerLoss(after, temp.digest, content) <==> Prefix(temp.digest) in base.durablePrefixes)
  {
    var after := StateAt(base, temp, Finished(content));
    EveryMomentIsSound(base, temp, Finished(content), hash);
    assert Prefix(Archive(temp.digest).digest) == Prefix(temp.digest);
    SurvivesExactlyWhenDurable(after, hash, temp.digest, content);
  }

  /** The first archive under its prefix: stored, and gone after a loss of power. */
  method FirstUnderItsPrefix(content: Bytes, token: nat, writes: Writes, hash: Hash) returns (result: Result, after: Disk, ghost lost: Disk)
    ensures result.Stored? && Holds(after, hash(content), content) && EntrySynced(after, hash(content))
    ensures AfterPowerLoss(after, lost) && Archive(hash(content)) !in lost.names
  {
    var digest := hash(content);
    ghost var moments;
    result, after, moments := StageBytes(EMPTY, digest, content, token, writes, NoFault, hash);
    NewArchiveSurvivesExactlyWithItsPrefix(EMPTY, Temp(digest, token), content, hash);
    lost := Remains(after);
  }

  /** A disk whose one prefix directory has already outlived a loss of power. */
  function OneDurablePrefix(prefix: nat): Disk
  {
    EMPTY.(prefixes := {prefix}, durablePrefixes := {prefix})
  }

  lemma {:induction false} OneDurablePrefixIsReached(digest: nat, hash: Hash)
    ensures Run([EMPTY, EMPTY.(prefixes := {Prefix(digest)}), OneDurablePrefix(Prefix(digest))], hash)
  {
    var temp := Temp(digest, 0);
    var made := EMPTY.(prefixes := {Prefix(digest)});
    assert Possible(EMPTY, temp, Prepared, hash) && StateAt(EMPTY, temp, Prepared) == made by {
      assert EMPTY.prefixes + {Prefix(digest)} == {Prefix(digest)};
    }
    assert Next(EMPTY, made, hash);
    assert AfterPowerLoss(made, OneDurablePrefix(Prefix(digest)));
  }

  /**
   * A call that fails as it syncs the directory leaves the archive in place; the next call finds it, syncs
   * nothing and returns; a loss of power then takes the archive, although its directory is durable.
   */
  method InterruptedThenFound(content: Bytes, token: nat, writes: Writes, hash: Hash)
    returns (first: Result, second: Result, after: Disk, ghost lost: Disk)
    ensures first.Failed? && second.Stored? && Holds(after, hash(content), content)
    ensures Prefix(hash(content)) in after.durablePrefixes
    ensures AfterPowerLoss(after, lost) && Archive(hash(content)) !in lost.names
  {
    var digest := hash(content);
    var start := OneDurablePrefix(Prefix(digest));
    ghost var moments;
    first, after, moments := StageBytes(start, digest, content, token, writes, AtDirectorySync, hash);
    EveryMomentIsSound(start, Temp(digest, token), Placed(content), hash);
    second, after, moments := StageBytes(after, digest, content, token, writes, NoFault, hash);
    lost := Remains(after);
  }
}
