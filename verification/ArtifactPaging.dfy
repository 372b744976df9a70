// artifact_preservation_edge.py: reading a retained artifact in UTF-8 chunks.
module ArtifactPaging {
  import opened Utf8
  import Redaction
  import opened Wrappers

  const CONTENT_MAX_BYTES: nat := 1024 * 1024
  const CHUNK_MAX_BYTES: nat := 64 * 1024

  datatype Error =
    | OffsetOutOfRange
    | ChunkSizeInvalid
    | ContentTooLarge
    | ArchiveDigestMismatch
    | NotUtf8
    | ContainsControlPlaneSecret
    | ContainsGenericCredential
    | OffsetNotBoundary
    | ChunkBoundaryUnavailable

  datatype Result<T> = Success(value: T) | Failure(error: Error)

  datatype Chunk = Chunk(
    content: string,
    byteOffset: nat,
    byteCount: nat,
    totalBytes: nat,
    nextByteOffset: Option<nat>,
    complete: bool,
    chunkDigest: nat)

  /** What the read depends on besides its arguments: SHA-256 and the two credential screens. */
  datatype Screens = Screens(
    sha: seq<Byte> -> nat,
    controlPlaneSecret: string -> bool,
    genericCredential: string -> bool)

  /** The screens in service: the control-plane detector is the one of security.py. */
  function InService(sha: seq<Byte> -> nat, genericCredential: string -> bool): Screens
  {
    Screens(sha, text => Redaction.Found(text), genericCredential)
  }

  /** The first check that refuses a read, in the order the checks are made. */
  function Refusal(stored: seq<Byte>, digest: nat, byteOffset: int, maxBytes: int, screens: Screens): Option<Error>
  {
    if byteOffset < 0 || byteOffset > CONTENT_MAX_BYTES then Some(OffsetOutOfRange)
    else if maxBytes < 4 || maxBytes > CHUNK_MAX_BYTES then Some(ChunkSizeInvalid)
    else if |stored| > CONTENT_MAX_BYTES then Some(ContentTooLarge)
    else if screens.sha(stored) != digest then Some(ArchiveDigestMismatch)
    else if !Valid(stored) then Some(NotUtf8)
    else if screens.controlPlaneSecret(Decode(stored).value) then Some(ContainsControlPlaneSecret)
    else if screens.genericCredential(Decode(stored).value) then Some(ContainsGenericCredential)
    else if byteOffset > |stored| then Some(OffsetOutOfRange)
    else if !Valid(stored[..byteOffset]) then Some(OffsetNotBoundary)
    else None
  }

  /** Retained content that passes every check which does not depend on the requested range. */
  ghost predicate Readable(stored: seq<Byte>, digest: nat, screens: Screens)
  {
    && |stored| <= CONTENT_MAX_BYTES && screens.sha(stored) == digest && Valid(stored)
    && !screens.controlPlaneSecret(Decode(stored).value) && !screens.genericCredential(Decode(stored).value)
  }

  /** A range that a read may ask of a content: it starts at a character and is neither too small nor too large. */
  ghost predicate InRange(stored: seq<Byte>, byteOffset: int, maxBytes: int)
  {
    0 <= byteOffset <= |stored| && Valid(stored[..byteOffset]) && 4 <= maxBytes <= CHUNK_MAX_BYTES
  }

  /** A read is granted exactly for intact, readable, unsuspicious content and a range that begins at a character. */
  lemma {:induction false} GrantedExactlyWhenReadable(stored: seq<Byte>, digest: nat, byteOffset: int, maxBytes: int, screens: Screens)
    ensures Refusal(stored, digest, byteOffset, maxBytes, screens).None? <==>
      Readable(stored, digest, screens) && InRange(stored, byteOffset, maxBytes)
  {
  }

  /** What each refusal tells its caller about the content or the range. */
  lemma {:induction false} RefusalTellsWhy(stored: seq<Byte>, digest: nat, byteOffset: int, maxBytes: int, screens: Screens)
    requires Refusal(stored, digest, byteOffset, maxBytes, screens).Some?
    ensures match Refusal(stored, digest, byteOffset, maxBytes, screens).value
      case OffsetOutOfRange => byteOffset < 0 || byteOffset > |stored| || byteOffset > CONTENT_MAX_BYTES
      case ChunkSizeInvalid => maxBytes < 4 || maxBytes > CHUNK_MAX_BYTES
      case ContentTooLarge => |stored| > CONTENT_MAX_BYTES
      case ArchiveDigestMismatch => screens.sha(stored) != digest
      case NotUtf8 => screens.sha(stored) == digest && !Valid(stored)
      case ContainsControlPlaneSecret => Valid(stored) && screens.controlPlaneSecret(Decode(stored).value)
      case ContainsGenericCredential => Valid(stored) && screens.genericCredential(Decode(stored).value)
      case OffsetNotBoundary => Readable(stored, digest, screens) && 0 <= byteOffset <= |stored| && !Valid(stored[..byteOffset])
      case ChunkBoundaryUnavailable => false
  {
  }

  /** The chunk a read owes its caller: the longest decodable stretch that fits. */
  function ChunkAt(stored: seq<Byte>, byteOffset: nat, maxBytes: nat, screens: Screens): Chunk
    requires byteOffset <= |stored|
  {
    var count := Fit(stored[byteOffset..], maxBytes);
    var bytes := stored[byteOffset..][..count];
    ChunkOf(TextOf(bytes), byteOffset, count, |stored|, screens.sha(bytes))
  }

  function TextOf(bytes: seq<Byte>): string
  {
    if Valid(bytes) then Decode(bytes).value else ""
  }

  lemma {:induction false} TextOfDecodes(bytes: seq<Byte>, content: string)
    requires Decode(bytes) == Some(content)
    ensures TextOf(bytes) == content
  {
  }

  function ChunkOf(content: string, byteOffset: nat, count: nat, total: nat, digest: nat): Chunk
  {
    var complete := byteOffset + count == total;
    Chunk(content, byteOffset, count, total, if complete then None else Some(byteOffset + count), complete, digest)
  }

  lemma {:induction false} ChunkAtEnds(stored: seq<Byte>, byteOffset: nat, maxBytes: nat, screens: Screens, count: nat, content: string)
    requires byteOffset <= |stored| && count == Fit(stored[byteOffset..], maxBytes)
    requires Decode(stored[byteOffset..][..count]) == Some(content)
    ensures ChunkAt(stored, byteOffset, maxBytes, screens)
      == ChunkOf(content, byteOffset, count, |stored|, screens.sha(stored[byteOffset..][..count]))
  {
    TextOfDecodes(stored[byteOffset..][..count], content);
  }

  method ReadVerifiedTextChunk(stored: seq<Byte>, digest: nat, byteOffset: int, maxBytes: int, screens: Screens)
    returns (r: Result<Chunk>)
    ensures r.Failure? <==> Refusal(stored, digest, byteOffset, maxBytes, screens).Some?
    ensures r.Failure? ==> Refusal(stored, digest, byteOffset, maxBytes, screens) == Some(r.error)
    ensures r.Success? <==> Readable(stored, digest, screens) && InRange(stored, byteOffset, maxBytes)
    ensures r.Success? ==> screens.sha(stored) == digest
    ensures r.Success? ==> !screens.controlPlaneSecret(Decode(stored).value) && !screens.genericCredential(Decode(stored).value)
    ensures r.Success? ==> 0 <= byteOffset <= |stored| && 4 <= maxBytes
    ensures r.Success? ==> r.value == ChunkAt(stored, byteOffset, maxBytes, screens)
  {
    GrantedExactlyWhenReadable(stored, digest, byteOffset, maxBytes, screens);
    if byteOffset < 0 || byteOffset > CONTENT_MAX_BYTES {
      return Failure(OffsetOutOfRange);
    }
    if maxBytes < 4 || maxBytes > CHUNK_MAX_BYTES {
      return Failure(ChunkSizeInvalid);
    }
    if |stored| > CONTENT_MAX_BYTES {
      return Failure(ContentTooLarge);
    }
    if screens.sha(stored) != digest {
      return Failure(ArchiveDigestMismatch);
    }
    var decoded := Decode(stored);
    if decoded.None? {
      return Failure(NotUtf8);
    }
    if screens.controlPlaneSecret(decoded.value) {
      return Failure(ContainsControlPlaneSecret);
    }
    if screens.genericCredential(decoded.value) {
      return Failure(ContainsGenericCredential);
    }
    if byteOffset > |stored| {
      return Failure(OffsetOutOfRange);
    }
    if Decode(stored[..byteOffset]).None? {
      return Failure(OffsetNotBoundary);
    }

    r := CutChunk(stored, byteOffset, maxBytes, screens);
  }

  /** The chunk itself; a read that gets here never finds its boundary unavailable. */
  method CutChunk(stored: seq<Byte>, byteOffset: nat, maxBytes: nat, screens: Screens) returns (r: Result<Chunk>)
    requires Valid(stored) && byteOffset <= |stored| && Valid(stored[..byteOffset]) && 4 <= maxBytes
    ensures r == Success(ChunkAt(stored, byteOffset, maxBytes, screens))
  {
    var end, content := LongestChunk(stored, byteOffset, maxBytes);
    if end == byteOffset && byteOffset < |stored| {
      return Failure(ChunkBoundaryUnavailable);
    }
    var chunk := stored[byteOffset..end];
    var complete := end == |stored|;
    ghost var count := end - byteOffset;
    ChunkAtEnds(stored, byteOffset, maxBytes, screens, count, content);
    assert |chunk| == count && chunk == stored[byteOffset..][..count];
    assert Chunk(content, byteOffset, |chunk|, |stored|, if complete then None else Some(end), complete, screens.sha(chunk))
      == ChunkOf(content, byteOffset, count, |stored|, screens.sha(stored[byteOffset..][..count]));
    r := Success(Chunk(content, byteOffset, |chunk|, |stored|,
                       if complete then None else Some(end), complete, screens.sha(chunk)));
  }

  /** The inner loop: count down from the largest candidate until a slice decodes. */
  method LongestChunk(stored: seq<Byte>, byteOffset: nat, maxBytes: nat) returns (end: nat, content: string)
    requires Valid(stored) && byteOffset <= |stored| && Valid(stored[..byteOffset]) && 4 <= maxBytes
    ensures byteOffset <= end <= |stored| && end - byteOffset == Fit(stored[byteOffset..], maxBytes)
    ensures stored[byteOffset..end] == stored[byteOffset..][..end - byteOffset]
    ensures Decode(stored[byteOffset..][..end - byteOffset]) == Some(content)
    ensures end == byteOffset ==> byteOffset == |stored|
  {
    ghost var rest := stored[byteOffset..];
    SliceOfRest(stored, byteOffset);
    end := if |stored| < byteOffset + maxBytes then |stored| else byteOffset + maxBytes;
    content := "";
    while end > byteOffset
      invariant byteOffset <= end <= |stored| && end - byteOffset <= maxBytes
      invariant content == ""
      invariant NoneLonger(rest, end - byteOffset, maxBytes)
    {
      var attempt := Decode(stored[byteOffset..end]);
      if attempt.Some? {
        content := attempt.value;
        break;
      }
      OneShorter(rest, end - byteOffset, maxBytes);
      end := end - 1;
    }
    LoopEnds(stored, byteOffset, maxBytes, end);
  }

  lemma {:induction false} LoopEnds(stored: seq<Byte>, from: nat, maxBytes: nat, end: nat)
    requires from <= end <= |stored| && Valid(stored) && Valid(stored[..from]) && 4 <= maxBytes && end - from <= maxBytes
    requires NoneLonger(stored[from..], end - from, maxBytes) && (end == from || Valid(stored[from..][..end - from]))
    ensures end - from == Fit(stored[from..], maxBytes) && (end == from ==> from == |stored|)
    ensures end == from ==> Decode(stored[from..][..end - from]) == Some("")
  {
    SplitAtBoundary(stored, from);
    CountdownEnds(stored[from..], maxBytes, end - from);
  }

  ghost predicate NoneLonger(rest: seq<Byte>, count: nat, maxBytes: nat)
  {
    forall k :: count < k <= |rest| && k <= maxBytes ==> !Valid(rest[..k])
  }

  lemma {:induction false} OneShorter(rest: seq<Byte>, count: nat, maxBytes: nat)
    requires 0 < count <= |rest| && Decode(rest[..count]).None? && NoneLonger(rest, count, maxBytes)
    ensures NoneLonger(rest, count - 1, maxBytes)
  {
  }

  lemma {:induction false} SliceOfRest(stored: seq<Byte>, from: nat)
    requires from <= |stored|
    ensures forall end :: from <= end <= |stored| ==> stored[from..end] == stored[from..][..end - from]
  {
  }

  lemma {:induction false} CountdownEnds(rest: seq<Byte>, maxBytes: nat, count: nat)
    requires Valid(rest) && 4 <= maxBytes && count <= |rest| && count <= maxBytes && Valid(rest[..count])
    requires NoneLonger(rest, count, maxBytes)
    ensures count == Fit(rest, maxBytes) && (count == 0 ==> rest == [])
  {
    FirstFromAboveIsFit(rest, maxBytes, count);
    FitWastesLittle(rest, maxBytes);
  }

  // ---------------------------------------------------------------- one chunk

  /**
   * A granted chunk decodes, is the longest stretch from its offset that fits and decodes, and
   * is short of the requested size by at most three bytes unless it ends the content.
   */
  lemma {:induction false} ChunkIsLongest(stored: seq<Byte>, byteOffset: nat, maxBytes: nat, screens: Screens)
    requires Valid(stored) && byteOffset <= |stored| && Valid(stored[..byteOffset]) && 4 <= maxBytes
    ensures var c, rest := ChunkAt(stored, byteOffset, maxBytes, screens), stored[byteOffset..];
      && c.byteCount <= |rest| && c.byteCount <= maxBytes
      && Decode(rest[..c.byteCount]) == Some(c.content)
      && (forall k :: c.byteCount < k <= |rest| && k <= maxBytes ==> !Valid(rest[..k]))
      && (c.complete <==> c.byteCount == |rest|)
      && (!c.complete ==> c.byteCount + 3 >= maxBytes && c.nextByteOffset == Some(byteOffset + c.byteCount))
      && c.byteOffset == byteOffset && c.totalBytes == |stored| && c.chunkDigest == screens.sha(rest[..c.byteCount])
  {
    SplitAtBoundary(stored, byteOffset);
    var rest, count := stored[byteOffset..], Fit(stored[byteOffset..], maxBytes);
    FitIsBest(rest, maxBytes);
    ChunkAtEnds(stored, byteOffset, maxBytes, screens, count, Decode(rest[..count]).value);
  }

  /** A chunk whose text and bytes agree, in content that decodes on both sides of it. */
  predicate Decodes(stored: seq<Byte>, c: Chunk)
  {
    && c.byteOffset + c.byteCount <= |stored| && Valid(stored) && Valid(stored[..c.byteOffset])
    && Decode(stored[c.byteOffset..][..c.byteCount]) == Some(c.content)
  }

  lemma {:induction false} ChunkDecodes(stored: seq<Byte>, byteOffset: nat, maxBytes: nat, screens: Screens)
    requires Valid(stored) && byteOffset <= |stored| && Valid(stored[..byteOffset]) && 4 <= maxBytes
    ensures var c := ChunkAt(stored, byteOffset, maxBytes, screens);
      && Decodes(stored, c) && c.byteOffset == byteOffset
      && (c.complete ==> byteOffset + c.byteCount == |stored|)
      && (!c.complete ==> 0 < c.byteCount < |stored| - byteOffset && c.nextByteOffset == Some(byteOffset + c.byteCount))
  {
    ChunkIsLongest(stored, byteOffset, maxBytes, screens);
  }

  lemma {:induction false} AcceptedOffset(stored: seq<Byte>, digest: nat, byteOffset: nat, maxBytes: nat, screens: Screens)
    requires Refusal(stored, digest, byteOffset, maxBytes, screens).None?
    ensures Valid(stored) && byteOffset <= |stored| && Valid(stored[..byteOffset]) && 4 <= maxBytes
    ensures !screens.controlPlaneSecret(Decode(stored).value)
  {
  }

  /** The offset a chunk hands on is accepted by the next read, whatever size that one asks for. */
  lemma {:induction false} NextOffsetIsAccepted(stored: seq<Byte>, digest: nat, byteOffset: nat, maxBytes: nat, nextMax: nat, screens: Screens)
    requires Refusal(stored, digest, byteOffset, maxBytes, screens).None?
    requires 4 <= nextMax <= CHUNK_MAX_BYTES && !ChunkAt(stored, byteOffset, maxBytes, screens).complete
    ensures var next := ChunkAt(stored, byteOffset, maxBytes, screens).nextByteOffset.value;
      byteOffset < next < |stored| && Refusal(stored, digest, next, nextMax, screens).None?
  {
    AcceptedOffset(stored, digest, byteOffset, maxBytes, screens);
    ChunkDecodes(stored, byteOffset, maxBytes, screens);
    var next := ChunkAt(stored, byteOffset, maxBytes, screens).nextByteOffset.value;
    BoundaryAfter(stored, byteOffset, next);
    OffsetIsAccepted(stored, digest, byteOffset, maxBytes, next, nextMax, screens);
  }

  lemma {:induction false} OffsetIsAccepted(stored: seq<Byte>, digest: nat, byteOffset: nat, maxBytes: nat, next: nat, nextMax: nat, screens: Screens)
    requires Refusal(stored, digest, byteOffset, maxBytes, screens).None?
    requires 4 <= nextMax <= CHUNK_MAX_BYTES && next <= |stored| && Valid(stored[..next])
    ensures Refusal(stored, digest, next, nextMax, screens).None?
  {
  }

  /** With the screens in service, no chunk that is handed out holds a control-plane credential. */
  lemma {:induction false} ChunksHoldNoCredential(stored: seq<Byte>, digest: nat, byteOffset: nat, maxBytes: nat,
                                                  sha: seq<Byte> -> nat, generic: string -> bool)
    requires Refusal(stored, digest, byteOffset, maxBytes, InService(sha, generic)).None?
    ensures !Redaction.HoldsCredential(ChunkAt(stored, byteOffset, maxBytes, InService(sha, generic)).content)
  {
    var screens := InService(sha, generic);
    AcceptedOffset(stored, digest, byteOffset, maxBytes, screens);
    ChunkDecodes(stored, byteOffset, maxBytes, screens);
    FactorOfClean(stored, ChunkAt(stored, byteOffset, maxBytes, screens));
  }

  lemma {:induction false} FactorOfClean(stored: seq<Byte>, c: Chunk)
    requires Decodes(stored, c) && !Redaction.Found(Decode(stored).value)
    ensures !Redaction.HoldsCredential(c.content)
  {
    Redaction.SearchDecides(Decode(stored).value);
    var front, back := ChunkIsFactor(stored, c);
    FactorHoldsLess(front, c.content, back);
  }

  lemma {:induction false} ChunkIsFactor(stored: seq<Byte>, c: Chunk) returns (front: string, back: string)
    requires Decodes(stored, c)
    ensures Decode(stored).value == front + c.content + back
  {
    SplitAtBoundary(stored, c.byteOffset);
    SplitAtBoundary(stored[c.byteOffset..], c.byteCount);
    front, back := Decode(stored[..c.byteOffset]).value, Decode(stored[c.byteOffset..][c.byteCount..]).value;
  }

  lemma {:induction false} FactorHoldsLess(front: string, factor: string, back: string)
    ensures Redaction.HoldsCredential(factor) ==> Redaction.HoldsCredential(front + factor + back)
  {
    if Redaction.HoldsCredential(factor) {
      var i, j :| 0 <= i <= j <= |factor| && Redaction.IsCredential(factor[i..j]);
      assert (front + factor + back)[|front| + i..|front| + j] == factor[i..j];
    }
  }

  // ---------------------------------------------------------------- following the offsets

  ghost predicate SizesAllowed(sizes: nat -> nat)
  {
    forall i :: 4 <= sizes(i) <= CHUNK_MAX_BYTES
  }

  /** Every chunk of a read that starts at an accepted offset and follows `nextByteOffset`. */
  ghost function Pages(stored: seq<Byte>, digest: nat, byteOffset: nat, sizes: nat -> nat, i: nat, screens: Screens): seq<Chunk>
    requires SizesAllowed(sizes)
    requires Refusal(stored, digest, byteOffset, sizes(i), screens).None?
    decreases |stored| - byteOffset
  {
    var c := ChunkAt(stored, byteOffset, sizes(i), screens);
    if c.complete then [c] else
    NextOffsetIsAccepted(stored, digest, byteOffset, sizes(i), sizes(i + 1), screens);
    [c] + Pages(stored, digest, c.nextByteOffset.value, sizes, i + 1, screens)
  }

  function Bytes(stored: seq<Byte>, chunks: seq<Chunk>): seq<Byte>
    requires forall c :: c in chunks ==> c.byteOffset + c.byteCount <= |stored|
  {
    if chunks == [] then []
    else stored[chunks[0].byteOffset..][..chunks[0].byteCount] + Bytes(stored, chunks[1..])
  }

  function Text(chunks: seq<Chunk>): string
  {
    if chunks == [] then "" else chunks[0].content + Text(chunks[1..])
  }

  lemma {:induction false} PagesReassembleFrom(stored: seq<Byte>, digest: nat, byteOffset: nat, sizes: nat -> nat, i: nat, screens: Screens)
    requires SizesAllowed(sizes)
    requires Refusal(stored, digest, byteOffset, sizes(i), screens).None?
    ensures Joined(stored, byteOffset, Pages(stored, digest, byteOffset, sizes, i, screens))
    decreases |stored| - byteOffset
  {
    var c := ChunkAt(stored, byteOffset, sizes(i), screens);
    AcceptedOffset(stored, digest, byteOffset, sizes(i), screens);
    ChunkDecodes(stored, byteOffset, sizes(i), screens);
    if c.complete {
      LastPageJoins(stored, c);
    } else {
      var next := c.nextByteOffset.value;
      NextOffsetIsAccepted(stored, digest, byteOffset, sizes(i), sizes(i + 1), screens);
      PagesReassembleFrom(stored, digest, next, sizes, i + 1, screens);
      PageThenRest(stored, c, Pages(stored, digest, next, sizes, i + 1, screens));
    }
  }

  lemma {:induction false} LastPageJoins(stored: seq<Byte>, c: Chunk)
    requires Decodes(stored, c) && c.byteOffset + c.byteCount == |stored|
    ensures Joined(stored, c.byteOffset, [c])
  {
    assert stored[c.byteOffset + c.byteCount..] == [];
    PageThenRest(stored, c, []);
    assert [c] + [] == [c];
  }

  /** The chunks are the content from an offset on, byte for byte, and their texts its text. */
  ghost predicate Joined(stored: seq<Byte>, byteOffset: nat, chunks: seq<Chunk>)
    requires byteOffset <= |stored|
  {
    && (forall c :: c in chunks ==> c.byteOffset + c.byteCount <= |stored|)
    && Bytes(stored, chunks) == stored[byteOffset..]
    && Decode(stored[byteOffset..]) == Some(Text(chunks))
  }

  /** A chunk and the pages after it, joined. */
  lemma {:induction false} PageThenRest(stored: seq<Byte>, c: Chunk, later: seq<Chunk>)
    requires Decodes(stored, c)
    requires Joined(stored, c.byteOffset + c.byteCount, later)
    ensures Joined(stored, c.byteOffset, [c] + later)
  {
    var rest := stored[c.byteOffset..];
    JoinPages(stored, c, later);
    assert stored[c.byteOffset + c.byteCount..] == rest[c.byteCount..];
    assert rest == rest[..c.byteCount] + rest[c.byteCount..];
    JoinText(stored, c.byteOffset, c.byteCount);
  }

  lemma {:induction false} JoinText(stored: seq<Byte>, from: nat, count: nat)
    requires from + count <= |stored| && Valid(stored) && Valid(stored[..from]) && Valid(stored[from..][..count])
    ensures var rest := stored[from..];
      Valid(rest) && Valid(rest[count..]) && Decode(rest).value == Decode(rest[..count]).value + Decode(rest[count..]).value
  {
    SplitAtBoundary(stored, from);
    SplitAtBoundary(stored[from..], count);
  }

  lemma {:induction false} JoinPages(stored: seq<Byte>, c: Chunk, later: seq<Chunk>)
    requires c.byteOffset + c.byteCount <= |stored|
    requires forall d :: d in later ==> d.byteOffset + d.byteCount <= |stored|
    ensures Text([c] + later) == c.content + Text(later)
    ensures forall d :: d in [c] + later ==> d.byteOffset + d.byteCount <= |stored|
    ensures Bytes(stored, [c] + later) == stored[c.byteOffset..][..c.byteCount] + Bytes(stored, later)
  {
    assert ([c] + later)[1..] == later;
  }

  /**
   * Following the returned offsets from 0, whatever size each read asks for, ends; the chunks
   * are the content, byte for byte, and their texts are its text.
   */
  lemma {:induction false} PagingReassembles(stored: seq<Byte>, digest: nat, sizes: nat -> nat, screens: Screens)
    requires Readable(stored, digest, screens) && SizesAllowed(sizes)
    ensures Refusal(stored, digest, 0, sizes(0), screens).None?
    ensures var pages := Pages(stored, digest, 0, sizes, 0, screens);
      && (forall c :: c in pages ==> c.byteOffset + c.byteCount <= |stored|)
      && Bytes(stored, pages) == stored
      && Some(Text(pages)) == Decode(stored)
  {
    assert 4 <= sizes(0) <= CHUNK_MAX_BYTES;
    assert stored[..0] == [];
    PagesReassembleFrom(stored, digest, 0, sizes, 0, screens);
    assert stored[0..] == stored;
  }
}
