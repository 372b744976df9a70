// release_identity.py: the byte stream that is hashed to identify a release, length-prefixed names and
// contents of its files in the order of their names.
module ReleaseFraming {
  import opened Ordering
  import opened Utf8
  import opened Wrappers

  type Bytes = seq<Byte>

  // ---------------------------------------------------------------- eight big-endian bytes

  function Capacity(width: nat): (n: nat)
    ensures n >= 1
  {
    if width == 0 then 1 else 256 * Capacity(width - 1)
  }

  function BigEndian(n: nat, width: nat): (bs: Bytes)
    ensures |bs| == width
  {
    if width == 0 then [] else BigEndian(n / 256, width - 1) + [n % 256]
  }

  function Number(bs: Bytes): nat
  {
    if bs == [] then 0 else 256 * Number(bs[..|bs| - 1]) + bs[|bs| - 1]
  }

  lemma {:induction false} NumberReadsBack(n: nat, width: nat)
    requires n < Capacity(width)
    ensures Number(BigEndian(n, width)) == n
  {
    if width > 0 {
      NumberReadsBack(n / 256, width - 1);
      var bs := BigEndian(n, width);
      assert bs[..|bs| - 1] == BigEndian(n / 256, width - 1);
    }
  }

  // ---------------------------------------------------------------- framing

  const WIDTH := 8

  datatype Entry = Entry(name: Bytes, payload: Bytes)

  predicate Framable(bs: Bytes)
  {
    |bs| < Capacity(WIDTH)
  }

  function Framed(bs: Bytes): Bytes
  {
    BigEndian(|bs|, WIDTH) + bs
  }

  function Frames(entries: seq<Entry>): Bytes
  {
    if entries == [] then []
    else Frames(entries[..|entries| - 1]) + (Framed(entries[|entries| - 1].name) + Framed(entries[|entries| - 1].payload))
  }

  datatype Cut = Cut(field: Bytes, rest: Bytes)

  /** Reads one length-prefixed field from the front. */
  function Take(bs: Bytes): (cut: Option<Cut>)
    ensures cut.Some? ==> |cut.value.rest| < |bs|
  {
    if |bs| < WIDTH then None
    else
      var n := Number(bs[..WIDTH]);
      if |bs| < WIDTH + n then None else Some(Cut(bs[WIDTH..WIDTH + n], bs[WIDTH + n..]))
  }

  function Parse(bs: Bytes): Option<seq<Entry>>
    decreases |bs|
  {
    if bs == [] then Some([])
    else
      var name := Take(bs);
      if name.None? then None
      else
        var payload := Take(name.value.rest);
        if payload.None? then None
        else
          var more := Parse(payload.value.rest);
          if more.None? then None else Some([Entry(name.value.field, payload.value.field)] + more.value)
  }

  predicate AllFramable(entries: seq<Entry>)
  {
    forall i :: 0 <= i < |entries| ==> Framable(entries[i].name) && Framable(entries[i].payload)
  }

  lemma {:induction false} TakeReadsBack(field: Bytes, rest: Bytes)
    requires Framable(field)
    ensures Take(Framed(field) + rest) == Some(Cut(field, rest))
  {
    NumberReadsBack(|field|, WIDTH);
    var bs := Framed(field) + rest;
    assert bs[..WIDTH] == BigEndian(|field|, WIDTH);
    assert bs[WIDTH..WIDTH + |field|] == field && bs[WIDTH + |field|..] == rest;
  }

  lemma {:induction false} FramesCons(e: Entry, entries: seq<Entry>)
    ensures Frames([e] + entries) == Framed(e.name) + (Framed(e.payload) + Frames(entries))
  {
    var all := [e] + entries;
    if entries == [] {
      assert all[..|all| - 1] == [];
      assert Frames([e]) == [] + (Framed(e.name) + Framed(e.payload));
      assert Framed(e.payload) + Frames(entries) == Framed(e.payload);
    } else {
      var last := entries[|entries| - 1];
      var tail := Framed(last.name) + Framed(last.payload);
      assert all[..|all| - 1] == [e] + entries[..|entries| - 1] && all[|all| - 1] == last;
      FramesCons(e, entries[..|entries| - 1]);
      var front := Frames(entries[..|entries| - 1]);
      assert Framed(e.name) + (Framed(e.payload) + front) + tail == Framed(e.name) + (Framed(e.payload) + (front + tail));
    }
  }

  /** The framing can be parsed back, whatever bytes the names and contents hold. */
  lemma {:induction false} ParseInvertsFrames(entries: seq<Entry>)
    requires AllFramable(entries)
    ensures Parse(Frames(entries)) == Some(entries)
    decreases |entries|
  {
    if entries != [] {
      var e, rest := entries[0], entries[1..];
      assert entries == [e] + rest;
      FramesCons(e, rest);
      ParseInvertsFrames(rest);
      TakeReadsBack(e.name, Framed(e.payload) + Frames(rest));
      TakeReadsBack(e.payload, Frames(rest));
      assert Frames(entries) != [];
    }
  }

  // ---------------------------------------------------------------- a release

  /** The tracked files of a package, by their path below its root. */
  type Release = map<string, Bytes>

  predicate ByName(a: string, b: string)
  {
    TextLe(a, b)
  }

  lemma {:induction false} ByNameIsPreorder()
    ensures IsPreorder(ByName)
  {
    forall a, b ensures ByName(a, b) || ByName(b, a) {
      TextTotal(a, b);
    }
    forall a, b, c | ByName(a, b) && ByName(b, c) ensures ByName(a, c) {
      TextTransitive(a, b, c);
    }
  }

  /** A listing of a directory: every tracked file once, in whatever order. */
  predicate Lists(found: seq<string>, release: Release)
  {
    && (forall i :: 0 <= i < |found| ==> found[i] in release)
    && (forall i, j :: 0 <= i < j < |found| ==> found[i] != found[j])
    && (forall name :: name in release ==> name in found)
  }

  type Encoder = string -> Bytes

  function Entries(names: seq<string>, release: Release, encode: Encoder): (entries: seq<Entry>)
    requires forall i :: 0 <= i < |names| ==> names[i] in release
    ensures |entries| == |names|
    ensures forall i :: 0 <= i < |names| ==> entries[i] == Entry(encode(names[i]), release[names[i]])
  {
    if names == [] then []
    else
      var last := names[|names| - 1];
      Entries(names[..|names| - 1], release, encode) + [Entry(encode(last), release[last])]
  }

  const PREFIX: string := "cao-release-content/v1"

  /** What is hashed: a fixed prefix ended by a zero byte, and the frames of the files. */
  function Stream(names: seq<string>, release: Release): Bytes
    requires forall i :: 0 <= i < |names| ==> names[i] in release
  {
    Encode(PREFIX) + [0] + Frames(Entries(names, release, Encode))
  }

  predicate FramableRelease(release: Release, encode: Encoder)
  {
    forall name :: name in release ==> Framable(encode(name)) && Framable(release[name])
  }

  lemma {:induction false} SortedNames(found: seq<string>, release: Release)
    requires Lists(found, release)
    ensures Lists(Sort(found, ByName), release)
  {
    SortKeepsMembers(found, ByName);
    SortKeepsPairwise(found, ByName, (a, b) => a != b);
    var names := Sort(found, ByName);
    forall i | 0 <= i < |names| ensures names[i] in release {
      assert names[i] in found;
    }
    assert Pairwise(names, (a, b) => a != b);
  }

  lemma {:induction false} FramesSnoc(entries: seq<Entry>, e: Entry)
    ensures Frames(entries + [e]) == Frames(entries) + (Framed(e.name) + Framed(e.payload))
  {
    assert (entries + [e])[..|entries|] == entries;
  }

  /** The loop over the sorted files; a length that eight bytes cannot hold is an error. */
  method FrameFiles(prefix: Bytes, names: seq<string>, release: Release, encode: Encoder) returns (stream: Option<Bytes>)
    requires forall i :: 0 <= i < |names| ==> names[i] in release
    ensures stream.Some? <==> AllFramable(Entries(names, release, encode))
    ensures stream.Some? ==> stream.value == prefix + Frames(Entries(names, release, encode))
  {
    ghost var entries := Entries(names, release, encode);
    var framed := [];
    for i := 0 to |names|
      invariant framed == Frames(entries[..i])
      invariant AllFramable(entries[..i])
    {
      var relative, payload := encode(names[i]), release[names[i]];
      assert entries[i] == Entry(relative, payload);
      if !Framable(relative) || !Framable(payload) {
        return None;
      }
      assert entries[..i + 1] == entries[..i] + [entries[i]];
      FramesSnoc(entries[..i], entries[i]);
      framed := framed + (BigEndian(|relative|, WIDTH) + relative + (BigEndian(|payload|, WIDTH) + payload));
    }
    assert entries[..|names|] == entries;
    return Some(prefix + framed);
  }

  /** The digest of a release is a hash of its stream in name order, in whatever order the files were found. */
  method PackageContentDigest(found: seq<string>, release: Release, sha: Bytes -> nat) returns (digest: Option<nat>)
    requires Lists(found, release)
    ensures Lists(Sort(found, ByName), release)
    ensures digest.Some? <==> FramableRelease(release, Encode)
    ensures digest.Some? ==> digest.value == sha(Stream(Sort(found, ByName), release))
  {
    SortedNames(found, release);
    var names := Sort(found, ByName);
    var stream := FrameFiles(Encode(PREFIX) + [0], names, release, Encode);
    FramableExactly(names, release, Encode);
    return if stream.None? then None else Some(sha(stream.value));
  }

  lemma {:induction false} FramableExactly(names: seq<string>, release: Release, encode: Encoder)
    requires Lists(names, release)
    ensures AllFramable(Entries(names, release, encode)) <==> FramableRelease(release, encode)
  {
    var entries := Entries(names, release, encode);
    if AllFramable(entries) {
      forall name | name in release ensures Framable(encode(name)) && Framable(release[name]) {
        var k :| 0 <= k < |names| && names[k] == name;
        assert entries[k] == Entry(encode(name), release[name]);
      }
    }
  }

  /** The order in which the files are found makes no difference. */
  lemma {:induction false} ListingOrderIsIrrelevant(a: seq<string>, b: seq<string>)
    requires multiset(a) == multiset(b)
    ensures Sort(a, ByName) == Sort(b, ByName)
  {
    ByNameIsPreorder();
    forall x, y | x in a && y in a && ByName(x, y) && ByName(y, x) ensures x == y {
      TextAntisymmetric(x, y);
    }
    SortCanonical(a, b, ByName);
  }

  lemma {:induction false} EntriesDetermineRelease(a: seq<string>, x: Release, b: seq<string>, y: Release, encode: Encoder)
    requires Lists(a, x) && Lists(b, y) && Entries(a, x, encode) == Entries(b, y, encode)
    requires forall m, n :: encode(m) == encode(n) ==> m == n
    ensures a == b && x == y
  {
    forall i | 0 <= i < |a| ensures a[i] == b[i] && x[a[i]] == y[a[i]] {
      assert Entries(a, x, encode)[i] == Entries(b, y, encode)[i];
    }
    assert a == b;
    forall name | name in x ensures name in y && x[name] == y[name] {
      var i :| 0 <= i < |a| && a[i] == name;
    }
    forall name | name in y ensures name in x {
      var i :| 0 <= i < |b| && b[i] == name;
    }
  }

  lemma {:induction false} EncodeIsInjective()
    ensures forall m, n :: Encode(m) == Encode(n) ==> m == n
  {
    forall m, n | Encode(m) == Encode(n) ensures m == n {
      DecodeEncode(m);
      DecodeEncode(n);
    }
  }

  lemma {:induction false} SameFrames(prefix: Bytes, a: seq<Entry>, b: seq<Entry>)
    requires AllFramable(a) && AllFramable(b) && prefix + Frames(a) == prefix + Frames(b)
    ensures a == b
  {
    assert (prefix + Frames(a))[|prefix|..] == Frames(a);
    assert (prefix + Frames(b))[|prefix|..] == Frames(b);
    ParseInvertsFrames(a);
    ParseInvertsFrames(b);
  }

  /** Two releases with the same stream are the same release: the same names with the same contents. */
  lemma {:induction false} StreamDeterminesRelease(a: seq<string>, x: Release, b: seq<string>, y: Release)
    requires Lists(a, x) && Lists(b, y) && FramableRelease(x, Encode) && FramableRelease(y, Encode)
    requires Stream(a, x) == Stream(b, y)
    ensures a == b && x == y
  {
    FramableExactly(a, x, Encode);
    FramableExactly(b, y, Encode);
    SameFrames(Encode(PREFIX) + [0], Entries(a, x, Encode), Entries(b, y, Encode));
    EncodeIsInjective();
    EntriesDetermineRelease(a, x, b, y, Encode);
  }
}
