// Strict UTF-8 decoding, as Python's `bytes.decode("utf-8", errors="strict")` performs it:
// the well-formed byte sequences of RFC 3629, section 4.
module Utf8 {
  import opened Wrappers

  type Byte = b: int | 0 <= b < 256

  predicate Tail(b: Byte)
  {
    0x80 <= b <= 0xBF
  }

  /** Number of bytes of the well-formed scalar at the front of `bs`, 0 when there is none. */
  function HeadLength(bs: seq<Byte>): (n: nat)
    ensures n <= 4 && n <= |bs|
  {
    if bs == [] then 0
    else if bs[0] <= 0x7F then 1
    else if |bs| >= 2 && 0xC2 <= bs[0] <= 0xDF && Tail(bs[1]) then 2
    else if |bs| >= 3 && Tail(bs[1]) && Tail(bs[2]) &&
            ((bs[0] == 0xE0 && bs[1] >= 0xA0) || 0xE1 <= bs[0] <= 0xEC ||
             (bs[0] == 0xED && bs[1] <= 0x9F) || 0xEE <= bs[0] <= 0xEF) then 3
    else if |bs| >= 4 && Tail(bs[1]) && Tail(bs[2]) && Tail(bs[3]) &&
            ((bs[0] == 0xF0 && bs[1] >= 0x90) || 0xF1 <= bs[0] <= 0xF3 ||
             (bs[0] == 0xF4 && bs[1] <= 0x8F)) then 4
    else 0
  }

  /** The code point those bytes carry. */
  function HeadScalar(bs: seq<Byte>): (c: char)
    requires HeadLength(bs) > 0
  {
    match HeadLength(bs)
    case 1 => bs[0] as char
    case 2 => Join(bs[0] - 0xC0, bs[1]) as char
    case 3 => Join(Join(bs[0] - 0xE0, bs[1]), bs[2]) as char
    case _ => Join(Join(Join(bs[0] - 0xF0, bs[1]), bs[2]), bs[3]) as char
  }

  /** Six more bits, from a continuation byte. */
  function Join(high: int, tail: int): int
  {
    high * 64 + (tail - 0x80)
  }

  function Decode(bs: seq<Byte>): Option<string>
    decreases |bs|
  {
    if bs == [] then Some([])
    else if HeadLength(bs) == 0 then None
    else Prepend(HeadScalar(bs), Decode(bs[HeadLength(bs)..]))
  }

  function Prepend(c: char, rest: Option<string>): Option<string>
  {
    if rest.None? then None else Some([c] + rest.value)
  }

  predicate Valid(bs: seq<Byte>)
  {
    Decode(bs).Some?
  }

  // ---------------------------------------------------------------- the encoder, as a partner

  function EncodeScalar(c: char): (bs: seq<Byte>)
    ensures 1 <= |bs| <= 4
  {
    var n := c as int;
    if n < 0x80 then [n]
    else if n < 0x800 then [0xC0 + n / 64, 0x80 + n % 64]
    else if n < 0x10000 then [0xE0 + n / 64 / 64, 0x80 + n / 64 % 64, 0x80 + n % 64]
    else [0xF0 + n / 64 / 64 / 64, 0x80 + n / 64 / 64 % 64, 0x80 + n / 64 % 64, 0x80 + n % 64]
  }

  function Encode(text: string): seq<Byte>
  {
    if text == [] then [] else EncodeScalar(text[0]) + Encode(text[1..])
  }

  lemma {:induction false} EncodeScalarFront(c: char, rest: seq<Byte>)
    ensures HeadLength(EncodeScalar(c) + rest) == |EncodeScalar(c)|
    ensures HeadScalar(EncodeScalar(c) + rest) == c
  {
    var n := c as int;
    assert n == Join(n / 64, 0x80 + n % 64);
    assert n / 64 == Join(n / 64 / 64, 0x80 + n / 64 % 64);
    assert n / 64 / 64 == Join(n / 64 / 64 / 64, 0x80 + n / 64 / 64 % 64);
  }

  lemma {:induction false} JoinSplits(high: int, tail: int)
    requires 0x80 <= tail <= 0xBF
    ensures Join(high, tail) / 64 == high && 0x80 + Join(high, tail) % 64 == tail
  {
  }

  lemma {:induction false} HeadIsEncoded(bs: seq<Byte>)
    requires HeadLength(bs) > 0
    ensures bs[..HeadLength(bs)] == EncodeScalar(HeadScalar(bs))
  {
    match HeadLength(bs) {
      case 1 =>
      case 2 =>
        JoinSplits(bs[0] - 0xC0, bs[1]);
      case 3 =>
        JoinSplits(bs[0] - 0xE0, bs[1]);
        JoinSplits(Join(bs[0] - 0xE0, bs[1]), bs[2]);
      case _ =>
        JoinSplits(bs[0] - 0xF0, bs[1]);
        JoinSplits(Join(bs[0] - 0xF0, bs[1]), bs[2]);
        JoinSplits(Join(Join(bs[0] - 0xF0, bs[1]), bs[2]), bs[3]);
    }
  }

  lemma {:induction false} DecodeEncode(text: string)
    ensures Decode(Encode(text)) == Some(text)
  {
    if text != [] {
      EncodeScalarFront(text[0], Encode(text[1..]));
      assert Encode(text)[|EncodeScalar(text[0])|..] == Encode(text[1..]);
      DecodeEncode(text[1..]);
      assert text == [text[0]] + text[1..];
    }
  }

  lemma {:induction false} EncodeCons(c: char, rest: string)
    ensures Encode([c] + rest) == EncodeScalar(c) + Encode(rest)
  {
    assert ([c] + rest)[1..] == rest;
  }

  lemma {:induction false} EncodeDecode(bs: seq<Byte>)
    requires Valid(bs)
    ensures Encode(Decode(bs).value) == bs
    decreases |bs|
  {
    if bs != [] {
      var n := HeadLength(bs);
      EncodeDecode(bs[n..]);
      EncodePrepended(bs, Decode(bs[n..]).value);
      assert bs == bs[..n] + bs[n..];
    }
  }

  lemma {:induction false} EncodePrepended(bs: seq<Byte>, rest: string)
    requires HeadLength(bs) > 0
    ensures Encode(Prepend(HeadScalar(bs), Some(rest)).value) == bs[..HeadLength(bs)] + Encode(rest)
  {
    EncodeCons(HeadScalar(bs), rest);
    HeadIsEncoded(bs);
  }

  /** The decoder accepts exactly the encodings of texts, each as the text it encodes. */
  lemma {:induction false} DecoderInvertsEncoder(bs: seq<Byte>, text: string)
    ensures Decode(bs) == Some(text) <==> bs == Encode(text)
  {
    DecodeEncode(text);
    if Valid(bs) {
      EncodeDecode(bs);
    }
  }

  // ---------------------------------------------------------------- prefixes

  lemma {:induction false} HeadIsStable(bs: seq<Byte>, k: nat)
    requires k <= |bs| && HeadLength(bs[..k]) > 0
    ensures HeadLength(bs) == HeadLength(bs[..k]) && HeadScalar(bs) == HeadScalar(bs[..k])
  {
    assert forall i :: 0 <= i < k ==> bs[..k][i] == bs[i];
  }

  lemma {:induction false} HeadFits(bs: seq<Byte>, k: nat)
    requires 0 < HeadLength(bs) <= k <= |bs|
    ensures HeadLength(bs[..k]) == HeadLength(bs) && HeadScalar(bs) == HeadScalar(bs[..k])
  {
    assert forall i :: 0 <= i < k ==> bs[..k][i] == bs[i];
  }

  /** Cutting at a valid prefix splits both validity and text. */
  lemma {:induction false} SplitAtBoundary(bs: seq<Byte>, k: nat)
    requires k <= |bs| && Valid(bs[..k])
    ensures Valid(bs) <==> Valid(bs[k..])
    ensures Valid(bs) ==> Decode(bs).value == Decode(bs[..k]).value + Decode(bs[k..]).value
    decreases k
  {
    if k == 0 {
      assert bs[k..] == bs;
    } else {
      var n, c := HeadLength(bs[..k]), HeadScalar(bs[..k]);
      HeadIsStable(bs, k);
      assert bs[n..][..k - n] == bs[..k][n..];
      assert bs[n..][k - n..] == bs[k..];
      SplitAtBoundary(bs[n..], k - n);
      PrependSplits(c, Decode(bs[n..]), Decode(bs[..k][n..]), Decode(bs[k..]));
      assert Decode(bs) == Prepend(c, Decode(bs[n..]));
      assert Decode(bs[..k]) == Prepend(c, Decode(bs[..k][n..]));
    }
  }

  lemma {:induction false} PrependSplits(c: char, whole: Option<string>, front: Option<string>, back: Option<string>)
    requires front.Some? && (whole.Some? <==> back.Some?)
    requires whole.Some? ==> whole.value == front.value + back.value
    ensures whole.Some? ==> Prepend(c, whole).value == Prepend(c, front).value + back.value
  {
  }

  // ---------------------------------------------------------------- the longest prefix that fits

  /** Length of the longest valid prefix of at most `room` bytes. */
  function Fit(bs: seq<Byte>, room: nat): (k: nat)
    ensures k <= |bs| && k <= room
    decreases |bs|
  {
    var n := HeadLength(bs);
    if n == 0 || n > room then 0 else n + Fit(bs[n..], room - n)
  }

  lemma {:induction false} FitIsValid(bs: seq<Byte>, room: nat)
    ensures Valid(bs[..Fit(bs, room)])
    decreases |bs|
  {
    var n, k := HeadLength(bs), Fit(bs, room);
    if 0 < n <= room {
      FitIsValid(bs[n..], room - n);
      HeadFits(bs, k);
      assert bs[..k][n..] == bs[n..][..k - n];
    }
  }

  lemma {:induction false} FitIsLongest(bs: seq<Byte>, room: nat, k: nat)
    requires k <= |bs| && k <= room && Valid(bs[..k])
    ensures k <= Fit(bs, room)
    decreases k
  {
    if k > 0 {
      HeadIsStable(bs, k);
      var n := HeadLength(bs);
      assert bs[..k][n..] == bs[n..][..k - n];
      FitIsLongest(bs[n..], room - n, k - n);
    }
  }

  /** In valid content at most three bytes of room go unused, unless everything fits. */
  lemma {:induction false} FitWastesLittle(bs: seq<Byte>, room: nat)
    requires Valid(bs)
    ensures Fit(bs, room) == |bs| || Fit(bs, room) + 3 >= room
    decreases |bs|
  {
    var n := HeadLength(bs);
    if 0 < n <= room {
      FitWastesLittle(bs[n..], room - n);
    }
  }

  /** Trying candidates from the largest down stops at the longest prefix that fits. */
  lemma {:induction false} FirstFromAboveIsFit(bs: seq<Byte>, room: nat, k: nat)
    requires Valid(bs) && k <= |bs| && k <= room && Valid(bs[..k])
    requires forall j :: k < j <= |bs| && j <= room ==> !Valid(bs[..j])
    ensures k == Fit(bs, room)
  {
    FitIsValid(bs, room);
    FitIsLongest(bs, room, k);
  }

  /** `Fit` in one statement: valid, longest, and short of the room by at most three bytes. */
  lemma {:induction false} FitIsBest(bs: seq<Byte>, room: nat)
    requires Valid(bs)
    ensures Valid(bs[..Fit(bs, room)])
    ensures forall k :: Fit(bs, room) < k <= |bs| && k <= room ==> !Valid(bs[..k])
    ensures Fit(bs, room) == |bs| || Fit(bs, room) + 3 >= room
  {
    FitIsValid(bs, room);
    FitWastesLittle(bs, room);
    forall k | Fit(bs, room) < k <= |bs| && k <= room ensures !Valid(bs[..k]) {
      if Valid(bs[..k]) {
        FitIsLongest(bs, room, k);
      }
    }
  }

  /** The end of a valid stretch that starts at a boundary is a boundary. */
  lemma {:induction false} BoundaryAfter(bs: seq<Byte>, from: nat, to: nat)
    requires from <= to <= |bs| && Valid(bs[..from]) && Valid(bs[from..][..to - from])
    ensures Valid(bs[..to])
  {
    assert bs[..to][..from] == bs[..from];
    assert bs[..to][from..] == bs[from..][..to - from];
    SplitAtBoundary(bs[..to], from);
  }
}
