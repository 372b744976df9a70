// security.py: the control-plane credential pattern, its detector and its redactor.
module Redaction {

  // ---------------------------------------------------------------- the pattern, declaratively

  predicate TokenChar(c: char)
  {
    'A' <= c <= 'Z' || 'a' <= c <= 'z' || '0' <= c <= '9' || c == '_' || c == '-'
  }

  predicate Token(w: string)
  {
    w != [] && forall i :: 0 <= i < |w| ==> TokenChar(w[i])
  }

  /** The literal starts of the pattern: the product name, a full stop and one of the seven tags. */
  const HEADS: seq<string> :=
    ["cao.prn_", "cao.rtc_", "cao.ent_", "cao.crc_", "cao.csc_", "cao.cab_", "cao.catk_"]

  /** The part after the tag: an identifier, a full stop and a secret. */
  ghost predicate IsBody(b: string)
  {
    exists id, secret :: Token(id) && Token(secret) && b == id + "." + secret
  }

  /** The language of CONTROL_PLANE_SECRET_PATTERN. */
  ghost predicate IsCredential(w: string)
  {
    exists head, body :: head in HEADS && IsBody(body) && w == head + body
  }

  /** A string holds a credential when some factor of it is in the language. */
  ghost predicate HoldsCredential(s: string)
  {
    exists i, j :: 0 <= i <= j <= |s| && IsCredential(s[i..j])
  }

  // ---------------------------------------------------------------- the matcher

  function RunLength(s: string): (n: nat)
    ensures n <= |s|
    ensures forall i :: 0 <= i < n ==> TokenChar(s[i])
    ensures n < |s| ==> !TokenChar(s[n])
  {
    if s != [] && TokenChar(s[0]) then 1 + RunLength(s[1..]) else 0
  }

  function HeadLength(s: string): (n: nat)
    ensures n <= |s|
    ensures n > 0 ==> s[..n] in HEADS
  {
    if |s| >= 9 && s[..9] == HEADS[6] then 9
    else if |s| >= 8 && s[..8] in HEADS[..6] then 8
    else 0
  }

  /** Greedy runs never give characters back: the class has no full stop in it. */
  function BodyLength(s: string): (n: nat)
    ensures n <= |s|
  {
    var id := RunLength(s);
    if id == 0 || id == |s| || s[id] != '.' then 0 else
    var secret := RunLength(s[id + 1..]);
    if secret == 0 then 0 else id + 1 + secret
  }

  /** Length of the greedy match at the front of `s`, 0 when there is none. */
  function MatchLength(s: string): (n: nat)
    ensures n <= |s|
  {
    var head := HeadLength(s);
    if head == 0 || BodyLength(s[head..]) == 0 then 0 else head + BodyLength(s[head..])
  }

  lemma {:induction false} HeadFront(head: string, rest: string)
    requires head in HEADS
    ensures HeadLength(head + rest) == |head|
  {
    var s := head + rest;
    assert s[..|head|] == head;
    assert |head| == 8 ==> s[5] == head[5] && s[6] == head[6];
    assert |s| >= 9 && s[..9] == HEADS[6] ==> s[5] == HEADS[6][5] && s[6] == HEADS[6][6];
    assert |head| == 8 ==> s[..8] in HEADS[..6];
  }

  lemma {:induction false} RunFront(w: string, rest: string)
    requires forall i :: 0 <= i < |w| ==> TokenChar(w[i])
    ensures RunLength(w + rest) == |w| + RunLength(rest)
  {
    if w == [] {
      assert w + rest == rest;
    } else {
      assert (w + rest)[1..] == w[1..] + rest;
      RunFront(w[1..], rest);
    }
  }

  lemma {:induction false} BodyFront(body: string, rest: string)
    requires IsBody(body)
    ensures BodyLength(body + rest) >= |body| > 0
  {
    var id, secret :| Token(id) && Token(secret) && body == id + "." + secret;
    var s := body + rest;
    assert s == id + ("." + secret + rest);
    RunFront(id, "." + secret + rest);
    assert s[|id|] == '.';
    assert s[|id| + 1..] == secret + rest;
    RunFront(secret, rest);
  }

  lemma {:induction false} BodySound(s: string)
    requires BodyLength(s) > 0
    ensures IsBody(s[..BodyLength(s)])
  {
    var id := RunLength(s);
    var secret := RunLength(s[id + 1..]);
    var idText, secretText := s[..id], s[id + 1..][..secret];
    assert s[..BodyLength(s)] == idText + "." + secretText;
    assert Token(idText) && Token(secretText);
  }

  /** A credential at the front of a string makes the matcher succeed there. */
  lemma {:induction false} MatchComplete(w: string, rest: string)
    requires IsCredential(w)
    ensures MatchLength(w + rest) >= |w| > 0
  {
    var head, body :| head in HEADS && IsBody(body) && w == head + body;
    var s := w + rest;
    assert s == head + (body + rest);
    HeadFront(head, body + rest);
    assert s[|head|..] == body + rest;
    BodyFront(body, rest);
  }

  lemma {:induction false} MatchSound(s: string)
    requires MatchLength(s) > 0
    ensures IsCredential(s[..MatchLength(s)])
  {
    var head := HeadLength(s);
    var body := s[head..];
    BodySound(body);
    HeadThenBody(s, head, BodyLength(body));
  }

  lemma {:induction false} HeadThenBody(s: string, head: nat, body: nat)
    requires head + body <= |s| && s[..head] in HEADS && IsBody(s[head..][..body])
    ensures IsCredential(s[..head + body])
  {
    assert s[..head + body] == s[..head] + s[head..][..body];
  }

  /**
   * The matcher finds the greedy (longest) credential at the front of a string, and finds
   * one exactly when there is one.
   */
  lemma {:induction false} MatcherDecidesPattern(s: string)
    ensures MatchLength(s) > 0 ==> IsCredential(s[..MatchLength(s)])
    ensures forall k :: 0 <= k <= |s| && IsCredential(s[..k]) ==> 0 < k <= MatchLength(s)
  {
    if MatchLength(s) > 0 {
      MatchSound(s);
    }
    forall k | 0 <= k <= |s| && IsCredential(s[..k]) ensures 0 < k <= MatchLength(s) {
      assert s == s[..k] + s[k..];
      MatchComplete(s[..k], s[k..]);
    }
  }

  // ---------------------------------------------------------------- search and substitution

  /** `pattern.search(s) is not None`. */
  predicate Found(s: string)
  {
    s != [] && (MatchLength(s) > 0 || Found(s[1..]))
  }

  /** `pattern.sub(mark, s)`: leftmost matches, scanning on after each. */
  function Substitute(s: string, mark: string): string
  {
    if s == [] then []
    else if MatchLength(s) > 0 then mark + Substitute(s[MatchLength(s)..], mark)
    else [s[0]] + Substitute(s[1..], mark)
  }

  /** Search succeeds exactly on the strings with a credential somewhere inside. */
  lemma {:induction false} SearchDecides(s: string)
    ensures Found(s) <==> HoldsCredential(s)
  {
    if Found(s) {
      var i, j := FoundHolds(s);
    }
    if HoldsCredential(s) {
      var i, j :| 0 <= i <= j <= |s| && IsCredential(s[i..j]);
      HeldIsFound(s, i, j);
    }
  }

  lemma {:induction false} FoundHolds(s: string) returns (i: nat, j: nat)
    requires Found(s)
    ensures i <= j <= |s| && IsCredential(s[i..j])
  {
    if MatchLength(s) > 0 {
      MatchSound(s);
      i, j := 0, MatchLength(s);
      assert s[i..j] == s[..j];
    } else {
      i, j := FoundHolds(s[1..]);
      assert s[1..][i..j] == s[i + 1..j + 1];
      i, j := i + 1, j + 1;
    }
  }

  lemma {:induction false} HeldIsFound(s: string, i: nat, j: nat)
    requires i <= j <= |s| && IsCredential(s[i..j])
    ensures Found(s)
  {
    if i == 0 {
      FrontIsMatched(s, j);
    } else {
      assert s[i..j] == s[1..][i - 1..j - 1];
      HeldIsFound(s[1..], i - 1, j - 1);
    }
  }

  lemma {:induction false} FrontIsMatched(s: string, j: nat)
    requires j <= |s| && IsCredential(s[0..j])
    ensures s != [] && MatchLength(s) > 0
  {
    assert s == s[0..j] + s[j..];
    MatchComplete(s[0..j], s[j..]);
  }

  ghost predicate SafeMark(mark: string)
  {
    mark != [] && mark[0] == '[' && mark[|mark| - 1] == ']' && '.' !in mark
  }

  // No match starts inside the replacement text: it has no full stop and ends in a bracket.
  lemma {:induction false} BracketBlocksMatch(u: string, rest: string)
    requires u != [] && u[|u| - 1] == ']' && '.' !in u
    ensures MatchLength(u + rest) == 0
  {
    var s := u + rest;
    assert |u| >= 4 ==> s[3] == u[3] && u[3] in u;
    assert |u| < 4 ==> s[|u| - 1] == ']';
    assert HeadLength(s) > 0 ==> s[..4] == s[..HeadLength(s)][..4] == "cao.";
    assert |s| >= 4 && s[..4] == "cao." ==> forall k :: 0 <= k < 4 ==> s[k] == s[..4][k] == "cao."[k];
  }

  lemma {:induction false} BracketBlocksSearch(u: string, rest: string)
    requires u != [] ==> u[|u| - 1] == ']'
    requires '.' !in u
    ensures Found(u + rest) <==> Found(rest)
  {
    if u == [] {
      assert u + rest == rest;
    } else {
      BracketBlocksMatch(u, rest);
      assert (u + rest)[1..] == u[1..] + rest;
      BracketBlocksSearch(u[1..], rest);
    }
  }

  /** A rewriting that starts its output with a bracket or copies the first character and goes on. */
  ghost predicate Copying(rewrite: string -> string)
  {
    forall s :: rewrite(s) == [] || rewrite(s)[0] == '[' || (s != [] && rewrite(s) == [s[0]] + rewrite(s[1..]))
  }

  // Up to the first bracket, the rewritten text is the original text.
  lemma {:induction false} CopiedFront(rewrite: string -> string, s: string, n: nat)
    requires Copying(rewrite) && BracketFree(rewrite(s), n)
    ensures n <= |s| && s[..n] == rewrite(s)[..n]
  {
    if n > 0 {
      assert rewrite(s)[0] != '[';
      NoBracketInTail(s[0], rewrite(s[1..]), n);
      CopiedFront(rewrite, s[1..], n - 1);
      SharedFrontGrows(s, rewrite(s[1..]), n);
    }
  }

  lemma {:induction false} SubstituteFront(s: string, mark: string, n: nat)
    requires SafeMark(mark) && BracketFree(Substitute(s, mark), n)
    ensures n <= |s| && s[..n] == Substitute(s, mark)[..n]
  {
    ghost var rewrite := (t: string) => Substitute(t, mark);
    forall t ensures rewrite(t) == [] || rewrite(t)[0] == '[' || (t != [] && rewrite(t) == [t[0]] + rewrite(t[1..])) {
      if Substitute(t, mark) != [] && Substitute(t, mark)[0] != '[' {
        SubstituteCopies(t, mark);
      }
    }
    CopiedFront(rewrite, s, n);
  }

  predicate BracketFree(t: string, n: nat)
  {
    n <= |t| && forall i :: 0 <= i < n ==> t[i] != '['
  }

  lemma {:induction false} NoBracketInTail(c: char, tail: string, n: nat)
    requires 0 < n && BracketFree([c] + tail, n)
    ensures BracketFree(tail, n - 1)
  {
    forall i | 0 <= i < n - 1 ensures tail[i] != '[' {
      assert tail[i] == ([c] + tail)[i + 1];
    }
  }

  lemma {:induction false} SharedFrontGrows(s: string, tail: string, n: nat)
    requires s != [] && 0 < n <= |s| && n <= |tail| + 1 && s[1..][..n - 1] == tail[..n - 1]
    ensures s[..n] == ([s[0]] + tail)[..n]
  {
    assert s[..n] == [s[0]] + s[1..][..n - 1];
    assert ([s[0]] + tail)[..n] == [s[0]] + tail[..n - 1];
  }

  // A substituted text that does not start with a bracket starts with the original's first character.
  lemma {:induction false} SubstituteCopies(s: string, mark: string)
    requires SafeMark(mark) && Substitute(s, mark) != [] && Substitute(s, mark)[0] != '['
    ensures s != [] && Substitute(s, mark) == [s[0]] + Substitute(s[1..], mark)
  {
    if s != [] && MatchLength(s) > 0 {
      MatchStartsWithMark(s, mark);
    }
  }

  lemma {:induction false} MatchStartsWithMark(s: string, mark: string)
    requires SafeMark(mark) && s != [] && MatchLength(s) > 0
    ensures Substitute(s, mark) != [] && Substitute(s, mark)[0] == '['
  {
  }

  lemma {:induction false} CredentialHasNoBracket(w: string)
    requires IsCredential(w)
    ensures '[' !in w
  {
    var head, body :| head in HEADS && IsBody(body) && w == head + body;
    var id, secret :| Token(id) && Token(secret) && body == id + "." + secret;
    assert '[' !in head;
    assert forall i :: 0 <= i < |id| ==> id[i] != '[';
    assert forall i :: 0 <= i < |secret| ==> secret[i] != '[';
  }

  lemma {:induction false} MatchHasNoBracket(s: string)
    requires MatchLength(s) > 0
    ensures forall i :: 0 <= i < MatchLength(s) ==> s[i] != '['
  {
    MatchSound(s);
    var w := s[..MatchLength(s)];
    CredentialHasNoBracket(w);
    assert forall i :: 0 <= i < |w| ==> w[i] in w;
  }

  lemma {:induction false} MatchOnSharedFront(s: string, t: string)
    requires 0 < MatchLength(s) <= |t| && t[..MatchLength(s)] == s[..MatchLength(s)]
    ensures MatchLength(t) > 0
  {
    var n := MatchLength(s);
    MatchSound(s);
    MatchComplete(t[..n], t[n..]);
    assert t == t[..n] + t[n..];
  }

  // A match at the front of the substituted text would have been a match in the original.
  lemma {:induction false} SubstituteAddsNoMatch(s: string, mark: string)
    requires SafeMark(mark) && MatchLength(s) == 0
    ensures MatchLength(Substitute(s, mark)) == 0
  {
    if MatchLength(Substitute(s, mark)) > 0 {
      MatchHasNoBracket(Substitute(s, mark));
      SubstituteFront(s, mark, MatchLength(Substitute(s, mark)));
      MatchOnSharedFront(Substitute(s, mark), s);
    }
  }

  lemma {:induction false} SubstituteClean(s: string, mark: string)
    requires SafeMark(mark)
    ensures !Found(Substitute(s, mark))
  {
    if s != [] {
      var n := MatchLength(s);
      if n > 0 {
        SubstituteClean(s[n..], mark);
        BracketBlocksSearch(mark, Substitute(s[n..], mark));
      } else {
        SubstituteClean(s[1..], mark);
        SubstituteAddsNoMatch(s, mark);
        assert Substitute(s, mark)[1..] == Substitute(s[1..], mark);
      }
    }
  }

  lemma {:induction false} SubstituteIdentity(s: string, mark: string)
    requires !Found(s)
    ensures Substitute(s, mark) == s
  {
    if s != [] {
      SubstituteIdentity(s[1..], mark);
      assert s == [s[0]] + s[1..];
    }
  }

  function Interleave(kept: seq<string>, between: seq<string>): string
    requires |kept| == |between| + 1
  {
    if between == [] then kept[0] else kept[0] + between[0] + Interleave(kept[1..], between[1..])
  }

  function Markers(n: nat, mark: string): (m: seq<string>)
    ensures |m| == n
  {
    if n == 0 then [] else [mark] + Markers(n - 1, mark)
  }

  /** The credentials a scan removes. */
  function Removed(s: string): seq<string>
  {
    if s == [] then []
    else if MatchLength(s) > 0 then [s[..MatchLength(s)]] + Removed(s[MatchLength(s)..])
    else Removed(s[1..])
  }

  /** The stretches of text between them, possibly empty. */
  function Kept(s: string): (r: seq<string>)
    ensures |r| == |Removed(s)| + 1
  {
    if s == [] then [""]
    else if MatchLength(s) > 0 then [""] + Kept(s[MatchLength(s)..])
    else var rest := Kept(s[1..]); [[s[0]] + rest[0]] + rest[1..]
  }

  lemma {:induction false} RemovedAreCredentials(s: string)
    ensures forall w :: w in Removed(s) ==> IsCredential(w)
  {
    if s != [] {
      if MatchLength(s) > 0 {
        RemovedAreCredentials(s[MatchLength(s)..]);
        MatchSound(s);
      } else {
        RemovedAreCredentials(s[1..]);
      }
    }
  }

  lemma {:induction false} OriginalInterleaves(s: string)
    ensures s == Interleave(Kept(s), Removed(s))
  {
    if s != [] && MatchLength(s) > 0 {
      var n := MatchLength(s);
      OriginalInterleaves(s[n..]);
      InterleavesFromMatch(s, n, Kept(s[n..]), Removed(s[n..]));
    } else if s != [] {
      OriginalInterleaves(s[1..]);
      InterleavesFromCharacter(s, Kept(s[1..]), Removed(s[1..]));
    }
  }

  lemma {:induction false} InterleavesFromMatch(s: string, n: nat, kept: seq<string>, removed: seq<string>)
    requires n <= |s| && |kept| == |removed| + 1 && s[n..] == Interleave(kept, removed)
    ensures s == Interleave([""] + kept, [s[..n]] + removed)
  {
    InterleaveBlank(s[..n], kept, removed);
    assert s == s[..n] + s[n..];
  }

  lemma {:induction false} InterleavesFromCharacter(s: string, kept: seq<string>, removed: seq<string>)
    requires s != [] && |kept| == |removed| + 1 && s[1..] == Interleave(kept, removed)
    ensures s == Interleave([[s[0]] + kept[0]] + kept[1..], removed)
  {
    InterleaveFront([s[0]], kept, removed);
    assert s == [s[0]] + s[1..];
  }

  lemma {:induction false} SubstituteInterleaves(s: string, mark: string)
    ensures Substitute(s, mark) == Interleave(Kept(s), Markers(|Removed(s)|, mark))
  {
    if s != [] && MatchLength(s) > 0 {
      var n := MatchLength(s);
      SubstituteInterleaves(s[n..], mark);
      InterleaveBlank(mark, Kept(s[n..]), Markers(|Removed(s[n..])|, mark));
    } else if s != [] {
      SubstituteInterleaves(s[1..], mark);
      InterleaveFront([s[0]], Kept(s[1..]), Markers(|Removed(s[1..])|, mark));
    }
  }

  /**
   * Every character outside the removed credentials survives, in order: input and output are
   * the same kept pieces, with a credential in the one where the other has the mark.
   */
  lemma {:induction false} SubstituteKeepsTheRest(s: string, mark: string)
    ensures forall w :: w in Removed(s) ==> IsCredential(w)
    ensures s == Interleave(Kept(s), Removed(s))
    ensures Substitute(s, mark) == Interleave(Kept(s), Markers(|Removed(s)|, mark))
  {
    RemovedAreCredentials(s);
    OriginalInterleaves(s);
    SubstituteInterleaves(s, mark);
  }

  lemma {:induction false} InterleaveBlank(first: string, kept: seq<string>, between: seq<string>)
    requires |kept| == |between| + 1
    ensures Interleave([""] + kept, [first] + between) == first + Interleave(kept, between)
  {
    assert ([""] + kept)[1..] == kept && ([first] + between)[1..] == between;
    assert "" + first == first;
  }

  lemma {:induction false} InterleaveFront(front: string, kept: seq<string>, between: seq<string>)
    requires |kept| == |between| + 1
    ensures Interleave([front + kept[0]] + kept[1..], between) == front + Interleave(kept, between)
  {
    var longer := [front + kept[0]] + kept[1..];
    assert longer[1..] == kept[1..];
    if between != [] {
      assert (front + kept[0]) + between[0] + Interleave(kept[1..], between[1..])
          == front + (kept[0] + between[0] + Interleave(kept[1..], between[1..]));
    }
  }

  const REDACTION := "[control-plane-credential-redacted]"

  lemma {:induction false} RedactionIsSafe()
    ensures SafeMark(REDACTION)
  {
  }

  // ---------------------------------------------------------------- nested values

  /** JSON-like data: an insertion-ordered mapping, sequences, sets, text, and anything else. */
  datatype Value =
    | Text(text: string)
    | Other(id: int)
    | List(items: seq<Value>)
    | Tuple(items: seq<Value>)
    | Set(members: set<Value>)
    | FrozenSet(members: set<Value>)
    | Mapping(entries: seq<Entry>)

  datatype Entry = Entry(key: Value, item: Value)

  /** A Python mapping has each key once. */
  ghost predicate WellFormed(v: Value)
  {
    match v
    case Text(_) => true
    case Other(_) => true
    case List(items) => forall i :: 0 <= i < |items| ==> WellFormed(items[i])
    case Tuple(items) => forall i :: 0 <= i < |items| ==> WellFormed(items[i])
    case Set(members) => forall m :: m in members ==> WellFormed(m)
    case FrozenSet(members) => forall m :: m in members ==> WellFormed(m)
    case Mapping(entries) =>
      && DistinctKeys(entries)
      && forall i :: 0 <= i < |entries| ==> WellFormed(entries[i].key) && WellFormed(entries[i].item)
  }

  ghost predicate DistinctKeys(entries: seq<Entry>)
  {
    forall i, j :: 0 <= i < j < |entries| ==> entries[i].key != entries[j].key
  }

  predicate ContainsSecret(v: Value)
  {
    match v
    case Text(text) => Found(text)
    case Other(_) => false
    case List(items) => exists i :: 0 <= i < |items| && ContainsSecret(items[i])
    case Tuple(items) => exists i :: 0 <= i < |items| && ContainsSecret(items[i])
    case Set(members) => exists m :: m in members && ContainsSecret(m)
    case FrozenSet(members) => exists m :: m in members && ContainsSecret(m)
    case Mapping(entries) =>
      exists i :: 0 <= i < |entries| && (ContainsSecret(entries[i].key) || ContainsSecret(entries[i].item))
  }

  /** `d[key] = item`: an existing key keeps its place and takes the new item. */
  function Put(entries: seq<Entry>, e: Entry): seq<Entry>
  {
    if entries == [] then [e]
    else if entries[0].key == e.key then [Entry(entries[0].key, e.item)] + entries[1..]
    else [entries[0]] + Put(entries[1..], e)
  }

  /** A dict comprehension: entries are stored one after the other. */
  function Build(entries: seq<Entry>): seq<Entry>
  {
    if entries == [] then [] else Put(Build(entries[..|entries| - 1]), entries[|entries| - 1])
  }

  function Redact(v: Value): Value
    decreases v, 1
  {
    match v
    case Text(text) => Text(Substitute(text, REDACTION))
    case Other(_) => v
    case List(items) => List(seq(|items|, i requires 0 <= i < |items| => Redact(items[i])))
    case Tuple(items) => Tuple(seq(|items|, i requires 0 <= i < |items| => Redact(items[i])))
    case Set(members) => Set(set m | m in members :: Redact(m))
    case FrozenSet(members) => FrozenSet(set m | m in members :: Redact(m))
    case Mapping(entries) => Mapping(Build(RedactEntries(v)))
  }

  function RedactEntries(v: Value): (r: seq<Entry>)
    requires v.Mapping?
    decreases v, 0
  {
    seq(|v.entries|, i requires 0 <= i < |v.entries| =>
      Entry(Redact(v.entries[i].key), Redact(v.entries[i].item)))
  }

  /** Every piece of text in a value, at any depth, in keys as well as in items. */
  ghost predicate HasText(v: Value, t: string)
  {
    match v
    case Text(text) => text == t
    case Other(_) => false
    case List(items) => exists i :: 0 <= i < |items| && HasText(items[i], t)
    case Tuple(items) => exists i :: 0 <= i < |items| && HasText(items[i], t)
    case Set(members) => exists m :: m in members && HasText(m, t)
    case FrozenSet(members) => exists m :: m in members && HasText(m, t)
    case Mapping(entries) =>
      exists i :: 0 <= i < |entries| && (HasText(entries[i].key, t) || HasText(entries[i].item, t))
  }

  /** The detector says yes exactly when some text at some depth holds a credential. */
  lemma {:induction false} DetectorDecides(v: Value)
    ensures ContainsSecret(v) <==> exists t :: HasText(v, t) && HoldsCredential(t)
  {
    match v {
      case Text(text) =>
        SearchDecides(text);
        assert HasText(v, text);
      case Other(_) =>
      case List(items) =>
        forall i | 0 <= i < |items| ensures ContainsSecret(items[i]) <==> exists t :: HasText(items[i], t) && HoldsCredential(t) {
          DetectorDecides(items[i]);
        }
      case Tuple(items) =>
        forall i | 0 <= i < |items| ensures ContainsSecret(items[i]) <==> exists t :: HasText(items[i], t) && HoldsCredential(t) {
          DetectorDecides(items[i]);
        }
      case Set(members) =>
        forall m | m in members ensures ContainsSecret(m) <==> exists t :: HasText(m, t) && HoldsCredential(t) {
          DetectorDecides(m);
        }
      case FrozenSet(members) =>
        forall m | m in members ensures ContainsSecret(m) <==> exists t :: HasText(m, t) && HoldsCredential(t) {
          DetectorDecides(m);
        }
      case Mapping(entries) =>
        forall i | 0 <= i < |entries|
          ensures ContainsSecret(entries[i].key) <==> exists t :: HasText(entries[i].key, t) && HoldsCredential(t)
          ensures ContainsSecret(entries[i].item) <==> exists t :: HasText(entries[i].item, t) && HoldsCredential(t)
        {
          DetectorDecides(entries[i].key);
          DetectorDecides(entries[i].item);
        }
    }
  }

  // Storing entries keeps keys distinct and invents neither keys nor items.
  lemma {:induction false} PutKeeps(entries: seq<Entry>, e: Entry)
    requires DistinctKeys(entries)
    ensures DistinctKeys(Put(entries, e))
    ensures forall x :: x in Put(entries, e) ==> x in entries || (x.item == e.item && x.key == e.key)
    ensures (forall x :: x in entries ==> x.key != e.key) ==> Put(entries, e) == entries + [e]
  {
    if entries != [] && entries[0].key != e.key {
      PutKeeps(entries[1..], e);
      var rest := Put(entries[1..], e);
      forall j | 0 <= j < |rest| ensures rest[j].key != entries[0].key {
        assert rest[j] in rest;
        if rest[j] in entries[1..] {
          var k :| 0 <= k < |entries[1..]| && entries[1..][k] == rest[j];
          assert entries[k + 1] == rest[j];
        }
      }
      assert entries == [entries[0]] + entries[1..];
      assert forall x :: x in entries[1..] ==> x in entries;
    }
  }

  lemma {:induction false} BuildDistinct(entries: seq<Entry>)
    ensures DistinctKeys(Build(entries))
  {
    if entries != [] {
      BuildDistinct(entries[..|entries| - 1]);
      PutKeeps(Build(entries[..|entries| - 1]), entries[|entries| - 1]);
    }
  }

  lemma {:induction false} BuildMembers(entries: seq<Entry>)
    ensures forall x :: x in Build(entries) ==> x in entries
  {
    if entries != [] {
      var front, last := entries[..|entries| - 1], entries[|entries| - 1];
      BuildMembers(front);
      BuildDistinct(front);
      PutKeeps(Build(front), last);
      forall x | x in Build(entries) ensures x in entries {
        assert x in front || x == last;
        assert entries == front + [last];
      }
    }
  }

  lemma {:induction false} BuildIdentity(entries: seq<Entry>)
    requires DistinctKeys(entries)
    ensures Build(entries) == entries
  {
    if entries != [] {
      var front, last := entries[..|entries| - 1], entries[|entries| - 1];
      BuildIdentity(front);
      forall x | x in front ensures x.key != last.key {
        var k :| 0 <= k < |front| && front[k] == x;
        assert entries[k] == x;
      }
      PutKeeps(front, last);
      assert entries == front + [last];
    }
  }

  lemma {:induction false} BuildKeeps(entries: seq<Entry>)
    ensures DistinctKeys(Build(entries))
    ensures forall x :: x in Build(entries) ==> x in entries
    ensures DistinctKeys(entries) ==> Build(entries) == entries
  {
    BuildDistinct(entries);
    BuildMembers(entries);
    if DistinctKeys(entries) {
      BuildIdentity(entries);
    }
  }

  lemma {:induction false} RedactClean(v: Value)
    ensures !ContainsSecret(Redact(v))
  {
    match v {
      case Text(text) => RedactionIsSafe(); SubstituteClean(text, REDACTION);
      case Other(_) =>
      case List(items) => forall i | 0 <= i < |items| ensures !ContainsSecret(Redact(items[i])) { RedactClean(items[i]); }
      case Tuple(items) => forall i | 0 <= i < |items| ensures !ContainsSecret(Redact(items[i])) { RedactClean(items[i]); }
      case Set(members) => forall m | m in members ensures !ContainsSecret(Redact(m)) { RedactClean(m); }
      case FrozenSet(members) => forall m | m in members ensures !ContainsSecret(Redact(m)) { RedactClean(m); }
      case Mapping(entries) =>
        var redacted := RedactEntries(v);
        forall i | 0 <= i < |entries| ensures !ContainsSecret(redacted[i].key) && !ContainsSecret(redacted[i].item) {
          RedactClean(entries[i].key);
          RedactClean(entries[i].item);
        }
        BuildKeeps(redacted);
        var built := Build(redacted);
        forall i | 0 <= i < |built| ensures !ContainsSecret(built[i].key) && !ContainsSecret(built[i].item) {
          assert built[i] in redacted;
        }
    }
  }

  /** Nothing that matches the pattern is left anywhere in the output, in keys or in items. */
  lemma {:induction false} RedactionLeavesNoCredential(v: Value, t: string, i: nat, j: nat)
    requires HasText(Redact(v), t) && i <= j <= |t|
    ensures !IsCredential(t[i..j])
  {
    RedactClean(v);
    DetectorDecides(Redact(v));
    assert IsCredential(t[i..j]) ==> HoldsCredential(t);
  }

  lemma {:induction false} RedactWellFormed(v: Value)
    ensures WellFormed(v) ==> WellFormed(Redact(v))
  {
    match v {
      case Text(_) =>
      case Other(_) =>
      case List(items) => forall i | 0 <= i < |items| ensures WellFormed(items[i]) ==> WellFormed(Redact(items[i])) { RedactWellFormed(items[i]); }
      case Tuple(items) => forall i | 0 <= i < |items| ensures WellFormed(items[i]) ==> WellFormed(Redact(items[i])) { RedactWellFormed(items[i]); }
      case Set(members) => forall m | m in members ensures WellFormed(m) ==> WellFormed(Redact(m)) { RedactWellFormed(m); }
      case FrozenSet(members) => forall m | m in members ensures WellFormed(m) ==> WellFormed(Redact(m)) { RedactWellFormed(m); }
      case Mapping(entries) =>
        if WellFormed(v) {
          var redacted := RedactEntries(v);
          forall i | 0 <= i < |entries| ensures WellFormed(redacted[i].key) && WellFormed(redacted[i].item) {
            RedactWellFormed(entries[i].key);
            RedactWellFormed(entries[i].item);
          }
          BuildKeeps(redacted);
          var built := Build(redacted);
          forall i | 0 <= i < |built| ensures WellFormed(built[i].key) && WellFormed(built[i].item) {
            assert built[i] in redacted;
          }
        }
    }
  }

  lemma {:induction false} RedactFixesClean(v: Value)
    requires WellFormed(v) && !ContainsSecret(v)
    ensures Redact(v) == v
  {
    match v {
      case Text(text) => SubstituteIdentity(text, REDACTION);
      case Other(_) =>
      case List(items) => forall i | 0 <= i < |items| ensures Redact(items[i]) == items[i] { RedactFixesClean(items[i]); }
      case Tuple(items) => forall i | 0 <= i < |items| ensures Redact(items[i]) == items[i] { RedactFixesClean(items[i]); }
      case Set(members) =>
        forall m | m in members ensures Redact(m) == m { RedactFixesClean(m); }
        assert (set m | m in members :: Redact(m)) == members;
      case FrozenSet(members) =>
        forall m | m in members ensures Redact(m) == m { RedactFixesClean(m); }
        assert (set m | m in members :: Redact(m)) == members;
      case Mapping(entries) =>
        forall i | 0 <= i < |entries| ensures Redact(entries[i].key) == entries[i].key && Redact(entries[i].item) == entries[i].item {
          RedactFixesClean(entries[i].key);
          RedactFixesClean(entries[i].item);
        }
        assert RedactEntries(v) == entries;
        BuildKeeps(entries);
    }
  }

  /** Redaction changes a value exactly when the detector reports a credential in it. */
  lemma {:induction false} RedactionIsIdentityExactlyWhenClean(v: Value)
    requires WellFormed(v)
    ensures Redact(v) == v <==> !ContainsSecret(v)
  {
    RedactClean(v);
    if !ContainsSecret(v) {
      RedactFixesClean(v);
    }
  }

  lemma {:induction false} RedactionIsIdempotent(v: Value)
    requires WellFormed(v)
    ensures Redact(Redact(v)) == Redact(v)
  {
    RedactClean(v);
    RedactWellFormed(v);
    RedactFixesClean(Redact(v));
  }
}
