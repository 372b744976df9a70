// artifact_preservation_edge.py: binding archived artifacts to one close preparation and sealing the
// exact set of receipts. Identifiers and digests are taken as already checked for their alphabet.
module ArtifactSeal {
  import opened Ordering
  import opened ArchiveStore
  import opened Wrappers

  datatype Code =
    | StagedReferenceInvalid | LedgerMalformed | LedgerTampered | SetAlreadySealed | SetMismatch | SetInvalid
    | RegistrationIncomplete | ArchiveUnavailable | ArchiveIdentityChanged

  datatype Outcome<T> = Ok(value: T) | Err(code: Code)

  datatype Binding = Binding(work: string, preparation: string, attachment: string, generation: nat)

  datatype Artifact = Artifact(id: string, digest: nat)

  datatype Receipt = Receipt(artifact: Artifact, observation: nat)

  datatype SealedReceipt = SealedReceipt(receipt: Receipt, setDigest: nat, evidence: nat)

  datatype Registration = Registration(binding: Binding, artifact: Artifact, inode: nat, receipt: Receipt, seal: nat)

  datatype SealedSet = SealedSet(binding: Binding, artifacts: seq<Artifact>, receipts: seq<SealedReceipt>, seal: nat)

  datatype Preparation = Preparation(binding: Binding, registrations: map<string, Registration>, sealed: Option<SealedSet>)

  type Ledger = map<string, Preparation>

  /** Everything that is keyed-hashed, by the domain name it is hashed under. */
  datatype Preimage =
    | ObservationPreimage(binding: Binding, artifact: Artifact)
    | RegistrationPreimage(binding: Binding, artifact: Artifact, inode: nat, receipt: Receipt)
    | ReceiptPreimage(binding: Binding, receipt: Receipt, setDigest: nat)
    | SetPreimage(binding: Binding, artifacts: seq<Artifact>, receipts: seq<SealedReceipt>)

  /** The keyed hash, the digest of a list of receipts, and the digest of file contents. */
  datatype Hashes = Hashes(mac: Preimage -> nat, list: seq<Receipt> -> nat, content: Hash)

  // ---------------------------------------------------------------- records

  function ReceiptFor(h: Hashes, binding: Binding, artifact: Artifact): Receipt
  {
    Receipt(artifact, h.mac(ObservationPreimage(binding, artifact)))
  }

  function NewRegistration(h: Hashes, binding: Binding, artifact: Artifact, inode: nat): Registration
  {
    var receipt := ReceiptFor(h, binding, artifact);
    Registration(binding, artifact, inode, receipt, h.mac(RegistrationPreimage(binding, artifact, inode, receipt)))
  }

  function CheckRegistration(h: Hashes, r: Registration, binding: Binding, artifact: Artifact): Outcome<()>
  {
    if r.binding != binding || r.artifact != artifact then Err(LedgerMalformed)
    else if r.seal != h.mac(RegistrationPreimage(r.binding, r.artifact, r.inode, r.receipt)) then Err(LedgerTampered)
    else if r.receipt != ReceiptFor(h, binding, artifact) then Err(LedgerTampered)
    else Ok(())
  }

  /** The archive of a digest, if it is there with that digest. */
  function StagedArchive(h: Hashes, disk: Disk, digest: nat): Outcome<nat>
  {
    if HoldsDigest(disk, digest, h.content) then Ok(disk.names[Archive(digest)]) else Err(ArchiveUnavailable)
  }

  function CheckArchive(h: Hashes, disk: Disk, r: Registration): Outcome<()>
  {
    match StagedArchive(h, disk, r.artifact.digest)
    case Err(code) => Err(code)
    case Ok(inode) => if inode != r.inode then Err(ArchiveIdentityChanged) else Ok(())
  }

  predicate ById(a: Artifact, b: Artifact)
  {
    TextLe(a.id, b.id)
  }

  lemma {:induction false} ByIdIsPreorder()
    ensures IsPreorder(ById)
  {
    forall a, b ensures ById(a, b) || ById(b, a) {
      TextTotal(a.id, b.id);
    }
    forall a, b, c | ById(a, b) && ById(b, c) ensures ById(a, c) {
      TextTransitive(a.id, b.id, c.id);
    }
  }

  predicate DistinctIds(artifacts: seq<Artifact>)
  {
    forall i, j :: 0 <= i < j < |artifacts| ==> artifacts[i].id != artifacts[j].id
  }

  function CanonicalSet(artifacts: seq<Artifact>): Outcome<seq<Artifact>>
  {
    var sorted := Sort(artifacts, ById);
    if DistinctIds(sorted) then Ok(sorted) else Err(SetInvalid)
  }

  function Receipts(h: Hashes, binding: Binding, artifacts: seq<Artifact>): (receipts: seq<Receipt>)
    ensures |receipts| == |artifacts|
    ensures forall i :: 0 <= i < |artifacts| ==> receipts[i] == ReceiptFor(h, binding, artifacts[i])
  {
    if artifacts == [] then [] else [ReceiptFor(h, binding, artifacts[0])] + Receipts(h, binding, artifacts[1..])
  }

  function SealReceipts(h: Hashes, binding: Binding, setDigest: nat, receipts: seq<Receipt>): (sealed: seq<SealedReceipt>)
    ensures |sealed| == |receipts|
    ensures forall i :: 0 <= i < |receipts| ==>
      sealed[i] == SealedReceipt(receipts[i], setDigest, h.mac(ReceiptPreimage(binding, receipts[i], setDigest)))
  {
    if receipts == [] then []
    else
      var first := SealedReceipt(receipts[0], setDigest, h.mac(ReceiptPreimage(binding, receipts[0], setDigest)));
      [first] + SealReceipts(h, binding, setDigest, receipts[1..])
  }

  function SealedReceipts(h: Hashes, binding: Binding, artifacts: seq<Artifact>): (sealed: seq<SealedReceipt>)
    ensures |sealed| == |artifacts|
  {
    var receipts := Receipts(h, binding, artifacts);
    SealReceipts(h, binding, h.list(receipts), receipts)
  }

  function SealSet(h: Hashes, binding: Binding, artifacts: seq<Artifact>): SealedSet
  {
    var receipts := SealedReceipts(h, binding, artifacts);
    SealedSet(binding, artifacts, receipts, h.mac(SetPreimage(binding, artifacts, receipts)))
  }

  function CheckSealed(h: Hashes, s: SealedSet, binding: Binding): Outcome<()>
  {
    if s.binding != binding || s.seal != h.mac(SetPreimage(s.binding, s.artifacts, s.receipts)) then Err(LedgerTampered)
    else if CanonicalSet(s.artifacts) != Ok(s.artifacts) || |s.receipts| != |s.artifacts| then Err(LedgerMalformed)
    else if s.receipts != SealedReceipts(h, binding, s.artifacts) then Err(LedgerTampered)
    else Ok(())
  }

  // ---------------------------------------------------------------- calls

  /** The entry of a preparation; a new one is only kept if the call goes on to write it. */
  function Entry(ledger: Ledger, binding: Binding): Outcome<Preparation>
  {
    if binding.preparation !in ledger then Ok(Preparation(binding, map[], None))
    else if ledger[binding.preparation].binding != binding then Err(LedgerMalformed)
    else Ok(ledger[binding.preparation])
  }

  datatype Answer = Registered(receipt: Receipt) | Retained(sealed: SealedReceipt)

  /** What a call answers and the ledger it leaves. */
  datatype Reply<T> = Reply(answer: Outcome<T>, ledger: Ledger)

  function FindSealed(receipts: seq<SealedReceipt>, artifact: Artifact): Option<SealedReceipt>
  {
    if receipts == [] then None
    else if receipts[0].receipt.artifact == artifact then Some(receipts[0])
    else FindSealed(receipts[1..], artifact)
  }

  function RegisterOn(h: Hashes, ledger: Ledger, disk: Disk, binding: Binding, artifact: Artifact, staged: nat): Reply<Answer>
  {
    if staged != artifact.digest then Reply(Err(StagedReferenceInvalid), ledger)
    else
      match Entry(ledger, binding)
      case Err(code) => Reply(Err(code), ledger)
      case Ok(p) =>
        if p.sealed.Some? then
          if CheckSealed(h, p.sealed.value, binding).Err? then Reply(Err(CheckSealed(h, p.sealed.value, binding).code), ledger)
          else
            var found := FindSealed(p.sealed.value.receipts, artifact);
            Reply(if found.Some? then Ok(Retained(found.value)) else Err(SetAlreadySealed), ledger)
        else if artifact.id in p.registrations then
          var r := p.registrations[artifact.id];
          if CheckRegistration(h, r, binding, artifact).Err? then Reply(Err(CheckRegistration(h, r, binding, artifact).code), ledger)
          else if CheckArchive(h, disk, r).Err? then Reply(Err(CheckArchive(h, disk, r).code), ledger)
          else Reply(Ok(Registered(r.receipt)), ledger)
        else
          match StagedArchive(h, disk, artifact.digest)
          case Err(code) => Reply(Err(code), ledger)
          case Ok(inode) =>
            var r := NewRegistration(h, binding, artifact, inode);
            Reply(Ok(Registered(r.receipt)),
                  ledger[binding.preparation := p.(registrations := p.registrations[artifact.id := r])])
  }

  /** The first of some artifacts whose registration or archive fails its check. */
  function CheckAll(h: Hashes, disk: Disk, p: Preparation, binding: Binding, artifacts: seq<Artifact>): Outcome<()>
  {
    if artifacts == [] then Ok(())
    else if artifacts[0].id !in p.registrations then Err(RegistrationIncomplete)
    else
      var r := p.registrations[artifacts[0].id];
      if CheckRegistration(h, r, binding, artifacts[0]).Err? then CheckRegistration(h, r, binding, artifacts[0])
      else if CheckArchive(h, disk, r).Err? then CheckArchive(h, disk, r)
      else CheckAll(h, disk, p, binding, artifacts[1..])
  }

  function Ids(artifacts: seq<Artifact>): set<string>
  {
    set i | 0 <= i < |artifacts| :: artifacts[i].id
  }

  function SealOn(h: Hashes, ledger: Ledger, disk: Disk, binding: Binding, artifacts: seq<Artifact>): Reply<seq<SealedReceipt>>
  {
    match CanonicalSet(artifacts)
    case Err(code) => Reply(Err(code), ledger)
    case Ok(expected) =>
      match Entry(ledger, binding)
      case Err(code) => Reply(Err(code), ledger)
      case Ok(p) =>
        if p.sealed.Some? then
          if CheckSealed(h, p.sealed.value, binding).Err? then Reply(Err(CheckSealed(h, p.sealed.value, binding).code), ledger)
          else Reply(if expected == p.sealed.value.artifacts then Ok(p.sealed.value.receipts) else Err(SetMismatch), ledger)
        else if p.registrations.Keys != Ids(expected) then Reply(Err(RegistrationIncomplete), ledger)
        else
          match CheckAll(h, disk, p, binding, expected)
          case Err(code) => Reply(Err(code), ledger)
          case Ok(_) =>
            var s := SealSet(h, binding, expected);
            Reply(Ok(s.receipts), ledger[binding.preparation := p.(sealed := Some(s))])
  }

  function VerifyOn(h: Hashes, ledger: Ledger, disk: Disk, binding: Binding, receipts: seq<SealedReceipt>): bool
  {
    && binding.preparation in ledger && ledger[binding.preparation].binding == binding
    && ledger[binding.preparation].sealed.Some?
    && var p, s := ledger[binding.preparation], ledger[binding.preparation].sealed.value;
       && CheckSealed(h, s, binding).Ok?
       && CheckAll(h, disk, p, binding, s.artifacts).Ok?
       && receipts == s.receipts
  }

  // ---------------------------------------------------------------- the edge

  class OwnerPrivateArtifactPreservation {
    const h: Hashes
    var ledger: Ledger

    ghost predicate Valid()
      reads this
    {
      LedgerInv(h, ledger)
    }

    constructor (h: Hashes)
      ensures Valid() && ledger == map[] && this.h == h
    {
      this.h := h;
      ledger := map[];
    }

    method RegisterStagedFile(disk: Disk, binding: Binding, artifact: Artifact, staged: nat) returns (answer: Outcome<Answer>)
      requires Valid()
      modifies this
      ensures Valid() && Reply(answer, ledger) == RegisterOn(h, old(ledger), disk, binding, artifact, staged)
    {
      RegisterKeepsInv(h, ledger, disk, binding, artifact, staged);
      if staged != artifact.digest {
        return Err(StagedReferenceInvalid);
      }
      var entry := Entry(ledger, binding);
      if entry.Err? {
        return Err(entry.code);
      }
      var p := entry.value;
      if p.sealed.Some? {
        var valid := CheckSealed(h, p.sealed.value, binding);
        if valid.Err? {
          return Err(valid.code);
        }
        answer := FindRetained(p.sealed.value.receipts, artifact);
        return;
      }
      if artifact.id in p.registrations {
        var r := p.registrations[artifact.id];
        var valid, intact := CheckRegistration(h, r, binding, artifact), CheckArchive(h, disk, r);
        return if valid.Err? then Err(valid.code) else if intact.Err? then Err(intact.code) else Ok(Registered(r.receipt));
      }
      var inode := StagedArchive(h, disk, artifact.digest);
      if inode.Err? {
        return Err(inode.code);
      }
      var r := NewRegistration(h, binding, artifact, inode.value);
      ledger := ledger[binding.preparation := p.(registrations := p.registrations[artifact.id := r])];
      return Ok(Registered(r.receipt));
    }

    method SealReceiptSet(disk: Disk, binding: Binding, artifacts: seq<Artifact>) returns (answer: Outcome<seq<SealedReceipt>>)
      requires Valid()
      modifies this
      ensures Valid() && Reply(answer, ledger) == SealOn(h, old(ledger), disk, binding, artifacts)
    {
      SealKeepsInv(h, ledger, disk, binding, artifacts);
      var expected := CanonicalSet(artifacts);
      if expected.Err? {
        return Err(expected.code);
      }
      var entry := Entry(ledger, binding);
      if entry.Err? {
        return Err(entry.code);
      }
      var p := entry.value;
      if p.sealed.Some? {
        var valid := CheckSealed(h, p.sealed.value, binding);
        if valid.Err? {
          return Err(valid.code);
        }
        return if expected.value == p.sealed.value.artifacts then Ok(p.sealed.value.receipts) else Err(SetMismatch);
      }
      if p.registrations.Keys != Ids(expected.value) {
        return Err(RegistrationIncomplete);
      }
      var checked := CheckEach(h, disk, p, binding, expected.value);
      if checked.Err? {
        return Err(checked.code);
      }
      var s := SealSet(h, binding, expected.value);
      ledger := ledger[binding.preparation := p.(sealed := Some(s))];
      return Ok(s.receipts);
    }

    method VerifyPublicReceiptSet(disk: Disk, binding: Binding, receipts: seq<SealedReceipt>) returns (verified: bool)
      ensures verified == VerifyOn(h, ledger, disk, binding, receipts)
    {
      if binding.preparation !in ledger || ledger[binding.preparation].binding != binding {
        return false;
      }
      var p := ledger[binding.preparation];
      if p.sealed.None? || CheckSealed(h, p.sealed.value, binding).Err? {
        return false;
      }
      var checked := CheckEach(h, disk, p, binding, p.sealed.value.artifacts);
      return checked.Ok? && receipts == p.sealed.value.receipts;
    }
  }

  method FindRetained(receipts: seq<SealedReceipt>, artifact: Artifact) returns (answer: Outcome<Answer>)
    ensures var found := FindSealed(receipts, artifact);
      answer == if found.Some? then Ok(Retained(found.value)) else Err(SetAlreadySealed)
  {
    for i := 0 to |receipts|
      invariant FindSealed(receipts, artifact) == FindSealed(receipts[i..], artifact)
    {
      assert receipts[i..][1..] == receipts[i + 1..];
      if receipts[i].receipt.artifact == artifact {
        return Ok(Retained(receipts[i]));
      }
    }
    return Err(SetAlreadySealed);
  }

  method CheckEach(h: Hashes, disk: Disk, p: Preparation, binding: Binding, artifacts: seq<Artifact>) returns (r: Outcome<()>)
    ensures r == CheckAll(h, disk, p, binding, artifacts)
  {
    for i := 0 to |artifacts|
      invariant CheckAll(h, disk, p, binding, artifacts) == CheckAll(h, disk, p, binding, artifacts[i..])
    {
      assert artifacts[i..][1..] == artifacts[i + 1..];
      if artifacts[i].id !in p.registrations {
        return Err(RegistrationIncomplete);
      }
      var registration := p.registrations[artifacts[i].id];
      var valid, intact := CheckRegistration(h, registration, binding, artifacts[i]), CheckArchive(h, disk, registration);
      if valid.Err? || intact.Err? {
        return if valid.Err? then valid else intact;
      }
    }
    return Ok(());
  }

  // ---------------------------------------------------------------- what every call keeps

  ghost predicate LedgerInv(h: Hashes, ledger: Ledger)
  {
    forall k :: k in ledger ==> ledger[k].binding.preparation == k && EntryInv(h, ledger[k])
  }

  /** Registrations are genuine, and a sealed set lists exactly what is registered. */
  ghost predicate EntryInv(h: Hashes, p: Preparation)
  {
    && (forall id :: id in p.registrations ==>
          p.registrations[id].artifact.id == id && CheckRegistration(h, p.registrations[id], p.binding, p.registrations[id].artifact).Ok?)
    && (p.sealed.Some? ==>
          && CheckSealed(h, p.sealed.value, p.binding).Ok?
          && p.registrations.Keys == Ids(p.sealed.value.artifacts)
          && forall i :: 0 <= i < |p.sealed.value.artifacts| ==>
               p.sealed.value.artifacts[i].id in p.registrations
               && p.registrations[p.sealed.value.artifacts[i].id].artifact == p.sealed.value.artifacts[i])
  }

  ghost predicate LaterEntry(before: Preparation, after: Preparation)
  {
    && after.binding == before.binding && (before.sealed.Some? ==> after == before)
    && forall id :: id in before.registrations ==>
         id in after.registrations && after.registrations[id] == before.registrations[id]
  }

  /** Nothing registered is lost or changed, and what is sealed stays exactly as it is. */
  ghost predicate Later(before: Ledger, after: Ledger)
  {
    forall k :: k in before ==> k in after && LaterEntry(before[k], after[k])
  }

  lemma {:induction false} ReplacingAnEntryKeepsInv(h: Hashes, ledger: Ledger, p: Preparation)
    requires LedgerInv(h, ledger) && EntryInv(h, p)
    requires p.binding.preparation in ledger ==> LaterEntry(ledger[p.binding.preparation], p)
    ensures LedgerInv(h, ledger[p.binding.preparation := p]) && Later(ledger, ledger[p.binding.preparation := p])
  {
  }

  lemma {:induction false} RegisteringKeepsEntryInv(h: Hashes, p: Preparation, artifact: Artifact, inode: nat)
    requires EntryInv(h, p) && p.sealed.None? && artifact.id !in p.registrations
    ensures var q := p.(registrations := p.registrations[artifact.id := NewRegistration(h, p.binding, artifact, inode)]);
      EntryInv(h, q) && LaterEntry(p, q)
  {
  }

  lemma {:induction false} RegisterKeepsInv(h: Hashes, ledger: Ledger, disk: Disk, binding: Binding, artifact: Artifact, staged: nat)
    requires LedgerInv(h, ledger)
    ensures LedgerInv(h, RegisterOn(h, ledger, disk, binding, artifact, staged).ledger)
    ensures Later(ledger, RegisterOn(h, ledger, disk, binding, artifact, staged).ledger)
  {
    var entry, inode := Entry(ledger, binding), StagedArchive(h, disk, artifact.digest);
    assert Later(ledger, ledger);
    if entry.Ok? && inode.Ok? && entry.value.sealed.None? && artifact.id !in entry.value.registrations {
      var p := entry.value;
      RegisteringKeepsEntryInv(h, p, artifact, inode.value);
      ReplacingAnEntryKeepsInv(h, ledger, p.(registrations := p.registrations[artifact.id := NewRegistration(h, binding, artifact, inode.value)]));
    }
  }

  lemma {:induction false} SealingKeepsEntryInv(h: Hashes, disk: Disk, p: Preparation, artifacts: seq<Artifact>)
    requires EntryInv(h, p) && p.sealed.None? && p.registrations.Keys == Ids(artifacts) && CanonicalSet(artifacts) == Ok(artifacts)
    requires CheckAll(h, disk, p, p.binding, artifacts).Ok?
    ensures var q := p.(sealed := Some(SealSet(h, p.binding, artifacts))); EntryInv(h, q) && LaterEntry(p, q)
  {
    forall i | 0 <= i < |artifacts|
      ensures artifacts[i].id in p.registrations && p.registrations[artifacts[i].id].artifact == artifacts[i]
    {
      CheckAllChecks(h, disk, p, p.binding, artifacts, i);
    }
  }

  lemma {:induction false} SealKeepsInv(h: Hashes, ledger: Ledger, disk: Disk, binding: Binding, artifacts: seq<Artifact>)
    requires LedgerInv(h, ledger)
    ensures LedgerInv(h, SealOn(h, ledger, disk, binding, artifacts).ledger)
    ensures Later(ledger, SealOn(h, ledger, disk, binding, artifacts).ledger)
  {
    var entry, expected := Entry(ledger, binding), CanonicalSet(artifacts);
    if entry.Ok? && expected.Ok? && entry.value.sealed.None? && entry.value.registrations.Keys == Ids(expected.value)
      && CheckAll(h, disk, entry.value, binding, expected.value).Ok? {
      CanonicalIsFixed(artifacts);
      SealingKeepsEntryInv(h, disk, entry.value, expected.value);
      ReplacingAnEntryKeepsInv(h, ledger, entry.value.(sealed := Some(SealSet(h, binding, expected.value))));
    }
  }

  lemma {:induction false} CanonicalIsFixed(artifacts: seq<Artifact>)
    requires CanonicalSet(artifacts).Ok?
    ensures CanonicalSet(CanonicalSet(artifacts).value) == CanonicalSet(artifacts)
  {
    ByIdIsPreorder();
    SortSorts(artifacts, ById);
    SortFixes(Sort(artifacts, ById), ById);
  }

  lemma {:induction false} CheckAllChecks(h: Hashes, disk: Disk, p: Preparation, binding: Binding, artifacts: seq<Artifact>, i: nat)
    requires CheckAll(h, disk, p, binding, artifacts).Ok? && i < |artifacts|
    ensures artifacts[i].id in p.registrations
    ensures CheckRegistration(h, p.registrations[artifacts[i].id], binding, artifacts[i]).Ok?
    ensures CheckArchive(h, disk, p.registrations[artifacts[i].id]).Ok?
  {
    if i > 0 {
      CheckAllChecks(h, disk, p, binding, artifacts[1..], i - 1);
    }
  }

  lemma {:induction false} CheckAllHolds(h: Hashes, disk: Disk, p: Preparation, binding: Binding, artifacts: seq<Artifact>)
    requires forall i :: 0 <= i < |artifacts| ==>
      && artifacts[i].id in p.registrations
      && CheckRegistration(h, p.registrations[artifacts[i].id], binding, artifacts[i]).Ok?
      && CheckArchive(h, disk, p.registrations[artifacts[i].id]).Ok?
    ensures CheckAll(h, disk, p, binding, artifacts).Ok?
  {
    if artifacts != [] {
      CheckAllHolds(h, disk, p, binding, artifacts[1..]);
    }
  }

  // ---------------------------------------------------------------- runs

  datatype Op =
    | Register(disk: Disk, binding: Binding, artifact: Artifact, staged: nat)
    | Seal(disk: Disk, binding: Binding, artifacts: seq<Artifact>)

  function Apply(h: Hashes, ledger: Ledger, op: Op): Ledger
  {
    match op
    case Register(disk, binding, artifact, staged) => RegisterOn(h, ledger, disk, binding, artifact, staged).ledger
    case Seal(disk, binding, artifacts) => SealOn(h, ledger, disk, binding, artifacts).ledger
  }

  function Reached(h: Hashes, ledger: Ledger, ops: seq<Op>): Ledger
    decreases |ops|
  {
    if ops == [] then ledger else Reached(h, Apply(h, ledger, ops[0]), ops[1..])
  }

  lemma {:induction false} LaterTransitive(a: Ledger, b: Ledger, c: Ledger)
    requires Later(a, b) && Later(b, c)
    ensures Later(a, c)
  {
  }

  lemma {:induction false} RunKeepsInv(h: Hashes, ledger: Ledger, ops: seq<Op>)
    requires LedgerInv(h, ledger)
    ensures LedgerInv(h, Reached(h, ledger, ops)) && Later(ledger, Reached(h, ledger, ops))
    decreases |ops|
  {
    if ops != [] {
      var next := Apply(h, ledger, ops[0]);
      match ops[0] {
        case Register(disk, binding, artifact, staged) => RegisterKeepsInv(h, ledger, disk, binding, artifact, staged);
        case Seal(disk, binding, artifacts) => SealKeepsInv(h, ledger, disk, binding, artifacts);
      }
      RunKeepsInv(h, next, ops[1..]);
      LaterTransitive(ledger, next, Reached(h, ledger, ops));
    }
  }

  // ---------------------------------------------------------------- the sealed set

  lemma {:induction false} PermutationSortsAlike(a: seq<Artifact>, b: seq<Artifact>)
    requires DistinctIds(b) && multiset(a) == multiset(b)
    ensures Sort(a, ById) == Sort(b, ById)
  {
    ByIdIsPreorder();
    forall x, y | x in b && y in b && ById(x, y) && ById(y, x) ensures x == y {
      TextAntisymmetric(x.id, y.id);
    }
    SortCanonical(b, a, ById);
  }

  /** Two lists of artifacts have the same canonical form exactly when one is a permutation of the other. */
  lemma {:induction false} CanonicalExactlyForPermutations(a: seq<Artifact>, b: seq<Artifact>)
    requires CanonicalSet(b) == Ok(b)
    ensures CanonicalSet(a) == Ok(b) <==> multiset(a) == multiset(b)
  {
    if multiset(a) == multiset(b) {
      PermutationSortsAlike(a, b);
    } else {
      SortPermutes(a, ById);
    }
  }

  /** A sealed preparation is the same in every later state, and what it has registered is what it sealed. */
  lemma {:induction false} SealedStays(h: Hashes, ledger: Ledger, ops: seq<Op>, preparation: string)
    requires LedgerInv(h, ledger) && preparation in ledger && ledger[preparation].sealed.Some?
    ensures var later := Reached(h, ledger, ops);
      && LedgerInv(h, later) && preparation in later && later[preparation] == ledger[preparation]
      && ledger[preparation].registrations.Keys == Ids(ledger[preparation].sealed.value.artifacts)
  {
    RunKeepsInv(h, ledger, ops);
    assert EntryInv(h, ledger[preparation]);
  }

  lemma {:induction false} SealingAgain(h: Hashes, ledger: Ledger, disk: Disk, binding: Binding, artifacts: seq<Artifact>)
    requires LedgerInv(h, ledger) && binding.preparation in ledger
    requires ledger[binding.preparation].binding == binding && ledger[binding.preparation].sealed.Some?
    ensures var s, reply := ledger[binding.preparation].sealed.value, SealOn(h, ledger, disk, binding, artifacts);
      && reply.ledger == ledger
      && (reply.answer.Ok? <==> multiset(artifacts) == multiset(s.artifacts))
      && (reply.answer.Ok? ==> reply.answer == Ok(s.receipts))
  {
    var p := ledger[binding.preparation];
    assert EntryInv(h, p);
    SealedEntryIsCanonical(h, p);
    CanonicalExactlyForPermutations(artifacts, p.sealed.value.artifacts);
    assert Entry(ledger, binding) == Ok(p);
  }

  lemma {:induction false} SealedEntryIsCanonical(h: Hashes, p: Preparation)
    requires EntryInv(h, p) && p.sealed.Some?
    ensures CheckSealed(h, p.sealed.value, p.binding).Ok? && CanonicalSet(p.sealed.value.artifacts) == Ok(p.sealed.value.artifacts)
  {
  }

  /**
   * Once a preparation is sealed, at any later time: sealing a list answers with the sealed receipts
   * if the list is a permutation of the sealed set and fails otherwise, and never changes anything.
   */
  lemma {:induction false} SealedForever(h: Hashes, ledger: Ledger, ops: seq<Op>, disk: Disk, binding: Binding, artifacts: seq<Artifact>)
    requires LedgerInv(h, ledger) && binding.preparation in ledger
    requires ledger[binding.preparation].binding == binding && ledger[binding.preparation].sealed.Some?
    ensures var s, later := ledger[binding.preparation].sealed.value, Reached(h, ledger, ops);
      var reply := SealOn(h, later, disk, binding, artifacts);
      && reply.ledger == later
      && (reply.answer.Ok? <==> multiset(artifacts) == multiset(s.artifacts))
      && (reply.answer.Ok? ==> reply.answer == Ok(s.receipts))
  {
    SealedStays(h, ledger, ops, binding.preparation);
    SealingAgain(h, Reached(h, ledger, ops), disk, binding, artifacts);
  }

  /** Late registration adds nothing: it repeats a sealed receipt or fails. */
  lemma {:induction false} LateRegistrationAddsNothing(h: Hashes, ledger: Ledger, disk: Disk, binding: Binding, artifact: Artifact, staged: nat)
    requires LedgerInv(h, ledger) && binding.preparation in ledger
    requires ledger[binding.preparation].binding == binding && ledger[binding.preparation].sealed.Some?
    ensures var s, reply := ledger[binding.preparation].sealed.value, RegisterOn(h, ledger, disk, binding, artifact, staged);
      && reply.ledger == ledger
      && (reply.answer.Ok? <==> staged == artifact.digest && artifact in s.artifacts)
      && (reply.answer.Ok? ==> exists i :: 0 <= i < |s.artifacts| && s.artifacts[i] == artifact && reply.answer == Ok(Retained(s.receipts[i])))
  {
    var s := ledger[binding.preparation].sealed.value;
    assert EntryInv(h, ledger[binding.preparation]);
    FindSealedFinds(s.receipts, artifact);
    SealedReceiptsNameArtifacts(h, binding, s.artifacts);
  }

  lemma {:induction false} FindSealedFinds(receipts: seq<SealedReceipt>, artifact: Artifact)
    ensures FindSealed(receipts, artifact).Some? <==> exists i :: 0 <= i < |receipts| && receipts[i].receipt.artifact == artifact
    ensures FindSealed(receipts, artifact).Some? ==>
      exists i :: 0 <= i < |receipts| && receipts[i].receipt.artifact == artifact && receipts[i] == FindSealed(receipts, artifact).value
  {
    if receipts != [] && receipts[0].receipt.artifact != artifact {
      FindSealedFinds(receipts[1..], artifact);
      var rest := receipts[1..];
      if i :| 0 <= i < |rest| && rest[i].receipt.artifact == artifact && FindSealed(rest, artifact).Some? && rest[i] == FindSealed(rest, artifact).value {
        assert receipts[i + 1] == rest[i];
      }
      if i :| 0 <= i < |receipts| && receipts[i].receipt.artifact == artifact {
        assert rest[i - 1] == receipts[i];
      }
    }
  }

  lemma {:induction false} SealedReceiptsNameArtifacts(h: Hashes, binding: Binding, artifacts: seq<Artifact>)
    ensures forall i :: 0 <= i < |artifacts| ==> SealedReceipts(h, binding, artifacts)[i].receipt.artifact == artifacts[i]
  {
  }

  /** An archive entry is intact while the file is there with its digest and is still the same file. */
  predicate Intact(h: Hashes, disk: Disk, r: Registration)
  {
    HoldsDigest(disk, r.artifact.digest, h.content) && disk.names[Archive(r.artifact.digest)] == r.inode
  }

  /** Verification is true exactly for the sealed list while every archive entry is intact. */
  lemma {:induction false} VerifiesExactlyTheSealedList(h: Hashes, ledger: Ledger, disk: Disk, binding: Binding, receipts: seq<SealedReceipt>)
    requires LedgerInv(h, ledger)
    ensures VerifyOn(h, ledger, disk, binding, receipts) <==>
      && binding.preparation in ledger && ledger[binding.preparation].binding == binding
      && ledger[binding.preparation].sealed.Some? && receipts == ledger[binding.preparation].sealed.value.receipts
      && forall id :: id in ledger[binding.preparation].registrations ==> Intact(h, disk, ledger[binding.preparation].registrations[id])
  {
    if binding.preparation in ledger && ledger[binding.preparation].binding == binding && ledger[binding.preparation].sealed.Some? {
      var p := ledger[binding.preparation];
      var artifacts := p.sealed.value.artifacts;
      assert EntryInv(h, p);
      if CheckAll(h, disk, p, binding, artifacts).Ok? {
        forall id | id in p.registrations ensures Intact(h, disk, p.registrations[id]) {
          var i :| 0 <= i < |artifacts| && artifacts[i].id == id;
          CheckAllChecks(h, disk, p, binding, artifacts, i);
        }
      } else if forall id :: id in p.registrations ==> Intact(h, disk, p.registrations[id]) {
        CheckAllHolds(h, disk, p, binding, artifacts);
        assert false;
      }
    }
  }

  /** What was just sealed verifies: the seal checked every archive that verification will check. */
  lemma {:induction false} JustSealedVerifies(h: Hashes, ledger: Ledger, disk: Disk, binding: Binding, artifacts: seq<Artifact>)
    requires LedgerInv(h, ledger) && SealOn(h, ledger, disk, binding, artifacts).answer.Ok?
    requires binding.preparation in ledger ==> ledger[binding.preparation].sealed.None?
    ensures var reply := SealOn(h, ledger, disk, binding, artifacts);
      VerifyOn(h, reply.ledger, disk, binding, reply.answer.value)
  {
    var p, expected := Entry(ledger, binding).value, CanonicalSet(artifacts).value;
    CanonicalIsFixed(artifacts);
    CheckAllIgnoresSeal(h, disk, p, p.(sealed := Some(SealSet(h, binding, expected))), binding, expected);
  }

  lemma {:induction false} CheckAllIgnoresSeal(h: Hashes, disk: Disk, p: Preparation, q: Preparation, binding: Binding, artifacts: seq<Artifact>)
    requires p.registrations == q.registrations
    ensures CheckAll(h, disk, p, binding, artifacts) == CheckAll(h, disk, q, binding, artifacts)
  {
    if artifacts != [] {
      CheckAllIgnoresSeal(h, disk, p, q, binding, artifacts[1..]);
    }
  }

  /** What the archive store itself does, short of a loss of power, leaves every entry intact. */
  lemma {:induction false} StoreKeepsIntact(h: Hashes, before: Disk, after: Disk, r: Registration)
    requires Sound(before, h.content) && Next(before, after, h.content) && !AfterPowerLoss(before, after)
    requires Intact(h, before, r)
    ensures Intact(h, after, r)
  {
    var temp: Name, m :| temp.Temp? && Possible(before, temp, m, h.content) && after == StateAt(before, temp, m);
    EveryMomentIsSound(before, temp, m, h.content);
    assert SoundInode(before, before.names[Archive(r.artifact.digest)], r.artifact.digest, h.content);
  }

  // ---------------------------------------------------------------- what an accepted call has done

  /** The preparation is new, or it is there under this very binding. */
  predicate Fits(ledger: Ledger, binding: Binding)
  {
    binding.preparation in ledger ==> ledger[binding.preparation].binding == binding
  }

  function RegistrationsOf(ledger: Ledger, binding: Binding): map<string, Registration>
  {
    if binding.preparation in ledger then ledger[binding.preparation].registrations else map[]
  }

  predicate Unsealed(ledger: Ledger, binding: Binding)
  {
    Fits(ledger, binding) && (binding.preparation in ledger ==> ledger[binding.preparation].sealed.None?)
  }

  /** The artifact is registered, and its archive is still the file that was registered. */
  predicate RegisteredIntact(h: Hashes, disk: Disk, registrations: map<string, Registration>, artifact: Artifact)
  {
    artifact.id in registrations && registrations[artifact.id].artifact == artifact && Intact(h, disk, registrations[artifact.id])
  }

  lemma {:induction false} CheckedExactlyWhenIntact(h: Hashes, disk: Disk, p: Preparation, artifact: Artifact)
    requires EntryInv(h, p) && artifact.id in p.registrations
    ensures CheckRegistration(h, p.registrations[artifact.id], p.binding, artifact).Ok? && CheckArchive(h, disk, p.registrations[artifact.id]).Ok?
      <==> RegisteredIntact(h, disk, p.registrations, artifact)
  {
  }

  /**
   * Before sealing, a registration is accepted exactly when its reference fits and either the id is new and the
   * archive holds the digest, or this artifact is registered and its archive intact. Then the artifact is
   * registered and intact, the answer is its receipt, and no other registration has changed.
   */
  lemma {:induction false} RegistrationTakesEffect(h: Hashes, ledger: Ledger, disk: Disk, binding: Binding, artifact: Artifact, staged: nat)
    requires LedgerInv(h, ledger) && Unsealed(ledger, binding)
    ensures var before, reply := RegistrationsOf(ledger, binding), RegisterOn(h, ledger, disk, binding, artifact, staged);
      && (reply.answer.Ok? <==>
            && staged == artifact.digest
            && if artifact.id in before then RegisteredIntact(h, disk, before, artifact) else HoldsDigest(disk, artifact.digest, h.content))
      && (reply.answer.Err? ==> reply.ledger == ledger)
      && (reply.answer.Ok? ==>
            var after := RegistrationsOf(reply.ledger, binding);
            && RegisteredIntact(h, disk, after, artifact) && Unsealed(reply.ledger, binding)
            && reply.answer == Ok(Registered(after[artifact.id].receipt)) && after[artifact.id].receipt.artifact == artifact
            && after == before[artifact.id := after[artifact.id]] && (artifact.id in before ==> reply.ledger == ledger)
            && binding.preparation in reply.ledger && forall k :: k in ledger && k != binding.preparation ==> k in reply.ledger && reply.ledger[k] == ledger[k])
  {
    var p := Entry(ledger, binding).value;
    assert EntryInv(h, p);
    if artifact.id in p.registrations {
      CheckedExactlyWhenIntact(h, disk, p, artifact);
      assert p.registrations == p.registrations[artifact.id := p.registrations[artifact.id]];
    }
  }

  lemma {:induction false} CanonicalExactlyForDistinctIds(artifacts: seq<Artifact>)
    ensures CanonicalSet(artifacts).Ok? <==> DistinctIds(artifacts)
    ensures multiset(Sort(artifacts, ById)) == multiset(artifacts)
  {
    var apart := (a: Artifact, b: Artifact) => a.id != b.id;
    var sorted := Sort(artifacts, ById);
    SortPermutes(artifacts, ById);
    if DistinctIds(artifacts) {
      assert Pairwise(artifacts, apart);
      PermutationKeepsPairwise(artifacts, sorted, apart);
    }
    if DistinctIds(sorted) {
      assert Pairwise(sorted, apart);
      PermutationKeepsPairwise(sorted, artifacts, apart);
    }
  }

  lemma {:induction false} AllCheckedExactlyWhenIntact(h: Hashes, disk: Disk, p: Preparation, artifacts: seq<Artifact>)
    requires EntryInv(h, p)
    ensures CheckAll(h, disk, p, p.binding, artifacts).Ok? <==> forall a :: a in artifacts ==> RegisteredIntact(h, disk, p.registrations, a)
  {
    if artifacts != [] {
      AllCheckedExactlyWhenIntact(h, disk, p, artifacts[1..]);
      assert forall a :: a in artifacts <==> a == artifacts[0] || a in artifacts[1..];
      if artifacts[0].id in p.registrations {
        CheckedExactlyWhenIntact(h, disk, p, artifacts[0]);
      } else {
        assert !RegisteredIntact(h, disk, p.registrations, artifacts[0]);
      }
    }
  }

  /**
   * Before sealing, a list is sealed exactly when its ids are distinct and are the registered ones, and every
   * artifact of it is registered and intact. Then exactly these artifacts are sealed, one receipt for each.
   */
  lemma {:induction false} SealingTakesEffect(h: Hashes, ledger: Ledger, disk: Disk, binding: Binding, artifacts: seq<Artifact>)
    requires LedgerInv(h, ledger) && Unsealed(ledger, binding)
    ensures var registered, reply := RegistrationsOf(ledger, binding), SealOn(h, ledger, disk, binding, artifacts);
      && (reply.answer.Ok? <==>
            && DistinctIds(artifacts) && (forall id :: id in registered ==> exists a :: a in artifacts && a.id == id)
            && forall a :: a in artifacts ==> RegisteredIntact(h, disk, registered, a))
      && (reply.answer.Err? ==> reply.ledger == ledger)
      && (reply.answer.Ok? ==>
            && binding.preparation in reply.ledger && reply.ledger[binding.preparation].sealed.Some?
            && RegistrationsOf(reply.ledger, binding) == registered
            && SealsExactly(h, binding, reply.ledger[binding.preparation].sealed.value, artifacts, reply.answer.value)
            && forall k :: k in ledger && k != binding.preparation ==> k in reply.ledger && reply.ledger[k] == ledger[k])
  {
    SealsExactlyTheRegistered(h, ledger, disk, binding, artifacts);
    SealingReplies(h, ledger, disk, binding, artifacts);
    var sorted := Sort(artifacts, ById);
    SortPermutes(artifacts, ById);
    SealedSetIsExact(h, binding, sorted, artifacts);
  }

  predicate Sealable(h: Hashes, disk: Disk, p: Preparation, binding: Binding, artifacts: seq<Artifact>)
  {
    CanonicalSet(artifacts).Ok? && p.registrations.Keys == Ids(CanonicalSet(artifacts).value)
    && CheckAll(h, disk, p, binding, CanonicalSet(artifacts).value).Ok?
  }

  lemma {:induction false} SealsExactlyTheRegistered(h: Hashes, ledger: Ledger, disk: Disk, binding: Binding, artifacts: seq<Artifact>)
    requires LedgerInv(h, ledger) && Unsealed(ledger, binding)
    ensures var registered := RegistrationsOf(ledger, binding);
      SealOn(h, ledger, disk, binding, artifacts).answer.Ok? <==>
        && DistinctIds(artifacts) && (forall id :: id in registered ==> exists a :: a in artifacts && a.id == id)
        && forall a :: a in artifacts ==> RegisteredIntact(h, disk, registered, a)
  {
    var p := Entry(ledger, binding).value;
    assert EntryInv(h, p);
    assert p.binding == binding && p.sealed.None? && p.registrations == RegistrationsOf(ledger, binding);
    SealingReplies(h, ledger, disk, binding, artifacts);
    SealableExactlyWhenIntact(h, disk, p, artifacts);
  }

  lemma {:induction false} SealingReplies(h: Hashes, ledger: Ledger, disk: Disk, binding: Binding, artifacts: seq<Artifact>)
    requires Unsealed(ledger, binding)
    ensures var p, reply := Entry(ledger, binding).value, SealOn(h, ledger, disk, binding, artifacts);
      && (reply.answer.Ok? <==> Sealable(h, disk, p, binding, artifacts))
      && (reply.answer.Err? ==> reply.ledger == ledger)
      && (reply.answer.Ok? ==>
            var s := SealSet(h, binding, Sort(artifacts, ById));
            reply.answer == Ok(s.receipts) && reply.ledger == ledger[binding.preparation := p.(sealed := Some(s))])
  {
  }

  lemma {:induction false} SealableExactlyWhenIntact(h: Hashes, disk: Disk, p: Preparation, artifacts: seq<Artifact>)
    requires EntryInv(h, p)
    ensures Sealable(h, disk, p, p.binding, artifacts) <==>
      && DistinctIds(artifacts) && (forall id :: id in p.registrations ==> exists a :: a in artifacts && a.id == id)
      && forall a :: a in artifacts ==> RegisteredIntact(h, disk, p.registrations, a)
  {
    CanonicalExactlyForDistinctIds(artifacts);
    var sorted := Sort(artifacts, ById);
    SamePermutation(sorted, artifacts);
    AllCheckedExactlyWhenIntact(h, disk, p, sorted);
    RegisteredIdsAreListed(h, disk, p.registrations, artifacts, sorted);
  }

  lemma {:induction false} SamePermutation(a: seq<Artifact>, b: seq<Artifact>)
    requires multiset(a) == multiset(b)
    ensures forall x :: x in a <==> x in b
  {
    forall x ensures x in a <==> x in b {
      assert x in a <==> x in multiset(a);
      assert x in b <==> x in multiset(b);
    }
  }

  lemma {:induction false} RegisteredIdsAreListed(h: Hashes, disk: Disk, registered: map<string, Registration>, artifacts: seq<Artifact>, sorted: seq<Artifact>)
    requires forall x :: x in sorted <==> x in artifacts
    ensures (registered.Keys == Ids(sorted) && forall a :: a in sorted ==> RegisteredIntact(h, disk, registered, a))
      <==> && (forall id :: id in registered ==> exists a :: a in artifacts && a.id == id)
           && forall a :: a in artifacts ==> RegisteredIntact(h, disk, registered, a)
  {
    forall id ensures id in Ids(sorted) <==> exists a :: a in artifacts && a.id == id {
      if a :| a in artifacts && a.id == id {
        var i :| 0 <= i < |sorted| && sorted[i] == a;
      }
    }
  }

  /** One receipt for each artifact, in canonical order, each with the digest of all of them. */
  ghost predicate SealsExactly(h: Hashes, binding: Binding, s: SealedSet, artifacts: seq<Artifact>, receipts: seq<SealedReceipt>)
  {
    && s.binding == binding && multiset(s.artifacts) == multiset(artifacts) && s.receipts == receipts && |receipts| == |s.artifacts| == |artifacts|
    && forall i :: 0 <= i < |receipts| ==>
      && receipts[i].receipt.artifact == s.artifacts[i]
      && receipts[i].setDigest == h.list(seq(|receipts|, j requires 0 <= j < |receipts| => receipts[j].receipt))
  }

  lemma {:induction false} SealedSetIsExact(h: Hashes, binding: Binding, sorted: seq<Artifact>, artifacts: seq<Artifact>)
    requires multiset(sorted) == multiset(artifacts)
    ensures SealsExactly(h, binding, SealSet(h, binding, sorted), artifacts, SealedReceipts(h, binding, sorted))
  {
    assert |multiset(sorted)| == |sorted| && |multiset(artifacts)| == |artifacts|;
    var receipts, bare := SealedReceipts(h, binding, sorted), Receipts(h, binding, sorted);
    assert seq(|receipts|, j requires 0 <= j < |receipts| => receipts[j].receipt) == bare;
  }
}
