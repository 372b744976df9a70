// close_inventory_edge.py: the immutable freeze of one work's registry, and its public records.
// Keyed and unkeyed hashes are parameters, functions from what is hashed to a number whose order is
// the order of the hexadecimal text.
module CloseFreeze {
  import opened Ordering
  import opened CloseHost
  import opened CloseRegistry
  import opened Wrappers

  datatype Binding = Binding(preparation: string, work: string, generation: int, attachment: string)

  function MakeBinding(preparation: string, work: string, generation: int, attachment: string): Result<Binding>
  {
    if generation < 1 || !IsIdentifier(preparation) || !IsIdentifier(work) || !IsIdentifier(attachment)
    then Err(FreezeBindingInvalid)
    else Ok(Binding(preparation, work, generation, attachment))
  }

  datatype PrivateRecord = Absent(kind: Kind) | Present(resource: Resource)

  datatype Base = BaseAbsent(kind: Kind) | BaseTarget(kind: Kind, fingerprint: nat)

  datatype PublicRecord = PublicRecord(base: Base, setDigest: nat, executionDigest: Option<nat>, evidence: nat)

  datatype Receipt = Receipt(base: Base, executionDigest: Option<nat>, setDigest: nat, evidence: nat)

  /** Everything that is ever hashed; the constructor is the hashed domain name. */
  datatype Preimage =
    | ResourcePreimage(binding: Binding, resource: Resource)
    | SetPreimage(binding: Binding, bases: seq<Base>)
    | ExecutionPreimage(binding: Binding, setDigest: nat, base: Base)
    | EvidencePreimage(binding: Binding, base: Base, setDigest: nat, executionDigest: Option<nat>)
    | FreezePreimage(binding: Binding, revision: nat, setDigest: nat,
                     publicRecords: seq<PublicRecord>, privateRecords: seq<PrivateRecord>)
    | PostconditionPreimage(binding: Binding, base: Base, executionDigest: Option<nat>, setDigest: nat)

  type Hash = Preimage -> nat

  ghost predicate Injective(hash: Hash)
  {
    forall a, b :: hash(a) == hash(b) ==> a == b
  }

  // ---------------------------------------------------------------- private records

  function RecordKind(record: PrivateRecord): Kind
  {
    match record
    case Absent(kind) => kind
    case Present(resource) => KindOf(resource)
  }

  function RecordIdentity(record: PrivateRecord): string
  {
    match record
    case Absent(_) => ""
    case Present(resource) => IdentityText(resource)
  }

  predicate ByExecution(a: PrivateRecord, b: PrivateRecord)
  {
    || ExecutionOrder(RecordKind(a)) < ExecutionOrder(RecordKind(b))
    || (RecordKind(a) == RecordKind(b) && TextLe(RecordIdentity(a), RecordIdentity(b)))
  }

  lemma {:induction false} ByExecutionIsPreorder()
    ensures IsPreorder(ByExecution)
  {
    forall a, b ensures ByExecution(a, b) || ByExecution(b, a) {
      TextTotal(RecordIdentity(a), RecordIdentity(b));
    }
    forall a, b, c | ByExecution(a, b) && ByExecution(b, c) ensures ByExecution(a, c) {
      if RecordKind(a) == RecordKind(b) == RecordKind(c) {
        TextTransitive(RecordIdentity(a), RecordIdentity(b), RecordIdentity(c));
      }
    }
  }

  function Presented(resources: seq<Resource>): (records: seq<PrivateRecord>)
    ensures |records| == |resources|
    ensures forall i :: 0 <= i < |records| ==> records[i] == Present(resources[i])
  {
    if resources == [] then [] else [Present(resources[0])] + Presented(resources[1..])
  }

  /** The first resource of a list that is of the wrong kind or fails revalidation. */
  function CheckList(host: Host, roots: Roots, kind: Kind, resources: seq<Resource>): Result<()>
  {
    if resources == [] then Ok(())
    else if KindOf(resources[0]) != kind then Err(RegistryMalformed)
    else if Revalidate(host, roots, resources[0]).Err? then Err(Revalidate(host, roots, resources[0]).code)
    else CheckList(host, roots, kind, resources[1..])
  }

  function CollectCategory(host: Host, roots: Roots, kind: Kind, category: Category): Result<seq<PrivateRecord>>
  {
    match category
    case NotApplicable => Ok([Absent(kind)])
    case Enumerated(resources) =>
      if resources == [] then Err(RegistryMalformed)
      else
        match CheckList(host, roots, kind, resources)
        case Err(code) => Err(code)
        case Ok(_) => Ok(Presented(resources))
  }

  function Collect(host: Host, roots: Roots, categories: Categories, kinds: seq<Kind>): Result<seq<PrivateRecord>>
    requires forall i :: 0 <= i < |kinds| ==> kinds[i] in categories
  {
    if kinds == [] then Ok([])
    else
      match CollectCategory(host, roots, kinds[0], categories[kinds[0]])
      case Err(code) => Err(code)
      case Ok(first) =>
        match Collect(host, roots, categories, kinds[1..])
        case Err(code) => Err(code)
        case Ok(rest) => Ok(first + rest)
  }

  /** The complete, revalidated records of one work in execution order. */
  function CompleteRecords(host: Host, roots: Roots, works: Works, work: string): Result<seq<PrivateRecord>>
  {
    if work !in works || works[work].Keys != ALL_KINDS then Err(IncompleteCoverage)
    else
      match Collect(host, roots, works[work], KINDS)
      case Err(code) => Err(code)
      case Ok(records) => Ok(Sort(records, ByExecution))
  }

  method CheckCategory(host: Host, roots: Roots, kind: Kind, category: Category) returns (r: Result<seq<PrivateRecord>>)
    ensures r == CollectCategory(host, roots, kind, category)
  {
    if category.NotApplicable? {
      return Ok([Absent(kind)]);
    }
    var resources := category.resources;
    if resources == [] {
      return Err(RegistryMalformed);
    }
    for i := 0 to |resources|
      invariant CheckList(host, roots, kind, resources) == CheckList(host, roots, kind, resources[i..])
    {
      assert resources[i..][1..] == resources[i + 1..];
      if KindOf(resources[i]) != kind {
        return Err(RegistryMalformed);
      }
      var valid := Revalidate(host, roots, resources[i]);
      if valid.Err? {
        return Err(valid.code);
      }
    }
    return Ok(Presented(resources));
  }

  method CollectKinds(host: Host, roots: Roots, categories: Categories, kinds: seq<Kind>) returns (r: Result<seq<PrivateRecord>>)
    requires forall k :: 0 <= k < |kinds| ==> kinds[k] in categories
    ensures r == Collect(host, roots, categories, kinds)
  {
    var records: seq<PrivateRecord> := [];
    assert kinds[0..] == kinds;
    PrependedNothing(Collect(host, roots, categories, kinds));
    for k := 0 to |kinds|
      invariant Collect(host, roots, categories, kinds) == Prepended(records, Collect(host, roots, categories, kinds[k..]))
    {
      assert kinds[k..][0] == kinds[k] && kinds[k..][1..] == kinds[k + 1..];
      var category := CheckCategory(host, roots, kinds[k], categories[kinds[k]]);
      if category.Err? {
        return category;
      }
      PrependedTwice(records, category.value, Collect(host, roots, categories, kinds[k + 1..]));
      records := records + category.value;
    }
    assert records + [] == records;
    return Ok(records);
  }

  method CollectRecords(host: Host, roots: Roots, works: Works, work: string) returns (r: Result<seq<PrivateRecord>>)
    ensures r == CompleteRecords(host, roots, works, work)
  {
    if work !in works || works[work].Keys != ALL_KINDS {
      return Err(IncompleteCoverage);
    }
    var records := CollectKinds(host, roots, works[work], KINDS);
    if records.Err? {
      return records;
    }
    return Ok(Sort(records.value, ByExecution));
  }

  function Prepended(records: seq<PrivateRecord>, rest: Result<seq<PrivateRecord>>): Result<seq<PrivateRecord>>
  {
    if rest.Err? then rest else Ok(records + rest.value)
  }

  lemma {:induction false} PrependedNothing(rest: Result<seq<PrivateRecord>>)
    ensures Prepended([], rest) == rest
  {
    if rest.Ok? {
      assert [] + rest.value == rest.value;
    }
  }

  lemma {:induction false} PrependedTwice(a: seq<PrivateRecord>, b: seq<PrivateRecord>, rest: Result<seq<PrivateRecord>>)
    ensures Prepended(a, Prepended(b, rest)) == Prepended(a + b, rest)
  {
    if rest.Ok? {
      assert a + (b + rest.value) == (a + b) + rest.value;
    }
  }

  // ---------------------------------------------------------------- physical uniqueness

  predicate Apart(a: PrivateRecord, b: PrivateRecord)
  {
    a.Absent? || b.Absent? || PhysicalIds(a.resource) !! PhysicalIds(b.resource)
  }

  /** The uniqueness check: a loop that stops at the first target already seen. */
  method TargetsAreUnique(records: seq<PrivateRecord>) returns (unique: bool)
    ensures unique == Pairwise(records, Apart)
  {
    var seen: set<PhysicalId> := {};
    for i := 0 to |records|
      invariant Pairwise(records[..i], Apart)
      invariant forall id :: id in seen <==> exists j :: 0 <= j < i && records[j].Present? && id in PhysicalIds(records[j].resource)
    {
      if records[i].Present? {
        var ids := PhysicalIds(records[i].resource);
        if ids * seen != {} {
          ghost var id :| id in ids && id in seen;
          ghost var j :| 0 <= j < i && records[j].Present? && id in PhysicalIds(records[j].resource);
          assert !Apart(records[j], records[i]);
          return false;
        }
        forall j | 0 <= j < i ensures Apart(records[j], records[i]) {
          if records[j].Present? {
            assert forall id :: id in PhysicalIds(records[j].resource) ==> id in seen && id !in ids * seen;
          }
        }
        seen := seen + ids;
      }
    }
    assert records[..|records|] == records;
    return true;
  }

  lemma {:induction false} ApartIsNoOverlap(a: Resource, b: Resource)
    ensures Apart(Present(a), Present(b)) <==> !Overlap(a, b)
  {
  }

  /** Every collected resource has its place in the category of its kind. */
  lemma {:induction false} CollectedHasPlace(host: Host, roots: Roots, works: Works, work: string, kinds: seq<Kind>, i: nat) returns (p: Place)
    requires RegistryInv(works) && work in works && forall k :: 0 <= k < |kinds| ==> kinds[k] in works[work]
    requires Collect(host, roots, works[work], kinds).Ok? && i < |Collect(host, roots, works[work], kinds).value|
    requires Collect(host, roots, works[work], kinds).value[i].Present?
    ensures IsPlace(works, p) && p.work == work && p.kind in kinds
    ensures Present(At(works, p)) == Collect(host, roots, works[work], kinds).value[i]
    ensures Revalidate(host, roots, At(works, p)).Ok?
  {
    var first := CollectCategory(host, roots, kinds[0], works[work][kinds[0]]).value;
    if i < |first| {
      p := Place(work, kinds[0], i);
      CheckListChecks(host, roots, kinds[0], works[work][kinds[0]].resources, i);
    } else {
      p := CollectedHasPlace(host, roots, works, work, kinds[1..], i - |first|);
    }
  }

  lemma {:induction false} CheckListChecks(host: Host, roots: Roots, kind: Kind, resources: seq<Resource>, i: nat)
    requires CheckList(host, roots, kind, resources).Ok? && i < |resources|
    ensures Revalidate(host, roots, resources[i]).Ok? && KindOf(resources[i]) == kind
  {
    if i > 0 {
      CheckListChecks(host, roots, kind, resources[1..], i - 1);
    }
  }

  lemma {:induction false} CollectedIsApart(host: Host, roots: Roots, works: Works, work: string, kinds: seq<Kind>)
    requires RegistryInv(works) && work in works && forall k :: 0 <= k < |kinds| ==> kinds[k] in works[work]
    requires forall i, j :: 0 <= i < j < |kinds| ==> kinds[i] != kinds[j]
    requires Collect(host, roots, works[work], kinds).Ok?
    ensures Pairwise(Collect(host, roots, works[work], kinds).value, Apart)
  {
    if kinds != [] {
      CollectedIsApart(host, roots, works, work, kinds[1..]);
      var first := CollectCategory(host, roots, kinds[0], works[work][kinds[0]]).value;
      var rest := Collect(host, roots, works[work], kinds[1..]).value;
      forall i, j | 0 <= i < j < |first| ensures Apart(first[i], first[j]) {
        var p, q := Place(work, kinds[0], i), Place(work, kinds[0], j);
        assert IsPlace(works, p) && IsPlace(works, q);
        ApartIsNoOverlap(At(works, p), At(works, q));
      }
      forall i, j | 0 <= i < |first| && 0 <= j < |rest| ensures Apart(first[i], rest[j]) {
        if first[i].Present? && rest[j].Present? {
          var p := Place(work, kinds[0], i);
          var q := CollectedHasPlace(host, roots, works, work, kinds[1..], j);
          assert IsPlace(works, p);
          ApartIsNoOverlap(At(works, p), At(works, q));
        }
      }
    }
  }

  /** The uniqueness check inside `prepare` can never fail on a registry that keeps its invariant. */
  lemma {:induction false} CompleteRecordsAreUnique(host: Host, roots: Roots, works: Works, work: string)
    requires RegistryInv(works) && CompleteRecords(host, roots, works, work).Ok?
    ensures Pairwise(CompleteRecords(host, roots, works, work).value, Apart)
  {
    CollectedIsApart(host, roots, works, work, KINDS);
    SortKeepsPairwise(Collect(host, roots, works[work], KINDS).value, ByExecution, Apart);
  }

  function Covered(records: seq<PrivateRecord>): set<Kind>
  {
    set i | 0 <= i < |records| :: RecordKind(records[i])
  }

  lemma {:induction false} CollectCovers(host: Host, roots: Roots, categories: Categories, kinds: seq<Kind>)
    requires forall k :: 0 <= k < |kinds| ==> kinds[k] in categories
    requires Collect(host, roots, categories, kinds).Ok?
    ensures forall k :: k in kinds ==> k in Covered(Collect(host, roots, categories, kinds).value)
  {
    if kinds != [] {
      CollectCovers(host, roots, categories, kinds[1..]);
      var all := Collect(host, roots, categories, kinds).value;
      var first := CollectCategory(host, roots, kinds[0], categories[kinds[0]]).value;
      var rest := Collect(host, roots, categories, kinds[1..]).value;
      assert RecordKind(all[0]) == kinds[0] by {
        if categories[kinds[0]].Enumerated? {
          CheckListChecks(host, roots, kinds[0], categories[kinds[0]].resources, 0);
        }
      }
      forall k | k in kinds ensures k in Covered(all) {
        if k != kinds[0] {
          assert k in kinds[1..];
          var i :| 0 <= i < |rest| && RecordKind(rest[i]) == k;
          assert all[|first| + i] == rest[i];
        }
      }
    }
  }

  lemma {:induction false} CompleteRecordsCover(host: Host, roots: Roots, works: Works, work: string)
    requires CompleteRecords(host, roots, works, work).Ok?
    ensures Covered(CompleteRecords(host, roots, works, work).value) == ALL_KINDS
  {
    var all := Collect(host, roots, works[work], KINDS).value;
    CollectCovers(host, roots, works[work], KINDS);
    SortKeepsMembers(all, ByExecution);
    var sorted := Sort(all, ByExecution);
    forall k | k in ALL_KINDS ensures k in Covered(sorted) {
      assert k == KINDS[0] || k == KINDS[1] || k == KINDS[2] || k == KINDS[3];
      assert k in KINDS && k in Covered(all);
      var i :| 0 <= i < |all| && RecordKind(all[i]) == k;
      assert all[i] in sorted;
    }
    forall k | k in Covered(sorted) ensures k in ALL_KINDS {
      assert k.Workspace? || k.Temporary? || k.Log? || k.Branch?;
    }
  }

  /** Every frozen resource is registered for the work and was valid when it was frozen. */
  lemma {:induction false} CompleteRecordsAreRegistered(host: Host, roots: Roots, works: Works, work: string, record: PrivateRecord)
    requires RegistryInv(works) && CompleteRecords(host, roots, works, work).Ok?
    requires record in CompleteRecords(host, roots, works, work).value && record.Present?
    ensures Registered(works, work, record.resource) && Revalidate(host, roots, record.resource).Ok?
  {
    var all := Collect(host, roots, works[work], KINDS).value;
    SortKeepsMembers(all, ByExecution);
    var i :| 0 <= i < |all| && all[i] == record;
    var p := CollectedHasPlace(host, roots, works, work, KINDS, i);
  }

  // ---------------------------------------------------------------- nothing is left out

  /** What a category owes a freeze: one record for each of its resources, or the one that says it has none. */
  ghost function RecordsOf(works: Works, work: string, kind: Kind): seq<PrivateRecord>
    requires Declared(works, work, kind) || HasList(works, work, kind)
  {
    match works[work][kind]
    case NotApplicable => [Absent(kind)]
    case Enumerated(resources) => seq(|resources|, i requires 0 <= i < |resources| => Present(resources[i]))
  }

  ghost predicate AllThere(works: Works, work: string)
  {
    forall kind :: Declared(works, work, kind) || HasList(works, work, kind)
  }

  ghost predicate AllUnchanged(host: Host, roots: Roots, works: Works, work: string)
  {
    forall resource :: Registered(works, work, resource) ==> Unchanged(host, roots, resource)
  }

  ghost predicate ListUnchanged(host: Host, roots: Roots, resources: seq<Resource>)
  {
    forall i :: 0 <= i < |resources| ==> Unchanged(host, roots, resources[i])
  }

  lemma {:induction false} CheckedExactlyWhenUnchanged(host: Host, roots: Roots, kind: Kind, resources: seq<Resource>)
    requires forall i :: 0 <= i < |resources| ==> KindOf(resources[i]) == kind && WellKinded(resources[i])
    ensures CheckList(host, roots, kind, resources).Ok? <==> ListUnchanged(host, roots, resources)
  {
    if resources != [] {
      CheckedExactlyWhenUnchanged(host, roots, kind, resources[1..]);
      RevalidatesExactlyWhenUnchanged(host, roots, resources[0]);
      assert forall i :: 0 <= i < |resources| - 1 ==> resources[1..][i] == resources[i + 1];
      assert ListUnchanged(host, roots, resources) <==> Unchanged(host, roots, resources[0]) && ListUnchanged(host, roots, resources[1..]) by {
        forall i | 1 <= i < |resources| ensures resources[i] == resources[1..][i - 1] {
        }
      }
    }
  }

  ghost predicate CategoryUnchanged(host: Host, roots: Roots, works: Works, work: string, kind: Kind)
  {
    HasList(works, work, kind) ==> ListUnchanged(host, roots, works[work][kind].resources)
  }

  lemma {:induction false} CategoryIsCollected(host: Host, roots: Roots, works: Works, work: string, kind: Kind)
    requires RegistryInv(works) && (Declared(works, work, kind) || HasList(works, work, kind))
    ensures var collected := CollectCategory(host, roots, kind, works[work][kind]);
      && (collected.Ok? <==> CategoryUnchanged(host, roots, works, work, kind))
      && (collected.Ok? ==> collected.value == RecordsOf(works, work, kind))
  {
    assert WellFormedCategory(works[work][kind], kind);
    if HasList(works, work, kind) {
      CheckedExactlyWhenUnchanged(host, roots, kind, works[work][kind].resources);
    }
  }

  ghost function RecordsOfAll(works: Works, work: string, kinds: seq<Kind>): seq<PrivateRecord>
    requires AllThere(works, work)
  {
    if kinds == [] then [] else RecordsOf(works, work, kinds[0]) + RecordsOfAll(works, work, kinds[1..])
  }

  lemma {:induction false} AllAreCollected(host: Host, roots: Roots, works: Works, work: string, kinds: seq<Kind>)
    requires RegistryInv(works) && AllThere(works, work) && work in works && forall k :: 0 <= k < |kinds| ==> kinds[k] in works[work]
    ensures var collected := Collect(host, roots, works[work], kinds);
      && (collected.Ok? <==> forall kind :: kind in kinds ==> CategoryUnchanged(host, roots, works, work, kind))
      && (collected.Ok? ==> collected.value == RecordsOfAll(works, work, kinds))
  {
    if kinds != [] {
      CategoryIsCollected(host, roots, works, work, kinds[0]);
      AllAreCollected(host, roots, works, work, kinds[1..]);
      assert kinds == [kinds[0]] + kinds[1..];
    }
  }

  lemma {:induction false} EveryKind(kind: Kind)
    ensures kind in KINDS && kind in ALL_KINDS
  {
    assert kind.Workspace? || kind.Temporary? || kind.Log? || kind.Branch?;
  }

  lemma {:induction false} AllThereIsCoverage(works: Works, work: string)
    ensures AllThere(works, work) <==> work in works && works[work].Keys == ALL_KINDS
  {
    forall kind: Kind ensures kind in ALL_KINDS {
      EveryKind(kind);
    }
    if AllThere(works, work) {
      assert Declared(works, work, Log) || HasList(works, work, Log);
      forall kind: Kind ensures kind in works[work] {
        assert Declared(works, work, kind) || HasList(works, work, kind);
      }
      assert works[work].Keys == ALL_KINDS;
    }
  }

  lemma {:induction false} UnchangedByCategory(host: Host, roots: Roots, works: Works, work: string)
    requires RegistryInv(works)
    ensures AllUnchanged(host, roots, works, work) <==> forall kind :: CategoryUnchanged(host, roots, works, work, kind)
  {
    if AllUnchanged(host, roots, works, work) {
      forall kind, i | HasList(works, work, kind) && 0 <= i < |works[work][kind].resources|
        ensures Unchanged(host, roots, works[work][kind].resources[i])
      {
        var p := Place(work, kind, i);
        assert IsPlace(works, p) && Registered(works, work, At(works, p));
      }
    }
    if forall kind :: CategoryUnchanged(host, roots, works, work, kind) {
      forall resource | Registered(works, work, resource) ensures Unchanged(host, roots, resource) {
        var p :| IsPlace(works, p) && p.work == work && At(works, p) == resource;
        assert CategoryUnchanged(host, roots, works, work, p.kind);
      }
    }
  }

  /**
   * A snapshot is there exactly when every category is and every registered resource of the work is unchanged.
   * It holds one record for each registered resource and one for each category without any, and nothing more.
   */
  lemma {:induction false} CompleteRecordsAreAll(host: Host, roots: Roots, works: Works, work: string)
    requires RegistryInv(works)
    ensures CompleteRecords(host, roots, works, work).Ok? <==> AllThere(works, work) && AllUnchanged(host, roots, works, work)
    ensures CompleteRecords(host, roots, works, work).Ok? ==>
      multiset(CompleteRecords(host, roots, works, work).value) ==
        multiset(RecordsOf(works, work, Workspace)) + multiset(RecordsOf(works, work, Temporary))
        + multiset(RecordsOf(works, work, Log)) + multiset(RecordsOf(works, work, Branch))
  {
    AllThereIsCoverage(works, work);
    UnchangedByCategory(host, roots, works, work);
    if AllThere(works, work) {
      forall kind: Kind ensures kind in KINDS {
        EveryKind(kind);
      }
      AllAreCollected(host, roots, works, work, KINDS);
      if CompleteRecords(host, roots, works, work).Ok? {
        SortPermutes(RecordsOfAll(works, work, KINDS), ByExecution);
        FourCategories(works, work);
      }
    }
  }

  lemma {:induction false} FourCategories(works: Works, work: string)
    requires AllThere(works, work)
    ensures multiset(RecordsOfAll(works, work, KINDS)) ==
      multiset(RecordsOf(works, work, Workspace)) + multiset(RecordsOf(works, work, Temporary))
      + multiset(RecordsOf(works, work, Log)) + multiset(RecordsOf(works, work, Branch))
  {
    var a, b, c := KINDS[1..], KINDS[1..][1..], KINDS[1..][1..][1..];
    assert a == [Temporary, Log, Branch] && b == [Log, Branch] && c == [Branch] && c[1..] == [];
    assert RecordsOfAll(works, work, KINDS) == RecordsOf(works, work, Workspace) + RecordsOfAll(works, work, a);
    assert RecordsOfAll(works, work, a) == RecordsOf(works, work, Temporary) + RecordsOfAll(works, work, b);
    assert RecordsOfAll(works, work, b) == RecordsOf(works, work, Log) + RecordsOfAll(works, work, c);
    assert RecordsOfAll(works, work, c) == RecordsOf(works, work, Branch) + RecordsOfAll(works, work, c[1..]);
  }

  /** A record is in a snapshot exactly when its resource is registered, or its category declared. */
  lemma {:induction false} FrozenExactlyWhenRegistered(host: Host, roots: Roots, works: Works, work: string)
    requires RegistryInv(works) && CompleteRecords(host, roots, works, work).Ok?
    ensures forall resource :: Present(resource) in CompleteRecords(host, roots, works, work).value <==> Registered(works, work, resource)
    ensures forall kind :: Absent(kind) in CompleteRecords(host, roots, works, work).value <==> Declared(works, work, kind)
  {
    var records := CompleteRecords(host, roots, works, work).value;
    CompleteRecordsAreAll(host, roots, works, work);
    forall resource ensures Present(resource) in records <==> Registered(works, work, resource) {
      if Registered(works, work, resource) {
        RegisteredIsGathered(records, works, work, resource);
      } else if Present(resource) in records {
        CompleteRecordsAreRegistered(host, roots, works, work, Present(resource));
      }
    }
    forall kind ensures Absent(kind) in records <==> Declared(works, work, kind) {
      DeclaredIsGathered(records, works, work, kind);
    }
  }

  lemma {:induction false} RegisteredIsGathered(records: seq<PrivateRecord>, works: Works, work: string, resource: Resource)
    requires AllThere(works, work) && Gathers(records, works, work) && Registered(works, work, resource)
    ensures Present(resource) in records
  {
    var p :| IsPlace(works, p) && p.work == work && At(works, p) == resource;
    assert RecordsOf(works, work, p.kind)[p.index] == Present(resource);
    InSomeCategory(records, works, work, p.kind, Present(resource));
  }

  lemma {:induction false} DeclaredIsGathered(records: seq<PrivateRecord>, works: Works, work: string, kind: Kind)
    requires AllThere(works, work) && Gathers(records, works, work)
    ensures Absent(kind) in records <==> Declared(works, work, kind)
  {
    InSomeCategory(records, works, work, kind, Absent(kind));
    if Absent(kind) in records {
      var from := CategoryOfRecord(records, works, work, Absent(kind));
    }
  }

  ghost predicate Gathers(records: seq<PrivateRecord>, works: Works, work: string)
    requires AllThere(works, work)
  {
    multiset(records) == multiset(RecordsOf(works, work, Workspace)) + multiset(RecordsOf(works, work, Temporary))
      + multiset(RecordsOf(works, work, Log)) + multiset(RecordsOf(works, work, Branch))
  }

  lemma {:induction false} InSomeCategory(records: seq<PrivateRecord>, works: Works, work: string, kind: Kind, record: PrivateRecord)
    requires AllThere(works, work) && Gathers(records, works, work)
    ensures record in RecordsOf(works, work, kind) ==> record in records
  {
    assert kind.Workspace? || kind.Temporary? || kind.Log? || kind.Branch?;
    assert record in RecordsOf(works, work, kind) ==> record in multiset(RecordsOf(works, work, kind));
    assert record in multiset(records) ==> record in records;
  }

  lemma {:induction false} CategoryOfRecord(records: seq<PrivateRecord>, works: Works, work: string, record: PrivateRecord) returns (kind: Kind)
    requires AllThere(works, work) && Gathers(records, works, work) && record in records
    ensures record in RecordsOf(works, work, kind)
  {
    assert record in multiset(records);
    kind :| record in multiset(RecordsOf(works, work, kind));
  }

  // ---------------------------------------------------------------- public records

  function Fingerprint(mac: Hash, binding: Binding, resource: Resource): nat
  {
    mac(ResourcePreimage(binding, resource))
  }

  function BaseOf(mac: Hash, binding: Binding, record: PrivateRecord): Base
  {
    match record
    case Absent(kind) => BaseAbsent(kind)
    case Present(resource) => BaseTarget(KindOf(resource), Fingerprint(mac, binding, resource))
  }

  function Bases(mac: Hash, binding: Binding, records: seq<PrivateRecord>): (bases: seq<Base>)
    ensures |bases| == |records|
    ensures forall i :: 0 <= i < |records| ==> bases[i] == BaseOf(mac, binding, records[i])
  {
    if records == [] then []
    else Bases(mac, binding, records[..|records| - 1]) + [BaseOf(mac, binding, records[|records| - 1])]
  }

  /** The text sort key: an absent fingerprint is the empty text, before all others. */
  function FingerprintRank(base: Base): int
  {
    if base.BaseAbsent? then -1 else base.fingerprint
  }

  predicate ByFingerprint(a: Base, b: Base)
  {
    || ExecutionOrder(a.kind) < ExecutionOrder(b.kind)
    || (a.kind == b.kind && FingerprintRank(a) <= FingerprintRank(b))
  }

  lemma {:induction false} ByFingerprintIsPreorder()
    ensures IsPreorder(ByFingerprint)
  {
  }

  function PublicOf(mac: Hash, sha: Hash, binding: Binding, setDigest: nat, base: Base): PublicRecord
  {
    var execution := if base.BaseTarget? then Some(sha(ExecutionPreimage(binding, setDigest, base))) else None;
    PublicRecord(base, setDigest, execution, mac(EvidencePreimage(binding, base, setDigest, execution)))
  }

  function Publics(mac: Hash, sha: Hash, binding: Binding, setDigest: nat, bases: seq<Base>): (records: seq<PublicRecord>)
    ensures |records| == |bases|
    ensures forall i :: 0 <= i < |bases| ==> records[i] == PublicOf(mac, sha, binding, setDigest, bases[i])
  {
    if bases == [] then []
    else Publics(mac, sha, binding, setDigest, bases[..|bases| - 1]) + [PublicOf(mac, sha, binding, setDigest, bases[|bases| - 1])]
  }

  datatype PublicSet = PublicSet(records: seq<PublicRecord>, digest: nat)

  function PublicSetOf(mac: Hash, sha: Hash, binding: Binding, records: seq<PrivateRecord>): PublicSet
  {
    var bases := Sort(Bases(mac, binding, records), ByFingerprint);
    var digest := mac(SetPreimage(binding, bases));
    PublicSet(Publics(mac, sha, binding, digest, bases), digest)
  }

  /** The public records are sorted by kind and fingerprint, and so reveal nothing of the private order. */
  lemma {:induction false} PublicRecordsAreSorted(mac: Hash, sha: Hash, binding: Binding, records: seq<PrivateRecord>)
    ensures SortedBy(PublicBases(PublicSetOf(mac, sha, binding, records).records), ByFingerprint)
  {
    var bases := Bases(mac, binding, records);
    ByFingerprintIsPreorder();
    SortSorts(bases, ByFingerprint);
    assert PublicBases(PublicSetOf(mac, sha, binding, records).records) == Sort(bases, ByFingerprint);
  }

  method BuildPublicRecords(mac: Hash, sha: Hash, binding: Binding, records: seq<PrivateRecord>) returns (public: PublicSet)
    ensures public == PublicSetOf(mac, sha, binding, records)
  {
    var bases := [];
    for i := 0 to |records|
      invariant bases == Bases(mac, binding, records[..i])
    {
      assert records[..i + 1][..i] == records[..i];
      bases := bases + [BaseOf(mac, binding, records[i])];
    }
    assert records[..|records|] == records;
    bases := Sort(bases, ByFingerprint);
    var digest := mac(SetPreimage(binding, bases));
    var publics := [];
    for i := 0 to |bases|
      invariant publics == Publics(mac, sha, binding, digest, bases[..i])
    {
      assert bases[..i + 1][..i] == bases[..i];
      publics := publics + [PublicOf(mac, sha, binding, digest, bases[i])];
    }
    assert bases[..|bases|] == bases;
    return PublicSet(publics, digest);
  }

  // ---------------------------------------------------------------- freezing and validation

  datatype Frozen = Frozen(
    binding: Binding,
    revision: nat,
    setDigest: nat,
    publicRecords: seq<PublicRecord>,
    privateRecords: seq<PrivateRecord>,
    seal: nat)

  function SealOf(mac: Hash, f: Frozen): nat
  {
    mac(FreezePreimage(f.binding, f.revision, f.setDigest, f.publicRecords, f.privateRecords))
  }

  function Freeze(mac: Hash, sha: Hash, binding: Binding, revision: nat, records: seq<PrivateRecord>): Frozen
  {
    var public := PublicSetOf(mac, sha, binding, records);
    var unsigned := Frozen(binding, revision, public.digest, public.records, records, 0);
    unsigned.(seal := SealOf(mac, unsigned))
  }

  function ValidateFrozen(mac: Hash, sha: Hash, f: Frozen, binding: Binding): Result<()>
  {
    if f.binding != binding then Err(FreezeBindingMismatch)
    else if f.seal != SealOf(mac, f) then Err(FreezeSealInvalid)
    else if Covered(f.privateRecords) != ALL_KINDS then Err(IncompleteCoverage)
    else
      var rebuilt := PublicSetOf(mac, sha, binding, f.privateRecords);
      if f.setDigest != rebuilt.digest || f.publicRecords != rebuilt.records then Err(FreezeSetInvalid)
      else Ok(())
  }

  /** A freeze of complete records is accepted under its own binding and under no other. */
  lemma {:induction false} FreezeValidates(mac: Hash, sha: Hash, binding: Binding, revision: nat, records: seq<PrivateRecord>, asked: Binding)
    requires Covered(records) == ALL_KINDS
    ensures ValidateFrozen(mac, sha, Freeze(mac, sha, binding, revision, records), asked)
      == if asked == binding then Ok(()) else Err(FreezeBindingMismatch)
  {
  }

  /** No part of a sealed entry can be exchanged while its seal is kept. */
  lemma {:induction false} SealBindsEverything(mac: Hash, sha: Hash, f: Frozen, g: Frozen)
    requires Injective(mac) && f.seal == SealOf(mac, f) && g.seal == f.seal
    requires ValidateFrozen(mac, sha, g, g.binding).Ok?
    ensures g == f
  {
  }

  /** Equal public records, which every freeze has, come from one binding and the same private records. */
  lemma {:induction false} PublicRecordsBindTheFreeze(mac: Hash, sha: Hash, b: Binding, c: Binding, r: seq<PrivateRecord>, s: seq<PrivateRecord>)
    requires Injective(mac) && r != [] && PublicSetOf(mac, sha, b, r).records == PublicSetOf(mac, sha, c, s).records
    ensures b == c && forall record :: record in r <==> record in s
  {
    var x, y := Sort(Bases(mac, b, r), ByFingerprint), Sort(Bases(mac, c, s), ByFingerprint);
    SortPermutes(Bases(mac, b, r), ByFingerprint);
    SortPermutes(Bases(mac, c, s), ByFingerprint);
    assert |multiset(x)| == |x| && |multiset(Bases(mac, b, r))| == |r|;
    assert PublicSetOf(mac, sha, b, r).records[0] == PublicSetOf(mac, sha, c, s).records[0];
    SameBases(mac, sha, b, PublicSetOf(mac, sha, b, r).digest, PublicSetOf(mac, sha, c, s).digest, x, y);
    forall record ensures record in r <==> record in s {
      RecordOfBase(mac, b, r, record);
      RecordOfBase(mac, b, s, record);
      assert BaseOf(mac, b, record) in multiset(x) <==> BaseOf(mac, b, record) in multiset(y);
    }
  }

  /** Exactly the records with a target carry an execution digest, and one digest names one binding, one set and one target. */
  lemma {:induction false} ExecutionDigestsIdentify(mac: Hash, sha: Hash, b: Binding, c: Binding, r: seq<PrivateRecord>, s: seq<PrivateRecord>,
                                                    i: nat, j: nat)
    requires Injective(sha) && i < |PublicSetOf(mac, sha, b, r).records| && j < |PublicSetOf(mac, sha, c, s).records|
    ensures var p := PublicSetOf(mac, sha, b, r).records[i]; p.executionDigest.Some? <==> p.base.BaseTarget?
    ensures var p, q := PublicSetOf(mac, sha, b, r).records[i], PublicSetOf(mac, sha, c, s).records[j];
      p.executionDigest.Some? && p.executionDigest == q.executionDigest ==> b == c && p.setDigest == q.setDigest && p.base == q.base
  {
    var x, y := Sort(Bases(mac, b, r), ByFingerprint), Sort(Bases(mac, c, s), ByFingerprint);
    var d, e := PublicSetOf(mac, sha, b, r).digest, PublicSetOf(mac, sha, c, s).digest;
    assert PublicSetOf(mac, sha, b, r).records[i] == PublicOf(mac, sha, b, d, x[i]);
    assert PublicSetOf(mac, sha, c, s).records[j] == PublicOf(mac, sha, c, e, y[j]);
    assert sha(ExecutionPreimage(b, d, x[i])) == sha(ExecutionPreimage(c, e, y[j])) ==>
        ExecutionPreimage(b, d, x[i]) == ExecutionPreimage(c, e, y[j]);
  }

  lemma {:induction false} SameBases(mac: Hash, sha: Hash, b: Binding, d: nat, e: nat, x: seq<Base>, y: seq<Base>)
    requires Publics(mac, sha, b, d, x) == Publics(mac, sha, b, e, y)
    ensures x == y
  {
    forall i | 0 <= i < |x| ensures x[i] == y[i] {
      assert Publics(mac, sha, b, d, x)[i].base == x[i] && Publics(mac, sha, b, e, y)[i].base == y[i];
    }
  }

  lemma {:induction false} RecordOfBase(mac: Hash, b: Binding, records: seq<PrivateRecord>, record: PrivateRecord)
    requires Injective(mac)
    ensures record in records <==> BaseOf(mac, b, record) in multiset(Bases(mac, b, records))
  {
    var bases := Bases(mac, b, records);
    if record in records {
      var i :| 0 <= i < |records| && records[i] == record;
      assert bases[i] in bases;
    }
    if BaseOf(mac, b, record) in bases {
      var i :| 0 <= i < |bases| && bases[i] == BaseOf(mac, b, record);
      assert records[i] == record;
    }
  }

  // ---------------------------------------------------------------- receipts

  function Targets(records: seq<PrivateRecord>): (resources: seq<Resource>)
  {
    if records == [] then []
    else if records[0].Present? then [records[0].resource] + Targets(records[1..])
    else Targets(records[1..])
  }

  function FirstMatch(records: seq<PublicRecord>, base: Base): Option<PublicRecord>
  {
    if records == [] then None
    else if records[0].base == base then Some(records[0])
    else FirstMatch(records[1..], base)
  }

  function ReceiptFor(mac: Hash, binding: Binding, public: PublicRecord): Receipt
  {
    Receipt(public.base, public.executionDigest, public.setDigest,
            mac(PostconditionPreimage(binding, public.base, public.executionDigest, public.setDigest)))
  }

  /** The receipt of one executed record, made from the public record with its fingerprint. */
  function ReceiptOf(mac: Hash, f: Frozen, resource: Resource): Option<Receipt>
  {
    var public := FirstMatch(f.publicRecords, BaseTarget(KindOf(resource), Fingerprint(mac, f.binding, resource)));
    if public.None? then None else Some(ReceiptFor(mac, f.binding, public.value))
  }

  function TargetBases(bases: seq<Base>): seq<Base>
  {
    if bases == [] then []
    else if bases[0].BaseTarget? then [bases[0]] + TargetBases(bases[1..])
    else TargetBases(bases[1..])
  }

  lemma {:induction false} TargetBasesCount(bases: seq<Base>, b: Base)
    ensures multiset(TargetBases(bases))[b] == if b.BaseTarget? then multiset(bases)[b] else 0
  {
    if bases != [] {
      TargetBasesCount(bases[1..], b);
      assert bases == [bases[0]] + bases[1..];
    }
  }

  /** The base of each executed resource, in execution order. */
  function ResourceBases(mac: Hash, binding: Binding, resources: seq<Resource>): (bases: seq<Base>)
    ensures |bases| == |resources|
    ensures forall i :: 0 <= i < |resources| ==>
      bases[i] == BaseTarget(KindOf(resources[i]), Fingerprint(mac, binding, resources[i]))
  {
    if resources == [] then []
    else [BaseTarget(KindOf(resources[0]), Fingerprint(mac, binding, resources[0]))] + ResourceBases(mac, binding, resources[1..])
  }

  lemma {:induction false} BasesStep(mac: Hash, binding: Binding, records: seq<PrivateRecord>)
    requires records != []
    ensures Bases(mac, binding, records) == [BaseOf(mac, binding, records[0])] + Bases(mac, binding, records[1..])
  {
  }

  lemma {:induction false} TargetBasesOfRecords(mac: Hash, binding: Binding, records: seq<PrivateRecord>)
    ensures TargetBases(Bases(mac, binding, records)) == ResourceBases(mac, binding, Targets(records))
  {
    if records != [] {
      BasesStep(mac, binding, records);
      assert Bases(mac, binding, records)[1..] == Bases(mac, binding, records[1..]);
      TargetBasesOfRecords(mac, binding, records[1..]);
      if records[0].Present? {
        assert Targets(records)[1..] == Targets(records[1..]);
      }
    }
  }

  function PublicBases(records: seq<PublicRecord>): (bases: seq<Base>)
    ensures |bases| == |records|
    ensures forall i :: 0 <= i < |records| ==> bases[i] == records[i].base
  {
    if records == [] then [] else [records[0].base] + PublicBases(records[1..])
  }

  /** As multisets, the executed records and the enumerated public records have the same fingerprints. */
  lemma {:induction false} SameFingerprints(mac: Hash, sha: Hash, binding: Binding, records: seq<PrivateRecord>)
    ensures multiset(ResourceBases(mac, binding, Targets(records)))
      == multiset(TargetBases(PublicBases(PublicSetOf(mac, sha, binding, records).records)))
  {
    var bases := Bases(mac, binding, records);
    var sorted := Sort(bases, ByFingerprint);
    SortPermutes(bases, ByFingerprint);
    TargetBasesOfRecords(mac, binding, records);
    assert PublicBases(PublicSetOf(mac, sha, binding, records).records) == sorted;
    TargetBasesPermute(bases, sorted);
  }

  lemma {:induction false} TargetBasesPermute(a: seq<Base>, b: seq<Base>)
    requires multiset(a) == multiset(b)
    ensures multiset(TargetBases(a)) == multiset(TargetBases(b))
  {
    forall x ensures multiset(TargetBases(a))[x] == multiset(TargetBases(b))[x] {
      TargetBasesCount(a, x);
      TargetBasesCount(b, x);
    }
  }

  lemma {:induction false} FirstMatchFinds(records: seq<PublicRecord>, base: Base)
    requires base in PublicBases(records)
    ensures FirstMatch(records, base).Some? && FirstMatch(records, base).value in records
    ensures FirstMatch(records, base).value.base == base
  {
    if records[0].base != base {
      FirstMatchFinds(records[1..], base);
    }
  }

  lemma {:induction false} TargetsAreRecords(records: seq<PrivateRecord>, i: nat)
    requires i < |Targets(records)|
    ensures Present(Targets(records)[i]) in records
  {
    if records[0].Present? {
      if i > 0 {
        TargetsAreRecords(records[1..], i - 1);
      }
    } else {
      TargetsAreRecords(records[1..], i);
    }
  }

  lemma {:induction false} TargetsApart(records: seq<PrivateRecord>)
    requires Pairwise(records, Apart)
    ensures forall i, j :: 0 <= i < j < |Targets(records)| ==> PhysicalIds(Targets(records)[i]) !! PhysicalIds(Targets(records)[j])
  {
    if records != [] {
      TargetsApart(records[1..]);
      if records[0].Present? {
        forall j | 0 <= j < |Targets(records[1..])| ensures PhysicalIds(records[0].resource) !! PhysicalIds(Targets(records[1..])[j]) {
          TargetsAreRecords(records[1..], j);
          var k :| 0 <= k < |records[1..]| && records[1..][k] == Present(Targets(records[1..])[j]);
          assert Apart(records[0], records[k + 1]);
        }
      }
    }
  }

  /** Different executed records have different fingerprints, so the correspondence is one to one. */
  lemma {:induction false} FingerprintsDistinct(mac: Hash, binding: Binding, records: seq<PrivateRecord>, i: nat, j: nat)
    requires Injective(mac) && Pairwise(records, Apart) && i < j < |Targets(records)|
    ensures Fingerprint(mac, binding, Targets(records)[i]) != Fingerprint(mac, binding, Targets(records)[j])
  {
    TargetsApart(records);
    SelfOverlap(Targets(records)[i]);
  }

  /** Every executed record has a receipt, and it repeats the public record with its fingerprint. */
  lemma {:induction false} ReceiptExists(mac: Hash, sha: Hash, f: Frozen, i: nat)
    requires ValidateFrozen(mac, sha, f, f.binding).Ok? && i < |Targets(f.privateRecords)|
    ensures var r := Targets(f.privateRecords)[i];
      && ReceiptOf(mac, f, r).Some?
      && ReceiptOf(mac, f, r).value
          == ReceiptFor(mac, f.binding, PublicOf(mac, sha, f.binding, f.setDigest, BaseTarget(KindOf(r), Fingerprint(mac, f.binding, r))))
  {
    var r := Targets(f.privateRecords)[i];
    var base := BaseTarget(KindOf(r), Fingerprint(mac, f.binding, r));
    var bases := Bases(mac, f.binding, f.privateRecords);
    TargetsAreRecords(f.privateRecords, i);
    var k :| 0 <= k < |f.privateRecords| && f.privateRecords[k] == Present(r);
    assert bases[k] == base;
    SortKeepsMembers(bases, ByFingerprint);
    var sorted := Sort(bases, ByFingerprint);
    assert PublicBases(f.publicRecords) == sorted;
    FirstMatchFinds(f.publicRecords, base);
  }
}
