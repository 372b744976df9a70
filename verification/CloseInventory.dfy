// close_inventory_edge.py: the owner-private cleanup edge as a whole, its reachable states, and what
// executing a frozen preparation does.
module CloseInventory {
  import opened Ordering
  import opened CloseHost
  import opened CloseRegistry
  import opened CloseFreeze
  import opened CloseExecution
  import opened Wrappers

  /** The registry file and the freeze ledger. */
  datatype Store = Store(works: Works, revision: nat, frozen: map<string, Frozen>)

  const EMPTY := Store(map[], 0, map[])

  datatype Registration = Registration(
    work: string, kind: Kind, action: string, locator: Option<Path>, repository: Option<Path>, branch: string)

  // ---------------------------------------------------------------- what each call does

  function Commit(store: Store, update: Result<Update>): Store
  {
    if update.Ok? && update.value.changed then store.(works := update.value.works, revision := store.revision + 1) else store
  }

  function DeclareOn(store: Store, work: string, kind: Kind): Result<Update>
  {
    if !IsIdentifier(work) then Err(InvalidWork) else DeclareIn(store.works, work, kind)
  }

  function Inspect(host: Host, roots: Roots, q: Registration): Result<Resource>
  {
    if !IsIdentifier(q.work) then Err(InvalidWork)
    else if q.action != "delete" then Err(ActionUnsupported)
    else if q.kind == Workspace then Err(WorkspaceRequiresAdoption)
    else if q.kind == Branch then
      if q.repository.None? || q.locator.Some? || q.branch == "" then Err(InvalidResource)
      else InspectBranch(host, q.repository.value, q.branch)
    else if q.locator.None? || q.repository.Some? || q.branch != "" then Err(InvalidResource)
    else InspectLocal(host, roots, q.kind, q.locator.value)
  }

  ghost function RegisterOn(store: Store, host: Host, roots: Roots, q: Registration): Result<Update>
  {
    match Inspect(host, roots, q)
    case Err(code) => Err(code)
    case Ok(resource) => EnrollIn(store.works, q.work, resource, false)
  }

  ghost function AdoptWorktreeOn(store: Store, host: Host, work: string, workspace: Path): Result<Update>
  {
    if !IsIdentifier(work) then Err(InvalidWork)
    else
      match InspectWorktree(host, workspace)
      case Err(code) => Err(code)
      case Ok(resource) => AdoptIn(store.works, work, resource)
  }

  ghost function AdoptManagedOn(store: Store, host: Host, work: string, workspace: Path): Result<Update>
  {
    if IsIdentifier(work) && InspectWorktree(host, workspace) == Err(WorkspaceIsMainWorktree)
    then AdoptMainIn(store.works, work)
    else AdoptWorktreeOn(store, host, work, workspace)
  }

  /** The records `prepare` returns, and the entry it adds when the preparation is new. */
  datatype Prepared = Prepared(records: seq<PublicRecord>, added: Option<Frozen>)

  function PrepareOn(store: Store, mac: Hash, sha: Hash, host: Host, roots: Roots, request: Result<Binding>): Result<Prepared>
  {
    match request
    case Err(code) => Err(code)
    case Ok(binding) =>
      if binding.preparation in store.frozen then
        var f := store.frozen[binding.preparation];
        match ValidateFrozen(mac, sha, f, binding)
        case Err(code) => Err(code)
        case Ok(_) => Ok(Prepared(f.publicRecords, None))
      else
        match CompleteRecords(host, roots, store.works, binding.work)
        case Err(code) => Err(code)
        case Ok(records) =>
          var f := Freeze(mac, sha, binding, store.revision, records);
          Ok(Prepared(f.publicRecords, Some(f)))
  }

  function Record(store: Store, prepared: Result<Prepared>): Store
  {
    if prepared.Ok? && prepared.value.added.Some? then
      var f := prepared.value.added.value;
      store.(frozen := store.frozen[f.binding.preparation := f])
    else store
  }

  /** A frozen entry under its own binding, or why there is none. */
  function Lookup(store: Store, mac: Hash, sha: Hash, binding: Binding): Result<Frozen>
  {
    if binding.preparation !in store.frozen then Err(FreezeMissing)
    else
      var f := store.frozen[binding.preparation];
      match ValidateFrozen(mac, sha, f, binding)
      case Err(code) => Err(code)
      case Ok(_) => Ok(f)
  }

  /** Verification; a malformed binding is an error of its own. */
  function VerifyOn(store: Store, mac: Hash, sha: Hash, request: Result<Binding>, public: seq<PublicRecord>): Result<bool>
  {
    match request
    case Err(code) => Err(code)
    case Ok(binding) =>
      var f := Lookup(store, mac, sha, binding);
      Ok(f.Ok? && f.value.publicRecords == public)
  }

  // ---------------------------------------------------------------- executing a preparation

  predicate InExecutionOrder(a: Resource, b: Resource)
  {
    ByExecution(Present(a), Present(b))
  }

  function FirstInvalid(host: Host, roots: Roots, rs: seq<Resource>): Result<()>
  {
    if rs == [] then Ok(())
    else if Revalidate(host, roots, rs[0]).Err? then Revalidate(host, roots, rs[0])
    else FirstInvalid(host, roots, rs[1..])
  }

  function Receipts(mac: Hash, f: Frozen, rs: seq<Resource>): (receipts: seq<Receipt>)
    requires forall i :: 0 <= i < |rs| ==> ReceiptOf(mac, f, rs[i]).Some?
    ensures |receipts| == |rs|
    ensures forall i :: 0 <= i < |rs| ==> receipts[i] == ReceiptOf(mac, f, rs[i]).value
  {
    if rs == [] then [] else Receipts(mac, f, rs[..|rs| - 1]) + [ReceiptOf(mac, f, rs[|rs| - 1]).value]
  }

  /** The answer and the host that an execution leaves behind. */
  datatype Executed = Executed(answer: Result<seq<Receipt>>, host: Host)

  /** What is checked before the first effect: the records to run, in execution order. */
  function Cleared(store: Store, mac: Hash, sha: Hash, host: Host, roots: Roots, request: Result<Binding>, public: seq<PublicRecord>): Result<Frozen>
  {
    match request
    case Err(code) => Err(code)
    case Ok(binding) =>
      match Lookup(store, mac, sha, binding)
      case Err(code) => Err(code)
      case Ok(f) =>
        if public != f.publicRecords then Err(PublicSetMismatch)
        else
          match FirstInvalid(host, roots, Targets(f.privateRecords))
          case Err(code) => Err(code)
          case Ok(_) => Ok(f)
  }

  ghost predicate EntryInv(mac: Hash, sha: Hash, preparation: string, f: Frozen)
  {
    && f.binding.preparation == preparation && ValidateFrozen(mac, sha, f, f.binding).Ok?
    && Pairwise(f.privateRecords, Apart) && SortedBy(f.privateRecords, ByExecution)
    && forall resource :: Present(resource) in f.privateRecords ==> WellKinded(resource)
  }

  /** Every frozen target is as it was when it was registered. */
  ghost predicate AllStand(host: Host, roots: Roots, records: seq<PrivateRecord>)
  {
    forall resource :: Present(resource) in records ==> Unchanged(host, roots, resource)
  }

  /** The entry of a preparation is there under the binding, its list is the public one, and its targets stand. */
  ghost predicate MayExecute(store: Store, host: Host, roots: Roots, request: Result<Binding>, public: seq<PublicRecord>)
  {
    && request.Ok? && request.value.preparation in store.frozen
    && var f := store.frozen[request.value.preparation];
       f.binding == request.value && public == f.publicRecords && AllStand(host, roots, f.privateRecords)
  }

  /** A record for each registered resource and each declared category of a work, and no other. */
  ghost predicate HoldsExactly(records: seq<PrivateRecord>, works: Works, work: string)
  {
    && (forall resource :: Present(resource) in records <==> Registered(works, work, resource))
    && (forall kind :: Absent(kind) in records <==> Declared(works, work, kind))
  }

  ghost predicate StoreInv(store: Store, mac: Hash, sha: Hash)
  {
    && RegistryInv(store.works)
    && forall p :: p in store.frozen ==> EntryInv(mac, sha, p, store.frozen[p])
  }

  lemma {:induction false} InExecutionOrderIsPreorder()
    ensures IsPreorder(InExecutionOrder)
  {
    ByExecutionIsPreorder();
  }

  /** The private records are already in execution order, so sorting them again changes nothing. */
  lemma {:induction false} TargetsInOrder(records: seq<PrivateRecord>)
    requires SortedBy(records, ByExecution)
    ensures SortedBy(Targets(records), InExecutionOrder)
  {
    if records != [] {
      TargetsInOrder(records[1..]);
      if records[0].Present? {
        forall j | 0 <= j < |Targets(records[1..])| ensures InExecutionOrder(records[0].resource, Targets(records[1..])[j]) {
          TargetsAreRecords(records[1..], j);
          var k :| 0 <= k < |records[1..]| && records[1..][k] == Present(Targets(records[1..])[j]);
          assert ByExecution(records[0], records[k + 1]);
        }
      }
    }
  }

  lemma {:induction false} ClearedTargets(store: Store, mac: Hash, sha: Hash, host: Host, roots: Roots,
                                          request: Result<Binding>, public: seq<PublicRecord>)
    requires StoreInv(store, mac, sha) && Cleared(store, mac, sha, host, roots, request, public).Ok?
    ensures var f := Cleared(store, mac, sha, host, roots, request, public).value;
      && f.binding == request.value && public == f.publicRecords
      && EntryInv(mac, sha, f.binding.preparation, f)
      && Executable(host, Targets(f.privateRecords)) && Receiptable(mac, f)
      && Sort(Targets(f.privateRecords), InExecutionOrder) == Targets(f.privateRecords)
      && (forall i :: 0 <= i < |Targets(f.privateRecords)| ==>
            Revalidate(host, roots, Targets(f.privateRecords)[i]).Ok?)
  {
    var f := Cleared(store, mac, sha, host, roots, request, public).value;
    var rs := Targets(f.privateRecords);
    TargetsApart(f.privateRecords);
    TargetsInOrder(f.privateRecords);
    InExecutionOrderIsPreorder();
    SortFixes(rs, InExecutionOrder);
    forall i | 0 <= i < |rs| ensures Located(host, rs[i]) && Revalidate(host, roots, rs[i]).Ok? && ReceiptOf(mac, f, rs[i]).Some? {
      FirstInvalidFinds(host, roots, rs, i);
      RevalidatedIsLocated(host, roots, rs[i]);
      ReceiptExists(mac, sha, f, i);
    }
  }

  lemma {:induction false} FirstInvalidFinds(host: Host, roots: Roots, rs: seq<Resource>, i: nat)
    requires FirstInvalid(host, roots, rs).Ok? && i < |rs|
    ensures Revalidate(host, roots, rs[i]).Ok?
  {
    if i > 0 {
      FirstInvalidFinds(host, roots, rs[1..], i - 1);
    }
  }

  ghost function ExecuteOn(store: Store, mac: Hash, sha: Hash, host: Host, roots: Roots, request: Result<Binding>,
                           public: seq<PublicRecord>, faults: nat -> Fault): Executed
    requires StoreInv(store, mac, sha)
  {
    match Cleared(store, mac, sha, host, roots, request, public)
    case Err(code) => Executed(Err(code), host)
    case Ok(f) =>
      ClearedTargets(store, mac, sha, host, roots, request, public);
      RunFrozen(mac, f, host, faults)
  }

  predicate Receiptable(mac: Hash, f: Frozen)
  {
    forall i :: 0 <= i < |Targets(f.privateRecords)| ==> ReceiptOf(mac, f, Targets(f.privateRecords)[i]).Some?
  }

  /** Running all enumerated records of an entry, and answering with a receipt for each. */
  function RunFrozen(mac: Hash, f: Frozen, host: Host, faults: nat -> Fault): Executed
    requires Receiptable(mac, f)
  {
    var rs := Targets(f.privateRecords);
    var o := Run(host, rs, faults);
    Executed(if o.done < |rs| then Err(ExecutionOutcomeUnknown) else Ok(Receipts(mac, f, rs)), o.host)
  }

  // ---------------------------------------------------------------- the edge

  class OwnerPrivateCloseInventory {
    const mac: Hash
    const sha: Hash
    const roots: Roots
    var works: Works
    var revision: nat
    var frozen: map<string, Frozen>

    function State(): Store
      reads this
    {
      Store(works, revision, frozen)
    }

    ghost predicate Valid()
      reads this
    {
      StoreInv(State(), mac, sha)
    }

    constructor (mac: Hash, sha: Hash, roots: Roots)
      ensures Valid() && State() == EMPTY && this.mac == mac && this.sha == sha && this.roots == roots
    {
      this.mac, this.sha, this.roots := mac, sha, roots;
      works, revision, frozen := map[], 0, map[];
    }

    method CommitUpdate(update: Result<Update>)
      requires Valid() && (update.Ok? ==> RegistryInv(update.value.works))
      modifies this
      ensures Valid() && State() == Commit(old(State()), update)
    {
      if update.Ok? && update.value.changed {
        works := update.value.works;
        revision := revision + 1;
      }
    }

    method DeclareNotApplicable(work: string, kind: Kind) returns (r: Result<Update>)
      requires Valid()
      modifies this
      ensures Valid() && r == DeclareOn(old(State()), work, kind) && State() == Commit(old(State()), r)
    {
      r := DeclareOn(State(), work, kind);
      if r.Ok? {
        DeclareKeepsInv(works, work, kind);
      }
      CommitUpdate(r);
    }

    method RegisterResource(host: Host, q: Registration) returns (r: Result<Update>)
      requires Valid()
      modifies this
      ensures Valid() && r == RegisterOn(old(State()), host, roots, q) && State() == Commit(old(State()), r)
    {
      var resource := Inspect(host, roots, q);
      if resource.Err? {
        return Err(resource.code);
      }
      r := Enroll(works, q.work, resource.value, false);
      if r.Ok? {
        InspectedIsWellKinded(host, roots, q);
        EnrollInKeepsInv(works, q.work, resource.value, false);
      }
      CommitUpdate(r);
    }

    method AdoptManagedWorktree(host: Host, work: string, workspace: Path) returns (r: Result<Update>)
      requires Valid()
      modifies this
      ensures Valid() && r == AdoptWorktreeOn(old(State()), host, work, workspace) && State() == Commit(old(State()), r)
    {
      if !IsIdentifier(work) {
        return Err(InvalidWork);
      }
      var resource := InspectWorktree(host, workspace);
      if resource.Err? {
        return Err(resource.code);
      }
      r := Adopt(works, work, resource.value);
      if r.Ok? {
        AdoptKeepsInv(works, work, resource.value);
      }
      CommitUpdate(r);
    }

    method AdoptManagedWork(host: Host, work: string, workspace: Path) returns (r: Result<Update>)
      requires Valid()
      modifies this
      ensures Valid() && r == AdoptManagedOn(old(State()), host, work, workspace) && State() == Commit(old(State()), r)
    {
      if !IsIdentifier(work) {
        return Err(InvalidWork);
      }
      var resource := InspectWorktree(host, workspace);
      if resource == Err(WorkspaceIsMainWorktree) {
        var categories := CategoriesOf(works, work);
        var covered := CoverAll(categories, KINDS, false);
        if covered.Err? {
          return Err(covered.code);
        }
        r := Ok(Update(works[work := covered.value], covered.value != categories));
        AdoptMainKeepsInv(works, work);
        CommitUpdate(r);
      } else {
        r := AdoptManagedWorktree(host, work, workspace);
      }
    }

    method Prepare(host: Host, preparation: string, work: string, generation: int, attachment: string) returns (r: Result<Prepared>)
      requires Valid()
      modifies this
      ensures Valid() && State() == Record(old(State()), r)
      ensures r == PrepareOn(old(State()), mac, sha, host, roots, MakeBinding(preparation, work, generation, attachment))
      ensures preparation !in old(frozen) ==>
        && (r.Ok? <==> && MakeBinding(preparation, work, generation, attachment).Ok?
                       && AllThere(old(works), work) && AllUnchanged(host, roots, old(works), work))
        && (r.Ok? ==> preparation in frozen && HoldsExactly(frozen[preparation].privateRecords, old(works), work))
    {
      var request := MakeBinding(preparation, work, generation, attachment);
      if request.Err? {
        return Err(request.code);
      }
      var binding := request.value;
      if preparation in frozen {
        var valid := ValidateFrozen(mac, sha, frozen[preparation], binding);
        return if valid.Err? then Err(valid.code) else Ok(Prepared(frozen[preparation].publicRecords, None));
      }
      var records := CollectRecords(host, roots, works, work);
      CompleteRecordsAreAll(host, roots, works, work);
      if records.Err? {
        return Err(records.code);
      }
      var unique := TargetsAreUnique(records.value);
      CompleteRecordsAreUnique(host, roots, works, work);
      if !unique {
        assert false;
      }
      var public := BuildPublicRecords(mac, sha, binding, records.value);
      var f := Frozen(binding, revision, public.digest, public.records, records.value, 0);
      f := f.(seal := SealOf(mac, f));
      FreezeKeepsInv(State(), mac, sha, host, roots, binding);
      FrozenExactlyWhenRegistered(host, roots, works, work);
      frozen := frozen[preparation := f];
      return Ok(Prepared(public.records, Some(f)));
    }

    method VerifyPublicInventory(preparation: string, work: string, generation: int, attachment: string, public: seq<PublicRecord>)
      returns (r: Result<bool>)
      ensures r == VerifyOn(State(), mac, sha, MakeBinding(preparation, work, generation, attachment), public)
    {
      var request := MakeBinding(preparation, work, generation, attachment);
      if request.Err? {
        return Err(request.code);
      }
      if preparation !in frozen {
        return Ok(false);
      }
      var valid := ValidateFrozen(mac, sha, frozen[preparation], request.value);
      return Ok(valid.Ok? && frozen[preparation].publicRecords == public);
    }

    /** `faults` says which steps the environment lets fail; `after` is the host that is left. */
    method Execute(host: Host, preparation: string, work: string, generation: int, attachment: string,
                   public: seq<PublicRecord>, faults: nat -> Fault) returns (answer: Result<seq<Receipt>>, after: Host)
      requires Valid()
      ensures Executed(answer, after)
        == ExecuteOn(State(), mac, sha, host, roots, MakeBinding(preparation, work, generation, attachment), public, faults)
      ensures after != host || answer.Ok? ==>
        MayExecute(State(), host, roots, MakeBinding(preparation, work, generation, attachment), public)
    {
      after := host;
      var request := MakeBinding(preparation, work, generation, attachment);
      var cleared := Cleared(State(), mac, sha, host, roots, request, public);
      if cleared.Err? {
        return Err(cleared.code), host;
      }
      ClearedExactlyWhenAllStand(State(), mac, sha, host, roots, request, public);
      ClearedTargets(State(), mac, sha, host, roots, request, public);
      answer, after := ExecuteFrozen(mac, cleared.value, host, faults);
    }
  }

  method ExecuteFrozen(mac: Hash, f: Frozen, host: Host, faults: nat -> Fault) returns (answer: Result<seq<Receipt>>, after: Host)
    requires Receiptable(mac, f) && Pairwise(f.privateRecords, Apart)
    requires Sort(Targets(f.privateRecords), InExecutionOrder) == Targets(f.privateRecords)
    ensures Executed(answer, after) == RunFrozen(mac, f, host, faults)
  {
    var unique := TargetsAreUnique(f.privateRecords);
    if !unique {
      assert false;
    }
    var rs := Sort(Targets(f.privateRecords), InExecutionOrder);
    var receipts, o := ExecuteRecords(mac, f, host, rs, faults);
    if o.done < |rs| {
      return Err(ExecutionOutcomeUnknown), o.host;
    }
    assert rs[..|rs|] == rs;
    return Ok(receipts), o.host;
  }

  /** The loop over the records: one effect and one receipt each, until one fails. */
  method ExecuteRecords(mac: Hash, f: Frozen, host: Host, rs: seq<Resource>, faults: nat -> Fault)
    returns (receipts: seq<Receipt>, o: Outcome)
    requires forall i :: 0 <= i < |rs| ==> ReceiptOf(mac, f, rs[i]).Some?
    ensures o == Run(host, rs, faults)
    ensures o.done <= |rs| && receipts == Receipts(mac, f, rs[..o.done])
  {
    receipts := [];
    var current := host;
    for k := 0 to |rs|
      invariant Run(host, rs, faults) == RunSteps(current, k, |rs|, StepOf(rs, faults))
      invariant receipts == Receipts(mac, f, rs[..k])
    {
      assert rs[..k + 1][..k] == rs[..k];
      var (next, ok) := ExecuteOne(current, rs[k], faults(k));
      current := next;
      if !ok {
        return receipts, Outcome(current, k);
      }
      receipts := receipts + [ReceiptOf(mac, f, rs[k]).value];
    }
    return receipts, Outcome(current, |rs|);
  }

  lemma {:induction false} InspectedIsWellKinded(host: Host, roots: Roots, q: Registration)
    requires Inspect(host, roots, q).Ok?
    ensures WellKinded(Inspect(host, roots, q).value) && KindOf(Inspect(host, roots, q).value) == q.kind
  {
  }

  lemma {:induction false} FreezeKeepsInv(store: Store, mac: Hash, sha: Hash, host: Host, roots: Roots, binding: Binding)
    requires StoreInv(store, mac, sha) && CompleteRecords(host, roots, store.works, binding.work).Ok?
    ensures EntryInv(mac, sha, binding.preparation,
                     Freeze(mac, sha, binding, store.revision, CompleteRecords(host, roots, store.works, binding.work).value))
  {
    var records := CompleteRecords(host, roots, store.works, binding.work).value;
    CompleteRecordsCover(host, roots, store.works, binding.work);
    FreezeValidates(mac, sha, binding, store.revision, records, binding);
    CompleteRecordsAreUnique(host, roots, store.works, binding.work);
    ByExecutionIsPreorder();
    SortSorts(Collect(host, roots, store.works[binding.work], KINDS).value, ByExecution);
    forall resource | Present(resource) in records ensures WellKinded(resource) {
      CompleteRecordsAreRegistered(host, roots, store.works, binding.work, Present(resource));
      RegisteredIsListed(store.works, binding.work, resource);
      assert WellFormedCategory(store.works[binding.work][KindOf(resource)], KindOf(resource));
    }
  }

  // ---------------------------------------------------------------- runs

  /** One call of any instance: hosts and roots may differ from call to call, the key does not. */
  datatype Op =
    | Declare(work: string, kind: Kind)
    | Register(host: Host, roots: Roots, q: Registration)
    | AdoptWorktree(host: Host, work: string, workspace: Path)
    | AdoptManaged(host: Host, work: string, workspace: Path)
    | Freezing(host: Host, roots: Roots, request: Result<Binding>)

  ghost function Apply(store: Store, op: Op, mac: Hash, sha: Hash): Store
  {
    match op
    case Declare(work, kind) => Commit(store, DeclareOn(store, work, kind))
    case Register(host, roots, q) => Commit(store, RegisterOn(store, host, roots, q))
    case AdoptWorktree(host, work, workspace) => Commit(store, AdoptWorktreeOn(store, host, work, workspace))
    case AdoptManaged(host, work, workspace) => Commit(store, AdoptManagedOn(store, host, work, workspace))
    case Freezing(host, roots, request) => Record(store, PrepareOn(store, mac, sha, host, roots, request))
  }

  ghost function Reached(store: Store, ops: seq<Op>, mac: Hash, sha: Hash): Store
    decreases |ops|
  {
    if ops == [] then store else Reached(Apply(store, ops[0], mac, sha), ops[1..], mac, sha)
  }

  /** Registered resources stay, dispositions never swap, and frozen entries never change. */
  ghost predicate Later(before: Store, after: Store)
  {
    && Grows(before.works, after.works)
    && forall p :: p in before.frozen ==> p in after.frozen && after.frozen[p] == before.frozen[p]
  }

  lemma {:induction false} CommitKeepsInv(store: Store, update: Result<Update>, mac: Hash, sha: Hash)
    requires StoreInv(store, mac, sha)
    requires update.Ok? ==> RegistryInv(update.value.works) && Grows(store.works, update.value.works)
    ensures StoreInv(Commit(store, update), mac, sha) && Later(store, Commit(store, update))
  {
  }

  lemma {:induction false} AddingAnEntryKeepsInv(store: Store, f: Frozen, mac: Hash, sha: Hash)
    requires StoreInv(store, mac, sha) && EntryInv(mac, sha, f.binding.preparation, f) && f.binding.preparation !in store.frozen
    ensures var after := store.(frozen := store.frozen[f.binding.preparation := f]);
      StoreInv(after, mac, sha) && Later(store, after)
  {
    var after := store.(frozen := store.frozen[f.binding.preparation := f]);
    forall p | p in after.frozen ensures EntryInv(mac, sha, p, after.frozen[p]) {
      assert p != f.binding.preparation ==> EntryInv(mac, sha, p, store.frozen[p]);
    }
  }

  lemma {:induction false} RecordKeepsInv(store: Store, mac: Hash, sha: Hash, host: Host, roots: Roots, request: Result<Binding>)
    requires StoreInv(store, mac, sha)
    ensures StoreInv(Record(store, PrepareOn(store, mac, sha, host, roots, request)), mac, sha)
    ensures Later(store, Record(store, PrepareOn(store, mac, sha, host, roots, request)))
  {
    var prepared := PrepareOn(store, mac, sha, host, roots, request);
    if prepared.Ok? && prepared.value.added.Some? {
      FreezeKeepsInv(store, mac, sha, host, roots, request.value);
      AddingAnEntryKeepsInv(store, prepared.value.added.value, mac, sha);
    }
  }

  lemma {:induction false} RegistrationKeepsInv(store: Store, host: Host, roots: Roots, q: Registration)
    requires RegistryInv(store.works) && RegisterOn(store, host, roots, q).Ok?
    ensures RegistryInv(RegisterOn(store, host, roots, q).value.works)
    ensures Grows(store.works, RegisterOn(store, host, roots, q).value.works)
  {
    InspectedIsWellKinded(host, roots, q);
    EnrollInKeepsInv(store.works, q.work, Inspect(host, roots, q).value, false);
  }

  lemma {:induction false} AdoptionKeepsInv(store: Store, host: Host, work: string, workspace: Path)
    requires RegistryInv(store.works) && AdoptManagedOn(store, host, work, workspace).Ok?
    ensures RegistryInv(AdoptManagedOn(store, host, work, workspace).value.works)
    ensures Grows(store.works, AdoptManagedOn(store, host, work, workspace).value.works)
  {
    if InspectWorktree(host, workspace) == Err(WorkspaceIsMainWorktree) {
      AdoptMainKeepsInv(store.works, work);
    } else {
      AdoptKeepsInv(store.works, work, InspectWorktree(host, workspace).value);
    }
  }

  lemma {:induction false} WorktreeAdoptionKeepsInv(store: Store, host: Host, work: string, workspace: Path)
    requires RegistryInv(store.works) && AdoptWorktreeOn(store, host, work, workspace).Ok?
    ensures RegistryInv(AdoptWorktreeOn(store, host, work, workspace).value.works)
    ensures Grows(store.works, AdoptWorktreeOn(store, host, work, workspace).value.works)
  {
    AdoptKeepsInv(store.works, work, InspectWorktree(host, workspace).value);
  }

  lemma {:induction false} ApplyKeepsInv(store: Store, op: Op, mac: Hash, sha: Hash)
    requires StoreInv(store, mac, sha)
    ensures StoreInv(Apply(store, op, mac, sha), mac, sha) && Later(store, Apply(store, op, mac, sha))
  {
    match op
    case Declare(work, kind) =>
      var update := DeclareOn(store, work, kind);
      if update.Ok? {
        DeclareKeepsInv(store.works, work, kind);
      }
      CommitKeepsInv(store, update, mac, sha);
    case Register(host, roots, q) =>
      var update := RegisterOn(store, host, roots, q);
      if update.Ok? {
        RegistrationKeepsInv(store, host, roots, q);
      }
      CommitKeepsInv(store, update, mac, sha);
    case AdoptWorktree(host, work, workspace) =>
      var update := AdoptWorktreeOn(store, host, work, workspace);
      if update.Ok? {
        WorktreeAdoptionKeepsInv(store, host, work, workspace);
      }
      CommitKeepsInv(store, update, mac, sha);
    case AdoptManaged(host, work, workspace) =>
      var update := AdoptManagedOn(store, host, work, workspace);
      if update.Ok? {
        AdoptionKeepsInv(store, host, work, workspace);
      }
      CommitKeepsInv(store, update, mac, sha);
    case Freezing(host, roots, request) => RecordKeepsInv(store, mac, sha, host, roots, request);
  }

  lemma {:induction false} RunKeepsInv(store: Store, ops: seq<Op>, mac: Hash, sha: Hash)
    requires StoreInv(store, mac, sha)
    ensures StoreInv(Reached(store, ops, mac, sha), mac, sha) && Later(store, Reached(store, ops, mac, sha))
    decreases |ops|
  {
    if ops != [] {
      var next := Apply(store, ops[0], mac, sha);
      ApplyKeepsInv(store, ops[0], mac, sha);
      RunKeepsInv(next, ops[1..], mac, sha);
      GrowsTransitive(store.works, next.works, Reached(store, ops, mac, sha).works);
    }
  }

  /** The invariant holds in every registry that any sequence of calls can reach. */
  lemma {:induction false} EveryReachableStoreIsSound(ops: seq<Op>, mac: Hash, sha: Hash)
    ensures StoreInv(Reached(EMPTY, ops, mac, sha), mac, sha)
  {
    RunKeepsInv(EMPTY, ops, mac, sha);
  }

  /** An entry, once frozen, is the same and still validates whatever calls follow. */
  lemma {:induction false} FrozenEntryStays(store: Store, ops: seq<Op>, mac: Hash, sha: Hash, preparation: string)
    requires StoreInv(store, mac, sha) && preparation in store.frozen
    ensures var f, later := store.frozen[preparation], Reached(store, ops, mac, sha);
      && preparation in later.frozen && later.frozen[preparation] == f
      && f.binding.preparation == preparation && ValidateFrozen(mac, sha, f, f.binding).Ok?
  {
    RunKeepsInv(store, ops, mac, sha);
    assert EntryInv(mac, sha, preparation, store.frozen[preparation]);
  }

  lemma {:induction false} ValidUnderItsBindingOnly(mac: Hash, sha: Hash, f: Frozen, binding: Binding)
    requires ValidateFrozen(mac, sha, f, f.binding).Ok?
    ensures ValidateFrozen(mac, sha, f, binding) == if f.binding == binding then Ok(()) else Err(FreezeBindingMismatch)
  {
  }

  /**
   * However the registry has grown since, preparing again returns the same records and changes
   * nothing, and any other binding of the preparation is turned away.
   */
  lemma {:induction false} PreparingAgainRepeats(store: Store, ops: seq<Op>, mac: Hash, sha: Hash, host: Host, roots: Roots, binding: Binding)
    requires StoreInv(store, mac, sha) && binding.preparation in store.frozen
    ensures var f, later := store.frozen[binding.preparation], Reached(store, ops, mac, sha);
      && PrepareOn(later, mac, sha, host, roots, Ok(binding))
          == (if f.binding == binding then Ok(Prepared(f.publicRecords, None)) else Err(FreezeBindingMismatch))
      && Record(later, PrepareOn(later, mac, sha, host, roots, Ok(binding))) == later
  {
    FrozenEntryStays(store, ops, mac, sha, binding.preparation);
    ValidUnderItsBindingOnly(mac, sha, store.frozen[binding.preparation], binding);
  }

  /** Verification accepts exactly the frozen list under exactly its binding, at any later time. */
  lemma {:induction false} VerifiesExactlyTheFrozenList(store: Store, ops: seq<Op>, mac: Hash, sha: Hash, binding: Binding, public: seq<PublicRecord>)
    requires StoreInv(store, mac, sha) && binding.preparation in store.frozen
    ensures var f, later := store.frozen[binding.preparation], Reached(store, ops, mac, sha);
      VerifyOn(later, mac, sha, Ok(binding), public) == Ok(f.binding == binding && public == f.publicRecords)
  {
    FrozenEntryStays(store, ops, mac, sha, binding.preparation);
    ValidUnderItsBindingOnly(mac, sha, store.frozen[binding.preparation], binding);
  }

  lemma {:induction false} AllValidIsCleared(host: Host, roots: Roots, rs: seq<Resource>)
    requires forall i :: 0 <= i < |rs| ==> Revalidate(host, roots, rs[i]).Ok?
    ensures FirstInvalid(host, roots, rs).Ok?
  {
    if rs != [] {
      AllValidIsCleared(host, roots, rs[1..]);
    }
  }

  lemma {:induction false} CompleteTargetsAreValid(host: Host, roots: Roots, works: Works, work: string)
    requires RegistryInv(works) && CompleteRecords(host, roots, works, work).Ok?
    ensures FirstInvalid(host, roots, Targets(CompleteRecords(host, roots, works, work).value)).Ok?
  {
    var records := CompleteRecords(host, roots, works, work).value;
    forall i | 0 <= i < |Targets(records)| ensures Revalidate(host, roots, Targets(records)[i]).Ok? {
      TargetsAreRecords(records, i);
      CompleteRecordsAreRegistered(host, roots, works, work, Present(Targets(records)[i]));
    }
    AllValidIsCleared(host, roots, Targets(records));
  }

  /** What was just frozen may be executed: on the same host it passes every check before the first effect. */
  lemma {:induction false} JustPreparedIsCleared(store: Store, mac: Hash, sha: Hash, host: Host, roots: Roots, binding: Binding)
    requires StoreInv(store, mac, sha) && binding.preparation !in store.frozen
    requires PrepareOn(store, mac, sha, host, roots, Ok(binding)).Ok?
    ensures var prepared := PrepareOn(store, mac, sha, host, roots, Ok(binding));
      Cleared(Record(store, prepared), mac, sha, host, roots, Ok(binding), prepared.value.records).Ok?
  {
    FreezeKeepsInv(store, mac, sha, host, roots, binding);
    CompleteTargetsAreValid(host, roots, store.works, binding.work);
  }

  // ---------------------------------------------------------------- execution

  lemma {:induction false} StaleListIsInvalid(host: Host, roots: Roots, records: seq<PrivateRecord>, resource: Resource)
    requires Present(resource) in records && WellKinded(resource) && !Unchanged(host, roots, resource)
    ensures FirstInvalid(host, roots, Targets(records)).Err?
  {
    RevalidatesExactlyWhenUnchanged(host, roots, resource);
    var i := TargetOfRecord(records, resource);
    if FirstInvalid(host, roots, Targets(records)).Ok? {
      FirstInvalidFinds(host, roots, Targets(records), i);
    }
  }

  lemma {:induction false} ValidTargets(host: Host, roots: Roots, records: seq<PrivateRecord>)
    requires forall resource :: Present(resource) in records ==> WellKinded(resource)
    ensures FirstInvalid(host, roots, Targets(records)).Ok? <==> AllStand(host, roots, records)
  {
    if resource :| Present(resource) in records && !Unchanged(host, roots, resource) {
      StaleListIsInvalid(host, roots, records, resource);
    } else {
      forall i | 0 <= i < |Targets(records)| ensures Revalidate(host, roots, Targets(records)[i]).Ok? {
        TargetsAreRecords(records, i);
        RevalidatesExactlyWhenUnchanged(host, roots, Targets(records)[i]);
      }
      AllValidIsCleared(host, roots, Targets(records));
    }
  }

  /** An execution passes its checks exactly when the binding and the list are the frozen ones and every target stands. */
  lemma {:induction false} ClearedExactlyWhenAllStand(store: Store, mac: Hash, sha: Hash, host: Host, roots: Roots,
                                                      request: Result<Binding>, public: seq<PublicRecord>)
    requires StoreInv(store, mac, sha)
    ensures Cleared(store, mac, sha, host, roots, request, public).Ok? <==> MayExecute(store, host, roots, request, public)
  {
    if request.Ok? && request.value.preparation in store.frozen {
      var f := store.frozen[request.value.preparation];
      assert EntryInv(mac, sha, request.value.preparation, f);
      ValidUnderItsBindingOnly(mac, sha, f, request.value);
      ValidTargets(host, roots, f.privateRecords);
    }
  }

  /**
   * At any later time an execution passes its checks exactly when the binding and the public list are the
   * frozen ones and every frozen target is unchanged on the host; otherwise it refuses and leaves the host alone.
   */
  lemma {:induction false} ExecutesExactlyWhenAllStand(store: Store, ops: seq<Op>, mac: Hash, sha: Hash, host: Host, roots: Roots,
                                                       binding: Binding, public: seq<PublicRecord>, faults: nat -> Fault)
    requires StoreInv(store, mac, sha) && binding.preparation in store.frozen
    ensures var f, later := store.frozen[binding.preparation], Reached(store, ops, mac, sha);
      && StoreInv(later, mac, sha)
      && (Cleared(later, mac, sha, host, roots, Ok(binding), public).Ok? <==>
            f.binding == binding && public == f.publicRecords && AllStand(host, roots, f.privateRecords))
      && (Cleared(later, mac, sha, host, roots, Ok(binding), public).Err? ==>
            var e := ExecuteOn(later, mac, sha, host, roots, Ok(binding), public, faults); e.answer.Err? && e.host == host)
  {
    RunKeepsInv(store, ops, mac, sha);
    FrozenEntryStays(store, ops, mac, sha, binding.preparation);
    ClearedExactlyWhenAllStand(Reached(store, ops, mac, sha), mac, sha, host, roots, Ok(binding), public);
  }

  /** Every branch a cleared run may delete still points at the commit that was frozen, in the repository that was. */
  lemma {:induction false} ClearedBranchesAreWhereTheyWere(store: Store, mac: Hash, sha: Hash, host: Host, roots: Roots,
                                                          request: Result<Binding>, public: seq<PublicRecord>, r: Resource)
    requires StoreInv(store, mac, sha) && Cleared(store, mac, sha, host, roots, request, public).Ok?
    requires Present(r) in Cleared(store, mac, sha, host, roots, request, public).value.privateRecords
    ensures !r.Local? ==>
      && r.common in host.nodes && host.nodes[r.common].id == r.commonId
      && (r.commonId, r.branch) in host.refs && host.refs[(r.commonId, r.branch)] == r.oid
    ensures r.Worktree? ==> r.gitDir in host.nodes && host.nodes[r.gitDir].id == r.gitDirId
    ensures !r.BranchRef? ==> r.locator in host.nodes && host.nodes[r.locator].id == r.target
    ensures r.Local? ==> r.root in host.nodes && host.nodes[r.root].id == r.rootId
  {
    ClearedExactlyWhenAllStand(store, mac, sha, host, roots, request, public);
    assert Unchanged(host, roots, r);
  }

  /** One target that has changed is enough to refuse, wherever it stands in the list. */
  lemma {:induction false} OneStaleTargetRefuses(store: Store, mac: Hash, sha: Hash, host: Host, roots: Roots, binding: Binding,
                                                 public: seq<PublicRecord>, faults: nat -> Fault, resource: Resource)
    requires StoreInv(store, mac, sha) && binding.preparation in store.frozen
    requires Present(resource) in store.frozen[binding.preparation].privateRecords
    requires !Unchanged(host, roots, resource)
    ensures ExecuteOn(store, mac, sha, host, roots, Ok(binding), public, faults).answer.Err?
    ensures ExecuteOn(store, mac, sha, host, roots, Ok(binding), public, faults).host == host
  {
    StaleListIsInvalid(host, roots, store.frozen[binding.preparation].privateRecords, resource);
  }

  lemma {:induction false} TargetOfRecord(records: seq<PrivateRecord>, resource: Resource) returns (i: nat)
    requires Present(resource) in records
    ensures i < |Targets(records)| && Targets(records)[i] == resource
  {
    if records[0] == Present(resource) {
      i := 0;
    } else {
      i := TargetOfRecord(records[1..], resource);
      i := if records[0].Present? then i + 1 else i;
    }
  }

  /**
   * A cleared execution without faults answers with receipts exactly when every record is still
   * ready at its turn, and then the host has lost exactly what the records own.
   */
  lemma {:induction false} ExecutionCompletesExactlyWhenReady(store: Store, mac: Hash, sha: Hash, host: Host, roots: Roots,
      request: Result<Binding>, public: seq<PublicRecord>, faults: nat -> Fault)
    requires StoreInv(store, mac, sha) && Cleared(store, mac, sha, host, roots, request, public).Ok?
    requires forall i: nat :: faults(i).NoFault?
    ensures var rs := Targets(Cleared(store, mac, sha, host, roots, request, public).value.privateRecords);
      var e := ExecuteOn(store, mac, sha, host, roots, request, public, faults);
      && (e.answer.Ok? <==> Completable(host, rs))
      && (e.answer.Ok? ==> e.host == After(host, rs, |rs|))
  {
    ClearedTargets(store, mac, sha, host, roots, request, public);
    var rs := Targets(Cleared(store, mac, sha, host, roots, request, public).value.privateRecords);
    CompletesExactlyWhenReady(host, rs, faults);
  }

  /** Each record's receipt repeats the public record with its fingerprint, and the correspondence is one to one. */
  ghost predicate Corresponds(mac: Hash, f: Frozen, receipts: seq<Receipt>)
  {
    var rs := Targets(f.privateRecords);
    && |receipts| == |rs|
    && multiset(ReceiptBases(receipts)) == multiset(TargetBases(PublicBases(f.publicRecords)))
    && (forall i, j :: 0 <= i < j < |receipts| ==> receipts[i].base != receipts[j].base)
    && (forall i :: 0 <= i < |receipts| ==> RepeatsPublic(mac, f, rs[i], receipts[i]))
  }

  predicate RepeatsPublic(mac: Hash, f: Frozen, resource: Resource, receipt: Receipt)
  {
    && receipt.base == BaseTarget(KindOf(resource), Fingerprint(mac, f.binding, resource))
    && FirstMatch(f.publicRecords, receipt.base).Some?
    && receipt == ReceiptFor(mac, f.binding, FirstMatch(f.publicRecords, receipt.base).value)
  }

  function ReceiptBases(receipts: seq<Receipt>): (bases: seq<Base>)
    ensures |bases| == |receipts|
    ensures forall i :: 0 <= i < |receipts| ==> bases[i] == receipts[i].base
  {
    if receipts == [] then [] else [receipts[0].base] + ReceiptBases(receipts[1..])
  }

  lemma {:induction false} FrozenReceiptsCorrespond(mac: Hash, sha: Hash, f: Frozen)
    requires Injective(mac) && ValidateFrozen(mac, sha, f, f.binding).Ok? && Pairwise(f.privateRecords, Apart)
    requires Receiptable(mac, f)
    ensures Corresponds(mac, f, Receipts(mac, f, Targets(f.privateRecords)))
  {
    var rs := Targets(f.privateRecords);
    var receipts := Receipts(mac, f, rs);
    forall i | 0 <= i < |rs| ensures RepeatsPublic(mac, f, rs[i], receipts[i]) {
      ReceiptExists(mac, sha, f, i);
    }
    forall i, j | 0 <= i < j < |rs| ensures receipts[i].base != receipts[j].base {
      FingerprintsDistinct(mac, f.binding, f.privateRecords, i, j);
      assert RepeatsPublic(mac, f, rs[i], receipts[i]) && RepeatsPublic(mac, f, rs[j], receipts[j]);
    }
    forall i | 0 <= i < |rs| ensures ReceiptBases(receipts)[i] == ResourceBases(mac, f.binding, rs)[i] {
      assert RepeatsPublic(mac, f, rs[i], receipts[i]);
    }
    assert ReceiptBases(receipts) == ResourceBases(mac, f.binding, rs);
    SameFingerprints(mac, sha, f.binding, f.privateRecords);
  }

  /**
   * The receipts of a completed execution, one for each enumerated record in execution order, are in
   * one-to-one correspondence with the enumerated public records, which are sorted differently.
   */
  lemma {:induction false} ReceiptsMatchPublicRecords(store: Store, mac: Hash, sha: Hash, host: Host, roots: Roots,
      request: Result<Binding>, public: seq<PublicRecord>, faults: nat -> Fault)
    requires StoreInv(store, mac, sha) && Injective(mac)
    requires ExecuteOn(store, mac, sha, host, roots, request, public, faults).answer.Ok?
    ensures var f := Cleared(store, mac, sha, host, roots, request, public).value;
      && f.publicRecords == public
      && Corresponds(mac, f, ExecuteOn(store, mac, sha, host, roots, request, public, faults).answer.value)
  {
    ClearedTargets(store, mac, sha, host, roots, request, public);
    FrozenReceiptsCorrespond(mac, sha, Cleared(store, mac, sha, host, roots, request, public).value);
  }

  // ---------------------------------------------------------------- what an accepted call has done

  /** Only the registry and its revision may differ. */
  predicate Revised(before: Store, after: Store, changed: bool)
  {
    after.frozen == before.frozen && after.revision == before.revision + if changed then 1 else 0
  }

  lemma {:induction false} DeclarationTakesEffect(store: Store, work: string, kind: Kind)
    ensures var r := DeclareOn(store, work, kind); var after := Commit(store, r);
      && (r.Ok? <==> IsIdentifier(work) && !HasList(store.works, work, kind))
      && (r.Ok? ==> && Declared(after.works, work, kind) && SameOutside(store.works, after.works, work, {kind})
                    && Revised(store, after, !Declared(store.works, work, kind)))
      && (r.Err? ==> after == store)
  {
    DeclaredExactlyUnlessListed(store.works, work, kind);
  }

  /** A registration is accepted exactly for an acceptable target that is free; then it is in its list. */
  lemma {:induction false} RegistrationTakesEffect(store: Store, host: Host, roots: Roots, q: Registration)
    requires RegistryInv(store.works)
    ensures var r := RegisterOn(store, host, roots, q); var after := Commit(store, r);
      && (r.Ok? <==> && Inspect(host, roots, q).Ok? && !Declared(store.works, q.work, q.kind)
                     && !Taken(store.works, Inspect(host, roots, q).value))
      && (r.Ok? ==> && Registered(after.works, q.work, Inspect(host, roots, q).value)
                    && SameOutside(store.works, after.works, q.work, {q.kind}) && Revised(store, after, true)
                    && multiset(ResourcesOf(after.works, q.work, q.kind)) ==
                         multiset(ResourcesOf(store.works, q.work, q.kind)) + multiset{Inspect(host, roots, q).value})
      && (r.Err? ==> after == store)
  {
    if Inspect(host, roots, q).Ok? {
      InspectedIsWellKinded(host, roots, q);
      RegisteredIsTaken(store.works, q.work, Inspect(host, roots, q).value);
      EnrolledExactlyWhenFree(store.works, q.work, Inspect(host, roots, q).value, false);
    }
  }

  lemma {:induction false} RegisteredIsTaken(works: Works, work: string, resource: Resource)
    ensures Registered(works, work, resource) ==> Taken(works, resource)
  {
    SelfOverlap(resource);
  }

  /** Adoption of a work's worktree: which calls are accepted, and what each has done. */
  lemma {:induction false} AdoptionTakesEffect(store: Store, host: Host, work: string, workspace: Path)
    requires RegistryInv(store.works)
    ensures var r := AdoptManagedOn(store, host, work, workspace); var after := Commit(store, r); var found := InspectWorktree(host, workspace);
      && (r.Ok? <==>
            && IsIdentifier(work)
            && if found == Err(WorkspaceIsMainWorktree) then forall kind :: !HasList(store.works, work, kind)
               else && found.Ok? && !Declared(store.works, work, Workspace) && !HasList(store.works, work, Branch)
                    && (Registered(store.works, work, found.value) || !Taken(store.works, found.value)))
      && (r.Ok? && found.Ok? ==> Registered(after.works, work, found.value) && Declared(after.works, work, Branch))
      && (r.Ok? && found.Err? ==> forall kind :: Declared(after.works, work, kind))
      && SameOutside(store.works, after.works, work, ALL_KINDS)
      && Revised(store, after, after.works != store.works)
  {
    var found := InspectWorktree(host, workspace);
    if found.Ok? {
      AdoptedExactlyWhenFree(store.works, work, found.value);
      if AdoptIn(store.works, work, found.value).Ok? {
        UnchangedAdoption(store.works, work, found.value);
      }
    } else {
      MainAdoptedExactlyWhenNothingIsListed(store.works, work);
      if AdoptMainIn(store.works, work).Ok? {
        UnchangedMainAdoption(store.works, work);
      }
    }
  }
}
