// close_inventory_edge.py: applying the frozen records to the host, one after the other. A step may
// also fail part-way; what it leaves behind then is chosen by the environment.
module CloseExecution {
  import opened CloseHost
  import opened Wrappers

  // ---------------------------------------------------------------- effects on the host

  function WithoutNodes(host: Host, gone: Path -> bool): Host
  {
    host.(nodes := map p | p in host.nodes && !gone(p) :: host.nodes[p])
  }

  function WithoutRef(host: Host, id: FileId, branch: string): Host
  {
    host.(refs := host.refs - {(id, branch)})
  }

  function WithoutCheckout(host: Host, at: Path): Host
  {
    host.(checkouts := host.checkouts - {at})
  }

  /** What a record removes; a worktree goes together with the Git directory it is registered with. */
  predicate Removes(host: Host, r: Resource, path: Path)
  {
    match r
    case Local(_, locator, _, _, _, _) => IsWithin(locator, path)
    case BranchRef(_, _, _, _, _) => false
    case Worktree(locator, _, _, _, _, _, _, _) =>
      IsWithin(locator, path) || (locator in host.checkouts && IsWithin(host.checkouts[locator].gitDir, path))
  }

  predicate DeletesRef(r: Resource, id: FileId, branch: string)
  {
    !r.Local? && r.commonId == id && r.branch == branch
  }

  predicate Unregisters(r: Resource, at: Path)
  {
    r.Worktree? && r.locator == at
  }

  function RemoveLocal(host: Host, r: Resource): (Host, bool)
    requires r.Local?
  {
    if r.locator in host.nodes && (r.targetType.Directory? <==> host.nodes[r.locator].nodeType.Directory?)
    then (WithoutNodes(host, p => IsWithin(r.locator, p)), true)
    else (host, false)
  }

  /** Git refuses to delete a branch that some listed worktree has checked out. */
  function DeleteBranch(host: Host, common: Path, branch: string): (Host, bool)
  {
    if IsDirectory(host, common) && (host.nodes[common].id, branch) in host.refs && !CheckedOutSomewhere(host, common, branch)
    then (WithoutRef(host, host.nodes[common].id, branch), true)
    else (host, false)
  }

  function RemoveWorktree(host: Host, r: Resource): (Host, bool)
    requires r.Worktree?
  {
    if IsDirectory(host, r.common) && Listed(host, r.common, r.locator) && (host.missingOk || r.locator in host.nodes) then
      var gitDir := host.checkouts[r.locator].gitDir;
      var removed := WithoutCheckout(WithoutNodes(host, p => IsWithin(r.locator, p) || IsWithin(gitDir, p)), r.locator);
      if r.gitDir in removed.nodes then (removed, false) else DeleteBranch(removed, r.common, r.branch)
    else (host, false)
  }

  function Effect(host: Host, r: Resource): (Host, bool)
  {
    match r
    case Local(_, _, _, _, _, _) => RemoveLocal(host, r)
    case BranchRef(_, _, _, _, _) => DeleteBranch(host, r.common, r.branch)
    case Worktree(_, _, _, _, _, _, _, _) => RemoveWorktree(host, r)
  }

  /** A step that fails part-way has removed some of what the record owns. */
  datatype Fault = NoFault | Fault(paths: set<Path>, ref: bool, checkout: bool)

  function Partial(host: Host, r: Resource, fault: Fault): Host
    requires fault.Fault?
  {
    var h0 := WithoutNodes(host, p => p in fault.paths && Removes(host, r, p));
    var h1 := if fault.ref && !r.Local? then WithoutRef(h0, r.commonId, r.branch) else h0;
    if fault.checkout && r.Worktree? then WithoutCheckout(h1, r.locator) else h1
  }

  function ExecuteOne(host: Host, r: Resource, fault: Fault): (Host, bool)
  {
    if fault.Fault? then (Partial(host, r, fault), false) else Effect(host, r)
  }

  /** The host after a run and how many records succeeded. */
  datatype Outcome = Outcome(host: Host, done: nat)

  /** Runs steps k to n, each on the host the one before left, until one fails. */
  function RunSteps(host: Host, k: nat, n: nat, step: (Host, nat) -> (Host, bool)): (o: Outcome)
    requires k <= n
    ensures k <= o.done <= n
    decreases n - k
  {
    if k == n then Outcome(host, k)
    else
      var (next, ok) := step(host, k);
      if ok then RunSteps(next, k + 1, n, step) else Outcome(next, k)
  }

  function StepOf(rs: seq<Resource>, faults: nat -> Fault): (Host, nat) -> (Host, bool)
  {
    (host: Host, k: nat) => if k < |rs| then ExecuteOne(host, rs[k], faults(k)) else (host, false)
  }

  function Run(host: Host, rs: seq<Resource>, faults: nat -> Fault): (o: Outcome)
    ensures o.done <= |rs|
  {
    RunSteps(host, 0, |rs|, StepOf(rs, faults))
  }

  // ---------------------------------------------------------------- the host after k records

  /** The current host without what a record owned on the initial one. */
  function Clear(initial: Host, host: Host, r: Resource): Host
  {
    var h0 := WithoutNodes(host, p => Removes(initial, r, p));
    var h1 := if r.Local? then h0 else WithoutRef(h0, r.commonId, r.branch);
    if r.Worktree? then WithoutCheckout(h1, r.locator) else h1
  }

  function After(host: Host, rs: seq<Resource>, k: nat): Host
    requires k <= |rs|
  {
    if k == 0 then host else Clear(host, After(host, rs, k - 1), rs[k - 1])
  }

  predicate RemovedBefore(host: Host, rs: seq<Resource>, k: nat, path: Path)
    requires k <= |rs|
  {
    exists i :: 0 <= i < k && Removes(host, rs[i], path)
  }

  predicate DeletedBefore(rs: seq<Resource>, k: nat, id: FileId, branch: string)
    requires k <= |rs|
  {
    exists i :: 0 <= i < k && DeletesRef(rs[i], id, branch)
  }

  predicate UnregisteredBefore(rs: seq<Resource>, k: nat, at: Path)
    requires k <= |rs|
  {
    exists i :: 0 <= i < k && Unregisters(rs[i], at)
  }

  /** Exactly what the first k records own is gone; everything else is as it was. */
  lemma {:induction false} AfterIsExact(host: Host, rs: seq<Resource>, k: nat)
    requires k <= |rs|
    ensures var h := After(host, rs, k);
      && (forall p :: p in h.nodes <==> p in host.nodes && !RemovedBefore(host, rs, k, p))
      && (forall p :: p in h.nodes ==> h.nodes[p] == host.nodes[p])
      && (forall id, b :: (id, b) in h.refs <==> (id, b) in host.refs && !DeletedBefore(rs, k, id, b))
      && (forall ref :: ref in h.refs ==> ref in host.refs && h.refs[ref] == host.refs[ref])
      && (forall at :: at in h.checkouts <==> at in host.checkouts && !UnregisteredBefore(rs, k, at))
      && (forall at :: at in h.checkouts ==> h.checkouts[at] == host.checkouts[at])
      && h.missingOk == host.missingOk
  {
    if k > 0 {
      AfterIsExact(host, rs, k - 1);
      ClearIsExact(host, After(host, rs, k - 1), rs[k - 1]);
      OneMoreBefore(host, rs, k - 1);
    }
  }

  lemma {:induction false} ClearIsExact(host: Host, g: Host, r: Resource)
    ensures var h := Clear(host, g, r);
      && (forall p :: p in h.nodes <==> p in g.nodes && !Removes(host, r, p))
      && (forall p :: p in h.nodes ==> h.nodes[p] == g.nodes[p])
      && (forall id, b :: (id, b) in h.refs <==> (id, b) in g.refs && !DeletesRef(r, id, b))
      && (forall ref :: ref in h.refs ==> ref in g.refs && h.refs[ref] == g.refs[ref])
      && (forall at :: at in h.checkouts <==> at in g.checkouts && !Unregisters(r, at))
      && (forall at :: at in h.checkouts ==> h.checkouts[at] == g.checkouts[at])
      && h.missingOk == g.missingOk
  {
  }

  lemma {:induction false} OneMoreBefore(host: Host, rs: seq<Resource>, k: nat)
    requires k < |rs|
    ensures forall p :: RemovedBefore(host, rs, k + 1, p) <==> RemovedBefore(host, rs, k, p) || Removes(host, rs[k], p)
    ensures forall id, b :: DeletedBefore(rs, k + 1, id, b) <==> DeletedBefore(rs, k, id, b) || DeletesRef(rs[k], id, b)
    ensures forall at :: UnregisteredBefore(rs, k + 1, at) <==> UnregisteredBefore(rs, k, at) || Unregisters(rs[k], at)
  {
  }

  // ---------------------------------------------------------------- when a run completes

  /** What revalidation has established about a record. */
  predicate Located(host: Host, r: Resource)
  {
    match r
    case Local(_, locator, targetType, target, _, _) =>
      locator in host.nodes && host.nodes[locator].nodeType == targetType && host.nodes[locator].id == target
    case BranchRef(_, common, commonId, branch, _) =>
      && IsDirectory(host, common) && host.nodes[common].id == commonId && (commonId, branch) in host.refs
      && !CheckedOutSomewhere(host, common, branch)
    case Worktree(locator, target, gitDir, _, common, commonId, branch, _) =>
      && IsDirectory(host, locator) && host.nodes[locator].id == target
      && IsDirectory(host, gitDir) && IsDirectory(host, common) && host.nodes[common].id == commonId
      && (commonId, branch) in host.refs && ChecksOut(host, common, locator, branch)
  }

  lemma {:induction false} RevalidatedIsLocated(host: Host, roots: Roots, r: Resource)
    requires Revalidate(host, roots, r).Ok?
    ensures Located(host, r)
  {
    if r.Worktree? {
      assert Enclosing(host, r.locator) == Some(r.locator);
      assert BranchRefName(r.branch)[|HEADS|..] == r.branch;
    }
  }

  /** The targets can be destroyed independently: revalidated, and no two share a physical target. */
  ghost predicate Executable(host: Host, rs: seq<Resource>)
  {
    && (forall i :: 0 <= i < |rs| ==> Located(host, rs[i]))
    && (forall i, j :: 0 <= i < j < |rs| ==> PhysicalIds(rs[i]) !! PhysicalIds(rs[j]))
  }

  /**
   * What a record still needs when its turn comes: no earlier record has removed its own place or
   * its Git directories, and no other worktree holds on to its branch.
   */
  ghost predicate Ready(host: Host, rs: seq<Resource>, k: nat)
    requires k < |rs|
  {
    match rs[k]
    case Local(_, locator, _, _, _, _) => !RemovedBefore(host, rs, k, locator)
    case BranchRef(_, common, _, _, _) => !RemovedBefore(host, rs, k, common)
    case Worktree(locator, _, gitDir, _, common, _, _, _) =>
      && locator in host.checkouts && !RemovedBefore(host, rs, k, host.checkouts[locator].gitDir)
      && !RemovedBefore(host, rs, k + 1, common) && (host.missingOk || !RemovedBefore(host, rs, k, locator))
      && RemovedBefore(host, rs, k + 1, gitDir)
      && !exists at :: OtherHolder(host, rs, k, at)
  }

  /** Another worktree that has the branch of a worktree record checked out and is still listed after it. */
  ghost predicate OtherHolder(host: Host, rs: seq<Resource>, k: nat, at: Path)
    requires k < |rs| && rs[k].Worktree?
  {
    && at != rs[k].locator && at in host.checkouts && ChecksOut(host, rs[k].common, at, rs[k].branch)
    && !RemovedBefore(host, rs, k + 1, host.checkouts[at].gitDir)
  }

  lemma {:induction false} RefsDiffer(a: Resource, b: Resource)
    requires PhysicalIds(a) !! PhysicalIds(b) && !b.Local?
    ensures !DeletesRef(a, b.commonId, b.branch)
  {
    assert Ref(b.commonId, b.branch) in PhysicalIds(b);
    assert !a.Local? ==> Ref(a.commonId, a.branch) in PhysicalIds(a);
  }

  lemma {:induction false} PlacesDiffer(host: Host, a: Resource, b: Resource)
    requires Located(host, a) && Located(host, b) && PhysicalIds(a) !! PhysicalIds(b) && b.Worktree?
    ensures !Unregisters(a, b.locator)
  {
    assert File(b.target) in PhysicalIds(b);
    assert a.Worktree? ==> File(a.target) in PhysicalIds(a);
  }

  lemma {:induction false} RefSurvives(host: Host, rs: seq<Resource>, k: nat)
    requires Executable(host, rs) && k < |rs| && !rs[k].Local?
    ensures (rs[k].commonId, rs[k].branch) in After(host, rs, k).refs
  {
    AfterIsExact(host, rs, k);
    forall i | 0 <= i < k ensures !DeletesRef(rs[i], rs[k].commonId, rs[k].branch) {
      RefsDiffer(rs[i], rs[k]);
    }
  }

  lemma {:induction false} CheckoutSurvives(host: Host, rs: seq<Resource>, k: nat)
    requires Executable(host, rs) && k < |rs| && rs[k].Worktree?
    ensures rs[k].locator in After(host, rs, k).checkouts
  {
    AfterIsExact(host, rs, k);
    forall i | 0 <= i < k ensures !Unregisters(rs[i], rs[k].locator) {
      PlacesDiffer(host, rs[i], rs[k]);
    }
  }

  /** An earlier worktree record never has the branch of a later one checked out. */
  lemma {:induction false} OtherHoldersStayRegistered(host: Host, rs: seq<Resource>, k: nat, at: Path)
    requires Executable(host, rs) && k < |rs| && rs[k].Worktree?
    requires at in host.checkouts && ChecksOut(host, rs[k].common, at, rs[k].branch)
    ensures at in After(host, rs, k).checkouts
  {
    AfterIsExact(host, rs, k);
    forall i | 0 <= i < k ensures !Unregisters(rs[i], at) {
      HoldersDiffer(host, rs[i], rs[k], at);
    }
  }

  lemma {:induction false} HoldersDiffer(host: Host, a: Resource, b: Resource, at: Path)
    requires Located(host, a) && Located(host, b) && PhysicalIds(a) !! PhysicalIds(b) && b.Worktree?
    requires at in host.checkouts && ChecksOut(host, b.common, at, b.branch)
    ensures !Unregisters(a, at)
  {
    RefsDiffer(a, b);
    if a.Worktree? && BranchRefName(a.branch) == BranchRefName(b.branch) {
      SameBranchName(a.branch, b.branch);
    }
  }

  lemma {:induction false} SameBranchName(a: string, b: string)
    requires BranchRefName(a) == BranchRefName(b)
    ensures a == b
  {
    assert BranchRefName(a)[|HEADS|..] == a && BranchRefName(b)[|HEADS|..] == b;
  }

  lemma {:induction false} LocalStep(host: Host, rs: seq<Resource>, k: nat)
    requires Executable(host, rs) && k < |rs| && rs[k].Local?
    ensures Effect(After(host, rs, k), rs[k]).1 <==> Ready(host, rs, k)
    ensures Ready(host, rs, k) ==> Effect(After(host, rs, k), rs[k]).0 == After(host, rs, k + 1)
  {
    AfterIsExact(host, rs, k);
  }

  lemma {:induction false} BranchStep(host: Host, rs: seq<Resource>, k: nat)
    requires Executable(host, rs) && k < |rs| && rs[k].BranchRef?
    ensures Effect(After(host, rs, k), rs[k]).1 <==> Ready(host, rs, k)
    ensures Ready(host, rs, k) ==> Effect(After(host, rs, k), rs[k]).0 == After(host, rs, k + 1)
  {
    AfterIsExact(host, rs, k);
    RefSurvives(host, rs, k);
    var h, r := After(host, rs, k), rs[k];
    forall at | at in h.checkouts ensures !ChecksOut(h, r.common, at, r.branch) {
      assert !ChecksOut(host, r.common, at, r.branch);
    }
    assert WithoutNodes(h, p => Removes(host, r, p)).nodes == h.nodes;
  }

  lemma {:induction false} WorktreeStep(host: Host, rs: seq<Resource>, k: nat)
    requires Executable(host, rs) && k < |rs| && rs[k].Worktree?
    ensures Effect(After(host, rs, k), rs[k]).1 <==> Ready(host, rs, k)
    ensures Ready(host, rs, k) ==> Effect(After(host, rs, k), rs[k]).0 == After(host, rs, k + 1)
  {
    var h, r := After(host, rs, k), rs[k];
    CheckoutSurvives(host, rs, k);
    CheckoutAfter(host, rs, k, r.locator);
    MissingOkAfter(host, rs, k);
    var gitDir := host.checkouts[r.locator].gitDir;
    NodeAfter(host, rs, k, gitDir);
    NodeAfter(host, rs, k, r.common);
    NodeAfter(host, rs, k, r.locator);
    NodeAfter(host, rs, k + 1, r.common);
    NodeAfter(host, rs, k + 1, r.gitDir);
    RemovedStep(host, rs, k, r.common);
    RefSurvives(host, rs, k);
    var removed := WithoutCheckout(WithoutNodes(h, p => IsWithin(r.locator, p) || IsWithin(gitDir, p)), r.locator);
    assert removed.nodes == After(host, rs, k + 1).nodes;
    HoldersAgree(host, rs, k, removed);
    RegisteredStep(h, r, gitDir, removed);
    if Ready(host, rs, k) {
      assert WithoutRef(removed, r.commonId, r.branch) == Clear(host, h, r);
    }
  }

  lemma {:induction false} RegisteredStep(h: Host, r: Resource, gitDir: Path, removed: Host)
    requires r.Worktree? && r.locator in h.checkouts && h.checkouts[r.locator].gitDir == gitDir
    requires removed == WithoutCheckout(WithoutNodes(h, p => IsWithin(r.locator, p) || IsWithin(gitDir, p)), r.locator)
    ensures var listed := IsDirectory(h, r.common) && Listed(h, r.common, r.locator) && (h.missingOk || r.locator in h.nodes);
      Effect(h, r) == if !listed then (h, false)
                      else if r.gitDir in removed.nodes then (removed, false)
                      else DeleteBranch(removed, r.common, r.branch)
  {
  }

  lemma {:induction false} MissingOkAfter(host: Host, rs: seq<Resource>, k: nat)
    requires k <= |rs|
    ensures After(host, rs, k).missingOk == host.missingOk
  {
    AfterIsExact(host, rs, k);
  }

  lemma {:induction false} NodeAfter(host: Host, rs: seq<Resource>, k: nat, p: Path)
    requires k <= |rs|
    ensures p in After(host, rs, k).nodes <==> p in host.nodes && !RemovedBefore(host, rs, k, p)
    ensures p in After(host, rs, k).nodes ==> After(host, rs, k).nodes[p] == host.nodes[p]
  {
    AfterIsExact(host, rs, k);
  }

  lemma {:induction false} CheckoutAfter(host: Host, rs: seq<Resource>, k: nat, at: Path)
    requires k <= |rs| && at in After(host, rs, k).checkouts
    ensures at in host.checkouts && After(host, rs, k).checkouts[at] == host.checkouts[at]
  {
    AfterIsExact(host, rs, k);
  }

  lemma {:induction false} RemovedStep(host: Host, rs: seq<Resource>, k: nat, p: Path)
    requires k < |rs|
    ensures RemovedBefore(host, rs, k + 1, p) <==> RemovedBefore(host, rs, k, p) || Removes(host, rs[k], p)
  {
  }

  /** After the worktree is gone, its branch is held exactly by the holders whose Git directory is still there. */
  lemma {:induction false} HoldersAgree(host: Host, rs: seq<Resource>, k: nat, removed: Host)
    requires Executable(host, rs) && k < |rs| && rs[k].Worktree?
    requires removed.nodes == After(host, rs, k + 1).nodes
    requires removed.checkouts == After(host, rs, k).checkouts - {rs[k].locator}
    ensures CheckedOutSomewhere(removed, rs[k].common, rs[k].branch) <==> exists at :: OtherHolder(host, rs, k, at)
  {
    var r := rs[k];
    forall at ensures at in removed.checkouts && ChecksOut(removed, r.common, at, r.branch) <==> OtherHolder(host, rs, k, at) {
      HolderAgrees(host, rs, k, removed, at);
    }
  }

  lemma {:induction false} HolderAgrees(host: Host, rs: seq<Resource>, k: nat, removed: Host, at: Path)
    requires Executable(host, rs) && k < |rs| && rs[k].Worktree?
    requires removed.nodes == After(host, rs, k + 1).nodes
    requires removed.checkouts == After(host, rs, k).checkouts - {rs[k].locator}
    ensures at in removed.checkouts && ChecksOut(removed, rs[k].common, at, rs[k].branch) <==> OtherHolder(host, rs, k, at)
  {
    var r := rs[k];
    if at in removed.checkouts {
      CheckoutAfter(host, rs, k, at);
      NodeAfter(host, rs, k + 1, host.checkouts[at].gitDir);
    } else if at in host.checkouts && at != r.locator && ChecksOut(host, r.common, at, r.branch) {
      OtherHoldersStayRegistered(host, rs, k, at);
    }
  }

  lemma {:induction false} Step(host: Host, rs: seq<Resource>, k: nat)
    requires Executable(host, rs) && k < |rs|
    ensures Effect(After(host, rs, k), rs[k]).1 <==> Ready(host, rs, k)
    ensures Ready(host, rs, k) ==> Effect(After(host, rs, k), rs[k]).0 == After(host, rs, k + 1)
  {
    match rs[k]
    case Local(_, _, _, _, _, _) => LocalStep(host, rs, k);
    case BranchRef(_, _, _, _, _) => BranchStep(host, rs, k);
    case Worktree(_, _, _, _, _, _, _, _) => WorktreeStep(host, rs, k);
  }

  ghost predicate Completable(host: Host, rs: seq<Resource>)
  {
    forall k :: 0 <= k < |rs| ==> Ready(host, rs, k)
  }

  /** A run whose k-th step succeeds exactly when `ready(k)` completes exactly when all are ready. */
  lemma {:induction false} RunCompletes(k: nat, n: nat, step: (Host, nat) -> (Host, bool), at: nat -> Host, ready: nat -> bool)
    requires k <= n
    requires forall i :: 0 <= i < n ==> step(at(i), i).1 == ready(i) && (ready(i) ==> step(at(i), i).0 == at(i + 1))
    ensures RunSteps(at(k), k, n, step).done == n <==> forall i :: k <= i < n ==> ready(i)
    ensures RunSteps(at(k), k, n, step).done == n ==> RunSteps(at(k), k, n, step).host == at(n)
    decreases n - k
  {
    if k < n && ready(k) {
      RunCompletes(k + 1, n, step, at, ready);
    }
  }

  /**
   * A run without faults completes exactly when every record is still ready at its turn, and then
   * the host has lost exactly what the records own.
   */
  lemma {:induction false} CompletesExactlyWhenReady(host: Host, rs: seq<Resource>, faults: nat -> Fault)
    requires Executable(host, rs) && forall i: nat :: faults(i).NoFault?
    ensures Run(host, rs, faults).done == |rs| <==> Completable(host, rs)
    ensures Run(host, rs, faults).done == |rs| ==> Run(host, rs, faults).host == After(host, rs, |rs|)
  {
    ghost var at := (i: nat) => if i <= |rs| then After(host, rs, i) else host;
    ghost var ready := (i: nat) => i < |rs| && Ready(host, rs, i);
    var step := StepOf(rs, faults);
    forall i | 0 <= i < |rs| ensures step(at(i), i).1 == ready(i) && (ready(i) ==> step(at(i), i).0 == at(i + 1)) {
      Step(host, rs, i);
      assert step(at(i), i) == Effect(at(i), rs[i]);
    }
    RunCompletes(0, |rs|, step, at, ready);
    forall i | 0 <= i < |rs| ensures Ready(host, rs, i) == ready(i) {
    }
  }

  // ---------------------------------------------------------------- what any run leaves alone

  /** One host is another without some of what the first k records own. */
  ghost predicate Within(host: Host, h: Host, rs: seq<Resource>, k: nat)
    requires k <= |rs|
  {
    && (forall p :: p in h.nodes ==> p in host.nodes && h.nodes[p] == host.nodes[p])
    && (forall p :: p in host.nodes && !RemovedBefore(host, rs, k, p) ==> p in h.nodes)
    && (forall ref :: ref in h.refs ==> ref in host.refs && h.refs[ref] == host.refs[ref])
    && (forall id, b :: (id, b) in host.refs && !DeletedBefore(rs, k, id, b) ==> (id, b) in h.refs)
    && (forall at :: at in h.checkouts ==> at in host.checkouts && h.checkouts[at] == host.checkouts[at])
    && (forall at :: at in host.checkouts && !UnregisteredBefore(rs, k, at) ==> at in h.checkouts)
  }

  /** What one step, failing or not, may take away. */
  ghost predicate Lost(h: Host, g: Host, r: Resource)
  {
    && (forall p :: p in g.nodes ==> p in h.nodes && g.nodes[p] == h.nodes[p])
    && (forall p :: p in h.nodes && !Removes(h, r, p) ==> p in g.nodes)
    && (forall ref :: ref in g.refs ==> ref in h.refs && g.refs[ref] == h.refs[ref])
    && (forall id, b :: (id, b) in h.refs && !DeletesRef(r, id, b) ==> (id, b) in g.refs)
    && (forall at :: at in g.checkouts ==> at in h.checkouts && g.checkouts[at] == h.checkouts[at])
    && (forall at :: at in h.checkouts && !Unregisters(r, at) ==> at in g.checkouts)
  }

  lemma {:induction false} PartialLoses(h: Host, r: Resource, fault: Fault)
    requires fault.Fault?
    ensures Lost(h, Partial(h, r, fault), r)
  {
  }

  lemma {:induction false} LocalLoses(h: Host, r: Resource)
    requires r.Local?
    ensures Lost(h, RemoveLocal(h, r).0, r)
  {
  }

  lemma {:induction false} BranchLoses(h: Host, r: Resource)
    requires !r.Local? && (r.common in h.nodes ==> h.nodes[r.common].id == r.commonId)
    ensures Lost(h, DeleteBranch(h, r.common, r.branch).0, r)
  {
  }

  lemma {:induction false} WorktreeLoses(h: Host, r: Resource)
    requires r.Worktree? && (r.common in h.nodes ==> h.nodes[r.common].id == r.commonId)
    ensures Lost(h, RemoveWorktree(h, r).0, r)
  {
    if IsDirectory(h, r.common) && Listed(h, r.common, r.locator) && (h.missingOk || r.locator in h.nodes) {
      var gitDir := h.checkouts[r.locator].gitDir;
      var removed := WithoutCheckout(WithoutNodes(h, p => IsWithin(r.locator, p) || IsWithin(gitDir, p)), r.locator);
      assert Lost(h, removed, r);
      BranchLoses(removed, r);
    }
  }

  lemma {:induction false} StepLoses(h: Host, r: Resource, fault: Fault)
    requires !r.Local? ==> r.common in h.nodes ==> h.nodes[r.common].id == r.commonId
    ensures Lost(h, ExecuteOne(h, r, fault).0, r)
  {
    if fault.Fault? {
      PartialLoses(h, r, fault);
    } else {
      match r
      case Local(_, _, _, _, _, _) => LocalLoses(h, r);
      case BranchRef(_, _, _, _, _) => BranchLoses(h, r);
      case Worktree(_, _, _, _, _, _, _, _) => WorktreeLoses(h, r);
    }
  }

  lemma {:induction false} StepStaysWithin(host: Host, h: Host, rs: seq<Resource>, k: nat, fault: Fault)
    requires k < |rs| && Within(host, h, rs, k) && Located(host, rs[k])
    ensures Within(host, ExecuteOne(h, rs[k], fault).0, rs, k + 1)
  {
    StepLoses(h, rs[k], fault);
    LostStaysWithin(host, h, ExecuteOne(h, rs[k], fault).0, rs, k);
  }

  lemma {:induction false} LostStaysWithin(host: Host, h: Host, g: Host, rs: seq<Resource>, k: nat)
    requires k < |rs| && Within(host, h, rs, k) && Lost(h, g, rs[k])
    ensures Within(host, g, rs, k + 1)
  {
    forall p | p in host.nodes && !RemovedBefore(host, rs, k + 1, p) ensures p in g.nodes {
      RemovedStep(host, rs, k, p);
    }
  }

  /** How many records a run has started on. */
  function Tried(rs: seq<Resource>, o: Outcome): (n: nat)
    requires o.done <= |rs|
    ensures n <= |rs|
  {
    if o.done < |rs| then o.done + 1 else |rs|
  }

  /** What every started step keeps holds when the run ends. */
  lemma {:induction false} RunKeeps(h: Host, k: nat, n: nat, step: (Host, nat) -> (Host, bool), keeps: (Host, nat) -> bool)
    requires k <= n && keeps(h, k)
    requires forall g, i :: 0 <= i < n && keeps(g, i) ==> keeps(step(g, i).0, i + 1)
    ensures var o := RunSteps(h, k, n, step); keeps(o.host, if o.done < n then o.done + 1 else n)
    decreases n - k
  {
    if k < n {
      var (g, ok) := step(h, k);
      if ok {
        RunKeeps(g, k + 1, n, step, keeps);
      }
    }
  }

  lemma {:induction false} RunStaysWithin(host: Host, rs: seq<Resource>, faults: nat -> Fault)
    requires Executable(host, rs)
    ensures Within(host, Run(host, rs, faults).host, rs, Tried(rs, Run(host, rs, faults)))
  {
    ghost var keeps := (g: Host, i: nat) => i <= |rs| && Within(host, g, rs, i);
    var step := StepOf(rs, faults);
    forall g, i | 0 <= i < |rs| && keeps(g, i) ensures keeps(step(g, i).0, i + 1) {
      StepStaysWithin(host, g, rs, i, faults(i));
    }
    RunKeeps(host, 0, |rs|, step, keeps);
  }

  /**
   * However a run ends, nothing is added or changed, everything outside the records up to the failing
   * one is still there, and the branches and worktree registrations of the later records are intact.
   */
  lemma {:induction false} RunTouchesOnlyItsRecords(host: Host, rs: seq<Resource>, faults: nat -> Fault)
    requires Executable(host, rs)
    ensures var o := Run(host, rs, faults);
      var tried := Tried(rs, o);
      && Within(host, o.host, rs, tried)
      && (forall j :: tried <= j < |rs| && !rs[j].Local? ==> (rs[j].commonId, rs[j].branch) in o.host.refs)
      && (forall j :: tried <= j < |rs| && rs[j].Worktree? ==> rs[j].locator in o.host.checkouts)
  {
    RunStaysWithin(host, rs, faults);
    var o := Run(host, rs, faults);
    var tried := Tried(rs, o);
    forall j | tried <= j < |rs| && !rs[j].Local? ensures (rs[j].commonId, rs[j].branch) in o.host.refs {
      LaterRefStays(host, o.host, rs, tried, j);
    }
    forall j | tried <= j < |rs| && rs[j].Worktree? ensures rs[j].locator in o.host.checkouts {
      LaterCheckoutStays(host, o.host, rs, tried, j);
    }
  }

  lemma {:induction false} LaterRefStays(host: Host, h: Host, rs: seq<Resource>, tried: nat, j: nat)
    requires Executable(host, rs) && tried <= j < |rs| && !rs[j].Local? && Within(host, h, rs, tried)
    ensures (rs[j].commonId, rs[j].branch) in h.refs
  {
    RefIsThere(host, rs, j);
    forall i | 0 <= i < tried ensures !DeletesRef(rs[i], rs[j].commonId, rs[j].branch) {
      RefsDiffer(rs[i], rs[j]);
    }
    assert !DeletedBefore(rs, tried, rs[j].commonId, rs[j].branch);
  }

  lemma {:induction false} RefIsThere(host: Host, rs: seq<Resource>, j: nat)
    requires Executable(host, rs) && j < |rs| && !rs[j].Local?
    ensures (rs[j].commonId, rs[j].branch) in host.refs
  {
    RefSurvives(host, rs, j);
    AfterIsExact(host, rs, j);
  }

  lemma {:induction false} LaterCheckoutStays(host: Host, h: Host, rs: seq<Resource>, tried: nat, j: nat)
    requires Executable(host, rs) && tried <= j < |rs| && rs[j].Worktree? && Within(host, h, rs, tried)
    ensures rs[j].locator in h.checkouts
  {
    forall i | 0 <= i < tried ensures !Unregisters(rs[i], rs[j].locator) {
      PlacesDiffer(host, rs[i], rs[j]);
    }
    assert !UnregisteredBefore(rs, tried, rs[j].locator);
  }

  /**
   * No run of revalidated temporary and log records, however it ends, removes a default protected
   * root, an allowed root, or anything at or under an explicit protected root.
   */
  lemma {:induction false} RunSparesProtectedRoots(host: Host, roots: Roots, rs: seq<Resource>, faults: nat -> Fault, path: Path)
    requires Executable(host, rs) && forall i :: 0 <= i < |rs| ==> rs[i].Local? && Revalidate(host, roots, rs[i]).Ok?
    requires path in roots.defaults || path in roots.allowed
      || exists i :: 0 <= i < |roots.explicit| && IsWithin(roots.explicit[i], path)
    requires path in host.nodes
    ensures path in Run(host, rs, faults).host.nodes && Run(host, rs, faults).host.nodes[path] == host.nodes[path]
  {
    RunTouchesOnlyItsRecords(host, rs, faults);
    forall i | 0 <= i < |rs| ensures !Removes(host, rs[i], path) {
      RemovalSparesProtectedRoots(host, roots, rs[i], path);
    }
  }

  /**
   * Distinct inodes do not make targets independent: a log inside a temporary directory is accepted
   * beside it, and the run then fails after the directory is gone.
   */
  lemma {:induction false} NestedTargetsStall(host: Host, rs: seq<Resource>, i: nat, j: nat, faults: nat -> Fault)
    requires Executable(host, rs) && i < j < |rs| && rs[i].Local? && rs[j].Local?
    requires IsWithin(rs[i].locator, rs[j].locator) && forall k: nat :: faults(k).NoFault?
    ensures Run(host, rs, faults).done < |rs|
  {
    CompletesExactlyWhenReady(host, rs, faults);
    assert Removes(host, rs[i], rs[j].locator);
    assert !Ready(host, rs, j);
  }

  lemma {:induction false} NestedTargetsAreAccepted()
    ensures var scratch, dir, log := ["t"], ["t", "a"], ["t", "a", "l"];
      var host := Host(map[scratch := Node(FileId(1, 1), Directory, 3), dir := Node(FileId(1, 2), Directory, 2),
                           log := Node(FileId(1, 3), RegularFile, 1)], map[], map[], true);
      var roots := Roots([scratch], [[]], []);
      var first, second := InspectLocal(host, roots, Temporary, dir), InspectLocal(host, roots, Log, log);
      && first.Ok? && second.Ok? && Executable(host, [first.value, second.value])
      && IsWithin(first.value.locator, second.value.locator)
  {
    var scratch, dir, log := ["t"], ["t", "a"], ["t", "a", "l"];
    assert dir[..1] == scratch && log[..1] == scratch && log[..2] == dir;
    assert SelectRoot([scratch], dir) == Some(scratch) && SelectRoot([scratch], log) == Some(scratch);
  }
}
