// close_inventory_edge.py: the host as the cleanup edge sees it, and how targets are inspected,
// revalidated and removed. Paths are canonical: a sequence of names below the root directory.
module CloseHost {
  import opened Ordering
  import opened Wrappers

  datatype Code =
    | InvalidWork | CategoryConflict | WorkspaceRequiresAdoption | InvalidResource | ActionUnsupported
    | AllowedRootMissing | AllowedRootInvalid | TargetOutsideAllowedRoot | TargetUnavailable | SymlinkForbidden
    | LogMustBeRegularFile | TemporaryTypeUnsupported | WorkspaceNotDirectory | HardlinkForbidden
    | TargetIdentityChanged | GitIdentityChanged | GitCommandFailed | BranchInvalid | BranchIsCheckedOut
    | WorkspaceNotCanonicalRoot | WorkspaceIsMainWorktree | WorkspaceNotLinkedWorktree | WorkspaceDetachedHead
    | DuplicateResource | PhysicalTargetConflict | IncompleteCoverage | RegistryMalformed
    | FreezeBindingInvalid | FreezeBindingMismatch | FreezeSealInvalid | FreezeSetInvalid | FreezeMissing
    | PublicSetMismatch | ExecutionOutcomeUnknown | HostFailure

  datatype Result<T> = Ok(value: T) | Err(code: Code)

  // ---------------------------------------------------------------- host

  type Path = seq<string>

  predicate IsWithin(root: Path, candidate: Path)
  {
    root <= candidate
  }

  /** Device and inode number. */
  datatype FileId = FileId(dev: nat, ino: nat)

  datatype NodeType = RegularFile | Directory | Symlink | Special

  datatype Node = Node(id: FileId, nodeType: NodeType, links: nat)

  datatype Head = Detached(oid: string) | Symbolic(ref: string)

  /** One Git worktree: where its own and its common Git directory are, and what is checked out. */
  datatype Checkout = Checkout(gitDir: Path, common: Path, head: Head)

  /**
   * `refs` maps a common Git directory and a branch to a commit. `missingOk` says whether Git
   * removes the registration of a worktree whose directory is already gone.
   */
  datatype Host = Host(
    nodes: map<Path, Node>,
    refs: map<(FileId, string), string>,
    checkouts: map<Path, Checkout>,
    missingOk: bool)

  datatype Roots = Roots(allowed: seq<Path>, defaults: seq<Path>, explicit: seq<Path>)

  predicate IsDirectory(host: Host, path: Path)
  {
    path in host.nodes && host.nodes[path].nodeType.Directory?
  }

  /** The entries of `git worktree list` for one common Git directory. */
  predicate Listed(host: Host, common: Path, at: Path)
  {
    at in host.checkouts && host.checkouts[at].common == common && host.checkouts[at].gitDir in host.nodes
  }

  predicate ChecksOut(host: Host, common: Path, at: Path, branch: string)
  {
    Listed(host, common, at) && host.checkouts[at].head == Symbolic(BranchRefName(branch))
  }

  predicate CheckedOutSomewhere(host: Host, common: Path, branch: string)
  {
    exists at :: at in host.checkouts && ChecksOut(host, common, at, branch)
  }

  const HEADS := "refs/heads/"

  function BranchRefName(branch: string): string
  {
    HEADS + branch
  }

  /** The innermost worktree that holds a path. */
  function Enclosing(host: Host, path: Path): Option<Path>
  {
    if path in host.checkouts then Some(path)
    else if path == [] then None
    else Enclosing(host, path[..|path| - 1])
  }

  // ---------------------------------------------------------------- resources

  datatype Kind = Workspace | Temporary | Log | Branch

  const KINDS: seq<Kind> := [Workspace, Temporary, Log, Branch]

  function ExecutionOrder(kind: Kind): nat
  {
    match kind
    case Temporary => 0
    case Log => 1
    case Branch => 2
    case Workspace => 3
  }

  datatype Resource =
    | Local(local: Kind, locator: Path, targetType: NodeType, target: FileId, root: Path, rootId: FileId)
    | BranchRef(repository: Path, common: Path, commonId: FileId, branch: string, oid: string)
    | Worktree(locator: Path, target: FileId, gitDir: Path, gitDirId: FileId,
               common: Path, commonId: FileId, branch: string, oid: string)

  function KindOf(r: Resource): Kind
  {
    match r
    case Local(kind, _, _, _, _, _) => kind
    case BranchRef(_, _, _, _, _) => Branch
    case Worktree(_, _, _, _, _, _, _, _) => Workspace
  }

  predicate WellKinded(r: Resource)
  {
    r.Local? ==> r.local in {Temporary, Log}
  }

  /** What a cleanup of the resource would physically destroy. */
  datatype PhysicalId = File(id: FileId) | Ref(repo: FileId, name: string)

  function PhysicalIds(r: Resource): set<PhysicalId>
  {
    match r
    case Local(_, _, _, target, _, _) => {File(target)}
    case BranchRef(_, _, commonId, branch, _) => {Ref(commonId, branch)}
    case Worktree(_, target, _, _, _, commonId, branch, _) => {File(target), Ref(commonId, branch)}
  }

  function Digits(n: nat): string
  {
    if n < 10 then [('0' as int + n) as char] else Digits(n / 10) + [('0' as int + n % 10) as char]
  }

  function FileText(prefix: string, id: FileId): string
  {
    prefix + Digits(id.dev) + ":" + Digits(id.ino)
  }

  /** `physical_ids` as the registry stores them. */
  function PhysicalText(p: PhysicalId): string
  {
    match p
    case File(id) => FileText("fs:", id)
    case Ref(repo, name) => FileText("branch:", repo) + ":" + name
  }

  function IdentityText(r: Resource): string
  {
    match r
    case Local(_, _, _, target, _, _) => FileText("fs:", target)
    case BranchRef(_, _, commonId, branch, _) => PhysicalText(Ref(commonId, branch))
    case Worktree(_, target, _, _, _, _, _, _) => FileText("worktree:", target)
  }

  lemma {:induction false} DigitsOnly(n: nat)
    ensures |Digits(n)| > 0 && forall i :: 0 <= i < |Digits(n)| ==> '0' <= Digits(n)[i] <= '9'
  {
    if n >= 10 {
      DigitsOnly(n / 10);
    }
  }

  lemma {:induction false} DigitsInjective(m: nat, n: nat)
    requires Digits(m) == Digits(n)
    ensures m == n
  {
    DigitsOnly(m / 10);
    DigitsOnly(n / 10);
    var k := |Digits(m)| - 1;
    assert Digits(m)[k] == Digits(n)[k];
    if m >= 10 && n >= 10 {
      assert Digits(m)[..k] == Digits(m / 10) && Digits(n)[..k] == Digits(n / 10);
      DigitsInjective(m / 10, n / 10);
    }
  }

  /** A run of digits and a colon can be read back from the front of any text. */
  lemma {:induction false} NumberReadsBack(m: nat, n: nat, x: string, y: string)
    requires Digits(m) + ":" + x == Digits(n) + ":" + y
    ensures m == n && x == y
  {
    DigitsOnly(m);
    DigitsOnly(n);
    var a, b := Digits(m), Digits(n);
    var s := a + ":" + x;
    assert s[|a|] == ':' && (b + ":" + y)[|b|] == ':';
    assert forall i :: 0 <= i < |a| ==> s[i] == a[i];
    assert forall i :: 0 <= i < |b| ==> (b + ":" + y)[i] == b[i];
    assert |a| == |b|;
    assert a == s[..|a|] && b == s[..|b|];
    DigitsInjective(m, n);
    assert x == s[|a| + 1..] && y == (b + ":" + y)[|b| + 1..];
  }

  lemma {:induction false} FileTextReadsBack(prefix: string, a: FileId, b: FileId, x: string, y: string)
    requires FileText(prefix, a) + ":" + x == FileText(prefix, b) + ":" + y
    ensures a == b && x == y
  {
    var n := |prefix|;
    var s, t := FileText(prefix, a) + ":" + x, FileText(prefix, b) + ":" + y;
    assert s[n..] == Digits(a.dev) + ":" + (Digits(a.ino) + ":" + x);
    assert t[n..] == Digits(b.dev) + ":" + (Digits(b.ino) + ":" + y);
    NumberReadsBack(a.dev, b.dev, Digits(a.ino) + ":" + x, Digits(b.ino) + ":" + y);
    NumberReadsBack(a.ino, b.ino, x, y);
  }

  /** Two targets have the same stored text exactly when they are the same target. */
  lemma {:induction false} PhysicalTextInjective(p: PhysicalId, q: PhysicalId)
    ensures PhysicalText(p) == PhysicalText(q) <==> p == q
  {
    if PhysicalText(p) == PhysicalText(q) {
      assert PhysicalText(p)[0] == PhysicalText(q)[0];
      if p.File? {
        FileTextReadsBack("fs:", p.id, q.id, "", "");
      } else {
        FileTextReadsBack("branch:", p.repo, q.repo, p.name, q.name);
      }
    }
  }

  // ---------------------------------------------------------------- inspection

  function CanonicalTarget(host: Host, path: Path, kind: Kind): Result<Node>
  {
    if path !in host.nodes then Err(TargetUnavailable)
    else
      var node := host.nodes[path];
      if node.nodeType.Symlink? then Err(SymlinkForbidden)
      else if kind == Log && !node.nodeType.RegularFile? then Err(LogMustBeRegularFile)
      else if kind == Temporary && !node.nodeType.RegularFile? && !node.nodeType.Directory? then Err(TemporaryTypeUnsupported)
      else if kind == Workspace && !node.nodeType.Directory? then Err(WorkspaceNotDirectory)
      else if node.nodeType.RegularFile? && node.links != 1 then Err(HardlinkForbidden)
      else Ok(node)
  }

  function ExistingDirectory(host: Host, path: Path, code: Code): Result<FileId>
  {
    if IsDirectory(host, path) then Ok(host.nodes[path].id) else Err(code)
  }

  predicate IsProtectedTarget(roots: Roots, candidate: Path)
  {
    || (exists i :: 0 <= i < |roots.defaults| && IsWithin(candidate, roots.defaults[i]))
    || (exists i :: 0 <= i < |roots.allowed| && IsWithin(candidate, roots.allowed[i]))
    || (exists i :: 0 <= i < |roots.explicit| && (IsWithin(roots.explicit[i], candidate) || IsWithin(candidate, roots.explicit[i])))
  }

  function SelectRoot(allowed: seq<Path>, path: Path): Option<Path>
  {
    if allowed == [] then None
    else if path != allowed[0] && IsWithin(allowed[0], path) then Some(allowed[0])
    else SelectRoot(allowed[1..], path)
  }

  /** The allowed roots were canonical directories when the store was opened; their `stat` may fail later. */
  function InspectLocal(host: Host, roots: Roots, kind: Kind, path: Path): Result<Resource>
  {
    if roots.allowed == [] then Err(AllowedRootMissing)
    else
      match CanonicalTarget(host, path, kind)
      case Err(code) => Err(code)
      case Ok(node) =>
        var root := SelectRoot(roots.allowed, path);
        if root.None? || IsProtectedTarget(roots, path) then Err(TargetOutsideAllowedRoot)
        else if !IsDirectory(host, root.value) then Err(HostFailure)
        else Ok(Local(kind, path, node.nodeType, node.id, root.value, host.nodes[root.value].id))
  }

  predicate IsBranchName(branch: string)
  {
    && 1 <= |branch| <= 255 && IsAlphanumeric(branch[0])
    && forall i :: 1 <= i < |branch| ==> IsAlphanumeric(branch[i]) || branch[i] in "._/-"
  }

  predicate IsIdentifier(text: string)
  {
    && 1 <= |text| <= 256 && IsAlphanumeric(text[0])
    && forall i :: 1 <= i < |text| ==> IsAlphanumeric(text[i]) || text[i] in "._:-"
  }

  predicate IsAlphanumeric(c: char)
  {
    'a' <= c <= 'z' || 'A' <= c <= 'Z' || '0' <= c <= '9'
  }

  /** A directory inside a worktree whose Git directories are in place. */
  function GitWorktree(host: Host, path: Path): (r: Result<Path>)
    ensures r.Ok? ==> path in host.nodes && GitAlive(host, r.value)
  {
    match CanonicalTarget(host, path, Workspace)
    case Err(code) => Err(code)
    case Ok(_) =>
      match Enclosing(host, path)
      case None => Err(GitCommandFailed)
      case Some(top) =>
        if GitAlive(host, top) then Ok(top) else Err(GitCommandFailed)
  }

  predicate GitAlive(host: Host, top: Path)
  {
    top in host.checkouts && IsDirectory(host, host.checkouts[top].gitDir) && IsDirectory(host, host.checkouts[top].common)
  }

  /** `git -C path symbolic-ref HEAD` */
  function HeadRef(host: Host, path: Path): Option<string>
  {
    var top := Enclosing(host, path);
    if top.Some? && GitAlive(host, top.value) && host.checkouts[top.value].head.Symbolic?
    then Some(host.checkouts[top.value].head.ref) else None
  }

  /** `git -C path rev-parse --verify HEAD` */
  function HeadOid(host: Host, path: Path): Option<string>
  {
    var top := Enclosing(host, path);
    if top.None? || !GitAlive(host, top.value) then None
    else
      var checkout := host.checkouts[top.value];
      match checkout.head
      case Detached(oid) => Some(oid)
      case Symbolic(ref) =>
        var id := host.nodes[checkout.common].id;
        if HEADS <= ref && (id, ref[|HEADS|..]) in host.refs then Some(host.refs[(id, ref[|HEADS|..])]) else None
  }

  function InspectBranch(host: Host, repository: Path, branch: string): Result<Resource>
  {
    match GitWorktree(host, repository)
    case Err(code) => Err(code)
    case Ok(top) =>
      if !IsBranchName(branch) then Err(BranchInvalid)
      else
        var common := host.checkouts[top].common;
        var id := host.nodes[common].id;
        if (id, branch) !in host.refs then Err(GitCommandFailed)
        else if CheckedOutSomewhere(host, common, branch) then Err(BranchIsCheckedOut)
        else Ok(BranchRef(repository, common, id, branch, host.refs[(id, branch)]))
  }

  function InspectWorktree(host: Host, workspace: Path): Result<Resource>
  {
    match GitWorktree(host, workspace)
    case Err(code) => Err(code)
    case Ok(top) =>
      if top != workspace then Err(WorkspaceNotCanonicalRoot)
      else
        var checkout := host.checkouts[workspace];
        var ref := HeadRef(host, workspace);
        if checkout.gitDir == checkout.common then Err(WorkspaceIsMainWorktree)
        else if !IsWithin(checkout.common + ["worktrees"], checkout.gitDir) then Err(WorkspaceNotLinkedWorktree)
        else if ref.None? then Err(GitCommandFailed)
        else if !(HEADS <= ref.value) then Err(WorkspaceDetachedHead)
        else
          var branch, oid := ref.value[|HEADS|..], HeadOid(host, workspace);
          if !IsBranchName(branch) then Err(BranchInvalid)
          else if oid.None? then Err(GitCommandFailed)
          else if !ChecksOut(host, checkout.common, workspace, branch) then Err(WorkspaceNotLinkedWorktree)
          else Ok(Worktree(workspace, host.nodes[workspace].id, checkout.gitDir, host.nodes[checkout.gitDir].id,
                           checkout.common, host.nodes[checkout.common].id, branch, oid.value))
  }

  // ---------------------------------------------------------------- revalidation

  function RevalidateLocal(host: Host, roots: Roots, r: Resource): Result<()>
    requires r.Local?
  {
    match CanonicalTarget(host, r.locator, r.local)
    case Err(code) => Err(code)
    case Ok(node) =>
      match ExistingDirectory(host, r.root, AllowedRootInvalid)
      case Err(code) => Err(code)
      case Ok(rootId) =>
        if r.locator == r.root || !IsWithin(r.root, r.locator) || IsProtectedTarget(roots, r.locator)
          || node.id != r.target || node.nodeType != r.targetType || rootId != r.rootId
        then Err(TargetIdentityChanged) else Ok(())
  }

  function RevalidateBranch(host: Host, r: Resource): Result<()>
    requires r.BranchRef?
  {
    match ExistingDirectory(host, r.common, GitIdentityChanged)
    case Err(code) => Err(code)
    case Ok(id) =>
      if id != r.commonId then Err(GitIdentityChanged)
      else if (id, r.branch) !in host.refs then Err(GitCommandFailed)
      else if host.refs[(id, r.branch)] != r.oid then Err(GitIdentityChanged)
      else if CheckedOutSomewhere(host, r.common, r.branch) then Err(BranchIsCheckedOut)
      else Ok(())
  }

  function RevalidateWorktree(host: Host, r: Resource): Result<()>
    requires r.Worktree?
  {
    match CanonicalTarget(host, r.locator, Workspace)
    case Err(code) => Err(code)
    case Ok(node) =>
      if !IsDirectory(host, r.gitDir) || !IsDirectory(host, r.common)
        || node.id != r.target || host.nodes[r.gitDir].id != r.gitDirId || host.nodes[r.common].id != r.commonId
      then Err(GitIdentityChanged)
      else if HeadOid(host, r.locator).None? then Err(GitCommandFailed)
      else if HeadOid(host, r.locator).value != r.oid then Err(GitIdentityChanged)
      else if HeadRef(host, r.locator).None? then Err(GitCommandFailed)
      else if HeadRef(host, r.locator).value != BranchRefName(r.branch) then Err(GitIdentityChanged)
      else if ChecksOut(host, r.common, r.locator, r.branch) then Ok(())
      else Err(WorkspaceNotLinkedWorktree)
  }

  function Revalidate(host: Host, roots: Roots, r: Resource): Result<()>
  {
    match r
    case Local(_, _, _, _, _, _) => RevalidateLocal(host, roots, r)
    case BranchRef(_, _, _, _, _) => RevalidateBranch(host, r)
    case Worktree(_, _, _, _, _, _, _, _) => RevalidateWorktree(host, r)
  }

  /** What inspection has just described passes revalidation on the same host. */
  lemma {:induction false} LocalInspectionRevalidates(host: Host, roots: Roots, kind: Kind, path: Path)
    requires InspectLocal(host, roots, kind, path).Ok?
    ensures Revalidate(host, roots, InspectLocal(host, roots, kind, path).value).Ok?
  {
    SelectedRootHolds(roots.allowed, path);
  }

  lemma {:induction false} SelectedRootHolds(allowed: seq<Path>, path: Path)
    requires SelectRoot(allowed, path).Some?
    ensures SelectRoot(allowed, path).value in allowed
    ensures SelectRoot(allowed, path).value != path && IsWithin(SelectRoot(allowed, path).value, path)
  {
    if !(path != allowed[0] && IsWithin(allowed[0], path)) {
      SelectedRootHolds(allowed[1..], path);
    }
  }

  lemma {:induction false} BranchInspectionRevalidates(host: Host, roots: Roots, repository: Path, branch: string)
    requires InspectBranch(host, repository, branch).Ok?
    ensures Revalidate(host, roots, InspectBranch(host, repository, branch).value).Ok?
  {
  }

  lemma {:induction false} WorktreeInspectionRevalidates(host: Host, roots: Roots, workspace: Path)
    requires InspectWorktree(host, workspace).Ok?
    ensures Revalidate(host, roots, InspectWorktree(host, workspace).value).Ok?
  {
    var ref := HeadRef(host, workspace).value;
    assert HEADS + ref[|HEADS|..] == ref;
  }

  // ---------------------------------------------------------------- in terms of the host alone

  ghost predicate DirectoryWithId(host: Host, path: Path, id: FileId)
  {
    path in host.nodes && host.nodes[path].nodeType == Directory && host.nodes[path].id == id
  }

  /** A regular file without a second hard link, or, for a temporary target, a directory. */
  ghost predicate PlainTarget(host: Host, path: Path, kind: Kind)
  {
    && path in host.nodes
    && ((host.nodes[path].nodeType == RegularFile && host.nodes[path].links == 1)
        || (host.nodes[path].nodeType == Directory && kind == Temporary))
  }

  /** No default or allowed root is at or below the path, and no explicit root above, at or below it. */
  ghost predicate Unprotected(roots: Roots, path: Path)
  {
    && (forall i :: 0 <= i < |roots.defaults| ==> !(path <= roots.defaults[i]))
    && (forall i :: 0 <= i < |roots.allowed| ==> !(path <= roots.allowed[i]))
    && (forall i :: 0 <= i < |roots.explicit| ==> !(roots.explicit[i] <= path) && !(path <= roots.explicit[i]))
  }

  /** A worktree that Git still lists for a common directory and that has the branch checked out. */
  ghost predicate Holder(host: Host, common: Path, branch: string, at: Path)
  {
    && at in host.checkouts && host.checkouts[at].common == common && host.checkouts[at].gitDir in host.nodes
    && host.checkouts[at].head == Symbolic("refs/heads/" + branch)
  }

  ghost predicate BranchAt(host: Host, commonId: FileId, branch: string, oid: string)
  {
    (commonId, branch) in host.refs && host.refs[(commonId, branch)] == oid
  }

  /** Everything a registration has recorded about its target is still so. */
  ghost predicate Unchanged(host: Host, roots: Roots, r: Resource)
  {
    match r
    case Local(kind, locator, targetType, target, root, rootId) =>
      && PlainTarget(host, locator, kind) && host.nodes[locator].id == target && host.nodes[locator].nodeType == targetType
      && DirectoryWithId(host, root, rootId) && root < locator && Unprotected(roots, locator)
    case BranchRef(_, common, commonId, branch, oid) =>
      && DirectoryWithId(host, common, commonId) && BranchAt(host, commonId, branch, oid)
      && !exists at :: Holder(host, common, branch, at)
    case Worktree(locator, target, gitDir, gitDirId, common, commonId, branch, oid) =>
      && DirectoryWithId(host, locator, target) && DirectoryWithId(host, gitDir, gitDirId) && DirectoryWithId(host, common, commonId)
      && Holder(host, common, branch, locator) && host.nodes[host.checkouts[locator].gitDir].nodeType == Directory
      && BranchAt(host, commonId, branch, oid)
  }

  /** A target revalidates exactly when nothing recorded about it has changed. */
  lemma {:induction false} RevalidatesExactlyWhenUnchanged(host: Host, roots: Roots, r: Resource)
    requires WellKinded(r)
    ensures Revalidate(host, roots, r).Ok? <==> Unchanged(host, roots, r)
  {
    match r
    case Local(_, _, _, _, _, _) =>
    case BranchRef(_, common, _, branch, _) =>
      assert forall at :: Holder(host, common, branch, at) <==> at in host.checkouts && ChecksOut(host, common, at, branch);
    case Worktree(_, _, _, _, _, _, _, _) => WorktreeRevalidatesExactlyWhenUnchanged(host, r);
  }

  lemma {:induction false} WorktreeRevalidatesExactlyWhenUnchanged(host: Host, r: Resource)
    requires r.Worktree?
    ensures RevalidateWorktree(host, r).Ok? <==> Unchanged(host, Roots([], [], []), r)
  {
    assert Holder(host, r.common, r.branch, r.locator) <==> ChecksOut(host, r.common, r.locator, r.branch) && r.locator in host.checkouts;
    if r.locator in host.checkouts && host.checkouts[r.locator].head == Symbolic(BranchRefName(r.branch)) {
      assert BranchRefName(r.branch)[|HEADS|..] == r.branch;
    }
  }

  /** The first allowed root strictly above a path. */
  ghost predicate FirstAbove(allowed: seq<Path>, path: Path, i: nat)
  {
    i < |allowed| && allowed[i] < path && forall j :: 0 <= j < i ==> !(allowed[j] < path)
  }

  lemma {:induction false} SelectsTheFirst(allowed: seq<Path>, path: Path)
    ensures SelectRoot(allowed, path).Some? <==> exists i: nat :: FirstAbove(allowed, path, i)
    ensures forall i: nat :: FirstAbove(allowed, path, i) ==> SelectRoot(allowed, path) == Some(allowed[i])
  {
    if allowed == [] {
    } else if allowed[0] < path {
      assert FirstAbove(allowed, path, 0);
    } else {
      SelectsTheFirst(allowed[1..], path);
      forall i: nat ensures FirstAbove(allowed, path, i) ==> i > 0 && FirstAbove(allowed[1..], path, i - 1) {
        FirstAboveLater(allowed, path, i);
      }
      if i: nat :| FirstAbove(allowed[1..], path, i) {
        FirstAboveLater(allowed, path, i + 1);
      }
    }
  }

  lemma {:induction false} FirstAboveLater(allowed: seq<Path>, path: Path, i: nat)
    requires allowed != [] && !(allowed[0] < path)
    ensures FirstAbove(allowed, path, i) <==> i > 0 && FirstAbove(allowed[1..], path, i - 1)
  {
    assert forall j :: 0 <= j < |allowed| - 1 ==> allowed[1..][j] == allowed[j + 1];
    if i > 0 && FirstAbove(allowed[1..], path, i - 1) {
      forall j | 0 <= j < i ensures !(allowed[j] < path) {
        assert j > 0 ==> allowed[1..][j - 1] == allowed[j];
      }
    }
  }

  /**
   * A temporary or log target is accepted exactly when it is plain, unprotected, and the first allowed root
   * strictly above it is a directory; what is recorded is what is there.
   */
  lemma {:induction false} LocalAcceptedExactly(host: Host, roots: Roots, kind: Kind, path: Path)
    requires kind in {Temporary, Log}
    ensures InspectLocal(host, roots, kind, path).Ok? <==>
      && PlainTarget(host, path, kind) && Unprotected(roots, path)
      && exists i: nat :: FirstAbove(roots.allowed, path, i) && IsDirectory(host, roots.allowed[i])
    ensures InspectLocal(host, roots, kind, path).Ok? ==>
      var r := InspectLocal(host, roots, kind, path).value;
      && r.Local? && r.local == kind && r.locator == path && r.root in roots.allowed && Unchanged(host, roots, r)
  {
    SelectsTheFirst(roots.allowed, path);
    if InspectLocal(host, roots, kind, path).Ok? {
      LocalInspectionRevalidates(host, roots, kind, path);
      RevalidatesExactlyWhenUnchanged(host, roots, InspectLocal(host, roots, kind, path).value);
    }
  }

  /** The innermost worktree at or above a path. */
  ghost predicate Innermost(host: Host, path: Path, top: Path)
  {
    top <= path && top in host.checkouts && forall t :: t in host.checkouts && t <= path ==> |t| <= |top|
  }

  lemma {:induction false} EnclosingIsInnermost(host: Host, path: Path)
    ensures Enclosing(host, path).Some? ==> Innermost(host, path, Enclosing(host, path).value)
    ensures forall top :: Innermost(host, path, top) ==> Enclosing(host, path) == Some(top)
    decreases |path|
  {
    if path !in host.checkouts && path != [] {
      var front := path[..|path| - 1];
      EnclosingIsInnermost(host, front);
      forall t | t in host.checkouts ensures t <= path <==> t <= front {
        assert t <= path && |t| == |path| ==> t == path;
        assert front <= path;
      }
    } else if path in host.checkouts {
      forall top | Innermost(host, path, top) ensures top == path {
        assert top <= path && |path| <= |top|;
      }
    }
  }

  ghost predicate WorkingRepository(host: Host, top: Path)
  {
    top in host.checkouts && IsDirectory(host, host.checkouts[top].gitDir) && IsDirectory(host, host.checkouts[top].common)
  }

  /**
   * A branch is accepted exactly in a directory of a working repository that has the branch and no listed
   * worktree with it checked out; the commit recorded is the one it points at.
   */
  lemma {:induction false} BranchAcceptedExactly(host: Host, repository: Path, branch: string)
    ensures InspectBranch(host, repository, branch).Ok? <==>
      && IsDirectory(host, repository) && IsBranchName(branch)
      && exists top :: Innermost(host, repository, top) && WorkingRepository(host, top)
           && var common := host.checkouts[top].common;
              (host.nodes[common].id, branch) in host.refs && !exists at :: Holder(host, common, branch, at)
    ensures InspectBranch(host, repository, branch).Ok? ==>
      var r := InspectBranch(host, repository, branch).value;
      && r.BranchRef? && r.repository == repository && r.branch == branch && Unchanged(host, Roots([], [], []), r)
      && exists top :: Innermost(host, repository, top) && r.common == host.checkouts[top].common
  {
    EnclosingIsInnermost(host, repository);
    forall common, at ensures Holder(host, common, branch, at) <==> at in host.checkouts && ChecksOut(host, common, at, branch) {
    }
  }

  /**
   * A directory is accepted as a linked worktree exactly when it is a worktree of a working repository, linked
   * below the common directory, on a branch that exists.
   */
  lemma {:induction false} WorktreeAcceptedExactly(host: Host, workspace: Path)
    ensures InspectWorktree(host, workspace).Ok? <==>
      && IsDirectory(host, workspace) && WorkingRepository(host, workspace)
      && var c := host.checkouts[workspace];
         && c.gitDir != c.common && c.common + ["worktrees"] <= c.gitDir
         && exists branch, oid :: IsBranchName(branch) && c.head == Symbolic("refs/heads/" + branch)
              && BranchAt(host, host.nodes[c.common].id, branch, oid)
    ensures InspectWorktree(host, workspace).Ok? ==>
      var r := InspectWorktree(host, workspace).value;
      && r.Worktree? && r.locator == workspace && r.gitDir == host.checkouts[workspace].gitDir && Unchanged(host, Roots([], [], []), r)
  {
    EnclosingIsInnermost(host, workspace);
    if workspace in host.checkouts {
      assert Innermost(host, workspace, workspace);
      HeadNamesBranch(host.checkouts[workspace].head);
    }
    if InspectWorktree(host, workspace).Ok? {
      WorktreeInspectionRevalidates(host, Roots([], [], []), workspace);
      WorktreeRevalidatesExactlyWhenUnchanged(host, InspectWorktree(host, workspace).value);
    }
  }

  lemma {:induction false} HeadNamesBranch(head: Head)
    ensures head.Symbolic? && HEADS <= head.ref ==> head == Symbolic("refs/heads/" + head.ref[|HEADS|..])
    ensures forall branch :: head == Symbolic("refs/heads/" + branch) ==> HEADS <= head.ref && head.ref[|HEADS|..] == branch
  {
    forall branch | head == Symbolic("refs/heads/" + branch) ensures HEADS <= head.ref && head.ref[|HEADS|..] == branch {
      assert ("refs/heads/" + branch)[|HEADS|..] == branch;
    }
  }

  // ---------------------------------------------------------------- protected roots

  lemma {:induction false} PrefixesNest(a: Path, b: Path, path: Path)
    requires IsWithin(a, path) && IsWithin(b, path)
    ensures IsWithin(a, b) || IsWithin(b, a)
  {
    if |a| <= |b| {
      assert a == path[..|a|] && b == path[..|b|] && b[..|a|] == a;
    } else {
      assert a == path[..|a|] && b == path[..|b|] && a[..|b|] == b;
    }
  }

  /**
   * A temporary or log target that passes revalidation lies strictly below its allowed root, and
   * removing everything at or below it leaves in place every default protected root, every allowed
   * root, and every path at or under an explicit protected root.
   */
  lemma {:induction false} RemovalSparesProtectedRoots(host: Host, roots: Roots, r: Resource, path: Path)
    requires r.Local? && Revalidate(host, roots, r).Ok?
    requires path in roots.defaults || path in roots.allowed
      || exists i :: 0 <= i < |roots.explicit| && IsWithin(roots.explicit[i], path)
    ensures !IsWithin(r.locator, path)
    ensures IsWithin(r.root, r.locator) && r.locator != r.root
  {
    if IsWithin(r.locator, path) {
      if i :| 0 <= i < |roots.explicit| && IsWithin(roots.explicit[i], path) {
        PrefixesNest(r.locator, roots.explicit[i], path);
      }
      assert false;
    }
  }

  /** Some host has a temporary or log target that is accepted and whose removal would take the path with it. */
  ghost predicate Removable(roots: Roots, path: Path)
  {
    exists host, kind, target :: RemovedWith(host, roots, kind, target, path)
  }

  ghost predicate RemovedWith(host: Host, roots: Roots, kind: Kind, target: Path, path: Path)
  {
    kind in {Temporary, Log} && InspectLocal(host, roots, kind, target).Ok? && IsWithin(target, path)
  }

  /**
   * What the roots leave unprotected: a path can be removed exactly when it lies strictly below an allowed
   * root and neither it nor anything below it is a default or allowed root, nor is an explicit root above,
   * at or below it. That a default root lies above it does not matter.
   */
  lemma {:induction false} RemovableExactlyBelowAllowedRoots(roots: Roots, path: Path)
    ensures Removable(roots, path) <==>
      && (exists i :: 0 <= i < |roots.allowed| && IsWithin(roots.allowed[i], path) && path != roots.allowed[i])
      && (forall i :: 0 <= i < |roots.defaults| ==> !IsWithin(path, roots.defaults[i]))
      && (forall i :: 0 <= i < |roots.allowed| ==> !IsWithin(path, roots.allowed[i]))
      && (forall i :: 0 <= i < |roots.explicit| ==> !IsWithin(roots.explicit[i], path) && !IsWithin(path, roots.explicit[i]))
  {
    if Removable(roots, path) {
      var host, kind, target :| RemovedWith(host, roots, kind, target, path);
      SelectedRootHolds(roots.allowed, target);
      var i :| 0 <= i < |roots.allowed| && roots.allowed[i] == SelectRoot(roots.allowed, target).value;
      ProtectionReachesDown(roots, target, path);
    }
    if !IsProtectedTarget(roots, path) && exists i :: 0 <= i < |roots.allowed| && IsWithin(roots.allowed[i], path) && path != roots.allowed[i] {
      AnyRootSelects(roots.allowed, path);
      SelectedRootHolds(roots.allowed, path);
      var root := SelectRoot(roots.allowed, path).value;
      var host := Host(map[root := Node(FileId(1, 1), Directory, 2), path := Node(FileId(1, 2), Directory, 2)], map[], map[], true);
      assert RemovedWith(host, roots, Temporary, path, path);
    }
  }

  // A path below an accepted target is itself not protected.
  lemma {:induction false} ProtectionReachesDown(roots: Roots, target: Path, path: Path)
    requires !IsProtectedTarget(roots, target) && IsWithin(target, path)
    ensures !IsProtectedTarget(roots, path)
  {
    forall i | 0 <= i < |roots.explicit| ensures !IsWithin(roots.explicit[i], path) {
      if IsWithin(roots.explicit[i], path) {
        PrefixesNest(roots.explicit[i], target, path);
      }
    }
  }

  lemma {:induction false} AnyRootSelects(allowed: seq<Path>, path: Path)
    requires exists i :: 0 <= i < |allowed| && IsWithin(allowed[i], path) && path != allowed[i]
    ensures SelectRoot(allowed, path).Some?
  {
    if !(path != allowed[0] && IsWithin(allowed[0], path)) {
      var i :| 0 <= i < |allowed| && IsWithin(allowed[i], path) && path != allowed[i];
      assert allowed[1..][i - 1] == allowed[i];
      AnyRootSelects(allowed[1..], path);
    }
  }

  /** The contents of a default protected root are not protected by it. */
  lemma {:induction false} DefaultRootContentsAreNotPromised()
    ensures var home, scratch, target := ["home"], ["home", "scratch"], ["home", "scratch", "t"];
      && var roots := Roots([scratch], [[], home], []);
      && var host := Host(map[scratch := Node(FileId(1, 1), Directory, 2), target := Node(FileId(1, 2), Directory, 2)],
                          map[], map[], true);
      && InspectLocal(host, roots, Temporary, target).Ok? && IsWithin(home, target)
  {
    var scratch, target := ["home", "scratch"], ["home", "scratch", "t"];
    assert target[..2] == scratch && target[..1] == ["home"];
    assert SelectRoot([scratch], target) == Some(scratch);
  }
}
