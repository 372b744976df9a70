// close_inventory_edge.py: the owner-private registry. Works map to four categories, each either
// declared not applicable or a list of resources; no two resources may share a physical target.
module CloseRegistry {
  import opened Ordering
  import opened CloseHost
  import opened Wrappers

  datatype Category = NotApplicable | Enumerated(resources: seq<Resource>)

  type Categories = map<Kind, Category>

  type Works = map<string, Categories>

  function CategoriesOf(works: Works, work: string): Categories
  {
    if work in works then works[work] else map[]
  }

  predicate ByIdentity(a: Resource, b: Resource)
  {
    TextLe(IdentityText(a), IdentityText(b))
  }

  lemma {:induction false} ByIdentityIsPreorder()
    ensures IsPreorder(ByIdentity)
  {
    forall a, b ensures ByIdentity(a, b) || ByIdentity(b, a) {
      TextTotal(IdentityText(a), IdentityText(b));
    }
    forall a, b, c | ByIdentity(a, b) && ByIdentity(b, c) ensures ByIdentity(a, c) {
      TextTransitive(IdentityText(a), IdentityText(b), IdentityText(c));
    }
  }

  // ---------------------------------------------------------------- the invariant

  /** A resource's place: the work, the category and the position in its list. */
  datatype Place = Place(work: string, kind: Kind, index: nat)

  predicate IsPlace(works: Works, p: Place)
  {
    && p.work in works && p.kind in works[p.work] && works[p.work][p.kind].Enumerated?
    && p.index < |works[p.work][p.kind].resources|
  }

  function At(works: Works, p: Place): Resource
    requires IsPlace(works, p)
  {
    works[p.work][p.kind].resources[p.index]
  }

  ghost predicate Overlap(a: Resource, b: Resource)
  {
    exists id :: id in PhysicalIds(a) && id in PhysicalIds(b)
  }

  /**
   * Targets of distinct registered resources are disjoint across all works and categories, a list
   * is never empty, holds only its own kind, and is sorted by identity.
   */
  ghost predicate RegistryInv(works: Works)
  {
    && Disjoint(works)
    && (forall w, k :: w in works && k in works[w] ==> WellFormedCategory(works[w][k], k))
  }

  ghost predicate Disjoint(works: Works)
  {
    forall p, q :: IsPlace(works, p) && IsPlace(works, q) && p != q ==> !Overlap(At(works, p), At(works, q))
  }

  ghost predicate WellFormedCategory(category: Category, kind: Kind)
  {
    category.Enumerated? ==>
      && category.resources != []
      && (forall i :: 0 <= i < |category.resources| ==> KindOf(category.resources[i]) == kind && WellKinded(category.resources[i]))
      && SortedBy(category.resources, ByIdentity)
  }

  // ---------------------------------------------------------------- the scan for overlaps

  datatype Finding = Fresh | Identical | Conflict

  ghost predicate Registered(works: Works, work: string, resource: Resource)
  {
    exists p :: IsPlace(works, p) && p.work == work && At(works, p) == resource
  }

  ghost predicate Taken(works: Works, resource: Resource)
  {
    exists p :: IsPlace(works, p) && Overlap(At(works, p), resource)
  }

  ghost function Judge(works: Works, work: string, resource: Resource): Finding
  {
    if Registered(works, work, resource) then Identical
    else if Taken(works, resource) then Conflict
    else Fresh
  }

  lemma {:induction false} SelfOverlap(r: Resource)
    ensures Overlap(r, r)
  {
    match r
    case Local(_, _, _, target, _, _) => assert File(target) in PhysicalIds(r);
    case BranchRef(_, _, id, branch, _) => assert Ref(id, branch) in PhysicalIds(r);
    case Worktree(_, target, _, _, _, _, _, _) => assert File(target) in PhysicalIds(r);
  }

  /** In a disjoint registry the first overlap found settles the verdict, wherever the scan starts. */
  lemma {:induction false} AnyOverlapDecides(works: Works, work: string, resource: Resource, p: Place)
    requires RegistryInv(works) && IsPlace(works, p) && Overlap(At(works, p), resource)
    ensures Judge(works, work, resource) == if p.work == work && At(works, p) == resource then Identical else Conflict
  {
    if q :| IsPlace(works, q) && q.work == work && At(works, q) == resource {
      assert Overlap(At(works, p), At(works, q));
    }
  }

  /** The scan of one list: the position of its first overlap, if there is one. */
  method ScanList(resources: seq<Resource>, resource: Resource) returns (found: Option<nat>)
    ensures found.Some? ==> found.value < |resources| && Overlap(resources[found.value], resource)
    ensures found.None? ==> forall i :: 0 <= i < |resources| ==> !Overlap(resources[i], resource)
  {
    for i := 0 to |resources|
      invariant forall j :: 0 <= j < i ==> !Overlap(resources[j], resource)
    {
      var shared := PhysicalIds(resources[i]) * PhysicalIds(resource);
      if shared != {} {
        ghost var id :| id in shared;
        assert id in PhysicalIds(resources[i]) && id in PhysicalIds(resource);
        return Some(i);
      }
      assert forall id :: id in PhysicalIds(resources[i]) && id in PhysicalIds(resource) ==> id in shared;
    }
    return None;
  }

  method ScanWork(works: Works, other: string, work: string, resource: Resource) returns (finding: Finding)
    requires RegistryInv(works) && other in works
    ensures finding == Fresh ==> forall p :: IsPlace(works, p) && p.work == other ==> !Overlap(At(works, p), resource)
    ensures finding != Fresh ==> finding == Judge(works, work, resource)
  {
    var kinds := works[other].Keys;
    while kinds != {}
      decreases kinds
      invariant kinds <= works[other].Keys
      invariant forall p :: IsPlace(works, p) && p.work == other && p.kind !in kinds ==> !Overlap(At(works, p), resource)
    {
      var kind :| kind in kinds;
      match works[other][kind] {
        case NotApplicable =>
        case Enumerated(resources) =>
          var found := ScanList(resources, resource);
          if found.Some? {
            AnyOverlapDecides(works, work, resource, Place(other, kind, found.value));
            return if other == work && resources[found.value] == resource then Identical else Conflict;
          }
          assert forall p :: IsPlace(works, p) && p.work == other && p.kind == kind ==> At(works, p) == resources[p.index];
      }
      kinds := kinds - {kind};
    }
    return Fresh;
  }

  /** The scan of the whole registry; works and categories may come in any order. */
  method Scan(works: Works, work: string, resource: Resource) returns (finding: Finding)
    requires RegistryInv(works)
    ensures finding == Judge(works, work, resource)
  {
    var pending := works.Keys;
    while pending != {}
      decreases pending
      invariant pending <= works.Keys
      invariant forall p :: IsPlace(works, p) && p.work !in pending ==> !Overlap(At(works, p), resource)
    {
      var other :| other in pending;
      finding := ScanWork(works, other, work, resource);
      if finding != Fresh {
        return;
      }
      pending := pending - {other};
    }
    if Registered(works, work, resource) {
      SelfOverlap(resource);
    }
    return Fresh;
  }

  // ---------------------------------------------------------------- operations on the registry

  /** The registry and whether it changed. */
  datatype Update = Update(works: Works, changed: bool)

  function DeclareIn(works: Works, work: string, kind: Kind): Result<Update>
  {
    var categories := CategoriesOf(works, work);
    if kind !in categories then Ok(Update(works[work := categories[kind := NotApplicable]], true))
    else if categories[kind].NotApplicable? then Ok(Update(works, false))
    else Err(CategoryConflict)
  }

  function ResourcesOf(works: Works, work: string, kind: Kind): seq<Resource>
  {
    var categories := CategoriesOf(works, work);
    if kind in categories && categories[kind].Enumerated? then categories[kind].resources else []
  }

  function Enrolled(works: Works, work: string, resource: Resource): Works
  {
    var categories := CategoriesOf(works, work);
    var kind := KindOf(resource);
    works[work := categories[kind := Enumerated(Sort(ResourcesOf(works, work, kind) + [resource], ByIdentity))]]
  }

  ghost function EnrollIn(works: Works, work: string, resource: Resource, allowIdentical: bool): Result<Update>
  {
    var categories := CategoriesOf(works, work);
    var kind := KindOf(resource);
    if kind in categories && categories[kind].NotApplicable? then Err(CategoryConflict)
    else
      match Judge(works, work, resource)
      case Identical => if allowIdentical then Ok(Update(works, false)) else Err(DuplicateResource)
      case Conflict => Err(PhysicalTargetConflict)
      case Fresh => Ok(Update(Enrolled(works, work, resource), true))
  }

  method Enroll(works: Works, work: string, resource: Resource, allowIdentical: bool) returns (r: Result<Update>)
    requires RegistryInv(works)
    ensures r == EnrollIn(works, work, resource, allowIdentical)
  {
    var categories := CategoriesOf(works, work);
    var kind := KindOf(resource);
    if kind in categories && categories[kind].NotApplicable? {
      return Err(CategoryConflict);
    }
    var finding := Scan(works, work, resource);
    match finding
    case Identical => return if allowIdentical then Ok(Update(works, false)) else Err(DuplicateResource);
    case Conflict => return Err(PhysicalTargetConflict);
    case Fresh => return Ok(Update(Enrolled(works, work, resource), true));
  }

  /** Whether adoption accepts what a category already holds. */
  predicate Tolerated(kind: Kind, category: Category, keepLists: bool)
  {
    category.NotApplicable? || (keepLists && kind in {Temporary, Log})
  }

  /** Declares the missing ones of some categories; anything else there must be tolerated. */
  function Cover(categories: Categories, kinds: seq<Kind>, keepLists: bool): Result<Categories>
    decreases |kinds|
  {
    if kinds == [] then Ok(categories)
    else if kinds[0] !in categories then Cover(categories[kinds[0] := NotApplicable], kinds[1..], keepLists)
    else if Tolerated(kinds[0], categories[kinds[0]], keepLists) then Cover(categories, kinds[1..], keepLists)
    else Err(CategoryConflict)
  }

  method CoverAll(categories: Categories, kinds: seq<Kind>, keepLists: bool) returns (r: Result<Categories>)
    ensures r == Cover(categories, kinds, keepLists)
  {
    var covered := categories;
    for i := 0 to |kinds|
      invariant Cover(categories, kinds, keepLists) == Cover(covered, kinds[i..], keepLists)
    {
      assert kinds[i..][1..] == kinds[i + 1..];
      if kinds[i] !in covered {
        covered := covered[kinds[i] := NotApplicable];
      } else if !Tolerated(kinds[i], covered[kinds[i]], keepLists) {
        return Err(CategoryConflict);
      }
    }
    return Ok(covered);
  }

  const BESIDE_WORKSPACE: seq<Kind> := [Temporary, Log, Branch]

  ghost function AdoptIn(works: Works, work: string, resource: Resource): Result<Update>
  {
    match EnrollIn(works, work, resource, true)
    case Err(code) => Err(code)
    case Ok(enrolled) =>
      match Cover(CategoriesOf(enrolled.works, work), BESIDE_WORKSPACE, true)
      case Err(code) => Err(code)
      case Ok(covered) =>
        Ok(Update(enrolled.works[work := covered], enrolled.changed || covered != CategoriesOf(enrolled.works, work)))
  }

  method Adopt(works: Works, work: string, resource: Resource) returns (r: Result<Update>)
    requires RegistryInv(works)
    ensures r == AdoptIn(works, work, resource)
  {
    var enrolled := Enroll(works, work, resource, true);
    if enrolled.Err? {
      return Err(enrolled.code);
    }
    var categories := CategoriesOf(enrolled.value.works, work);
    var covered := CoverAll(categories, BESIDE_WORKSPACE, true);
    if covered.Err? {
      return Err(covered.code);
    }
    return Ok(Update(enrolled.value.works[work := covered.value], enrolled.value.changed || covered.value != categories));
  }

  function AdoptMainIn(works: Works, work: string): Result<Update>
  {
    match Cover(CategoriesOf(works, work), KINDS, false)
    case Err(code) => Err(code)
    case Ok(covered) => Ok(Update(works[work := covered], covered != CategoriesOf(works, work)))
  }

  // ---------------------------------------------------------------- what every operation keeps

  /** Nothing registered is ever removed, and a category never changes its disposition. */
  ghost predicate Grows(before: Works, after: Works)
  {
    forall w, k :: w in before && k in before[w] ==>
      && w in after && k in after[w]
      && (before[w][k].NotApplicable? <==> after[w][k].NotApplicable?)
      && (before[w][k].Enumerated? ==> Sublist(before[w][k].resources, after[w][k].resources))
  }

  ghost predicate Sublist(a: seq<Resource>, b: seq<Resource>)
  {
    multiset(a) <= multiset(b)
  }

  lemma {:induction false} DeclareKeepsInv(works: Works, work: string, kind: Kind)
    requires RegistryInv(works) && DeclareIn(works, work, kind).Ok?
    ensures RegistryInv(DeclareIn(works, work, kind).value.works)
    ensures Grows(works, DeclareIn(works, work, kind).value.works)
  {
    var after := DeclareIn(works, work, kind).value.works;
    forall p | IsPlace(after, p) ensures IsPlace(works, p) && At(works, p) == At(after, p) {
    }
  }

  lemma {:induction false} CoverOnlyDeclares(categories: Categories, kinds: seq<Kind>, keepLists: bool)
    requires Cover(categories, kinds, keepLists).Ok?
    ensures var covered := Cover(categories, kinds, keepLists).value;
      && categories.Keys <= covered.Keys
      && (forall k :: k in categories ==> covered[k] == categories[k])
      && (forall k :: k in covered && k !in categories ==> covered[k].NotApplicable?)
      && (forall i :: 0 <= i < |kinds| ==> kinds[i] in covered && Tolerated(kinds[i], covered[kinds[i]], keepLists))
    decreases |kinds|
  {
    if kinds != [] {
      var next := if kinds[0] in categories then categories else categories[kinds[0] := NotApplicable];
      CoverOnlyDeclares(next, kinds[1..], keepLists);
      assert kinds == [kinds[0]] + kinds[1..];
    }
  }

  /** Declaring missing categories of one work keeps the invariant. */
  lemma {:induction false} DeclaringMoreKeepsInv(works: Works, work: string, covered: Categories)
    requires RegistryInv(works) && CategoriesOf(works, work).Keys <= covered.Keys
    requires forall k :: k in CategoriesOf(works, work) ==> covered[k] == CategoriesOf(works, work)[k]
    requires forall k :: k in covered && k !in CategoriesOf(works, work) ==> covered[k].NotApplicable?
    ensures RegistryInv(works[work := covered]) && Grows(works, works[work := covered])
  {
    var after := works[work := covered];
    forall p | IsPlace(after, p) ensures IsPlace(works, p) && At(works, p) == At(after, p) {
    }
  }

  /** Where a resource stood before one was inserted. */
  function Former(added: Place, p: Place): Place
  {
    if p.work == added.work && p.kind == added.kind && p.index > added.index then p.(index := p.index - 1) else p
  }

  /** Enrolment inserts one resource into one list and moves nothing else. */
  lemma {:induction false} EnrolledPlaces(works: Works, work: string, resource: Resource) returns (added: Place)
    requires SortedBy(ResourcesOf(works, work, KindOf(resource)), ByIdentity)
    requires KindOf(resource) in CategoriesOf(works, work) ==> CategoriesOf(works, work)[KindOf(resource)].Enumerated?
    ensures IsPlace(Enrolled(works, work, resource), added) && At(Enrolled(works, work, resource), added) == resource
    ensures added.work == work
    ensures forall p :: IsPlace(Enrolled(works, work, resource), p) && p != added ==>
      IsPlace(works, Former(added, p)) && At(works, Former(added, p)) == At(Enrolled(works, work, resource), p)
  {
    var kind := KindOf(resource);
    var before := ResourcesOf(works, work, kind);
    ByIdentityIsPreorder();
    var k := SortAppend(before, resource, ByIdentity);
    added := Place(work, kind, k);
    var after := Enrolled(works, work, resource);
    assert after[work][kind] == Enumerated(before[..k] + [resource] + before[k..]);
    forall p | IsPlace(after, p) && p != added ensures IsPlace(works, Former(added, p)) && At(works, Former(added, p)) == At(after, p) {
      if p.work == work && p.kind == kind {
        FormerInList(works, after, before, resource, added, p);
      }
    }
  }

  lemma {:induction false} FormerInList(works: Works, after: Works, before: seq<Resource>, resource: Resource, added: Place, p: Place)
    requires before == ResourcesOf(works, added.work, added.kind) && added.index <= |before|
    requires IsPlace(after, p) && p.work == added.work && p.kind == added.kind && p != added
    requires after[p.work][p.kind].resources == before[..added.index] + [resource] + before[added.index..]
    ensures IsPlace(works, Former(added, p)) && At(works, Former(added, p)) == At(after, p)
  {
    assert after[p.work][p.kind].resources[p.index] == before[if p.index > added.index then p.index - 1 else p.index];
  }

  lemma {:induction false} EnrolledList(before: seq<Resource>, resource: Resource, kind: Kind)
    requires kind == KindOf(resource) && WellKinded(resource)
    requires forall i :: 0 <= i < |before| ==> KindOf(before[i]) == kind && WellKinded(before[i])
    ensures WellFormedCategory(Enumerated(Sort(before + [resource], ByIdentity)), kind)
    ensures Sublist(before, Sort(before + [resource], ByIdentity))
  {
    var list := Sort(before + [resource], ByIdentity);
    ByIdentityIsPreorder();
    SortSorts(before + [resource], ByIdentity);
    SortPermutes(before + [resource], ByIdentity);
    SortKeepsMembers(before + [resource], ByIdentity);
    forall i | 0 <= i < |list| ensures KindOf(list[i]) == kind && WellKinded(list[i]) {
      assert list[i] in before + [resource];
    }
  }

  lemma {:induction false} EnrollKeepsDisjoint(works: Works, work: string, resource: Resource)
    requires RegistryInv(works) && !Taken(works, resource)
    requires KindOf(resource) in CategoriesOf(works, work) ==> CategoriesOf(works, work)[KindOf(resource)].Enumerated?
    ensures Disjoint(Enrolled(works, work, resource))
  {
    var after := Enrolled(works, work, resource);
    assert SortedBy(ResourcesOf(works, work, KindOf(resource)), ByIdentity);
    var added := EnrolledPlaces(works, work, resource);
    forall p, q | IsPlace(after, p) && IsPlace(after, q) && p != q ensures !Overlap(At(after, p), At(after, q)) {
      if p != added && q != added {
        assert Former(added, p) != Former(added, q);
      } else {
        var r := if p == added then q else p;
        assert At(works, Former(added, r)) == At(after, r) && !Overlap(At(after, r), resource);
      }
    }
  }

  lemma {:induction false} EnrollKeepsInv(works: Works, work: string, resource: Resource)
    requires RegistryInv(works) && !Taken(works, resource) && WellKinded(resource)
    requires KindOf(resource) in CategoriesOf(works, work) ==> CategoriesOf(works, work)[KindOf(resource)].Enumerated?
    ensures RegistryInv(Enrolled(works, work, resource)) && Grows(works, Enrolled(works, work, resource))
  {
    EnrollKeepsDisjoint(works, work, resource);
    EnrollGrows(works, work, resource);
  }

  lemma {:induction false} EnrollGrows(works: Works, work: string, resource: Resource)
    requires RegistryInv(works) && WellKinded(resource)
    requires KindOf(resource) in CategoriesOf(works, work) ==> CategoriesOf(works, work)[KindOf(resource)].Enumerated?
    ensures var after := Enrolled(works, work, resource);
      && Grows(works, after)
      && forall w, k :: w in after && k in after[w] ==> WellFormedCategory(after[w][k], k)
  {
    var kind := KindOf(resource);
    var before, after := ResourcesOf(works, work, kind), Enrolled(works, work, resource);
    assert before != [] ==> WellFormedCategory(works[work][kind], kind);
    EnrolledList(before, resource, kind);
    assert after[work][kind] == Enumerated(Sort(before + [resource], ByIdentity));
    forall w, k | w in after && k in after[w] ensures WellFormedCategory(after[w][k], k) {
      if w != work || k != kind {
        assert after[w][k] == works[w][k];
      }
    }
  }

  lemma {:induction false} GrowsTransitive(a: Works, b: Works, c: Works)
    requires Grows(a, b) && Grows(b, c)
    ensures Grows(a, c)
  {
  }

  lemma {:induction false} EnrollInKeepsInv(works: Works, work: string, resource: Resource, allowIdentical: bool)
    requires RegistryInv(works) && WellKinded(resource) && EnrollIn(works, work, resource, allowIdentical).Ok?
    ensures RegistryInv(EnrollIn(works, work, resource, allowIdentical).value.works)
    ensures Grows(works, EnrollIn(works, work, resource, allowIdentical).value.works)
    ensures Registered(EnrollIn(works, work, resource, allowIdentical).value.works, work, resource)
  {
    if Judge(works, work, resource) == Fresh {
      EnrollKeepsInv(works, work, resource);
      var added := EnrolledPlaces(works, work, resource);
    }
  }

  /** A covered registry keeps the places of the enrolled one. */
  lemma {:induction false} CoveringKeepsRegistered(works: Works, work: string, resource: Resource, covered: Categories)
    requires RegistryInv(works) && Registered(works, work, resource)
    requires CategoriesOf(works, work).Keys <= covered.Keys
    requires forall k :: k in CategoriesOf(works, work) ==> covered[k] == CategoriesOf(works, work)[k]
    ensures Registered(works[work := covered], work, resource)
    ensures KindOf(resource) in covered
  {
    var p :| IsPlace(works, p) && p.work == work && At(works, p) == resource;
    assert IsPlace(works[work := covered], p);
    assert WellFormedCategory(works[work][p.kind], p.kind);
  }

  lemma {:induction false} CoveringKeepsInv(works: Works, work: string, resource: Resource)
    requires RegistryInv(works) && Registered(works, work, resource) && KindOf(resource) == Workspace
    requires Cover(CategoriesOf(works, work), BESIDE_WORKSPACE, true).Ok?
    ensures var covered := Cover(CategoriesOf(works, work), BESIDE_WORKSPACE, true).value;
      && RegistryInv(works[work := covered]) && Grows(works, works[work := covered])
      && Registered(works[work := covered], work, resource)
      && covered.Keys == ALL_KINDS && covered[Branch].NotApplicable?
  {
    var categories := CategoriesOf(works, work);
    CoverOnlyDeclares(categories, BESIDE_WORKSPACE, true);
    var covered := Cover(categories, BESIDE_WORKSPACE, true).value;
    DeclaringMoreKeepsInv(works, work, covered);
    CoveringKeepsRegistered(works, work, resource, covered);
    AllFourKinds(covered);
    assert BESIDE_WORKSPACE[2] == Branch;
  }

  lemma {:induction false} AdoptKeepsInv(works: Works, work: string, resource: Resource)
    requires RegistryInv(works) && resource.Worktree? && AdoptIn(works, work, resource).Ok?
    ensures var after := AdoptIn(works, work, resource).value.works;
      && RegistryInv(after) && Grows(works, after) && Registered(after, work, resource)
      && work in after && after[work].Keys == ALL_KINDS && after[work][Branch].NotApplicable?
  {
    EnrollInKeepsInv(works, work, resource, true);
    var enrolled := EnrollIn(works, work, resource, true).value.works;
    CoveringKeepsInv(enrolled, work, resource);
    GrowsTransitive(works, enrolled, AdoptIn(works, work, resource).value.works);
  }

  const ALL_KINDS: set<Kind> := {Workspace, Temporary, Log, Branch}

  lemma {:induction false} AllFourKinds(categories: Categories)
    requires Workspace in categories && forall i :: 0 <= i < |BESIDE_WORKSPACE| ==> BESIDE_WORKSPACE[i] in categories
    ensures categories.Keys == ALL_KINDS
  {
    assert BESIDE_WORKSPACE[0] == Temporary && BESIDE_WORKSPACE[1] == Log && BESIDE_WORKSPACE[2] == Branch;
    forall k | k in categories.Keys ensures k in ALL_KINDS {
      assert k.Workspace? || k.Temporary? || k.Log? || k.Branch?;
    }
  }

  lemma {:induction false} AdoptMainKeepsInv(works: Works, work: string)
    requires RegistryInv(works) && AdoptMainIn(works, work).Ok?
    ensures RegistryInv(AdoptMainIn(works, work).value.works) && Grows(works, AdoptMainIn(works, work).value.works)
  {
    CoverOnlyDeclares(CategoriesOf(works, work), KINDS, false);
    DeclaringMoreKeepsInv(works, work, Cover(CategoriesOf(works, work), KINDS, false).value);
  }

  // ---------------------------------------------------------------- what an accepted operation has done

  predicate Declared(works: Works, work: string, kind: Kind)
  {
    work in works && kind in works[work] && works[work][kind].NotApplicable?
  }

  predicate HasList(works: Works, work: string, kind: Kind)
  {
    work in works && kind in works[work] && works[work][kind].Enumerated?
  }

  /** Every category of every work except some of one work is as it was. */
  ghost predicate SameOutside(before: Works, after: Works, work: string, kinds: set<Kind>)
  {
    forall w, k :: w != work || k !in kinds ==>
      && (Declared(before, w, k) <==> Declared(after, w, k))
      && (HasList(before, w, k) <==> HasList(after, w, k))
      && (HasList(before, w, k) ==> before[w][k].resources == after[w][k].resources)
  }

  /** A declaration is refused exactly for an enumerated category; an accepted one holds, and touches nothing else. */
  lemma {:induction false} DeclaredExactlyUnlessListed(works: Works, work: string, kind: Kind)
    ensures DeclareIn(works, work, kind).Ok? <==> !HasList(works, work, kind)
    ensures DeclareIn(works, work, kind).Ok? ==>
      var update := DeclareIn(works, work, kind).value;
      && Declared(update.works, work, kind) && SameOutside(works, update.works, work, {kind})
      && (update.changed <==> !Declared(works, work, kind)) && (!update.changed ==> update.works == works)
  {
  }

  /**
   * An enrolment is accepted exactly when the category is not declared and the target is free, or, where that
   * is allowed, this resource is there already. Afterwards it is in its list, once and beside all that was.
   */
  lemma {:induction false} EnrolledExactlyWhenFree(works: Works, work: string, resource: Resource, allowIdentical: bool)
    requires RegistryInv(works) && WellKinded(resource)
    ensures EnrollIn(works, work, resource, allowIdentical).Ok? <==>
      && !Declared(works, work, KindOf(resource))
      && (if Registered(works, work, resource) then allowIdentical else !Taken(works, resource))
    ensures EnrollIn(works, work, resource, allowIdentical).Ok? ==>
      var update := EnrollIn(works, work, resource, allowIdentical).value;
      && (update.changed <==> !Registered(works, work, resource)) && (!update.changed ==> update.works == works)
      && Registered(update.works, work, resource) && HasList(update.works, work, KindOf(resource))
      && SameOutside(works, update.works, work, {KindOf(resource)})
      && multiset(ResourcesOf(update.works, work, KindOf(resource))) ==
           multiset(ResourcesOf(works, work, KindOf(resource))) + if update.changed then multiset{resource} else multiset{}
  {
    if EnrollIn(works, work, resource, allowIdentical).Ok? {
      EnrollInKeepsInv(works, work, resource, allowIdentical);
      if Judge(works, work, resource) == Fresh {
        SortPermutes(ResourcesOf(works, work, KindOf(resource)) + [resource], ByIdentity);
      } else {
        RegisteredIsListed(works, work, resource);
      }
    }
  }

  lemma {:induction false} RegisteredIsListed(works: Works, work: string, resource: Resource)
    requires RegistryInv(works) && Registered(works, work, resource)
    ensures HasList(works, work, KindOf(resource)) && resource in ResourcesOf(works, work, KindOf(resource))
  {
    var p :| IsPlace(works, p) && p.work == work && At(works, p) == resource;
    assert WellFormedCategory(works[work][p.kind], p.kind);
  }

  /** Coverage is refused exactly for a category that is there and not tolerated; it adds declarations only. */
  lemma {:induction false} CoveredExactlyWhenTolerated(categories: Categories, kinds: seq<Kind>, keepLists: bool)
    ensures Cover(categories, kinds, keepLists).Ok? <==>
      forall k :: k in kinds && k in categories ==> Tolerated(k, categories[k], keepLists)
    ensures Cover(categories, kinds, keepLists).Ok? ==>
      var covered := Cover(categories, kinds, keepLists).value;
      && (forall k :: k in covered <==> k in categories || k in kinds)
      && (forall k :: k in covered ==> covered[k] == if k in categories then categories[k] else NotApplicable)
    decreases |kinds|
  {
    if kinds != [] {
      var next := if kinds[0] in categories then categories else categories[kinds[0] := NotApplicable];
      CoveredExactlyWhenTolerated(next, kinds[1..], keepLists);
      assert kinds == [kinds[0]] + kinds[1..];
    }
  }

  /**
   * A linked worktree is adopted exactly when its category is free for it and no branch is listed for the
   * work. Then it is registered, what was missing is declared, and the rest is as it was.
   */
  lemma {:induction false} AdoptedExactlyWhenFree(works: Works, work: string, resource: Resource)
    requires RegistryInv(works) && resource.Worktree?
    ensures AdoptIn(works, work, resource).Ok? <==>
      && !Declared(works, work, Workspace) && (Registered(works, work, resource) || !Taken(works, resource))
      && !HasList(works, work, Branch)
    ensures AdoptIn(works, work, resource).Ok? ==>
      var after := AdoptIn(works, work, resource).value.works;
      && Registered(after, work, resource) && Declared(after, work, Branch)
      && (forall k :: k in {Temporary, Log} && !HasList(works, work, k) ==> Declared(after, work, k))
      && (forall k :: k in {Temporary, Log} && HasList(works, work, k) ==>
            HasList(after, work, k) && after[work][k].resources == works[work][k].resources)
      && SameOutside(works, after, work, ALL_KINDS)
  {
    EnrolledExactlyWhenFree(works, work, resource, true);
    if EnrollIn(works, work, resource, true).Ok? {
      AdoptedAfterEnrolment(works, work, resource, EnrollIn(works, work, resource, true).value.works);
    }
  }

  lemma {:induction false} AdoptedAfterEnrolment(works: Works, work: string, resource: Resource, enrolled: Works)
    requires RegistryInv(works) && resource.Worktree? && EnrollIn(works, work, resource, true).Ok?
    requires enrolled == EnrollIn(works, work, resource, true).value.works && SameOutside(works, enrolled, work, {Workspace})
    ensures AdoptIn(works, work, resource).Ok? <==> !HasList(works, work, Branch)
    ensures AdoptIn(works, work, resource).Ok? ==>
      var after := AdoptIn(works, work, resource).value.works;
      && Registered(after, work, resource) && Declared(after, work, Branch)
      && (forall k :: k in {Temporary, Log} && !HasList(works, work, k) ==> Declared(after, work, k))
      && (forall k :: k in {Temporary, Log} && HasList(works, work, k) ==>
            HasList(after, work, k) && after[work][k].resources == works[work][k].resources)
      && SameOutside(works, after, work, ALL_KINDS)
  {
    var categories := CategoriesOf(enrolled, work);
    CoveredExactlyWhenTolerated(categories, BESIDE_WORKSPACE, true);
    BesideTolerated(categories);
    assert HasList(enrolled, work, Branch) <==> HasList(works, work, Branch);
    if AdoptIn(works, work, resource).Ok? {
      AdoptKeepsInv(works, work, resource);
      var after := AdoptIn(works, work, resource).value.works;
      forall k | k in {Temporary, Log}
        ensures !HasList(works, work, k) ==> Declared(after, work, k)
        ensures HasList(works, work, k) ==> HasList(after, work, k) && after[work][k].resources == works[work][k].resources
      {
        assert HasList(enrolled, work, k) <==> HasList(works, work, k);
        assert k in BESIDE_WORKSPACE;
      }
    }
  }

  lemma {:induction false} BesideTolerated(categories: Categories)
    ensures (forall k :: k in BESIDE_WORKSPACE && k in categories ==> Tolerated(k, categories[k], true))
      <==> !(Branch in categories && categories[Branch].Enumerated?)
  {
    assert BESIDE_WORKSPACE[0] == Temporary && BESIDE_WORKSPACE[1] == Log && BESIDE_WORKSPACE[2] == Branch;
  }

  /** A main worktree is adopted exactly when nothing is listed for the work; then all four are declared. */
  lemma {:induction false} MainAdoptedExactlyWhenNothingIsListed(works: Works, work: string)
    ensures AdoptMainIn(works, work).Ok? <==> forall k :: !HasList(works, work, k)
    ensures AdoptMainIn(works, work).Ok? ==>
      var after := AdoptMainIn(works, work).value.works;
      (forall k :: Declared(after, work, k)) && SameOutside(works, after, work, ALL_KINDS)
  {
    var categories := CategoriesOf(works, work);
    CoveredExactlyWhenTolerated(categories, KINDS, false);
    forall k: Kind ensures k in KINDS {
      assert k.Workspace? || k.Temporary? || k.Log? || k.Branch?;
    }
    assert forall k :: HasList(works, work, k) <==> k in categories && categories[k].Enumerated?;
  }

  /** An adoption says that it changed something exactly when it did. */
  lemma {:induction false} UnchangedAdoption(works: Works, work: string, resource: Resource)
    requires RegistryInv(works) && resource.Worktree? && AdoptIn(works, work, resource).Ok?
    ensures var update := AdoptIn(works, work, resource).value; update.changed <==> update.works != works
  {
    EnrolledExactlyWhenFree(works, work, resource, true);
    AdoptedExactlyWhenFree(works, work, resource);
    var update, enrolled := AdoptIn(works, work, resource).value, EnrollIn(works, work, resource, true).value;
    if !update.changed {
      RegisteredIsListed(works, work, resource);
      assert works[work := works[work]] == works;
    } else if !enrolled.changed {
      assert update.works[work] != CategoriesOf(works, work);
    }
  }

  lemma {:induction false} UnchangedMainAdoption(works: Works, work: string)
    requires AdoptMainIn(works, work).Ok?
    ensures var update := AdoptMainIn(works, work).value; update.changed <==> update.works != works
  {
    MainAdoptedExactlyWhenNothingIsListed(works, work);
    var update := AdoptMainIn(works, work).value;
    assert Declared(update.works, work, Log);
    if !update.changed {
      assert works[work := works[work]] == works;
    }
  }
}
