/** The per-page state machine of the page tracker: a page has a state and a stack of owners, the
    "chain of custody". Each operation is given twice, as in the rest of the project: as a function
    on values, which the whole-system model uses, and as a method of the class `PageInfo`, which
    updates its fields in place and is proved against that function. */
module PageInfos {
  import opened Basics

  type OwnerId = nat

  const HYPERVISOR: OwnerId := 0
  const HOST: OwnerId := 1
  const MAX_PAGE_OWNERS := 2
  const REF_COUNT_MAX := 0xffff_ffff_ffff_ffff

  datatype MemType = Ram | Mmio

  datatype PageState =
    | Reserved
    | Free
    | Mapped
    | Shared(refs: nat)
    | VmState
    | HypState
    | Converting(version: nat)
    | Unassigning(version: nat)
    | Converted
    | ConvertedLocked

  datatype Error =
    | OwnerOverflow
    | OwnerUnderflow
    | UnownedPage
    | HypervisorStatePage
    | ReservedPage
    | OwnerMismatch
    | PageNotConvertible
    | PageNotAssignable
    | PageNotUnassignable
    | PageNotReclaimable
    | PageNotShareable
    | InvalidStateTransition
    | PageNotLocked
    | PageLocked
    | RefCountOverflow
    | RefCountUnderflow

  type Result<+T> = Fallible<T, Error>

  /** What the tracker knows about one page, without the list link. */
  datatype Info = Info(memType: MemType, state: PageState, owners: seq<OwnerId>)

  /** The current owner, if the page is in an owned state. */
  function Owner(i: Info): (r: Option<OwnerId>)
  {
    match i.state
    case Converting(_) | Unassigning(_) | Converted | ConvertedLocked | Mapped | VmState | Shared(_) =>
      Some(if i.owners == [] then HYPERVISOR else i.owners[|i.owners| - 1])
    case _ => None
  }

  predicate IsConvertible(i: Info, version: nat) {
    i.state.Converting? && i.state.version < version
  }

  predicate IsUnassignable(i: Info, version: nat) {
    i.state.Unassigning? && i.state.version < version
  }

  predicate IsShareable(i: Info) {
    i.state.Mapped? || (i.state.Shared? && i.state.refs != REF_COUNT_MAX)
  }

  function PopOwner(i: Info): (r: Result<Info>)
  {
    if i.owners == [] then Err(OwnerUnderflow)
    else Ok(i.(owners := i.owners[..|i.owners| - 1], state := Converted))
  }

  /** Gives the page back to its previous owner, or drops one reference to a shared page. */
  function Release(i: Info): (r: Result<Info>)
  {
    match i.state
    case Mapped | VmState | Converted | Converting(_) | Unassigning(_) => PopOwner(i)
    case ConvertedLocked => Err(PageLocked)
    case Shared(refs) =>
      if refs == 0 then Err(RefCountUnderflow)
      else Ok(i.(state := if refs == 1 then Mapped else Shared(refs - 1)))
    case HypState => Err(HypervisorStatePage)
    case Reserved => Err(ReservedPage)
    case Free => Err(UnownedPage)
  }

  /** Gives a locked page (or, at boot, a free one) to `owner`. */
  function Assign(i: Info, owner: OwnerId, newState: PageState): (r: Result<Info>)
  {
    match i.state
    case Free =>
      if !(newState.ConvertedLocked? || newState.HypState?) then Err(InvalidStateTransition)
      else Ok(i.(owners := if owner == HYPERVISOR then i.owners else i.owners + [owner], state := newState))
    case Converted => Err(PageNotLocked)
    case ConvertedLocked =>
      if !(newState.Mapped? || newState.VmState?) then Err(InvalidStateTransition)
      else if |i.owners| >= MAX_PAGE_OWNERS then Err(OwnerOverflow)
      else Ok(i.(owners := i.owners + [owner], state := newState))
    case _ => Err(PageNotAssignable)
  }

  function BeginConversion(i: Info, version: nat): (r: Result<Info>) {
    if i.state.Mapped? then Ok(i.(state := Converting(version))) else Err(PageNotConvertible)
  }

  function CompleteConversion(i: Info, version: nat): (r: Result<Info>) {
    if IsConvertible(i, version) then Ok(i.(state := Converted)) else Err(PageNotConvertible)
  }

  function BeginUnassignment(i: Info, version: nat): (r: Result<Info>) {
    if i.state.Mapped? then Ok(i.(state := Unassigning(version))) else Err(PageNotUnassignable)
  }

  function CompleteUnassignment(i: Info, version: nat): (r: Result<Info>) {
    if IsUnassignable(i, version) then PopOwner(i) else Err(PageNotUnassignable)
  }

  function LockForAssignment(i: Info): (r: Result<Info>) {
    match i.state
    case Converted => Ok(i.(state := ConvertedLocked))
    case ConvertedLocked => Err(PageLocked)
    case _ => Err(PageNotAssignable)
  }

  function Unlock(i: Info): (r: Result<Info>) {
    if i.state.ConvertedLocked? then Ok(i.(state := Converted)) else Err(PageNotLocked)
  }

  function Share(i: Info): (r: Result<Info>) {
    match i.state
    case Mapped => Ok(i.(state := Shared(1)))
    case Shared(refs) =>
      if refs >= REF_COUNT_MAX then Err(RefCountOverflow) else Ok(i.(state := Shared(refs + 1)))
    case _ => Err(PageNotShareable)
  }

  function Reclaim(i: Info): (r: Result<Info>) {
    if i.state.ConvertedLocked? then Ok(i.(state := Mapped)) else Err(PageNotReclaimable)
  }

  /** The tracker's `get_converted_page`: completes a finished conversion and locks the page. */
  function GetConverted(i: Info, owner: OwnerId, version: nat): (r: Result<Info>) {
    if Owner(i) != Some(owner) || i.memType != Ram then Err(PageNotConvertible)
    else if i.state.Converted? then LockForAssignment(i)
    else match CompleteConversion(i, version)
      case Ok(j) => LockForAssignment(j)
      case Err(_) => Err(PageNotConvertible)
  }

  /** The tracker's `release_page_by_addr`: a shared page may be released by a VM that does not own it. */
  function ReleaseBy(i: Info, owner: OwnerId): (r: Result<Info>) {
    if Owner(i) != Some(owner) && !i.state.Shared? then Err(OwnerMismatch) else Release(i)
  }

  function SharePage(i: Info, owner: OwnerId): (r: Result<Info>) {
    if Owner(i) != Some(owner) || i.memType != Ram || !IsShareable(i) then Err(PageNotShareable) else Share(i)
  }

  predicate IsMappedPage(i: Info, owner: OwnerId) {
    Owner(i) == Some(owner) && i.memType == Ram && i.state == Mapped
  }

  predicate IsShareablePage(i: Info, owner: OwnerId) {
    Owner(i) == Some(owner) && i.memType == Ram && IsShareable(i)
  }

  predicate IsConvertedPage(i: Info, owner: OwnerId, version: nat) {
    Owner(i) == Some(owner) && i.memType == Ram && (i.state == Converted || IsConvertible(i, version))
  }

  predicate IsUnassignablePage(i: Info, owner: OwnerId, version: nat) {
    Owner(i) == Some(owner) && i.memType == Ram && IsUnassignable(i, version)
  }

  /* ---------------- Runs of operations on one page ---------------- */

  datatype Op =
    | OpRelease
    | OpAssign(owner: OwnerId, newState: PageState)
    | OpBeginConversion(version: nat)
    | OpCompleteConversion(version: nat)
    | OpBeginUnassignment(version: nat)
    | OpCompleteUnassignment(version: nat)
    | OpLock
    | OpUnlock
    | OpShare
    | OpReclaim

  function Try(i: Info, op: Op): (r: Result<Info>) {
    match op
    case OpRelease => Release(i)
    case OpAssign(owner, newState) => Assign(i, owner, newState)
    case OpBeginConversion(v) => BeginConversion(i, v)
    case OpCompleteConversion(v) => CompleteConversion(i, v)
    case OpBeginUnassignment(v) => BeginUnassignment(i, v)
    case OpCompleteUnassignment(v) => CompleteUnassignment(i, v)
    case OpLock => LockForAssignment(i)
    case OpUnlock => Unlock(i)
    case OpShare => Share(i)
    case OpReclaim => Reclaim(i)
  }

  /** A failed operation leaves the page as it was. */
  function Apply(i: Info, op: Op): (j: Info) {
    match Try(i, op) case Ok(j) => j case Err(_) => i
  }

  function RunOps(i: Info, ops: seq<Op>): (j: Info)
    decreases |ops|
  {
    if ops == [] then i else RunOps(Apply(i, ops[0]), ops[1..])
  }

  predicate Valid(i: Info) {
    && |i.owners| <= MAX_PAGE_OWNERS
    && (i.state.Free? ==> i.owners == [])
    && (i.state.Shared? ==> 0 < i.state.refs <= REF_COUNT_MAX)
  }

  lemma {:induction false} RunKeepsValid(i: Info, ops: seq<Op>)
    requires Valid(i)
    ensures Valid(RunOps(i, ops))
    ensures RunOps(i, ops).memType == i.memType
    decreases |ops|
  {
    if ops != [] {
      RunKeepsValid(Apply(i, ops[0]), ops[1..]);
    }
  }

  /** Every intermediate state of the run keeps more than `depth` owners. */
  ghost predicate StaysAbove(i: Info, ops: seq<Op>, depth: nat)
    decreases |ops|
  {
    |i.owners| > depth && (ops != [] ==> StaysAbove(Apply(i, ops[0]), ops[1..], depth))
  }

  lemma {:induction false} PrefixOfCustody(i: Info, ops: seq<Op>, depth: nat)
    requires StaysAbove(i, ops, depth)
    ensures |RunOps(i, ops).owners| > depth
    ensures RunOps(i, ops).owners[..depth] == i.owners[..depth]
    decreases |ops|
  {
    if ops != [] {
      var j := Apply(i, ops[0]);
      assert j.owners[..depth] == i.owners[..depth];
      PrefixOfCustody(j, ops[1..], depth);
    }
  }

  lemma {:induction false} RunSplit(i: Info, ops: seq<Op>, last: Op)
    ensures RunOps(i, ops + [last]) == Apply(RunOps(i, ops), last)
    decreases |ops|
  {
    if ops == [] {
      assert ops + [last] == [last];
      assert [last][1..] == [];
      assert RunOps(Apply(i, last), []) == Apply(i, last);
    } else {
      assert (ops + [last])[0] == ops[0];
      assert (ops + [last])[1..] == ops[1..] + [last];
      RunSplit(Apply(i, ops[0]), ops[1..], last);
    }
  }

  /** The only way to lose an owner is to be handed back as a Converted page. */
  lemma LosingAnOwner(i: Info, op: Op)
    ensures |Apply(i, op).owners| >= |i.owners| - 1
    ensures |Apply(i, op).owners| < |i.owners| ==>
              Apply(i, op) == i.(owners := i.owners[..|i.owners| - 1], state := Converted)
  {
  }

  /** Chain of custody. A page is lent by assigning it; whatever the borrower and its own borrowers do
      meanwhile, the operation that finally takes the borrower off the stack hands the page back to the
      very owners that lent it, and in the Converted state, from which it cannot be reached by a VM. */
  lemma LentPageComesBack(lent: Info, borrower: OwnerId, newState: PageState, ops: seq<Op>, last: Op)
    requires lent.state.ConvertedLocked? && Assign(lent, borrower, newState).Ok?
    requires StaysAbove(Assign(lent, borrower, newState).value, ops, |lent.owners|)
    requires |RunOps(Assign(lent, borrower, newState).value, ops + [last]).owners| <= |lent.owners|
    ensures RunOps(Assign(lent, borrower, newState).value, ops + [last]) == lent.(state := Converted)
  {
    var i := Assign(lent, borrower, newState).value;
    assert i.owners[..|lent.owners|] == lent.owners && i.memType == lent.memType;
    CustodyFrom(i, ops, last, |lent.owners|);
  }

  lemma CustodyFrom(i: Info, ops: seq<Op>, last: Op, depth: nat)
    requires StaysAbove(i, ops, depth)
    requires |RunOps(i, ops + [last]).owners| <= depth
    ensures depth <= |i.owners|
    ensures RunOps(i, ops + [last]) == Info(i.memType, Converted, i.owners[..depth])
  {
    var before := RunOps(i, ops);
    PrefixOfCustody(i, ops, depth);
    MemTypeKept(i, ops);
    RunSplit(i, ops, last);
    LosingAnOwner(before, last);
  }

  lemma {:induction false} MemTypeKept(i: Info, ops: seq<Op>)
    ensures RunOps(i, ops).memType == i.memType
    decreases |ops|
  {
    if ops != [] {
      MemTypeKept(Apply(i, ops[0]), ops[1..]);
    }
  }

  /** References are counted exactly: however many holders a shared page has gained, each must be
      released before the owner can be taken off the page. */
  lemma {:induction false} SharesAreReleasedOneByOne(i: Info, n: nat)
    requires i.state.Shared? && 0 < i.state.refs <= REF_COUNT_MAX
    requires n <= i.state.refs
    ensures RunOps(i, seq(n, _ => OpRelease))
            == i.(state := if n == i.state.refs then Mapped else Shared(i.state.refs - n))
    decreases n
  {
    var ops := seq(n, _ => OpRelease);
    if n > 0 {
      assert ops[1..] == seq(n - 1, _ => OpRelease);
      var j := Apply(i, OpRelease);
      if i.state.refs == 1 {
        assert ops[1..] == [];
      } else {
        SharesAreReleasedOneByOne(j, n - 1);
      }
    }
  }

  /* ---------------- The class ---------------- */

  /** What an operation with the given specification does: all of it, or an error and nothing. */
  ghost predicate Did(before: Info, spec: Result<Info>, after: Info, r: Result<()>) {
    match spec
    case Ok(i) => after == i && r.Ok?
    case Err(e) => after == before && r == Err(e)
  }

  /** One entry of the page map. `link` is the next page on the list this page is on, if any. */
  class PageInfo {
    var memType: MemType
    var state: PageState
    var owners: seq<OwnerId>
    var link: Option<nat>

    ghost function View(): (i: Info)
      reads this
    {
      Info(memType, state, owners)
    }

    /** A free RAM page. */
    constructor ()
      ensures View() == Info(Ram, Free, []) && link == None
    {
      memType, state, owners, link := Ram, Free, [], None;
    }

    method DoRelease() returns (r: Result<()>)
      modifies this`state, this`owners
      ensures Did(old(View()), Release(old(View())), View(), r)
    {
      match state {
        case Mapped | VmState | Converted | Converting(_) | Unassigning(_) =>
          if owners == [] { return Err(OwnerUnderflow); }
          owners := owners[..|owners| - 1];
          state := Converted;
          return Ok(());
        case ConvertedLocked => return Err(PageLocked);
        case Shared(refs) =>
          if refs == 0 { return Err(RefCountUnderflow); }
          state := if refs - 1 == 0 then Mapped else Shared(refs - 1);
          return Ok(());
        case HypState => return Err(HypervisorStatePage);
        case Reserved => return Err(ReservedPage);
        case Free => return Err(UnownedPage);
      }
    }

    method DoAssign(owner: OwnerId, newState: PageState) returns (r: Result<()>)
      modifies this`state, this`owners
      ensures Did(old(View()), Assign(old(View()), owner, newState), View(), r)
    {
      match state {
        case Free =>
          if !(newState.ConvertedLocked? || newState.HypState?) { return Err(InvalidStateTransition); }
          if owner != HYPERVISOR { owners := owners + [owner]; }
          state := newState;
          return Ok(());
        case Converted => return Err(PageNotLocked);
        case ConvertedLocked =>
          if !(newState.Mapped? || newState.VmState?) { return Err(InvalidStateTransition); }
          if |owners| >= MAX_PAGE_OWNERS { return Err(OwnerOverflow); }
          owners := owners + [owner];
          state := newState;
          return Ok(());
        case _ => return Err(PageNotAssignable);
      }
    }

    method DoBeginConversion(version: nat) returns (r: Result<()>)
      modifies this`state, this`owners
      ensures Did(old(View()), BeginConversion(old(View()), version), View(), r)
    {
      if !state.Mapped? { return Err(PageNotConvertible); }
      state := Converting(version);
      return Ok(());
    }

    method DoCompleteConversion(version: nat) returns (r: Result<()>)
      modifies this`state, this`owners
      ensures Did(old(View()), CompleteConversion(old(View()), version), View(), r)
    {
      match state {
        case Converting(v) =>
          if v < version { state := Converted; return Ok(()); }
          return Err(PageNotConvertible);
        case _ => return Err(PageNotConvertible);
      }
    }

    method DoBeginUnassignment(version: nat) returns (r: Result<()>)
      modifies this`state, this`owners
      ensures Did(old(View()), BeginUnassignment(old(View()), version), View(), r)
    {
      if !state.Mapped? { return Err(PageNotUnassignable); }
      state := Unassigning(version);
      return Ok(());
    }

    method DoCompleteUnassignment(version: nat) returns (r: Result<()>)
      modifies this`state, this`owners
      ensures Did(old(View()), CompleteUnassignment(old(View()), version), View(), r)
    {
      match state {
        case Unassigning(v) =>
          if v >= version { return Err(PageNotUnassignable); }
          if owners == [] { return Err(OwnerUnderflow); }
          owners := owners[..|owners| - 1];
          state := Converted;
          return Ok(());
        case _ => return Err(PageNotUnassignable);
      }
    }

    method DoLockForAssignment() returns (r: Result<()>)
      modifies this`state, this`owners
      ensures Did(old(View()), LockForAssignment(old(View())), View(), r)
    {
      match state {
        case Converted => state := ConvertedLocked; return Ok(());
        case ConvertedLocked => return Err(PageLocked);
        case _ => return Err(PageNotAssignable);
      }
    }

    method DoUnlock() returns (r: Result<()>)
      modifies this`state, this`owners
      ensures Did(old(View()), Unlock(old(View())), View(), r)
    {
      if !state.ConvertedLocked? { return Err(PageNotLocked); }
      state := Converted;
      return Ok(());
    }

    method DoShare() returns (r: Result<()>)
      modifies this`state, this`owners
      ensures Did(old(View()), Share(old(View())), View(), r)
    {
      match state {
        case Mapped => state := Shared(1); return Ok(());
        case Shared(refs) =>
          if refs >= REF_COUNT_MAX { return Err(RefCountOverflow); }
          state := Shared(refs + 1);
          return Ok(());
        case _ => return Err(PageNotShareable);
      }
    }

    method DoReclaim() returns (r: Result<()>)
      modifies this`state, this`owners
      ensures Did(old(View()), Reclaim(old(View())), View(), r)
    {
      if !state.ConvertedLocked? { return Err(PageNotReclaimable); }
      state := Mapped;
      return Ok(());
    }
  }
}
