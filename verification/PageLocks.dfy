/** The physical page allocator under contention (kernel/pmm.c, kernel/lock.h).

    Every hart runs alloc_page, free_page, inc_page_ref, get_page_ref and dec_page_ref one statement at
    a time, and the statements of different harts interleave freely; only the amoswap of spin_lock is
    atomic. get_page_ref and dec_page_ref are called by the copy-on-write fault handler.
    The free list is intrusive: `head` and the `next` word of every free page.  */
module PageLocks {
  import opened Basics
  import opened Chains

  const NULL: int := -1

  /** Where a hart is. Waiting states spin on a lock; the others name the next statement. */
  datatype Pc =
    | Idle
    // alloc_page
    | AllocWait
    | AllocRead
    | AllocUnlink(page: nat)
    | AllocWaitRef(page: nat)
    | AllocSetRef(page: nat)
    | AllocDropRef(page: nat)
    | AllocReturn(page: nat)
    | AllocFail
    // free_page
    | FreeWait(page: nat)
    | FreeCount(page: nat)
    | FreeLeave
    | FreeDropRef(page: nat)
    | FreeWaitList(page: nat)
    | FreeLink(page: nat)
    | FreeHead(page: nat)
    | FreeDone
    // inc_page_ref
    | IncWait(page: nat)
    | IncCount(page: nat)
    | IncReturn(page: nat)
    // get_page_ref
    | GetWait(page: nat)
    | GetRead(page: nat)
    | GetLeave
    // dec_page_ref
    | DecWait(page: nat)
    | DecCount(page: nat)
    | DecLeave

  datatype Call =
    | CallAlloc
    | CallFree(page: nat)
    | CallInc(page: nat)
    | CallGet(page: nat)
    | CallDec(page: nat)

  /** A hart takes its next step; an idle one starts the call. */
  datatype Event = Event(hart: nat, call: Call)

  /** `free` records the list that `head` and `next` form; `out` the references that callers own.
      A lock word is None when 0 and names the hart that swapped in the 1 otherwise. `seen` has the page
      for which get_page_ref last told a hart's fault handler that it is shared. */
  datatype State = State(
    head: int, next: Links, refs: seq<nat>,
    listLock: Option<nat>, refLock: Option<nat>, pc: seq<Pc>,
    free: seq<nat>, out: multiset<nat>, seen: map<nat, nat>)

  /** Calls respect ownership: only a page to which the caller owns a reference is freed, shared or asked
      for. The fault handler gives its reference up after it was told that the page is shared. */
  ghost predicate Enabled(s: State, e: Event) {
    && e.hart < |s.pc|
    && (s.pc[e.hart].Idle? && !e.call.CallAlloc? ==> e.call.page in s.out)
    && (s.pc[e.hart].Idle? && e.call.CallDec? ==> e.hart in s.seen && s.seen[e.hart] == e.call.page)
  }

  function Goto(s: State, h: nat, c: Pc): State
    requires h < |s.pc|
  {
    s.(pc := s.pc[h := c])
  }

  /** The first statement of a call. */
  function Entry(call: Call): Pc {
    match call
    case CallAlloc => AllocWait
    case CallFree(p) => FreeWait(p)
    case CallInc(p) => IncWait(p)
    case CallGet(p) => GetWait(p)
    case CallDec(p) => DecWait(p)
  }

  /** Starting a call: the reference to be given up or shared leaves the caller's hands. */
  function Begin(s: State, h: nat, call: Call): State
    requires h < |s.pc|
  {
    Goto(s, h, Entry(call)).(
      out := if call.CallAlloc? || call.CallGet? then s.out else s.out - multiset{call.page},
      seen := if call.CallDec? then s.seen - {h} else s.seen)
  }

  function LockList(s: State, h: nat, c: Pc): State
    requires h < |s.pc|
  {
    if s.listLock.None? then Goto(s, h, c).(listLock := Some(h)) else s
  }

  function LockRef(s: State, h: nat, c: Pc): State
    requires h < |s.pc|
  {
    if s.refLock.None? then Goto(s, h, c).(refLock := Some(h)) else s
  }

  /** The statements of alloc_page. */
  function AllocStep(s: State, h: nat): State
    requires h < |s.pc| && Sane(s)
  {
    match s.pc[h]
    case AllocWait => LockList(s, h, AllocRead)
    case AllocRead => Goto(s, h, if s.head == NULL then AllocFail else AllocUnlink(s.head))
    case AllocUnlink(p) =>
      Goto(s, h, AllocWaitRef(p)).(head := s.next[p], free := if s.free == [] then [] else s.free[1..])
    case AllocWaitRef(p) => LockRef(s, h, AllocSetRef(p))
    case AllocSetRef(p) => Goto(s, h, AllocDropRef(p)).(refs := s.refs[p := 1])
    case AllocDropRef(p) => Goto(s, h, AllocReturn(p)).(refLock := None)
    case AllocReturn(p) => Goto(s, h, Idle).(listLock := None, out := s.out + multiset{p})
    case AllocFail => Goto(s, h, Idle).(listLock := None)
    case _ => s
  }

  /** The statements of free_page. */
  function FreeStep(s: State, h: nat): State
    requires h < |s.pc| && Sane(s)
  {
    match s.pc[h]
    case FreeWait(p) => LockRef(s, h, FreeCount(p))
    case FreeCount(p) =>
      if s.refs[p] > 1 then Goto(s, h, FreeLeave).(refs := s.refs[p := s.refs[p] - 1])
      else Goto(s, h, FreeDropRef(p)).(refs := s.refs[p := 0])
    case FreeLeave => Goto(s, h, Idle).(refLock := None)
    case FreeDropRef(p) => Goto(s, h, FreeWaitList(p)).(refLock := None)
    case FreeWaitList(p) => LockList(s, h, FreeLink(p))
    case FreeLink(p) => Goto(s, h, FreeHead(p)).(next := s.next[p := s.head])
    case FreeHead(p) => Goto(s, h, FreeDone).(head := p, free := [p] + s.free)
    case FreeDone => Goto(s, h, Idle).(listLock := None)
    case _ => s
  }

  /** The statements of inc_page_ref. */
  function IncStep(s: State, h: nat): State
    requires h < |s.pc| && Sane(s)
  {
    match s.pc[h]
    case IncWait(p) => LockRef(s, h, IncCount(p))
    case IncCount(p) => Goto(s, h, IncReturn(p)).(refs := s.refs[p := s.refs[p] + 1])
    case IncReturn(p) => Goto(s, h, Idle).(refLock := None, out := s.out + multiset{p, p})
    case _ => s
  }

  /** The statements of get_page_ref and dec_page_ref. */
  function FaultStep(s: State, h: nat): State
    requires h < |s.pc| && Sane(s)
  {
    match s.pc[h]
    case GetWait(p) => LockRef(s, h, GetRead(p))
    case GetRead(p) => Goto(s, h, GetLeave).(seen := if s.refs[p] > 1 then s.seen[h := p] else s.seen - {h})
    case GetLeave => Goto(s, h, Idle).(refLock := None)
    case DecWait(p) => LockRef(s, h, DecCount(p))
    case DecCount(p) => Goto(s, h, DecLeave).(refs := s.refs[p := if s.refs[p] > 0 then s.refs[p] - 1 else 0])
    case DecLeave => Goto(s, h, Idle).(refLock := None)
    case _ => s
  }

  predicate InFault(c: Pc) {
    c.GetWait? || c.GetRead? || c.GetLeave? || c.DecWait? || c.DecCount? || c.DecLeave?
  }

  predicate InAlloc(c: Pc) {
    c.AllocWait? || c.AllocRead? || c.AllocUnlink? || c.AllocWaitRef? || c.AllocSetRef? || c.AllocDropRef? ||
    c.AllocReturn? || c.AllocFail?
  }

  predicate InInc(c: Pc) {
    c.IncWait? || c.IncCount? || c.IncReturn?
  }

  function Step(s: State, e: Event): State
    requires e.hart < |s.pc| && Sane(s)
  {
    if s.pc[e.hart].Idle? then Begin(s, e.hart, e.call)
    else if InAlloc(s.pc[e.hart]) then AllocStep(s, e.hart)
    else if InInc(s.pc[e.hart]) then IncStep(s, e.hart)
    else if InFault(s.pc[e.hart]) then FaultStep(s, e.hart)
    else FreeStep(s, e.hart)
  }

  // ---------------------------------------------------------------- the invariant

  predicate PageInRange(c: Pc, n: nat) {
    match c
    case AllocUnlink(p) => p < n
    case AllocWaitRef(p) => p < n
    case AllocSetRef(p) => p < n
    case AllocDropRef(p) => p < n
    case AllocReturn(p) => p < n
    case FreeWait(p) => p < n
    case FreeCount(p) => p < n
    case FreeDropRef(p) => p < n
    case FreeWaitList(p) => p < n
    case FreeLink(p) => p < n
    case FreeHead(p) => p < n
    case IncWait(p) => p < n
    case IncCount(p) => p < n
    case IncReturn(p) => p < n
    case GetWait(p) => p < n
    case GetRead(p) => p < n
    case DecWait(p) => p < n
    case DecCount(p) => p < n
    case _ => true
  }

  /** All page numbers are pages, so that every statement can execute. */
  ghost predicate Sane(s: State) {
    && (forall p :: 0 <= p < |s.refs| ==> p in s.next)
    && NULL <= s.head < |s.refs|
    && (forall h :: 0 <= h < |s.pc| ==> PageInRange(s.pc[h], |s.refs|))
  }

  predicate HasListLock(c: Pc) {
    c.AllocRead? || c.AllocUnlink? || c.AllocWaitRef? || c.AllocSetRef? || c.AllocDropRef? || c.AllocReturn? ||
    c.AllocFail? || c.FreeLink? || c.FreeHead? || c.FreeDone?
  }

  predicate HasRefLock(c: Pc) {
    c.AllocSetRef? || c.AllocDropRef? || c.FreeCount? || c.FreeLeave? || c.FreeDropRef? || c.IncCount? ||
    c.IncReturn? || c.GetRead? || c.GetLeave? || c.DecCount? || c.DecLeave?
  }

  /** References to `p` held by a call in progress. */
  function Carried(c: Pc, p: nat): nat {
    match c
    case AllocDropRef(q) => if q == p then 1 else 0
    case AllocReturn(q) => if q == p then 1 else 0
    case FreeWait(q) => if q == p then 1 else 0
    case FreeCount(q) => if q == p then 1 else 0
    case IncWait(q) => if q == p then 1 else 0
    case IncCount(q) => if q == p then 1 else 0
    case IncReturn(q) => if q == p then 2 else 0
    case DecWait(q) => if q == p then 1 else 0
    case DecCount(q) => if q == p then 1 else 0
    case _ => 0
  }

  /** 1 if the call in progress has page `p` neither on the list nor counted. */
  function InTransit(c: Pc, p: nat): nat {
    match c
    case AllocWaitRef(q) => if q == p then 1 else 0
    case AllocSetRef(q) => if q == p then 1 else 0
    case FreeDropRef(q) => if q == p then 1 else 0
    case FreeWaitList(q) => if q == p then 1 else 0
    case FreeLink(q) => if q == p then 1 else 0
    case FreeHead(q) => if q == p then 1 else 0
    case _ => 0
  }

  ghost function CarriedBy(pc: seq<Pc>, p: nat): nat {
    if pc == [] then 0 else Carried(pc[0], p) + CarriedBy(pc[1..], p)
  }

  ghost function TransitsIn(pc: seq<Pc>, p: nat): nat {
    if pc == [] then 0 else InTransit(pc[0], p) + TransitsIn(pc[1..], p)
  }

  /** One hart moves: the sums change by its own share, which they include. */
  lemma {:induction false} SumsAfterStep(pc: seq<Pc>, h: nat, c: Pc, p: nat)
    requires h < |pc|
    ensures CarriedBy(pc[h := c], p) == CarriedBy(pc, p) - Carried(pc[h], p) + Carried(c, p)
    ensures TransitsIn(pc[h := c], p) == TransitsIn(pc, p) - InTransit(pc[h], p) + InTransit(c, p)
    ensures Carried(pc[h], p) <= CarriedBy(pc, p) && InTransit(pc[h], p) <= TransitsIn(pc, p)
  {
    if h == 0 {
      assert pc[h := c][1..] == pc[1..];
    } else {
      SumsAfterStep(pc[1..], h - 1, c, p);
      assert pc[h := c][1..] == pc[1..][h - 1 := c];
    }
  }

  lemma {:induction false} SumsOfTwo(pc: seq<Pc>, h: nat, k: nat, p: nat)
    requires h < k < |pc|
    ensures Carried(pc[h], p) + Carried(pc[k], p) <= CarriedBy(pc, p)
    ensures InTransit(pc[h], p) + InTransit(pc[k], p) <= TransitsIn(pc, p)
  {
    if h == 0 {
      SumsAfterStep(pc[1..], k - 1, pc[k], p);
    } else {
      SumsOfTwo(pc[1..], h - 1, k - 1, p);
    }
  }

  ghost predicate HartLocksOk(s: State, h: nat)
    requires h < |s.pc|
  {
    && (HasListLock(s.pc[h]) <==> s.listLock == Some(h))
    && (HasRefLock(s.pc[h]) <==> s.refLock == Some(h))
  }

  ghost predicate ListOk(s: State)
    requires Sane(s)
  {
    && Linked(s.next, NULL, s.head, s.free)
    && NoDuplicates(s.free)
    && (forall p :: p in s.free ==> p < |s.refs|)
    && (forall h :: 0 <= h < |s.pc| && s.pc[h].AllocUnlink? ==> s.head == s.pc[h].page)
    && (forall h :: 0 <= h < |s.pc| && s.pc[h].FreeHead? ==> s.next[s.pc[h].page] == s.head)
  }

  function One(b: bool): nat { if b then 1 else 0 }

  /** Where a page is: on the list, counted, or in transit. */
  ghost function Places(s: State, p: nat): nat
    requires p < |s.refs|
  {
    One(p in s.free) + One(s.refs[p] > 0) + TransitsIn(s.pc, p)
  }

  /** The count of a page is the number of references owned or carried; and a page is in at most one
      place. */
  ghost predicate PageOk(s: State, p: nat)
    requires p < |s.refs|
  {
    s.refs[p] == s.out[p] + CarriedBy(s.pc, p) && Places(s, p) <= 1
  }

  /** The page that alloc_page has counted and not yet returned has that one reference only. */
  ghost predicate GrantOk(s: State, h: nat)
    requires h < |s.pc|
  {
    s.pc[h].AllocDropRef? || s.pc[h].AllocReturn? ==> s.pc[h].page < |s.refs| && s.refs[s.pc[h].page] == 1
  }

  ghost predicate LocksInRange(s: State) {
    && (s.listLock.Some? ==> s.listLock.value < |s.pc|)
    && (s.refLock.Some? ==> s.refLock.value < |s.pc|)
  }

  ghost predicate HartsOk(s: State) {
    LocksInRange(s) && forall h :: 0 <= h < |s.pc| ==> HartLocksOk(s, h) && GrantOk(s, h)
  }

  ghost predicate OutInRange(s: State) {
    forall p :: p in s.out ==> p < |s.refs|
  }

  ghost predicate Inv(s: State) {
    && Sane(s)
    && HartsOk(s)
    && ListOk(s)
    && OutInRange(s)
    && (forall p :: 0 <= p < |s.refs| ==> PageOk(s, p))
  }

  // ---------------------------------------------------------------- every step keeps it

  lemma BeginKeepsHart(s: State, h: nat, call: Call, k: nat)
    requires h < |s.pc| && k < |s.pc| && s.pc[h].Idle? && Sane(s) && HartLocksOk(s, h) && HartLocksOk(s, k)
    requires !call.CallAlloc? ==> call.page < |s.refs|
    ensures var s' := Begin(s, h, call);
            |s'.pc| == |s.pc| && HartLocksOk(s', k) && PageInRange(s'.pc[k], |s'.refs|)
  {
  }

  lemma AllocKeepsHart(s: State, h: nat, k: nat)
    requires h < |s.pc| && k < |s.pc| && Sane(s) && HartLocksOk(s, h) && HartLocksOk(s, k)
    ensures var s' := AllocStep(s, h);
            |s'.pc| == |s.pc| && HartLocksOk(s', k) && PageInRange(s'.pc[k], |s'.refs|)
  {
    assert PageInRange(s.pc[h], |s.refs|) && PageInRange(s.pc[k], |s.refs|);
  }

  lemma FreeKeepsHart(s: State, h: nat, k: nat)
    requires h < |s.pc| && k < |s.pc| && Sane(s) && HartLocksOk(s, h) && HartLocksOk(s, k)
    ensures var s' := FreeStep(s, h);
            |s'.pc| == |s.pc| && HartLocksOk(s', k) && PageInRange(s'.pc[k], |s'.refs|)
  {
    assert PageInRange(s.pc[h], |s.refs|) && PageInRange(s.pc[k], |s.refs|);
  }

  lemma IncKeepsHart(s: State, h: nat, k: nat)
    requires h < |s.pc| && k < |s.pc| && Sane(s) && HartLocksOk(s, h) && HartLocksOk(s, k)
    ensures var s' := IncStep(s, h);
            |s'.pc| == |s.pc| && HartLocksOk(s', k) && PageInRange(s'.pc[k], |s'.refs|)
  {
    assert PageInRange(s.pc[h], |s.refs|) && PageInRange(s.pc[k], |s.refs|);
  }

  lemma FaultKeepsHart(s: State, h: nat, k: nat)
    requires h < |s.pc| && k < |s.pc| && Sane(s) && HartLocksOk(s, h) && HartLocksOk(s, k)
    ensures var s' := FaultStep(s, h);
            |s'.pc| == |s.pc| && HartLocksOk(s', k) && PageInRange(s'.pc[k], |s'.refs|)
  {
    assert PageInRange(s.pc[h], |s.refs|) && PageInRange(s.pc[k], |s.refs|);
  }

  /** What hart `h` alone knows of the places of a page. */
  ghost function Local(s: State, h: nat, p: nat): nat
    requires h < |s.pc| && p < |s.refs|
  {
    One(p in s.free) + One(s.refs[p] > 0) + InTransit(s.pc[h], p)
  }

  lemma LocalBounds(s: State, h: nat, p: nat)
    requires h < |s.pc| && p < |s.refs| && PageOk(s, p)
    ensures Local(s, h, p) <= 1 && Carried(s.pc[h], p) + s.out[p] <= s.refs[p]
  {
    hide CarriedBy, TransitsIn, InTransit, Carried;
    SumsAfterStep(s.pc, h, s.pc[h], p);
  }

  /** A step of hart `h` that keeps its own accounts keeps those of the page. */
  lemma PageAfter(s: State, s': State, h: nat, p: nat, lost: nat)
    requires h < |s.pc| && p < |s.refs| == |s'.refs| && PageOk(s, p)
    requires |s'.pc| == |s.pc| && s'.pc == s.pc[h := s'.pc[h]]
    requires s'.refs[p] - s'.out[p] - Carried(s'.pc[h], p) == s.refs[p] - s.out[p] - Carried(s.pc[h], p)
    requires Local(s', h, p) + lost == Local(s, h, p)
    ensures PageOk(s', p) && Places(s', p) + lost == Places(s, p)
  {
    hide CarriedBy, TransitsIn, InTransit, Carried;
    SumsAfterStep(s.pc, h, s'.pc[h], p);
  }

  lemma BeginKeepsPage(s: State, h: nat, call: Call, p: nat)
    requires h < |s.pc| && s.pc[h].Idle? && p < |s.refs| && PageOk(s, p)
    requires !call.CallAlloc? ==> call.page in s.out
    ensures PageOk(Begin(s, h, call), p) && Places(Begin(s, h, call), p) == Places(s, p)
  {
    hide CarriedBy, TransitsIn, PageOk, Places;
    LocalBounds(s, h, p);
    PageAfter(s, Begin(s, h, call), h, p, 0);
  }

  lemma UnlinkKeepsPage(s: State, h: nat, p: nat)
    requires h < |s.pc| && Sane(s) && p < |s.refs| && PageOk(s, p) && s.pc[h].AllocUnlink?
    requires s.free != [] && s.free[0] == s.pc[h].page && NoDuplicates(s.free)
    ensures PageOk(AllocStep(s, h), p) && Places(AllocStep(s, h), p) == Places(s, p)
  {
    hide CarriedBy, TransitsIn, PageOk, Places;
    LocalBounds(s, h, p);
    assert s.free == [s.pc[h].page] + s.free[1..];
    PageAfter(s, AllocStep(s, h), h, p, 0);
  }

  lemma SetRefKeepsPage(s: State, h: nat, p: nat)
    requires h < |s.pc| && Sane(s) && p < |s.refs| && PageOk(s, p) && s.pc[h].AllocSetRef?
    ensures PageOk(AllocStep(s, h), p) && Places(AllocStep(s, h), p) == Places(s, p)
  {
    hide CarriedBy, TransitsIn, PageOk, Places;
    LocalBounds(s, h, p);
    PageAfter(s, AllocStep(s, h), h, p, 0);
  }

  lemma AllocKeepsPage(s: State, h: nat, p: nat)
    requires h < |s.pc| && Sane(s) && p < |s.refs| && PageOk(s, p) && !s.pc[h].AllocUnlink? && !s.pc[h].AllocSetRef?
    ensures PageOk(AllocStep(s, h), p) && Places(AllocStep(s, h), p) == Places(s, p)
  {
    hide CarriedBy, TransitsIn, PageOk, Places;
    LocalBounds(s, h, p);
    PageAfter(s, AllocStep(s, h), h, p, 0);
  }

  lemma ReleaseKeepsPage(s: State, h: nat, p: nat)
    requires h < |s.pc| && Sane(s) && p < |s.refs| && PageOk(s, p) && s.pc[h].FreeCount?
    ensures PageOk(FreeStep(s, h), p) && Places(FreeStep(s, h), p) == Places(s, p)
  {
    hide CarriedBy, TransitsIn, PageOk, Places;
    LocalBounds(s, h, p);
    PageAfter(s, FreeStep(s, h), h, p, 0);
  }

  lemma PushKeepsPage(s: State, h: nat, p: nat)
    requires h < |s.pc| && Sane(s) && p < |s.refs| && PageOk(s, p) && s.pc[h].FreeHead?
    ensures PageOk(FreeStep(s, h), p) && Places(FreeStep(s, h), p) == Places(s, p)
  {
    hide CarriedBy, TransitsIn, PageOk, Places;
    LocalBounds(s, h, p);
    PageAfter(s, FreeStep(s, h), h, p, 0);
  }

  lemma FreeKeepsPage(s: State, h: nat, p: nat)
    requires h < |s.pc| && Sane(s) && p < |s.refs| && PageOk(s, p)
    ensures PageOk(FreeStep(s, h), p) && Places(FreeStep(s, h), p) == Places(s, p)
  {
    hide CarriedBy, TransitsIn, PageOk, Places;
    if s.pc[h].FreeCount? {
      ReleaseKeepsPage(s, h, p);
    } else if s.pc[h].FreeHead? {
      PushKeepsPage(s, h, p);
    } else {
      PageAfter(s, FreeStep(s, h), h, p, 0);
    }
  }

  lemma SharedKeepsPage(s: State, h: nat, p: nat)
    requires h < |s.pc| && Sane(s) && p < |s.refs| && PageOk(s, p) && s.pc[h].IncReturn?
    ensures PageOk(IncStep(s, h), p) && Places(IncStep(s, h), p) == Places(s, p)
  {
    hide CarriedBy, TransitsIn, PageOk, Places;
    PageAfter(s, IncStep(s, h), h, p, 0);
  }

  lemma IncKeepsPage(s: State, h: nat, p: nat)
    requires h < |s.pc| && Sane(s) && p < |s.refs| && PageOk(s, p)
    ensures PageOk(IncStep(s, h), p) && Places(IncStep(s, h), p) == Places(s, p)
  {
    hide CarriedBy, TransitsIn, PageOk, Places;
    LocalBounds(s, h, p);
    if s.pc[h].IncReturn? {
      SharedKeepsPage(s, h, p);
    } else {
      PageAfter(s, IncStep(s, h), h, p, 0);
    }
  }

  /** The event gives up the last reference to `p` by dec_page_ref, which lists no page. */
  ghost predicate Drops(s: State, h: nat, p: nat)
    requires h < |s.pc| && p < |s.refs|
  {
    s.pc[h] == DecCount(p) && s.refs[p] <= 1
  }

  lemma FaultKeepsPage(s: State, h: nat, p: nat)
    requires h < |s.pc| && Sane(s) && p < |s.refs| && PageOk(s, p)
    ensures PageOk(FaultStep(s, h), p) && Places(FaultStep(s, h), p) == Places(s, p) - One(Drops(s, h, p))
  {
    hide CarriedBy, TransitsIn, PageOk, Places;
    LocalBounds(s, h, p);
    PageAfter(s, FaultStep(s, h), h, p, One(Drops(s, h, p)));
  }

  /** Only the holder of the list lock is between reading and writing the list. */
  lemma OneInSection(s: State, h: nat, k: nat)
    requires Inv(s) && h < |s.pc| && k < |s.pc| && h != k && HasListLock(s.pc[h])
    ensures !HasListLock(s.pc[k])
  {
    assert HartLocksOk(s, h) && HartLocksOk(s, k);
  }

  lemma InTransitIsOffList(s: State, h: nat, p: nat)
    requires Inv(s) && h < |s.pc| && p < |s.refs| && InTransit(s.pc[h], p) == 1
    ensures p !in s.free && s.refs[p] == 0
  {
    assert PageOk(s, p);
    SumsAfterStep(s.pc, h, s.pc[h], p);
  }

  lemma TailKeepsNoDuplicates(list: seq<int>)
    requires NoDuplicates(list) && list != []
    ensures NoDuplicates(list[1..]) && forall x :: x in list[1..] ==> x in list
  {
    assert forall i :: 0 <= i < |list[1..]| ==> list[1..][i] == list[i + 1];
  }

  lemma UnlinkKeepsList(s: State, h: nat)
    requires Inv(s) && h < |s.pc| && s.pc[h].AllocUnlink?
    ensures Sane(AllocStep(s, h)) && ListOk(AllocStep(s, h))
    ensures s.free != [] && s.free[0] == s.pc[h].page && NoDuplicates(s.free)
  {
    hide PageOk, HartLocksOk;
    var s' := AllocStep(s, h);
    assert PageInRange(s.pc[h], |s.refs|);
    LinkedTail(s.next, NULL, s.head, s.free);
    TailKeepsNoDuplicates(s.free);
    assert s'.free == s.free[1..] && s'.next == s.next && s'.refs == s.refs;
    assert s'.head == At(s'.free, 0, NULL);
    assert s'.head != NULL ==> s'.head in s.free;
    forall k | 0 <= k < |s'.pc|
      ensures PageInRange(s'.pc[k], |s'.refs|) && !s'.pc[k].AllocUnlink? && !s'.pc[k].FreeHead?
    {
      assert PageInRange(s.pc[k], |s.refs|);
      if k != h {
        OneInSection(s, h, k);
      }
    }
    hide AllocStep, Linked, NoDuplicates, PageInRange;
    assert Sane(s');
    assert ListOk(s');
  }

  lemma LinkKeepsList(s: State, h: nat)
    requires Inv(s) && h < |s.pc| && (s.pc[h].FreeLink? || s.pc[h].FreeHead?)
    ensures Sane(FreeStep(s, h)) && ListOk(FreeStep(s, h))
  {
    hide PageOk;
    var s', p := FreeStep(s, h), s.pc[h].page;
    assert PageInRange(s.pc[h], |s.refs|);
    InTransitIsOffList(s, h, p);
    if s.pc[h].FreeLink? {
      LinkedFrame(s.next, s'.next, NULL, s.head, s.free);
    } else {
      LinkedPush(s.next, NULL, s.head, s.free, p);
      assert s.next == s.next[p := s.head];
    }
    forall k | 0 <= k < |s'.pc|
      ensures PageInRange(s'.pc[k], |s'.refs|) && !s'.pc[k].AllocUnlink? && (k != h ==> !s'.pc[k].FreeHead?)
    {
      assert PageInRange(s.pc[k], |s.refs|);
      if k != h {
        OneInSection(s, h, k);
      }
    }
  }

  /** No hart recounts a page another one has just counted for its caller. */
  lemma RecountsElsewhere(s: State, h: nat, k: nat, p: nat)
    requires Inv(s) && h < |s.pc| && k < |s.pc| && h != k && p < |s.refs|
    requires s.pc[k] == AllocDropRef(p) || s.pc[k] == AllocReturn(p)
    ensures s.pc[h] != FreeCount(p) && s.pc[h] != IncCount(p) && s.pc[h] != AllocSetRef(p) && s.pc[h] != DecCount(p)
  {
    assert PageOk(s, p) && GrantOk(s, k);
    SumsOfTwo(s.pc, if h < k then h else k, if h < k then k else h, p);
    SumsAfterStep(s.pc, h, s.pc[h], p);
  }

  /** What a statement of hart `h` does to the counts. */
  ghost predicate Recounts(s: State, s': State, h: nat)
    requires h < |s.pc|
  {
    && |s'.pc| == |s.pc| && s'.pc == s.pc[h := s'.pc[h]] && |s'.refs| == |s.refs|
    && GrantOk(s', h)
    && forall p :: 0 <= p < |s.refs| ==>
         || s'.refs[p] == s.refs[p] || s.pc[h] == FreeCount(p) || s.pc[h] == IncCount(p)
         || s.pc[h] == AllocSetRef(p) || s.pc[h] == DecCount(p)
  }

  lemma AllocRecounts(s: State, h: nat)
    requires Sane(s) && h < |s.pc| && GrantOk(s, h)
    ensures Recounts(s, AllocStep(s, h), h)
  {
    assert PageInRange(s.pc[h], |s.refs|);
  }

  lemma FreeRecounts(s: State, h: nat)
    requires Sane(s) && h < |s.pc| && GrantOk(s, h)
    ensures Recounts(s, FreeStep(s, h), h)
  {
    assert PageInRange(s.pc[h], |s.refs|);
  }

  lemma IncRecounts(s: State, h: nat)
    requires Sane(s) && h < |s.pc| && GrantOk(s, h)
    ensures Recounts(s, IncStep(s, h), h)
  {
    assert PageInRange(s.pc[h], |s.refs|);
  }

  lemma FaultRecounts(s: State, h: nat)
    requires Sane(s) && h < |s.pc| && GrantOk(s, h)
    ensures Recounts(s, FaultStep(s, h), h)
  {
    assert PageInRange(s.pc[h], |s.refs|);
  }

  lemma RecountsKeepGrant(s: State, s': State, h: nat, k: nat)
    requires Inv(s) && h < |s.pc| && k < |s.pc| && Recounts(s, s', h)
    ensures GrantOk(s', k)
  {
    assert GrantOk(s, k) && PageInRange(s.pc[k], |s.refs|);
    if h != k && (s.pc[k].AllocDropRef? || s.pc[k].AllocReturn?) {
      RecountsElsewhere(s, h, k, s.pc[k].page);
    }
  }

  /** The other statements leave the list alone. */
  lemma OthersKeepList(s: State, s': State, h: nat)
    requires Inv(s) && h < |s.pc|
    requires s'.head == s.head && s'.next == s.next && s'.free == s.free && |s'.refs| == |s.refs|
    requires |s'.pc| == |s.pc| && s'.pc == s.pc[h := s'.pc[h]] && PageInRange(s'.pc[h], |s.refs|)
    requires s'.pc[h].AllocUnlink? ==> s'.pc[h].page == s.head
    requires !s'.pc[h].FreeHead? || s' == s
    ensures Sane(s') && ListOk(s')
  {
  }

  lemma EntryIsClean(call: Call, n: nat)
    requires !call.CallAlloc? ==> call.page < n
    ensures var c := Entry(call);
            && PageInRange(c, n) && !c.AllocUnlink? && !c.FreeHead? && !c.AllocDropRef? && !c.AllocReturn?
  {
  }

  lemma BeginKeepsList(s: State, e: Event)
    requires Inv(s) && Enabled(s, e) && s.pc[e.hart].Idle?
    ensures var s' := Begin(s, e.hart, e.call); Sane(s') && ListOk(s') && OutInRange(s')
  {
    EntryIsClean(e.call, |s.refs|);
    hide PageOk, Linked, NoDuplicates, HartLocksOk, GrantOk, Entry, PageInRange, Sane, ListOk;
    OthersKeepList(s, Begin(s, e.hart, e.call), e.hart);
  }

  lemma BeginKeepsInv(s: State, e: Event)
    requires Inv(s) && Enabled(s, e) && s.pc[e.hart].Idle?
    ensures Inv(Begin(s, e.hart, e.call))
  {
    EntryIsClean(e.call, |s.refs|);
    hide PageOk, ListOk, HartLocksOk, PageInRange, Entry;
    var s' := Begin(s, e.hart, e.call);
    BeginKeepsList(s, e);
    hide Sane;
    forall k | 0 <= k < |s'.pc|
      ensures HartLocksOk(s', k) && GrantOk(s', k)
    {
      BeginKeepsHart(s, e.hart, e.call, k);
      assert GrantOk(s, k);
    }
    forall p | 0 <= p < |s'.refs| ensures PageOk(s', p) { BeginKeepsPage(s, e.hart, e.call, p); }
  }

  lemma AllocKeepsHarts(s: State, h: nat)
    requires Inv(s) && h < |s.pc|
    ensures HartsOk(AllocStep(s, h))
  {
    hide PageOk, ListOk;
    var s' := AllocStep(s, h);
    assert HartLocksOk(s, h) && GrantOk(s, h);
    AllocRecounts(s, h);
    assert |s'.pc| == |s.pc|;
    assert LocksInRange(s');
    hide Recounts, AllocStep;
    forall k | 0 <= k < |s'.pc|
      ensures HartLocksOk(s', k) && GrantOk(s', k)
    {
      AllocKeepsHart(s, h, k);
      RecountsKeepGrant(s, s', h, k);
    }
  }

  /** What every statement of alloc_page but the unlinking leaves alone. */
  lemma AllocElsewhere(s: State, h: nat)
    requires Sane(s) && h < |s.pc| && OutInRange(s)
    ensures var s' := AllocStep(s, h);
            && |s'.refs| == |s.refs| && OutInRange(s') && |s'.pc| == |s.pc| && s'.pc == s.pc[h := s'.pc[h]]
            && PageInRange(s'.pc[h], |s.refs|) && (s'.pc[h].AllocUnlink? ==> s'.pc[h].page == s.head || s' == s)
            && (!s.pc[h].AllocUnlink? ==> s'.head == s.head && s'.next == s.next && s'.free == s.free)
            && (s'.pc[h].FreeHead? ==> s' == s)
  {
    assert PageInRange(s.pc[h], |s.refs|);
  }

  lemma AllocKeepsList(s: State, h: nat)
    requires Inv(s) && h < |s.pc|
    ensures var s' := AllocStep(s, h); Sane(s') && ListOk(s') && OutInRange(s')
  {
    hide PageOk, GrantOk, HartLocksOk, ListOk, AllocStep, PageInRange;
    var s' := AllocStep(s, h);
    AllocElsewhere(s, h);
    hide Sane;
    if s.pc[h].AllocUnlink? {
      UnlinkKeepsList(s, h);
    } else {
      OthersKeepList(s, s', h);
    }
  }

  lemma AllocKeepsInv(s: State, h: nat)
    requires Inv(s) && h < |s.pc|
    ensures Inv(AllocStep(s, h))
  {
    hide PageOk, HartLocksOk, GrantOk, ListOk, AllocStep;
    AllocKeepsHarts(s, h);
    AllocKeepsList(s, h);
    hide HartsOk, OutInRange;
    var s' := AllocStep(s, h);
    AllocRecounts(s, h);
    forall p | 0 <= p < |s'.refs|
      ensures PageOk(s', p)
    {
      if s.pc[h].AllocUnlink? {
        UnlinkKeepsList(s, h);
        UnlinkKeepsPage(s, h, p);
      } else if s.pc[h].AllocSetRef? {
        SetRefKeepsPage(s, h, p);
      } else {
        AllocKeepsPage(s, h, p);
      }
    }
  }

  lemma FreeKeepsHarts(s: State, h: nat)
    requires Inv(s) && h < |s.pc|
    ensures HartsOk(FreeStep(s, h))
  {
    hide PageOk, ListOk;
    var s' := FreeStep(s, h);
    assert HartLocksOk(s, h) && GrantOk(s, h);
    FreeRecounts(s, h);
    assert |s'.pc| == |s.pc|;
    assert LocksInRange(s');
    hide Recounts, FreeStep;
    forall k | 0 <= k < |s'.pc|
      ensures HartLocksOk(s', k) && GrantOk(s', k)
    {
      FreeKeepsHart(s, h, k);
      RecountsKeepGrant(s, s', h, k);
    }
  }

  /** What every statement of free_page but the pushing leaves alone. */
  lemma FreeElsewhere(s: State, h: nat)
    requires Sane(s) && h < |s.pc| && OutInRange(s)
    ensures var s' := FreeStep(s, h);
            && |s'.refs| == |s.refs| && OutInRange(s') && |s'.pc| == |s.pc| && s'.pc == s.pc[h := s'.pc[h]]
            && PageInRange(s'.pc[h], |s.refs|) && (s'.pc[h].AllocUnlink? ==> s' == s)
            && (!s.pc[h].FreeLink? && !s.pc[h].FreeHead? ==>
                  s'.head == s.head && s'.next == s.next && s'.free == s.free && !s'.pc[h].FreeHead?)
  {
    assert PageInRange(s.pc[h], |s.refs|);
  }

  lemma FreeKeepsList(s: State, h: nat)
    requires Inv(s) && h < |s.pc|
    ensures var s' := FreeStep(s, h); Sane(s') && ListOk(s') && OutInRange(s')
  {
    hide PageOk, GrantOk, HartLocksOk, FreeStep, PageInRange, Linked, NoDuplicates;
    var s' := FreeStep(s, h);
    FreeElsewhere(s, h);
    assert s.pc[h].AllocUnlink? ==> s.pc[h].page == s.head;
    hide Sane, ListOk;
    if s.pc[h].FreeLink? || s.pc[h].FreeHead? {
      LinkKeepsList(s, h);
    } else {
      OthersKeepList(s, s', h);
    }
  }

  lemma FreeKeepsInv(s: State, h: nat)
    requires Inv(s) && h < |s.pc|
    ensures Inv(FreeStep(s, h))
  {
    hide PageOk, HartLocksOk, GrantOk, ListOk, FreeStep;
    FreeKeepsHarts(s, h);
    FreeKeepsList(s, h);
    hide HartsOk, OutInRange;
    FreeRecounts(s, h);
    var s' := FreeStep(s, h);
    forall p | 0 <= p < |s'.refs| ensures PageOk(s', p) { FreeKeepsPage(s, h, p); }
  }

  lemma IncKeepsHarts(s: State, h: nat)
    requires Inv(s) && h < |s.pc|
    ensures HartsOk(IncStep(s, h))
  {
    hide PageOk, ListOk;
    var s' := IncStep(s, h);
    assert HartLocksOk(s, h) && GrantOk(s, h);
    IncRecounts(s, h);
    assert |s'.pc| == |s.pc|;
    assert LocksInRange(s');
    hide Recounts, IncStep;
    forall k | 0 <= k < |s'.pc|
      ensures HartLocksOk(s', k) && GrantOk(s', k)
    {
      IncKeepsHart(s, h, k);
      RecountsKeepGrant(s, s', h, k);
    }
  }

  lemma IncKeepsList(s: State, h: nat)
    requires Inv(s) && h < |s.pc|
    ensures var s' := IncStep(s, h); Sane(s') && ListOk(s') && OutInRange(s')
  {
    hide PageOk, Linked, NoDuplicates, GrantOk;
    var s' := IncStep(s, h);
    IncKeepsHart(s, h, h);
    assert PageInRange(s.pc[h], |s.refs|);
    hide HartLocksOk, Sane, ListOk;
    OthersKeepList(s, s', h);
  }

  lemma IncKeepsInv(s: State, h: nat)
    requires Inv(s) && h < |s.pc|
    ensures Inv(IncStep(s, h))
  {
    hide PageOk, HartLocksOk, GrantOk, ListOk, IncStep;
    IncKeepsHarts(s, h);
    IncKeepsList(s, h);
    hide HartsOk, OutInRange;
    IncRecounts(s, h);
    var s' := IncStep(s, h);
    forall p | 0 <= p < |s'.refs| ensures PageOk(s', p) { IncKeepsPage(s, h, p); }
  }

  lemma FaultKeepsHarts(s: State, h: nat)
    requires Inv(s) && h < |s.pc|
    ensures HartsOk(FaultStep(s, h))
  {
    hide PageOk, ListOk;
    var s' := FaultStep(s, h);
    assert HartLocksOk(s, h) && GrantOk(s, h);
    FaultRecounts(s, h);
    assert |s'.pc| == |s.pc|;
    assert LocksInRange(s');
    hide Recounts, FaultStep;
    forall k | 0 <= k < |s'.pc|
      ensures HartLocksOk(s', k) && GrantOk(s', k)
    {
      FaultKeepsHart(s, h, k);
      RecountsKeepGrant(s, s', h, k);
    }
  }

  lemma FaultKeepsList(s: State, h: nat)
    requires Inv(s) && h < |s.pc|
    ensures var s' := FaultStep(s, h); Sane(s') && ListOk(s') && OutInRange(s')
  {
    hide PageOk, Linked, NoDuplicates, GrantOk;
    var s' := FaultStep(s, h);
    FaultKeepsHart(s, h, h);
    assert PageInRange(s.pc[h], |s.refs|);
    hide HartLocksOk, Sane, ListOk;
    OthersKeepList(s, s', h);
  }

  lemma FaultKeepsInv(s: State, h: nat)
    requires Inv(s) && h < |s.pc|
    ensures Inv(FaultStep(s, h))
  {
    hide PageOk, HartLocksOk, GrantOk, ListOk, FaultStep;
    FaultKeepsHarts(s, h);
    FaultKeepsList(s, h);
    hide HartsOk, OutInRange;
    FaultRecounts(s, h);
    var s' := FaultStep(s, h);
    forall p | 0 <= p < |s'.refs| ensures PageOk(s', p) { FaultKeepsPage(s, h, p); }
  }

  /** Every statement of every hart keeps the allocator consistent. */
  lemma StepKeepsInv(s: State, e: Event)
    requires Inv(s) && Enabled(s, e)
    ensures Inv(Step(s, e))
  {
    hide AllocStep, FreeStep, IncStep, FaultStep, Begin;
    assert Sane(s);
    if s.pc[e.hart].Idle? {
      BeginKeepsInv(s, e);
    } else if InAlloc(s.pc[e.hart]) {
      AllocKeepsInv(s, e.hart);
    } else if InInc(s.pc[e.hart]) {
      IncKeepsInv(s, e.hart);
    } else if InFault(s.pc[e.hart]) {
      FaultKeepsInv(s, e.hart);
    } else {
      FreeKeepsInv(s, e.hart);
    }
  }

  // ---------------------------------------------------------------- runs

  /** After create_freepage_list: all pages on the list, no references, no lock held. */
  ghost predicate Boot(s: State) {
    && (forall p :: 0 <= p < |s.refs| ==> p in s.next && s.refs[p] == 0 && p in s.free)
    && (forall p :: p in s.free ==> p < |s.refs|)
    && Linked(s.next, NULL, s.head, s.free)
    && NoDuplicates(s.free)
    && s.listLock.None? && s.refLock.None?
    && (forall h :: 0 <= h < |s.pc| ==> s.pc[h].Idle?)
    && s.out == multiset{}
  }

  lemma {:induction false} IdleSums(pc: seq<Pc>, p: nat)
    requires forall h :: 0 <= h < |pc| ==> pc[h].Idle?
    ensures CarriedBy(pc, p) == 0 && TransitsIn(pc, p) == 0
  {
    if pc != [] {
      IdleSums(pc[1..], p);
    }
  }

  lemma BootIsInv(s: State)
    requires Boot(s)
    ensures Inv(s)
  {
    assert s.head != NULL ==> s.head in s.free;
    forall p | 0 <= p < |s.refs|
      ensures PageOk(s, p)
    {
      IdleSums(s.pc, p);
    }
  }

  /** `s'` is reached from `s` by the interleaving `run`. */
  ghost predicate Reaches(s: State, run: seq<Event>, s': State)
    decreases |run|
  {
    if run == [] then s' == s
    else Sane(s) && Enabled(s, run[0]) && Reaches(Step(s, run[0]), run[1..], s')
  }

  /** Every state of every interleaving is consistent. */
  lemma {:induction false} RunsKeepInv(s: State, run: seq<Event>, s': State)
    requires Inv(s) && Reaches(s, run, s')
    ensures Inv(s')
    decreases |run|
  {
    hide Inv, Step;
    if run != [] {
      StepKeepsInv(s, run[0]);
      RunsKeepInv(Step(s, run[0]), run[1..], s');
    }
  }

  /** A statement moves a page between its places, except for the drop of dec_page_ref. */
  lemma PlacesAfter(s: State, e: Event, p: nat)
    requires Inv(s) && Enabled(s, e) && p < |s.refs|
    ensures |Step(s, e).refs| == |s.refs| && Places(Step(s, e), p) == Places(s, p) - One(Drops(s, e.hart, p))
  {
    hide PageOk, Places, ListOk, HartLocksOk, GrantOk;
    var h := e.hart;
    assert PageOk(s, p);
    if s.pc[h].Idle? {
      BeginKeepsPage(s, h, e.call, p);
    } else if InAlloc(s.pc[h]) {
      AllocKeepsPlace(s, h, p);
    } else if InInc(s.pc[h]) {
      IncKeepsPage(s, h, p);
    } else if InFault(s.pc[h]) {
      FaultKeepsPage(s, h, p);
    } else {
      FreeKeepsPage(s, h, p);
    }
  }

  lemma AllocKeepsPlace(s: State, h: nat, p: nat)
    requires Inv(s) && h < |s.pc| && p < |s.refs|
    ensures |AllocStep(s, h).refs| == |s.refs| && Places(AllocStep(s, h), p) == Places(s, p)
  {
    hide PageOk, Places, HartLocksOk, GrantOk;
    assert PageOk(s, p);
    if s.pc[h].AllocUnlink? {
      UnlinkKeepsList(s, h);
      UnlinkKeepsPage(s, h, p);
    } else if s.pc[h].AllocSetRef? {
      SetRefKeepsPage(s, h, p);
    } else {
      AllocKeepsPage(s, h, p);
    }
  }

  /** Some dec_page_ref of the run finds page `p` with a count of one. */
  ghost predicate Dropped(s: State, run: seq<Event>, p: nat)
    decreases |run|
  {
    run != [] && Sane(s) && run[0].hart < |s.pc| && p < |s.refs|
    && (Drops(s, run[0].hart, p) || Dropped(Step(s, run[0]), run[1..], p))
  }

  lemma {:induction false} PlacesOverRun(s: State, run: seq<Event>, s': State, p: nat)
    requires Inv(s) && Reaches(s, run, s') && p < |s.refs|
    ensures |s'.refs| == |s.refs| && (Places(s', p) == Places(s, p) <==> !Dropped(s, run, p))
    ensures Places(s', p) <= Places(s, p)
    decreases |run|
  {
    hide Inv, Step, Drops;
    if run != [] {
      StepKeepsInv(s, run[0]);
      PlacesAfter(s, run[0], p);
      PlacesOverRun(Step(s, run[0]), run[1..], s', p);
    }
  }

  /** In every state of every interleaving the free list is duplicate-free, and the count of a page is the
      number of references that callers own or calls in progress carry. A page is in exactly one place,
      on the list, counted, or in the hands of one call, if and only if no dec_page_ref of the run found
      it with a count of one; else it is nowhere. */
  lemma PagesConserved(s: State, run: seq<Event>, s': State, p: nat)
    requires Boot(s) && Reaches(s, run, s')
    ensures NoDuplicates(s'.free) && |s'.refs| == |s.refs|
    ensures p in s'.free || p in s'.out ==> p < |s'.refs|
    ensures p < |s'.refs| ==>
              && s'.refs[p] == s'.out[p] + CarriedBy(s'.pc, p)
              && One(p in s'.free) + One(s'.refs[p] > 0) + TransitsIn(s'.pc, p) == One(!Dropped(s, run, p))
  {
    BootIsInv(s);
    RunsKeepInv(s, run, s');
    SizeOverRun(s, run, s');
    if p < |s.refs| {
      PlacesOverRun(s, run, s', p);
      IdleSums(s.pc, p);
      assert PageOk(s', p);
    }
  }

  lemma StepKeepsSize(s: State, e: Event)
    requires Inv(s) && Enabled(s, e)
    ensures |Step(s, e).refs| == |s.refs|
  {
    var h := e.hart;
    assert GrantOk(s, h);
    hide PageOk, ListOk, HartLocksOk, GrantOk, AllocStep, IncStep, FaultStep, FreeStep;
    if InAlloc(s.pc[h]) {
      AllocRecounts(s, h);
    } else if InInc(s.pc[h]) {
      IncRecounts(s, h);
    } else if InFault(s.pc[h]) {
      FaultRecounts(s, h);
    } else {
      FreeRecounts(s, h);
    }
  }

  lemma {:induction false} SizeOverRun(s: State, run: seq<Event>, s': State)
    requires Inv(s) && Reaches(s, run, s')
    ensures |s'.refs| == |s.refs|
    decreases |run|
  {
    hide Inv, Step;
    if run != [] {
      StepKeepsInv(s, run[0]);
      StepKeepsSize(s, run[0]);
      SizeOverRun(Step(s, run[0]), run[1..], s');
    }
  }

  /** In every state of every interleaving the page alloc_page is about to return is nobody else's: no
      caller owns it, it is not on the list and no other hart is working on it. */
  lemma AllocatedPageIsExclusive(s: State, run: seq<Event>, s': State, h: nat)
    requires Boot(s) && Reaches(s, run, s') && h < |s'.pc| && s'.pc[h].AllocReturn?
    ensures var p := s'.pc[h].page;
            && p !in s'.out && p !in s'.free && p < |s'.refs| && s'.refs[p] == 1
            && forall k :: 0 <= k < |s'.pc| && k != h ==> Carried(s'.pc[k], p) == 0 && InTransit(s'.pc[k], p) == 0
  {
    BootIsInv(s);
    RunsKeepInv(s, run, s');
    hide Reaches, Step, CarriedBy, TransitsIn;
    var p := s'.pc[h].page;
    assert PageInRange(s'.pc[h], |s'.refs|);
    assert PageOk(s', p);
    assert HartLocksOk(s', h);
    assert GrantOk(s', h);
    SumsAfterStep(s'.pc, h, s'.pc[h], p);
    forall k | 0 <= k < |s'.pc| && k != h
      ensures Carried(s'.pc[k], p) == 0 && InTransit(s'.pc[k], p) == 0
    {
      SumsOfTwo(s'.pc, if h < k then h else k, if h < k then k else h, p);
      SumsAfterStep(s'.pc, k, s'.pc[k], p);
    }
  }

  /** The event makes free_page give up a reference to `p`. */
  predicate Releases(s: State, e: Event, p: nat) {
    e.hart < |s.pc| && s.pc[e.hart] == FreeCount(p)
  }

  /** ... and decide that it was the last one, so that the page goes to the list. */
  predicate Pushes(s: State, e: Event, p: nat) {
    Releases(s, e, p) && p < |s.refs| && s.refs[p] <= 1
  }

  predicate Shares(s: State, e: Event, p: nat) {
    e.hart < |s.pc| && s.pc[e.hart] == IncCount(p)
  }

  ghost function ReleaseCount(s: State, run: seq<Event>, p: nat): nat
    decreases |run|
  {
    if run == [] || !Sane(s) || !Enabled(s, run[0]) then 0
    else One(Releases(s, run[0], p)) + ReleaseCount(Step(s, run[0]), run[1..], p)
  }

  ghost function PushCount(s: State, run: seq<Event>, p: nat): nat
    decreases |run|
  {
    if run == [] || !Sane(s) || !Enabled(s, run[0]) then 0
    else One(Pushes(s, run[0], p)) + PushCount(Step(s, run[0]), run[1..], p)
  }

  ghost function ShareCount(s: State, run: seq<Event>, p: nat): nat
    decreases |run|
  {
    if run == [] || !Sane(s) || !Enabled(s, run[0]) then 0
    else One(Shares(s, run[0], p)) + ShareCount(Step(s, run[0]), run[1..], p)
  }

  /** The event makes dec_page_ref give up a reference to `p`. */
  predicate Decs(s: State, e: Event, p: nat) {
    e.hart < |s.pc| && s.pc[e.hart] == DecCount(p)
  }

  ghost function DecsCount(s: State, run: seq<Event>, p: nat): nat
    decreases |run|
  {
    if run == [] || !Sane(s) || !Enabled(s, run[0]) then 0
    else One(Decs(s, run[0], p)) + DecsCount(Step(s, run[0]), run[1..], p)
  }

  lemma {:induction false} DropIsDec(s: State, run: seq<Event>, s': State, p: nat)
    requires Inv(s) && Reaches(s, run, s') && p < |s.refs| && DecsCount(s, run, p) == 0
    ensures !Dropped(s, run, p)
    decreases |run|
  {
    hide Inv, Step;
    if run != [] {
      StepKeepsInv(s, run[0]);
      StepKeepsSize(s, run[0]);
      DropIsDec(Step(s, run[0]), run[1..], s', p);
    }
  }

  /** How one event changes the count of a page. */
  lemma CountAfter(s: State, e: Event, p: nat)
    requires Inv(s) && Enabled(s, e) && p < |s.refs|
    ensures var s' := Step(s, e);
            && |s'.refs| == |s.refs|
            && (Releases(s, e, p) || Decs(s, e, p) ==> s.refs[p] > 0 && s'.refs[p] == s.refs[p] - 1)
            && (Shares(s, e, p) ==> s'.refs[p] == s.refs[p] + 1)
            && (!Releases(s, e, p) && !Shares(s, e, p) && !Decs(s, e, p) ==>
                  s'.refs[p] == s.refs[p] || s.refs[p] == 0)
  {
    var h := e.hart;
    assert PageOk(s, p) && GrantOk(s, h);
    SumsAfterStep(s.pc, h, s.pc[h], p);
    hide Inv, PageOk, CarriedBy, TransitsIn;
    if s.pc[h].Idle? {
    } else if InAlloc(s.pc[h]) {
      AllocRecounts(s, h);
    } else if InInc(s.pc[h]) {
      IncRecounts(s, h);
    } else if InFault(s.pc[h]) {
      FaultRecounts(s, h);
    } else {
      FreeRecounts(s, h);
    }
  }

  /** Of `k` references to a page given up in a run exactly one free_page puts the page on the list, if
      and only if there were no more and no dec_page_ref took the last one; with fewer given up it is put
      nowhere. This holds over every interleaving in which the page is not shared any further. */
  lemma {:induction false} LastReleasePushes(s: State, run: seq<Event>, s': State, p: nat)
    requires Inv(s) && Reaches(s, run, s') && p < |s.refs|
    requires ShareCount(s, run, p) == 0 && ReleaseCount(s, run, p) + DecsCount(s, run, p) <= s.refs[p]
    ensures PushCount(s, run, p) ==
            One(s.refs[p] > 0 && ReleaseCount(s, run, p) + DecsCount(s, run, p) == s.refs[p] && !Dropped(s, run, p))
    decreases |run|
  {
    hide Inv, Step;
    if run != [] {
      var e := run[0];
      StepKeepsInv(s, e);
      CountAfter(s, e, p);
      LastReleasePushes(Step(s, e), run[1..], s', p);
      if DecsCount(Step(s, e), run[1..], p) == 0 {
        DropIsDec(Step(s, e), run[1..], s', p);
      }
    }
  }

  /** While nobody gives a reference up, the count of a page in use does not fall: a fault handler that was
      told the page is shared drops nothing if no other hart gave up a reference in the meantime. */
  lemma {:induction false} UndisturbedCount(s: State, run: seq<Event>, s': State, p: nat)
    requires Inv(s) && Reaches(s, run, s') && p < |s.refs| && s.refs[p] > 0
    requires ReleaseCount(s, run, p) == 0 && DecsCount(s, run, p) == 0
    ensures p < |s'.refs| && s'.refs[p] >= s.refs[p]
    decreases |run|
  {
    hide Inv, Step;
    if run != [] {
      StepKeepsInv(s, run[0]);
      CountAfter(s, run[0], p);
      UndisturbedCount(Step(s, run[0]), run[1..], s', p);
    }
  }

  // ---------------------------------------------------------------- two fault handlers

  function Times4(e: Event): seq<Event> { [e, e, e, e] }

  lemma {:induction false} ReachesThen(s: State, run: seq<Event>, m: State, more: seq<Event>, s': State)
    requires Reaches(s, run, m) && Reaches(m, more, s')
    ensures Reaches(s, run + more, s')
    decreases |run|
  {
    hide Step, Sane;
    if run == [] {
      assert run + more == more;
    } else {
      assert (run + more)[1..] == run[1..] + more;
      ReachesThen(Step(s, run[0]), run[1..], m, more, s');
    }
  }

  /** One enabled step of an idle or a fault-handling hart. */
  lemma OneStep(s: State, e: Event, s': State)
    requires Sane(s) && Enabled(s, e) && s' == Step(s, e)
    ensures Reaches(s, [e], s')
  {
    assert Reaches(Step(s, e), [e][1..], s');
  }

  lemma FourSteps(s: State, e: Event, a: State, b: State, c: State, s': State)
    requires Sane(s) && Enabled(s, e) && a == Step(s, e) && Sane(a) && Enabled(a, e) && b == Step(a, e)
    requires Sane(b) && Enabled(b, e) && c == Step(b, e) && Sane(c) && Enabled(c, e) && s' == Step(c, e)
    ensures Reaches(s, Times4(e), s')
  {
    hide Step, Sane, Enabled;
    OneStep(s, e, a);
    OneStep(a, e, b);
    OneStep(b, e, c);
    OneStep(c, e, s');
    ReachesThen(s, [e], a, [e], b);
    ReachesThen(s, [e] + [e], b, [e], c);
    ReachesThen(s, [e] + [e] + [e], c, [e], s');
    assert [e] + [e] + [e] + [e] == Times4(e);
  }

  /** A hart may begin a call on page `p`. */
  ghost predicate MayCall(s: State, h: nat, p: nat) {
    Sane(s) && h < |s.pc| && s.pc[h].Idle? && s.refLock.None? && p < |s.refs| && p in s.out
  }

  lemma StaysSane(s: State, s': State, h: nat, c: Pc)
    requires Sane(s) && h < |s.pc| && s'.pc == s.pc[h := c] && PageInRange(c, |s.refs|)
    requires s'.next == s.next && s'.head == s.head && |s'.refs| == |s.refs|
    ensures Sane(s')
  {
    hide PageInRange;
  }

  lemma MayStillCall(s: State, s': State, h: nat, p: nat)
    requires MayCall(s, h, p) && s'.pc == s.pc && s'.refLock == s.refLock && p in s'.out
    requires s'.next == s.next && s'.head == s.head && |s'.refs| == |s.refs|
    ensures MayCall(s', h, p)
  {
  }

  lemma FaultTurn(s: State, e: Event, s': State)
    requires Sane(s) && e.hart < |s.pc| && InFault(s.pc[e.hart]) && s' == FaultStep(s, e.hart)
    ensures Enabled(s, e) && s' == Step(s, e)
  {
    hide FaultStep, AllocStep, IncStep, FreeStep, Sane;
  }

  lemma BeginTurn(s: State, e: Event, s': State)
    requires Sane(s) && Enabled(s, e) && s.pc[e.hart].Idle? && s' == Begin(s, e.hart, e.call)
    ensures s' == Step(s, e)
  {
    hide FaultStep, AllocStep, IncStep, FreeStep, Begin, Sane;
  }

  /** The turn is over: only what the call was for has changed. */
  lemma BackToIdle(pc: seq<Pc>, h: nat, a: Pc, b: Pc, c: Pc)
    requires h < |pc| && pc[h].Idle?
    ensures pc[h := a][h := b][h := c][h := Idle] == pc
    ensures pc[h := a][h := b] == pc[h := b] && pc[h := b][h := c] == pc[h := c]
  {
  }

  lemma PagesFit(p: nat, n: nat)
    requires p < n
    ensures PageInRange(GetWait(p), n) && PageInRange(GetRead(p), n) && PageInRange(GetLeave, n)
    ensures PageInRange(DecWait(p), n) && PageInRange(DecCount(p), n) && PageInRange(DecLeave, n)
  {
  }

  /** get_page_ref alone: the handler learns that the page is shared. */
  lemma GetTurn(s: State, h: nat, p: nat)
    requires MayCall(s, h, p) && s.refs[p] > 1
    ensures Reaches(s, Times4(Event(h, CallGet(p))), s.(seen := s.seen[h := p]))
  {
    hide Sane, PageInRange, Step, Reaches, AllocStep, IncStep, FreeStep;
    var e := Event(h, CallGet(p));
    BackToIdle(s.pc, h, GetWait(p), GetRead(p), GetLeave);
    var a := Begin(s, h, e.call);
    PagesFit(p, |s.refs|);
    StaysSane(s, a, h, GetWait(p));
    BeginTurn(s, e, a);
    var b := FaultStep(a, h);
    StaysSane(s, b, h, GetRead(p));
    FaultTurn(a, e, b);
    var c := FaultStep(b, h);
    StaysSane(s, c, h, GetLeave);
    FaultTurn(b, e, c);
    var s' := FaultStep(c, h);
    FaultTurn(c, e, s');
    assert s' == s.(seen := s.seen[h := p]);
    hide FaultStep, Begin, Enabled;
    FourSteps(s, e, a, b, c, s');
  }

  /** The state after dec_page_ref alone. */
  function Dec(s: State, h: nat, p: nat): State
    requires p < |s.refs| && s.refs[p] > 0
  {
    s.(refs := s.refs[p := s.refs[p] - 1], out := s.out - multiset{p}, seen := s.seen - {h})
  }

  lemma DecTurn(s: State, h: nat, p: nat)
    requires MayCall(s, h, p) && s.refs[p] > 0 && h in s.seen && s.seen[h] == p
    ensures Reaches(s, Times4(Event(h, CallDec(p))), Dec(s, h, p))
  {
    hide Sane, PageInRange, Step, Reaches, AllocStep, IncStep, FreeStep;
    var e := Event(h, CallDec(p));
    BackToIdle(s.pc, h, DecWait(p), DecCount(p), DecLeave);
    PagesFit(p, |s.refs|);
    var a := Begin(s, h, e.call);
    StaysSane(s, a, h, DecWait(p));
    BeginTurn(s, e, a);
    var b := FaultStep(a, h);
    StaysSane(s, b, h, DecCount(p));
    FaultTurn(a, e, b);
    var c := FaultStep(b, h);
    StaysSane(s, c, h, DecLeave);
    FaultTurn(b, e, c);
    var s' := FaultStep(c, h);
    FaultTurn(c, e, s');
    assert s' == Dec(s, h, p);
    hide FaultStep, Begin, Enabled;
    FourSteps(s, e, a, b, c, s');
  }

  function Race(h: nat, k: nat, p: nat): seq<Event> {
    Times4(Event(h, CallGet(p))) + Times4(Event(k, CallGet(p)))
    + Times4(Event(h, CallDec(p))) + Times4(Event(k, CallDec(p)))
  }

  lemma RaceReaches(s: State, a: State, b: State, c: State, s': State, h: nat, k: nat, p: nat)
    requires Reaches(s, Times4(Event(h, CallGet(p))), a) && Reaches(a, Times4(Event(k, CallGet(p))), b)
    requires Reaches(b, Times4(Event(h, CallDec(p))), c) && Reaches(c, Times4(Event(k, CallDec(p))), s')
    ensures Reaches(s, Race(h, k, p), s')
  {
    hide Reaches, Times4;
    var gets := Times4(Event(h, CallGet(p))) + Times4(Event(k, CallGet(p)));
    ReachesThen(s, Times4(Event(h, CallGet(p))), a, Times4(Event(k, CallGet(p))), b);
    ReachesThen(s, gets, b, Times4(Event(h, CallDec(p))), c);
    ReachesThen(s, gets + Times4(Event(h, CallDec(p))), c, Times4(Event(k, CallDec(p))), s');
  }

  lemma RaceRuns(s: State, h: nat, k: nat, p: nat) returns (s': State)
    requires h != k && MayCall(s, h, p) && MayCall(s, k, p) && s.refs[p] == 2 && s.out[p] == 2
    ensures Reaches(s, Race(h, k, p), s') && s'.pc == s.pc && s'.free == s.free && s'.refs == s.refs[p := 0]
  {
    var a := s.(seen := s.seen[h := p]);
    var b := a.(seen := a.seen[k := p]);
    var c := Dec(b, h, p);
    s' := Dec(c, k, p);
    hide Reaches, MayCall, Race;
    MayStillCall(s, a, k, p);
    MayStillCall(s, b, h, p);
    MayStillCall(s, c, k, p);
    GetTurn(s, h, p);
    GetTurn(a, k, p);
    DecTurn(b, h, p);
    DecTurn(c, k, p);
    hide Dec;
    RaceReaches(s, a, b, c, s', h, k, p);
  }

  /** Two handlers that fault on a page shared by their two processes, both asking for the count before
      either lowers it, lose the page: nobody owns it and it is not on the list. */
  lemma RaceLosesPage(s: State, h: nat, k: nat, p: nat) returns (s': State)
    requires Inv(s) && h != k && MayCall(s, h, p) && MayCall(s, k, p) && s.refs[p] == 2 && s.out[p] == 2
    ensures Reaches(s, Race(h, k, p), s') && s'.pc == s.pc && s'.refs == s.refs[p := 0] && p !in s'.free
    ensures Places(s', p) == 0 && Dropped(s, Race(h, k, p), p)
  {
    s' := RaceRuns(s, h, k, p);
    assert PageOk(s, p);
    hide Inv, Reaches, MayCall, Dropped, Race, TransitsIn;
    PlacesOverRun(s, Race(h, k, p), s', p);
  }

  ghost predicate CanMove(s: State, h: nat)
    requires h < |s.pc|
  {
    && HartLocksOk(s, h)
    && (s.refLock.None? || s.refLock == Some(h))
    && (s.refLock.None? ==> s.listLock.None? || s.listLock == Some(h))
  }

  lemma AllocMoves(s: State, h: nat)
    requires Sane(s) && h < |s.pc| && InAlloc(s.pc[h]) && CanMove(s, h)
    ensures |AllocStep(s, h).pc| == |s.pc| && AllocStep(s, h).pc[h] != s.pc[h]
  {
  }

  lemma IncMoves(s: State, h: nat)
    requires Sane(s) && h < |s.pc| && InInc(s.pc[h]) && CanMove(s, h)
    ensures |IncStep(s, h).pc| == |s.pc| && IncStep(s, h).pc[h] != s.pc[h]
  {
  }

  lemma FreeMoves(s: State, h: nat)
    requires Sane(s) && h < |s.pc| && !InAlloc(s.pc[h]) && !InInc(s.pc[h]) && !InFault(s.pc[h]) && !s.pc[h].Idle?
    requires CanMove(s, h)
    ensures |FreeStep(s, h).pc| == |s.pc| && FreeStep(s, h).pc[h] != s.pc[h]
  {
  }

  lemma FaultMoves(s: State, h: nat)
    requires Sane(s) && h < |s.pc| && InFault(s.pc[h]) && CanMove(s, h)
    ensures |FaultStep(s, h).pc| == |s.pc| && FaultStep(s, h).pc[h] != s.pc[h]
  {
  }

  /** The locks cannot deadlock: while a call is in progress some hart can move on. */
  lemma NoDeadlock(s: State, h: nat) returns (k: nat)
    requires Inv(s) && h < |s.pc| && !s.pc[h].Idle?
    ensures k < |s.pc| && !s.pc[k].Idle? && Step(s, Event(k, CallAlloc)).pc != s.pc
  {
    k := if s.refLock.Some? then s.refLock.value else if s.listLock.Some? then s.listLock.value else h;
    assert HartLocksOk(s, k) && HartLocksOk(s, h);
    assert CanMove(s, k) && !s.pc[k].Idle?;
    hide Inv, HartLocksOk;
    if InAlloc(s.pc[k]) {
      AllocMoves(s, k);
    } else if InInc(s.pc[k]) {
      IncMoves(s, k);
    } else if InFault(s.pc[k]) {
      FaultMoves(s, k);
    } else {
      FreeMoves(s, k);
    }
  }
}
