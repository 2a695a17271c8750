/** How often a file is open under a name (kernel/vfs.c): the counter in the dentry over whole runs. */
module RfsHandles {
  import opened Basics
  import opened RfsFile
  import opened RfsVolume
  import opened RfsOwnership

  /** d_ref of a cached dentry; a name that is not cached is open nowhere. */
  function OpensOf(s: State, d: int): int {
    if d in s.dentries then s.dentries[d].opens else 0
  }

  /** Handles on dentry `d` that a call gives out or takes back. */
  function Given(e: Event, d: int): int {
    match e
    case Make(kind, _, _, x, _, _, _) => if x == d && kind == FileKind then 1 else 0
    case Open(x) => if x == d then 1 else 0
    case Close(x) => if x == d then -1 else 0
    case _ => 0
  }

  /** Opens and creations of `d`, less its closes. */
  function Handles(es: seq<Event>, d: int): int {
    if es == [] then 0 else Given(es[0], d) + Handles(es[1..], d)
  }

  lemma SameOpens(s: State, p: int, size: int, x: int)
    ensures OpensOf(Resized(s, p, size), x) == OpensOf(s, x)
  {
  }

  lemma OpenOpens(s: State, d: int, x: int)
    requires Backed(s, d)
    ensures OpensOf(OpenStep(s, d), x) == OpensOf(s, x) + Given(Open(d), x)
  {
  }

  lemma WriteOpens(s: State, d: int, more: seq<int>, upto: nat, x: int)
    requires Backed(s, d)
    ensures OpensOf(WriteStep(s, d, more, upto), x) == OpensOf(s, x)
  {
  }

  lemma UnlinkOpens(s: State, d: int, x: int)
    requires Enabled(s, Unlink(d)) && UnlinkStep(s, d).Done?
    ensures OpensOf(UnlinkStep(s, d).state, x) == OpensOf(s, x)
  {
  }

  lemma LookupOpens(s: State, p: int, name: string, d: int, v: int, x: int)
    requires Enabled(s, Lookup(p, name, d, v))
    ensures OpensOf(LookupStep(s, p, name, d, v), x) == OpensOf(s, x)
  {
    hide Cached;
  }

  lemma MakeOpens(s: State, e: Event, x: int)
    requires Enabled(s, e) && e.Make?
    ensures OpensOf(MakeStep(s, e.kind, e.parent, e.name, e.d, e.v, e.inum, e.block), x) == OpensOf(s, x) + Given(e, x)
  {
    hide Cached, Room, NameFits;
  }

  lemma LinkOpens(s: State, e: Event, x: int)
    requires Enabled(s, e) && e.Link?
    ensures OpensOf(LinkStep(s, e.from, e.parent, e.name, e.d), x) == OpensOf(s, x)
  {
    hide Cached, Room, NameFits;
  }

  lemma CloseOpens(s: State, d: int, x: int)
    requires Enabled(s, Close(d))
    ensures OpensOf(CloseStep(s, d), x) == OpensOf(s, x) + Given(Close(d), x)
  {
  }

  /** Every call changes the counters by the handles it gives out and takes back. */
  lemma StepOpens(s: State, e: Event, d: int)
    requires Inv(s) && Enabled(s, e)
    ensures Step(s, e).Done? && OpensOf(Step(s, e).state, d) == OpensOf(s, d) + Given(e, d)
  {
    hide Inv, Resized, Room, NameFits, Cached, LookupStep, MakeStep, LinkStep, CloseStep, UnlinkStep, Fresh;
    hide OpenStep, WriteStep, OpensOf;
    StepKeepsInv(s, e);
    match e
    case Lookup(p, name, x, v) => LookupOpens(s, p, name, x, v, d);
    case Make(kind, p, name, x, v, n, b) =>
      MakeOpens(s, e, d);
      SameOpens(MakeStep(s, kind, p, name, x, v, n, b), p, Node(s, p).inode.size + ENTRY, d);
    case Link(o, p, name, x) =>
      LinkOpens(s, e, d);
      SameOpens(LinkStep(s, o, p, name, x), p, Node(s, p).inode.size + ENTRY, d);
    case Close(x) => CloseOpens(s, x, d);
    case Unlink(x) =>
      UnlinkOpens(s, x, d);
      var p := s.dentries[x].parent;
      SameOpens(UnlinkStep(s, x).state, p, Node(s, p).inode.size - ENTRY, d);
    case Open(x) => OpenOpens(s, x, d);
    case Write(x, more, upto) => WriteOpens(s, x, more, upto, d);
  }

  /** After every run from a formatted volume the counter of a cached name is the number of its opens and
      creations less its closes, and a name that is not cached has no handle left. */
  lemma {:induction false} HandlesOverRun(s: State, es: seq<Event>, d: int)
    requires Inv(s) && LengthsOk(s) && Runs(s, es)
    ensures After(s, es).Done? && OpensOf(After(s, es).state, d) == OpensOf(s, d) + Handles(es, d)
    decreases |es|
  {
    hide Inv, LengthsOk, Enabled, Step, OpensOf, Given;
    if es != [] {
      StepKeepsInv(s, es[0]);
      StepKeepsLengths(s, es[0]);
      StepOpens(s, es[0], d);
      HandlesOverRun(Step(s, es[0]).state, es[1..], d);
    }
  }

  lemma HandlesTheorem(first: int, es: seq<Event>, d: int)
    requires Runs(Formatted(first), es)
    ensures After(Formatted(first), es).Done?
    ensures var s := After(Formatted(first), es).state;
            Handles(es, d) == if d in s.dentries then s.dentries[d].opens else 0
  {
    FormattedInv(first);
    HandlesOverRun(Formatted(first), es, d);
  }
}
