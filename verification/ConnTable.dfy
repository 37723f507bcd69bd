/** The table of reusable connection slots behind generational handles (IOCP and epoll servers). */
module ConnTable {
  import opened Text
  import opened Tags

  datatype Slot = Slot(generation: u32, inUse: bool)

  const FRESH := Slot(1, false)
  const DEFAULT_HANDLE := ConnHandle(0, 0)

  /** `fetch_add(1)` on a 32-bit counter. */
  function Recycled(s: Slot): Slot { Slot((s.generation + 1) % TWO32, false) }

  // ------------------------------------------------------------ operations on values

  function FirstFree(t: seq<Slot>, i: nat): Option<nat>
    decreases |t| - i
  {
    if i >= |t| then None else if !t[i].inUse then Some(i) else FirstFree(t, i + 1)
  }

  /** One scan of the table finds the first free slot, and finds one if there is one. */
  lemma {:induction false} FirstFreeMeaning(t: seq<Slot>, i: nat)
    ensures match FirstFree(t, i)
            case None => forall k :: i <= k < |t| ==> t[k].inUse
            case Some(f) => i <= f < |t| && !t[f].inUse && forall k :: i <= k < f ==> t[k].inUse
    decreases |t| - i
  {
    if i < |t| && t[i].inUse {
      FirstFreeMeaning(t, i + 1);
    }
  }

  predicate Resolves(t: seq<Slot>, h: ConnHandle) {
    h.index < |t| && t[h.index].inUse && t[h.index].generation == h.generation
  }

  function Taken(t: seq<Slot>, i: nat): seq<Slot>
    requires i < |t|
  {
    t[i := t[i].(inUse := true)]
  }

  /** `close_and_recycle`: looks at `in_use` only. */
  function Closed(t: seq<Slot>, h: ConnHandle): seq<Slot> {
    if h.index < |t| && t[h.index].inUse then t[h.index := Recycled(t[h.index])] else t
  }

  /** A close behind a successful `try_get`. */
  function GuardedClose(t: seq<Slot>, h: ConnHandle): seq<Slot> {
    if Resolves(t, h) then Closed(t, h) else t
  }

  // ------------------------------------------------------------ the code

  class ConnTable {
    const slots: array<Slot>

    ghost predicate Valid()
      reads this
    {
      slots.Length <= TWO32
    }

    constructor (cap: nat)
      requires cap <= TWO32
      ensures Valid() && fresh(slots) && slots[..] == seq(cap, i => FRESH)
    {
      slots := new Slot[cap](i => FRESH);
      new;
      assert slots[..] == seq(cap, i => FRESH);
    }

    /** One scan; when it finds nothing the caller sleeps and scans again. */
    method Allocate() returns (h: Option<ConnHandle>)
      requires Valid()
      modifies slots
      ensures match FirstFree(old(slots[..]), 0)
              case None => h == None && slots[..] == old(slots[..])
              case Some(i) => i < slots.Length && slots[..] == Taken(old(slots[..]), i)
                              && h == Some(ConnHandle(i, old(slots[i]).generation))
    {
      var i := 0;
      while i < slots.Length
        invariant 0 <= i <= slots.Length && slots[..] == old(slots[..])
        invariant FirstFree(slots[..], i) == FirstFree(slots[..], 0)
      {
        if !slots[i].inUse {
          slots[i] := slots[i].(inUse := true);
          return Some(ConnHandle(i, slots[i].generation));
        }
        i := i + 1;
      }
      return None;
    }

    method TryGet(h: ConnHandle) returns (found: bool)
      requires Valid()
      ensures found == Resolves(slots[..], h)
    {
      if h.index >= slots.Length { return false; }
      if !slots[h.index].inUse { return false; }
      if slots[h.index].generation != h.generation { return false; }
      return true;
    }

    method CloseAndRecycle(h: ConnHandle)
      requires Valid()
      modifies slots
      ensures slots[..] == Closed(old(slots[..]), h)
    {
      if h.index >= slots.Length { return; }
      if slots[h.index].inUse {
        slots[h.index] := slots[h.index].(inUse := false);
        slots[h.index] := slots[h.index].(generation := (slots[h.index].generation + 1) % TWO32);
      }
    }
  }

  // ------------------------------------------------------------ runs

  datatype Op = Allocate | Close(h: ConnHandle, guarded: bool)

  /** A handle that was handed out, and how often its slot had been recycled by then. */
  datatype Issue = Issue(handle: ConnHandle, epoch: nat)

  /** The table with an unbounded count of recycles for every slot, and all handles handed out. */
  datatype World = World(table: seq<Slot>, recycles: seq<nat>, issued: seq<Issue>)

  function Start(cap: nat): World {
    World(seq(cap, i => FRESH), seq(cap, i => 0), [])
  }

  function CloseStep(w: World, h: ConnHandle): World {
    if h.index < |w.table| == |w.recycles| && w.table[h.index].inUse
    then w.(table := Closed(w.table, h), recycles := w.recycles[h.index := w.recycles[h.index] + 1])
    else w
  }

  function AllocateStep(w: World): World {
    FirstFreeMeaning(w.table, 0);
    match FirstFree(w.table, 0)
    case None => w
    case Some(i) =>
      if i < |w.recycles| && i < TWO32
      then World(Taken(w.table, i), w.recycles,
                 w.issued + [Issue(ConnHandle(i, w.table[i].generation), w.recycles[i])])
      else w
  }

  function Step(w: World, op: Op): World {
    match op
    case Allocate => AllocateStep(w)
    case Close(h, guarded) => if guarded && !Resolves(w.table, h) then w else CloseStep(w, h)
  }

  function Run(w: World, ops: seq<Op>): World
    decreases |ops|
  {
    if ops == [] then w else Run(Step(w, ops[0]), ops[1..])
  }

  ghost predicate IssueOk(w: World, e: Issue) {
    && e.handle.index < |w.table| == |w.recycles|
    && e.handle.generation == (1 + e.epoch) % TWO32
    && e.epoch <= w.recycles[e.handle.index]
    && (e.epoch == w.recycles[e.handle.index] ==> w.table[e.handle.index].inUse)
  }

  /** Somebody was given slot `i` since it was last recycled. */
  ghost predicate Tenanted(w: World, i: int) {
    0 <= i < |w.recycles|
    && exists k :: 0 <= k < |w.issued| && w.issued[k].handle.index == i && w.issued[k].epoch == w.recycles[i]
  }

  ghost predicate Inv(w: World) {
    && |w.table| == |w.recycles| <= TWO32
    && (forall i :: 0 <= i < |w.table| ==> w.table[i].generation == (1 + w.recycles[i]) % TWO32)
    && (forall k :: 0 <= k < |w.issued| ==> IssueOk(w, w.issued[k]))
    && (forall i :: 0 <= i < |w.table| && w.table[i].inUse ==> Tenanted(w, i))
    && (forall j, k :: 0 <= j < k < |w.issued| && w.issued[j].handle.index == w.issued[k].handle.index
          ==> w.issued[j].epoch < w.issued[k].epoch)
  }

  lemma NextGeneration(n: nat)
    ensures ((1 + n) % TWO32 + 1) % TWO32 == (1 + (n + 1)) % TWO32
  {
  }

  lemma StepKeepsInv(w: World, op: Op)
    requires Inv(w)
    ensures Inv(Step(w, op)) && |Step(w, op).table| == |w.table|
  {
    match op
    case Allocate => AllocateKeepsInv(w);
    case Close(h, guarded) => CloseKeepsInv(w, h);
  }

  lemma TenantStays(w: World, v: World, i: int)
    requires Tenanted(w, i) && |v.recycles| == |w.recycles| && v.recycles[i] == w.recycles[i]
    requires |w.issued| <= |v.issued| && forall k :: 0 <= k < |w.issued| ==> v.issued[k] == w.issued[k]
    ensures Tenanted(v, i)
  {
    var k :| 0 <= k < |w.issued| && w.issued[k].handle.index == i && w.issued[k].epoch == w.recycles[i];
    assert v.issued[k] == w.issued[k];
  }

  lemma {:induction false} NewTenant(w: World, i: int)
    requires |w.table| == |w.recycles| <= TWO32 && 0 <= i < |w.table| && AllocateStep(w) != w
    requires AllocateStep(w).table[i].inUse && (w.table[i].inUse ==> Tenanted(w, i))
    ensures Tenanted(AllocateStep(w), i)
  {
    FirstFreeMeaning(w.table, 0);
    var v := AllocateStep(w);
    var f := FirstFree(w.table, 0).value;
    if i == f {
      assert v.issued[|w.issued|].handle.index == f && v.issued[|w.issued|].epoch == v.recycles[f];
    } else {
      TenantStays(w, v, i);
    }
  }

  lemma {:induction false} AllocateKeepsInv(w: World)
    requires Inv(w)
    ensures Inv(AllocateStep(w)) && |AllocateStep(w).table| == |w.table|
  {
    hide Tenanted;
    FirstFreeMeaning(w.table, 0);
    var v := AllocateStep(w);
    if v != w {
      forall k | 0 <= k < |w.issued| ensures IssueOk(v, w.issued[k]) {
        assert IssueOk(w, w.issued[k]);
      }
      assert forall k :: 0 <= k < |w.issued| ==> v.issued[k] == w.issued[k];
      forall i | 0 <= i < |v.table| && v.table[i].inUse ensures Tenanted(v, i) { NewTenant(w, i); }
    }
  }

  lemma CloseKeepsInv(w: World, h: ConnHandle)
    requires Inv(w)
    ensures Inv(CloseStep(w, h)) && |CloseStep(w, h).table| == |w.table|
  {
    var v := CloseStep(w, h);
    if v != w {
      NextGeneration(w.recycles[h.index]);
      forall i | 0 <= i < |v.table| && v.table[i].inUse ensures Tenanted(v, i) {
        TenantStays(w, v, i);
      }
      forall k | 0 <= k < |w.issued| ensures IssueOk(v, w.issued[k]) {
        assert IssueOk(w, w.issued[k]);
      }
    }
  }

  lemma {:induction false} RunKeepsInv(w: World, ops: seq<Op>)
    requires Inv(w)
    ensures Inv(Run(w, ops)) && |Run(w, ops).table| == |w.table|
    decreases |ops|
  {
    hide Inv, Step;
    if ops != [] {
      StepKeepsInv(w, ops[0]);
      RunKeepsInv(Step(w, ops[0]), ops[1..]);
    }
  }

  lemma StartHasInv(cap: nat)
    requires cap <= TWO32
    ensures Inv(Start(cap))
  {
  }

  lemma SameGeneration(a: nat, b: nat)
    requires a <= b
    ensures (1 + a) % TWO32 == (1 + b) % TWO32 <==> (b - a) % TWO32 == 0
  {
    var d := b - a;
    DivMod((1 + a) / TWO32 + d / TWO32, 0, TWO32);
    assert 1 + a == ((1 + a) / TWO32) * TWO32 + (1 + a) % TWO32;
    assert d == (d / TWO32) * TWO32 + d % TWO32;
    var r := (1 + a) % TWO32 + d % TWO32;
    var q := (1 + a) / TWO32 + d / TWO32;
    assert 1 + b == q * TWO32 + r;
    if r < TWO32 { DivMod(q, r, TWO32); } else { DivMod(q + 1, r - TWO32, TWO32); }
  }

  /**
    Two allocations return the same handle if and only if they took the same slot and the slot was
    recycled a multiple of 2^32 times in between; that is at least 2^32 times.
  */
  lemma {:induction false} HandlesRepeatOnlyAfterWrap(cap: nat, ops: seq<Op>, j: nat, k: nat)
    requires cap <= TWO32 && j < k < |Run(Start(cap), ops).issued|
    ensures var w := Run(Start(cap), ops); var a, b := w.issued[j], w.issued[k];
            a.handle == b.handle <==>
              a.handle.index == b.handle.index && a.epoch < b.epoch && (b.epoch - a.epoch) % TWO32 == 0
  {
    StartHasInv(cap);
    RunKeepsInv(Start(cap), ops);
    hide Run;
    var w := Run(Start(cap), ops);
    var a, b := w.issued[j], w.issued[k];
    assert IssueOk(w, a) && IssueOk(w, b);
    if a.handle.index == b.handle.index {
      SameGeneration(a.epoch, b.epoch);
    }
  }

  ghost predicate NoWrap(w: World) { forall i :: 0 <= i < |w.recycles| ==> w.recycles[i] < TWO32 }

  /** Without 2^32 recycles of one slot no two allocations return the same handle. */
  lemma {:induction false} HandlesAreUnique(cap: nat, ops: seq<Op>, j: nat, k: nat)
    requires cap <= TWO32 && j < k < |Run(Start(cap), ops).issued| && NoWrap(Run(Start(cap), ops))
    ensures var w := Run(Start(cap), ops); w.issued[j].handle != w.issued[k].handle
  {
    HandlesRepeatOnlyAfterWrap(cap, ops, j, k);
    StartHasInv(cap);
    RunKeepsInv(Start(cap), ops);
    hide Run;
    var w := Run(Start(cap), ops);
    assert IssueOk(w, w.issued[k]);
  }

  /**
    A handle handed out earlier resolves, also after its trip through a completion key, if and only if
    its slot is in use and has since been recycled a multiple of 2^32 times.
  */
  lemma {:induction false} ResolvesUntilRecycled(cap: nat, ops: seq<Op>, k: nat)
    requires cap <= TWO32 && k < |Run(Start(cap), ops).issued|
    ensures var w := Run(Start(cap), ops); var e := w.issued[k]; var i := e.handle.index;
            && i < |w.table| == |w.recycles| && e.epoch <= w.recycles[i]
            && (Resolves(w.table, UnpackKey(PackKey(e.handle))) <==>
                  w.table[i].inUse && (w.recycles[i] - e.epoch) % TWO32 == 0)
            && (w.recycles[i] < TWO32 ==> (Resolves(w.table, e.handle) <==> w.recycles[i] == e.epoch))
  {
    StartHasInv(cap);
    RunKeepsInv(Start(cap), ops);
    hide Run;
    var w := Run(Start(cap), ops);
    var e := w.issued[k];
    assert IssueOk(w, e);
    KeyRoundTrip(e.handle, 0);
    SameGeneration(e.epoch, w.recycles[e.handle.index]);
  }

  /** A slot is in use if and only if somebody was given it since it was last recycled: closing it frees it. */
  lemma InUseIff(cap: nat, ops: seq<Op>, i: nat)
    requires cap <= TWO32 && i < cap
    ensures var w := Run(Start(cap), ops);
            |w.table| == cap && (w.table[i].inUse <==> Tenanted(w, i))
  {
    StartHasInv(cap);
    RunKeepsInv(Start(cap), ops);
    hide Run;
    var w := Run(Start(cap), ops);
    if Tenanted(w, i) {
      var k :| 0 <= k < |w.issued| && w.issued[k].handle.index == i && w.issued[k].epoch == w.recycles[i];
      assert IssueOk(w, w.issued[k]);
    }
  }

  /** A close of a slot in use makes it free again, bumps its generation, and leaves every other slot alone. */
  lemma CloseFrees(t: seq<Slot>, h: ConnHandle)
    requires h.index < |t| && t[h.index].inUse
    ensures var u := Closed(t, h);
            && |u| == |t| && !u[h.index].inUse && u[h.index].generation != t[h.index].generation
            && (forall k :: 0 <= k < |t| && k != h.index ==> u[k] == t[k])
            && FirstFree(u, 0).Some? && FirstFree(u, 0).value <= h.index
  {
    FirstFreeMeaning(Closed(t, h), 0);
  }

  /** The default handle resolves only when slot 0 is in use and its generation has wrapped around to 0. */
  lemma {:induction false} DefaultHandleIsNobody(cap: nat, ops: seq<Op>)
    requires cap <= TWO32
    ensures var w := Run(Start(cap), ops);
            Resolves(w.table, DEFAULT_HANDLE) <==>
              cap > 0 && |w.recycles| == cap == |w.table| && w.table[0].inUse && w.recycles[0] % TWO32 == TWO32 - 1
  {
    StartHasInv(cap);
    RunKeepsInv(Start(cap), ops);
  }

  // ------------------------------------------------------------ closes without a guard

  /** An unguarded close does what a guarded one does if and only if the handle resolves or its slot is free. */
  lemma {:induction false} BlindCloseIsGuarded(t: seq<Slot>, h: ConnHandle)
    ensures Closed(t, h) == GuardedClose(t, h) <==> Resolves(t, h) || h.index >= |t| || !t[h.index].inUse
  {
    if h.index < |t| && t[h.index].inUse && !Resolves(t, h) {
      assert Closed(t, h)[h.index] != t[h.index];
    }
  }

  /**
    In every run: an unguarded close with the default handle, or with a handle whose slot has been
    recycled and taken again, ends the tenancy of whoever holds the slot.
  */
  lemma {:induction false} BlindCloseEndsAnotherTenancy(cap: nat, ops: seq<Op>, h: ConnHandle, k: nat)
    requires cap <= TWO32 && k < |Run(Start(cap), ops).issued|
    requires var w := Run(Start(cap), ops); Resolves(w.table, w.issued[k].handle) && h.index == w.issued[k].handle.index
    ensures !Resolves(Step(Run(Start(cap), ops), Close(h, false)).table, Run(Start(cap), ops).issued[k].handle)
    ensures Step(Run(Start(cap), ops), Close(h, true)).table == Run(Start(cap), ops).table <==>
              h != Run(Start(cap), ops).issued[k].handle
  {
    StartHasInv(cap);
    RunKeepsInv(Start(cap), ops);
    hide Run;
    var w := Run(Start(cap), ops);
    if h == w.issued[k].handle {
      assert CloseStep(w, h).table[h.index] != w.table[h.index];
    }
  }

  // ------------------------------------------------------------ the two halves of a close

  /**
    `close_and_recycle` frees the slot before it bumps the generation. When another thread allocates the
    slot in between, it is given the handle that is being closed, and after the bump nobody's handle
    resolves although the slot stays in use.
  */
  lemma {:induction false} AllocationBetweenHalves(t: seq<Slot>, h: ConnHandle)
    requires Resolves(t, h) && forall k :: 0 <= k < h.index ==> t[k].inUse
    ensures var freed := t[h.index := t[h.index].(inUse := false)];
            && FirstFree(freed, 0) == Some(h.index)
            && ConnHandle(h.index, freed[h.index].generation) == h
            && (var taken := Taken(freed, h.index);
                var bumped := taken[h.index := taken[h.index].(generation := (h.generation + 1) % TWO32)];
                bumped[h.index].inUse && !Resolves(bumped, h))
  {
    var freed := t[h.index := t[h.index].(inUse := false)];
    FirstFreeMeaning(freed, 0);
    assert !freed[h.index].inUse && forall k :: 0 <= k < h.index ==> freed[k] == t[k];
  }
}
