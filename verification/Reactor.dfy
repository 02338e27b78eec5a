/** The waiter table of the epoll reactor: which suspended coroutines wait on which
    descriptor, and what the kernel has been asked to watch. */
module Reactor {

  type Handle = nat

  /** The two directions a coroutine can wait for; an interest mask is a set of them. */
  datatype Direction = Read | Write
  type Mask = set<Direction>

  datatype Waiters = Waiters(rd: seq<Handle>, wr: seq<Handle>, mask: Mask, isTimer: bool)

  /** The reactor's own table and the kernel's interest list. */
  datatype Table = Table(fds: map<int, Waiters>, kernel: map<int, Mask>)

  const EMPTY := Table(map[], map[])
  const IDLE := Waiters([], [], {}, false)

  function Entry(t: Table, fd: int): Waiters { if fd in t.fds then t.fds[fd] else IDLE }

  function Side(w: Waiters, d: Direction): seq<Handle> { if d == Read then w.rd else w.wr }

  function Waiting(t: Table, fd: int, d: Direction): seq<Handle> { Side(Entry(t, fd), d) }

  function MaskOf(w: Waiters): Mask {
    (if w.rd != [] then {Read} else {}) + (if w.wr != [] then {Write} else {})
  }

  /** The kernel watches exactly the descriptors in the table, each for exactly the
      directions somebody waits for, and no entry is idle. */
  ghost predicate Consistent(t: Table) {
    && t.kernel.Keys == t.fds.Keys
    && (forall fd | fd in t.fds :: t.fds[fd].mask == MaskOf(t.fds[fd]) == t.kernel[fd] && t.fds[fd].mask != {})
  }

  function Pushed(w: Waiters, edge: Mask, h: Handle, isTimer: bool): Waiters {
    w.(rd := if Read in edge then w.rd + [h] else w.rd,
       wr := if Write in edge then w.wr + [h] else w.wr,
       isTimer := w.isTimer || isTimer)
  }

  lemma PushedMask(w: Waiters, edge: Mask, h: Handle, isTimer: bool)
    ensures Pushed(w, edge, h, isTimer).mask == w.mask
  {}

  function Drained(w: Waiters, edge: Mask): Waiters {
    w.(rd := if Read in edge then [] else w.rd, wr := if Write in edge then [] else w.wr)
  }

  /** What a call that registers a waiter leaves behind. */
  function Registered(t: Table, fd: int, edge: Mask, h: Handle, isTimer: bool): Table {
    var w := Pushed(Entry(t, fd), edge, h, isTimer);
    var mask := w.mask + edge;
    Table(t.fds[fd := w.(mask := mask)], t.kernel[fd := mask])
  }

  /** What a call that hands out waiters leaves behind. */
  function Emptied(t: Table, fd: int, edge: Mask): Table {
    var w := Drained(Entry(t, fd), edge);
    if MaskOf(w) == {} then Table(t.fds - {fd}, t.kernel - {fd})
    else Table(t.fds[fd := w.(mask := MaskOf(w))], t.kernel[fd := MaskOf(w)])
  }

  function Taken(t: Table, fd: int, edge: Mask): seq<Handle> {
    (if Read in edge then Waiting(t, fd, Read) else []) + (if Write in edge then Waiting(t, fd, Write) else [])
  }

  // ---- every run

  /** One critical step of a run: some coroutine suspends, or the loop takes the waiters
      that an event made ready. Any interleaving of the two can occur. */
  datatype Op = Suspend(fd: int, edge: Mask, h: Handle, isTimer: bool) | Take(fd: int, edge: Mask)

  predicate Proper(op: Op) { op.Suspend? ==> op.edge != {} }

  function Apply(t: Table, op: Op): Table {
    match op
    case Suspend(fd, edge, h, isTimer) => Registered(t, fd, edge, h, isTimer)
    case Take(fd, edge) => Emptied(t, fd, edge)
  }

  function After(t: Table, ops: seq<Op>): Table {
    if ops == [] then t else Apply(After(t, ops[..|ops| - 1]), ops[|ops| - 1])
  }

  /** The waiters registered for one direction of one descriptor, in registration order. */
  function Arrivals(ops: seq<Op>, fd: int, d: Direction): seq<Handle> {
    if ops == [] then []
    else
      var op := ops[|ops| - 1];
      Arrivals(ops[..|ops| - 1], fd, d) + (if op.Suspend? && op.fd == fd && d in op.edge then [op.h] else [])
  }

  /** The waiters of one direction of one descriptor that were handed out, in that order. */
  function Departures(t: Table, ops: seq<Op>, fd: int, d: Direction): seq<Handle> {
    if ops == [] then []
    else
      var before, op := ops[..|ops| - 1], ops[|ops| - 1];
      Departures(t, before, fd, d) +
      (if op.Take? && op.fd == fd && d in op.edge then Waiting(After(t, before), fd, d) else [])
  }

  /** Everything the loop resumes, in order. */
  function Resumed(t: Table, ops: seq<Op>): seq<Handle> {
    if ops == [] then []
    else
      var before, op := ops[..|ops| - 1], ops[|ops| - 1];
      Resumed(t, before) + (if op.Take? then Taken(After(t, before), op.fd, op.edge) else [])
  }

  lemma StepIsConsistent(t: Table, op: Op)
    requires Consistent(t) && Proper(op)
    ensures Consistent(Apply(t, op))
  {
    var r := Apply(t, op);
    var w := Entry(t, op.fd);
    assert w.mask == MaskOf(w);
    if op.Suspend? {
      var x := Pushed(w, op.edge, op.h, op.isTimer);
      assert MaskOf(x) == w.mask + op.edge by {
        forall d: Direction ensures d in MaskOf(x) <==> d in w.mask + op.edge { if d == Read {} }
      }
    }
    forall fd | fd in r.fds
      ensures r.fds[fd].mask == MaskOf(r.fds[fd]) == r.kernel[fd] && r.fds[fd].mask != {}
    {
      if fd != op.fd { assert fd in t.fds; }
    }
  }

  lemma {:induction false} RunIsConsistent(t: Table, ops: seq<Op>)
    requires Consistent(t) && forall i | 0 <= i < |ops| :: Proper(ops[i])
    ensures Consistent(After(t, ops))
  {
    hide Consistent, Apply;
    if ops != [] {
      RunIsConsistent(t, ops[..|ops| - 1]);
      StepIsConsistent(After(t, ops[..|ops| - 1]), ops[|ops| - 1]);
    }
  }

  lemma {:induction false} RunConserves(t: Table, ops: seq<Op>, fd: int, d: Direction)
    ensures Waiting(t, fd, d) + Arrivals(ops, fd, d) == Departures(t, ops, fd, d) + Waiting(After(t, ops), fd, d)
  {
    hide Waiting, Apply;
    if ops != [] {
      var before, op := ops[..|ops| - 1], ops[|ops| - 1];
      RunConserves(t, before, fd, d);
      StepConserves(After(t, before), op, fd, d);
      var first, was := Waiting(t, fd, d), Waiting(After(t, before), fd, d);
      var a, b := Arrivals(before, fd, d), Departures(t, before, fd, d);
      if op.Suspend? && op.fd == fd && d in op.edge {
        assert first + (a + [op.h]) == b + (was + [op.h]) by { Regroup(first, a, [op.h]); Regroup(b, was, [op.h]); }
      } else {
        assert Arrivals(ops, fd, d) == a;
        if op.Take? && op.fd == fd && d in op.edge {
          assert Departures(t, ops, fd, d) + [] == b + was;
        } else {
          assert Departures(t, ops, fd, d) == b;
        }
      }
    }
  }

  lemma Regroup(a: seq<Handle>, b: seq<Handle>, c: seq<Handle>)
    ensures a + (b + c) == (a + b) + c
  {}

  /** A kernel call made by the table never meets a descriptor in the wrong state. */
  lemma KernelAgrees(t: Table, fd: int)
    requires Consistent(t)
    ensures (fd in t.kernel <==> fd in t.fds) && (fd in t.kernel <==> Entry(t, fd).mask != {})
    ensures Entry(t, fd).mask == MaskOf(Entry(t, fd)) && (fd in t.kernel ==> t.kernel[fd] == Entry(t, fd).mask)
  {}

  /** What a hand-out does to one descriptor of a consistent table. */
  lemma HandOut(t: Table, fd: int, edge: Mask)
    requires Consistent(t)
    ensures fd !in t.fds ==> Taken(t, fd, edge) == [] && Emptied(t, fd, edge) == t
    ensures MaskOf(Drained(Entry(t, fd), edge)) == Entry(t, fd).mask - edge
    ensures Narrows(t, fd, edge) <==> Entry(t, fd).mask - edge != {} && Entry(t, fd).mask - edge != Entry(t, fd).mask
    ensures forall d | d in edge :: Waiting(Emptied(t, fd, edge), fd, d) == []
  {
    var w := Entry(t, fd);
    assert w.mask == MaskOf(w);
    var x := Drained(w, edge);
    assert MaskOf(x) == w.mask - edge by {
      forall d: Direction ensures d in MaskOf(x) <==> d in w.mask - edge { if d == Read {} }
    }
    assert w.mask - edge == w.mask <==> w.mask * edge == {};
    forall d | d in edge ensures Waiting(Emptied(t, fd, edge), fd, d) == [] { StepConserves(t, Take(fd, edge), fd, d); }
  }

  lemma OneMore(t: Table, ops: seq<Op>, op: Op)
    ensures After(t, ops + [op]) == Apply(After(t, ops), op)
    ensures Resumed(t, ops + [op]) ==
      Resumed(t, ops) + (if op.Take? then Taken(After(t, ops), op.fd, op.edge) else [])
  {
    assert (ops + [op])[..|ops|] == ops;
  }

  /** One step moves waiters from the table to the loop and adds the new one at the end. */
  lemma StepConserves(t: Table, op: Op, fd: int, d: Direction)
    ensures op.Suspend? && op.fd == fd && d in op.edge ==> Waiting(Apply(t, op), fd, d) == Waiting(t, fd, d) + [op.h]
    ensures op.Take? && op.fd == fd && d in op.edge ==> Waiting(Apply(t, op), fd, d) == []
    ensures op.fd != fd || d !in op.edge ==> Waiting(Apply(t, op), fd, d) == Waiting(t, fd, d)
  {
    if d == Read {}
  }

  /** Suspending never takes a waiter away or puts one in front of another. */
  ghost predicate OnlyMore(before: Table, after: Table) {
    forall fd, d :: Waiting(before, fd, d) <= Waiting(after, fd, d)
  }

  lemma SuspendAddsOnly(t: Table, op: Op)
    requires op.Suspend?
    ensures OnlyMore(t, Apply(t, op))
  {
    forall fd, d ensures Waiting(t, fd, d) <= Waiting(Apply(t, op), fd, d) { StepConserves(t, op, fd, d); }
  }

  lemma TakenOneSide(t: Table, fd: int)
    ensures Taken(t, fd, {Read}) == Waiting(t, fd, Read) && Taken(t, fd, {Write}) == Waiting(t, fd, Write)
  {}

  /** In every state reachable from an empty reactor the kernel's interest is exact, and
      the waiters of each direction have been handed out once each, in the order in which
      they registered, except for those still in the table. */
  lemma EveryRun(ops: seq<Op>, fd: int, d: Direction)
    requires forall i | 0 <= i < |ops| :: Proper(ops[i])
    ensures var t := After(EMPTY, ops);
      && Consistent(t)
      && Arrivals(ops, fd, d) == Departures(EMPTY, ops, fd, d) + Waiting(t, fd, d)
      && (fd in t.kernel && d in t.kernel[fd] <==> Departures(EMPTY, ops, fd, d) != Arrivals(ops, fd, d))
  {
    RunIsConsistent(EMPTY, ops);
    RunConserves(EMPTY, ops, fd, d);
    assert Waiting(EMPTY, fd, d) == [];
    var t := After(EMPTY, ops);
    assert Arrivals(ops, fd, d) == Waiting(EMPTY, fd, d) + Arrivals(ops, fd, d);
    assert |Arrivals(ops, fd, d)| == |Departures(EMPTY, ops, fd, d)| + |Waiting(t, fd, d)|;
    if Waiting(t, fd, d) == [] {
      assert Departures(EMPTY, ops, fd, d) == Arrivals(ops, fd, d);
    }
    assert fd in t.fds ==> (d in MaskOf(t.fds[fd]) <==> Waiting(t, fd, d) != []) by { if d == Read {} }
  }

  // ---- when the kernel refuses

  /** The table after a registration whose `epoll_ctl` was refused: the waiter is queued
      but neither mask has changed. */
  function Refused(t: Table, fd: int, edge: Mask, h: Handle, isTimer: bool): Table {
    Table(t.fds[fd := Pushed(Entry(t, fd), edge, h, isTimer)], t.kernel)
  }

  /** A refused registration leaves the table consistent exactly when somebody was already
      waiting in each of its directions. */
  lemma RefusedRegistration(t: Table, fd: int, edge: Mask, h: Handle, isTimer: bool)
    requires Consistent(t) && edge != {}
    ensures Consistent(Refused(t, fd, edge, h, isTimer)) <==> edge <= Entry(t, fd).mask
  {
    var r, w := Refused(t, fd, edge, h, isTimer), Entry(t, fd);
    var x := Pushed(w, edge, h, isTimer);
    assert MaskOf(x) == w.mask + edge by {
      forall d: Direction ensures d in MaskOf(x) <==> d in w.mask + edge { if d == Read {} }
    }
    assert edge <= w.mask <==> w.mask + edge == w.mask;
    assert r.fds[fd] == x;
    if edge <= w.mask {
      assert fd in t.fds;
      forall g | g in r.fds ensures r.fds[g].mask == MaskOf(r.fds[g]) == r.kernel[g] && r.fds[g].mask != {} {
        if g != fd { assert g in t.fds; }
      }
    }
  }

  /** The table after handing out waiters when every `epoll_ctl` that reports its failure
      is refused: the queue has been drained but the masks stay. */
  function EmptiedRefused(t: Table, fd: int, edge: Mask): Table {
    var w := Drained(Entry(t, fd), edge);
    if fd in t.fds && MaskOf(w) != {} then Table(t.fds[fd := w], t.kernel) else Emptied(t, fd, edge)
  }

  /** The hand-out empties one direction of the descriptor and leaves the other. */
  predicate Narrows(t: Table, fd: int, edge: Mask) {
    var mask := Entry(t, fd).mask;
    mask * edge != {} && mask - edge != {}
  }

  /** A refusal while handing out waiters does harm exactly when one direction of the
      descriptor is emptied and the other is not. */
  lemma RefusedHandOut(t: Table, fd: int, edge: Mask)
    requires Consistent(t)
    ensures Consistent(EmptiedRefused(t, fd, edge)) <==> !Narrows(t, fd, edge)
  {
    var r, w := EmptiedRefused(t, fd, edge), Entry(t, fd);
    var x := Drained(w, edge);
    assert MaskOf(x) == w.mask - edge by {
      forall d: Direction ensures d in MaskOf(x) <==> d in w.mask - edge { if d == Read {} }
    }
    assert w.mask * edge == {} <==> w.mask - edge == w.mask;
    assert w.mask <= edge <==> w.mask - edge == {};
    if fd in t.fds && MaskOf(x) != {} {
      assert r.fds[fd] == x;
      if w.mask * edge == {} {
        forall g | g in r.fds ensures r.fds[g].mask == MaskOf(r.fds[g]) == r.kernel[g] && r.fds[g].mask != {} {
          if g != fd { assert g in t.fds; }
        }
      }
    } else {
      StepIsConsistent(t, Take(fd, edge));
    }
  }

  /** The first registration of a fresh reactor, refused. */
  lemma RefusedFirst()
    ensures !Consistent(Refused(EMPTY, 3, {Read}, 1, false))
  {
    RefusedRegistration(EMPTY, 3, {Read}, 1, false);
  }

  /** A reader and a writer on one descriptor; handing out the reader is refused. The reader
      is then neither in the table nor with the loop. */
  lemma RefusedReader()
    ensures var t := After(EMPTY, [Suspend(3, {Read}, 1, false), Suspend(3, {Write}, 2, false)]);
      && Waiting(t, 3, Read) == [1] && Narrows(t, 3, {Read})
      && !Consistent(EmptiedRefused(t, 3, {Read})) && Waiting(EmptiedRefused(t, 3, {Read}), 3, Read) == []
  {
    var a, b := Suspend(3, {Read}, 1, false), Suspend(3, {Write}, 2, false);
    var ops := [a, b];
    assert ops[..1] == [a] && [a][..0] == [];
    assert After(EMPTY, [a]) == Apply(EMPTY, a);
    var t := Apply(Apply(EMPTY, a), b);
    assert After(EMPTY, ops) == t;
    assert Entry(t, 3).mask == {Read, Write};
    assert Read in {Read, Write} * {Read} && Write in {Read, Write} - {Read};
    StepIsConsistent(EMPTY, a);
    StepIsConsistent(Apply(EMPTY, a), b);
    RefusedHandOut(t, 3, {Read});
  }

  // ---- the reactor object

  /** The event flags that the loop distinguishes. */
  datatype Flags = Flags(failed: bool, readable: bool, writable: bool)

  datatype Request = Request(fd: int, edge: Mask, isTimer: bool)

  /** What each coroutine does when it is resumed for the n-th time overall: the waits
      that it, and the coroutines it starts, suspend on before control returns. */
  type Behaviour = (Handle, nat) -> seq<(Handle, Request)>

  ghost predicate Waits(b: Behaviour) {
    forall h, n, i | 0 <= i < |b(h, n)| :: b(h, n)[i].1.edge != {}
  }

  class EventLoop {
    var fds: map<int, Waiters>
    var kernel: map<int, Mask>
    /** Every critical step so far. */
    ghost var steps: seq<Op>
    ghost var resumed: seq<Handle>

    ghost predicate Valid()
      reads this
    {
      && Table(fds, kernel) == After(EMPTY, steps)
      && resumed == Resumed(EMPTY, steps)
      && (forall i | 0 <= i < |steps| :: Proper(steps[i]))
      && Consistent(Table(fds, kernel))
    }

    constructor ()
      ensures Valid() && steps == [] && resumed == []
    {
      fds, kernel, steps, resumed := map[], map[], [], [];
    }

    /** `epoll_ctl` as the kernel defines it: adding needs a descriptor that is not yet
        watched, modifying one that is. It may also refuse for reasons of its own. */
    method CtlAddOrMod(fd: int, newmask: Mask, refuse: bool) returns (threw: bool)
      requires fd in fds
      modifies this`fds, this`kernel
      ensures threw <==> refuse || (old(fds[fd].mask) == {} <==> fd in old(kernel))
      ensures !threw ==> fds == old(fds[fd := fds[fd].(mask := newmask)]) && kernel == old(kernel)[fd := newmask]
      ensures threw ==> fds == old(fds) && kernel == old(kernel)
    {
      if fds[fd].mask == {} {
        if refuse || fd in kernel { return true; }
      } else {
        if refuse || fd !in kernel { return true; }
      }
      kernel := kernel[fd := newmask];
      fds := fds[fd := fds[fd].(mask := newmask)];
      threw := false;
    }

    method Enqueue(fd: int, edge: Mask, h: Handle, isTimer: bool)
      modifies this`fds
      ensures Table(fds, kernel) == Refused(old(Table(fds, kernel)), fd, edge, h, isTimer)
    {
      if fd !in fds { fds := fds[fd := IDLE]; }
      var w := fds[fd];
      w := w.(isTimer := w.isTimer || isTimer);
      if Read in edge { w := w.(rd := w.rd + [h]); }
      if Write in edge { w := w.(wr := w.wr + [h]); }
      fds := fds[fd := w];
    }

    /** Registering a waiter throws exactly when the kernel refuses on its own account. The
        waiter is then queued all the same, and the masks are as they were. */
    method AddWaiter(fd: int, edge: Mask, h: Handle, isTimer: bool, refuse: bool) returns (threw: bool)
      requires Valid() && edge != {}
      modifies this
      ensures threw == refuse
      ensures !threw ==> Valid() && steps == old(steps) + [Suspend(fd, edge, h, isTimer)] && resumed == old(resumed)
      ensures !threw ==> OnlyMore(old(Table(fds, kernel)), Table(fds, kernel))
      ensures threw ==> Table(fds, kernel) == Refused(old(Table(fds, kernel)), fd, edge, h, isTimer)
    {
      hide After, Resumed, Consistent, MaskOf, OnlyMore, Pushed;
      ghost var op, t := Suspend(fd, edge, h, isTimer), Table(fds, kernel);
      StepIsConsistent(t, op);
      KernelAgrees(t, fd);
      OneMore(EMPTY, steps, op);
      SuspendAddsOnly(t, op);
      Enqueue(fd, edge, h, isTimer);
      PushedMask(Entry(t, fd), edge, h, isTimer);
      var want := fds[fd].mask + edge;
      threw := CtlAddOrMod(fd, want, refuse);
      if !threw {
        assert Table(fds, kernel) == Apply(t, op);
        steps := steps + [op];
      }
    }

    /** Handing out waiters throws exactly when the kernel refuses to narrow the interest of
        a descriptor that keeps one direction. The waiters taken are then lost to the caller. */
    method TakeWaiters(fd: int, edge: Mask, refuse: bool) returns (out: seq<Handle>, threw: bool)
      requires Valid()
      modifies this
      ensures threw <==> refuse && Narrows(old(Table(fds, kernel)), fd, edge)
      ensures !threw ==> Valid() && steps == old(steps) + [Take(fd, edge)] && resumed == old(resumed) + out
      ensures !threw ==> out == old(Taken(Table(fds, kernel), fd, edge))
      ensures !threw ==> Table(fds, kernel) == Emptied(old(Table(fds, kernel)), fd, edge)
      ensures !threw ==> forall d | d in edge :: Waiting(Table(fds, kernel), fd, d) == []
      ensures threw ==> out == [] && Table(fds, kernel) == EmptiedRefused(old(Table(fds, kernel)), fd, edge)
    {
      hide After, Resumed, Consistent, Taken, MaskOf;
      ghost var op, t := Take(fd, edge), Table(fds, kernel);
      StepIsConsistent(t, op);
      KernelAgrees(t, fd);
      OneMore(EMPTY, steps, op);
      HandOut(t, fd, edge);
      out, threw := [], false;
      if fd in fds {
        out := Drain(fd, edge);
        threw := Settle(fd, refuse);
        if threw { return [], true; }
      }
      assert Table(fds, kernel) == Emptied(t, fd, edge);
      steps := steps + [op];
      resumed := resumed + out;
    }

    method Drain(fd: int, edge: Mask) returns (out: seq<Handle>)
      requires fd in fds
      modifies this`fds
      ensures fds == old(fds)[fd := Drained(old(fds)[fd], edge)] && out == Taken(old(Table(fds, kernel)), fd, edge)
    {
      out := [];
      var w := fds[fd];
      if Read in edge {
        out := out + w.rd;
        w := w.(rd := []);
      }
      if Write in edge {
        out := out + w.wr;
        w := w.(wr := []);
      }
      fds := fds[fd := w];
    }

    /** The end of a hand-out: bring the interest of the descriptor down to what is left. */
    method Settle(fd: int, refuse: bool) returns (threw: bool)
      requires fd in fds && fd in kernel && fds[fd].mask == kernel[fd] != {}
      modifies this`fds, this`kernel
      ensures threw <==> refuse && MaskOf(old(fds)[fd]) != {} && MaskOf(old(fds)[fd]) != old(fds)[fd].mask
      ensures threw ==> fds == old(fds) && kernel == old(kernel)
      ensures !threw && MaskOf(old(fds)[fd]) == {} ==> fds == old(fds) - {fd} && kernel == old(kernel) - {fd}
      ensures var newmask := MaskOf(old(fds)[fd]);
        !threw && newmask != {} ==>
          fds == old(fds)[fd := old(fds)[fd].(mask := newmask)] && kernel == old(kernel)[fd := newmask]
    {
      var w := fds[fd];
      var newmask: Mask := {};
      if w.rd != [] { newmask := newmask + {Read}; }
      if w.wr != [] { newmask := newmask + {Write}; }
      assert newmask == MaskOf(w);
      threw := false;
      if newmask != w.mask {
        if newmask == {} {
          kernel := kernel - {fd};
          fds := fds - {fd};
        } else {
          threw := CtlAddOrMod(fd, newmask, refuse);
        }
      }
    }

    /** Resume every handle of a batch in order; each may suspend again, on any descriptor. */
    method Resume(batch: seq<Handle>, behaviour: Behaviour, clock: nat) returns (now: nat)
      requires Valid() && Waits(behaviour)
      modifies this
      ensures Valid() && resumed == old(resumed) && old(steps) <= steps && now == clock + |batch|
      ensures OnlyMore(old(Table(fds, kernel)), Table(fds, kernel))
    {
      hide After, Resumed, Consistent, Waiting;
      now := clock;
      for i := 0 to |batch|
        invariant Valid() && resumed == old(resumed) && old(steps) <= steps && now == clock + i
        invariant OnlyMore(old(Table(fds, kernel)), Table(fds, kernel))
      {
        var waits := behaviour(batch[i], now);
        for j := 0 to |waits|
          invariant Valid() && resumed == old(resumed) && old(steps) <= steps
          invariant OnlyMore(old(Table(fds, kernel)), Table(fds, kernel))
        {
          var threw := AddWaiter(waits[j].1.fd, waits[j].1.edge, waits[j].0, waits[j].1.isTimer, false);
        }
        now := now + 1;
      }
    }

    /** One event of the loop. */
    method Dispatch(fd: int, flags: Flags, behaviour: Behaviour, clock: nat) returns (now: nat)
      requires Valid() && Waits(behaviour)
      modifies this
      ensures Valid() && old(steps) <= steps && old(resumed) <= resumed
      ensures now == clock + |resumed| - |old(resumed)|
      ensures flags.failed ==> resumed == old(resumed) + old(Taken(Table(fds, kernel), fd, {Read, Write}))
      ensures !flags.failed && !flags.writable ==>
        resumed == old(resumed) + (if flags.readable then old(Waiting(Table(fds, kernel), fd, Read)) else [])
      ensures !flags.failed && flags.writable && !flags.readable ==>
        resumed == old(resumed) + old(Waiting(Table(fds, kernel), fd, Write))
      ensures !flags.failed && flags.writable && flags.readable ==>
        old(resumed) + old(Waiting(Table(fds, kernel), fd, Read)) +
          old(Waiting(Table(fds, kernel), fd, Write)) <= resumed
    {
      hide After, Resumed, Consistent, MaskOf, Waiting;
      now := clock;
      if flags.failed {
        var rw, threw := TakeWaiters(fd, {Read, Write}, false);
        now := Resume(rw, behaviour, now);
        return;
      }
      ghost var t0 := Table(fds, kernel);
      if flags.readable {
        TakenOneSide(t0, fd);
        var readers, threw := TakeWaiters(fd, {Read}, false);
        ghost var t1 := Table(fds, kernel);
        StepConserves(t0, Take(fd, {Read}), fd, Write);
        now := Resume(readers, behaviour, now);
        assert Waiting(t1, fd, Write) <= Waiting(Table(fds, kernel), fd, Write);
      }
      if flags.writable {
        TakenOneSide(Table(fds, kernel), fd);
        var writers, threw := TakeWaiters(fd, {Write}, false);
        now := Resume(writers, behaviour, now);
      }
    }

    /** The loop over batches of events: whatever the kernel reports and whatever the
        resumed coroutines wait for next, the table stays exact and no waiter is lost,
        repeated or overtaken. */
    method Run(batches: seq<seq<(int, Flags)>>, behaviour: Behaviour)
      requires Valid() && Waits(behaviour)
      modifies this
      ensures Valid() && old(steps) <= steps && old(resumed) <= resumed
      ensures forall fd, d ::
        Arrivals(steps, fd, d) == Departures(EMPTY, steps, fd, d) + Waiting(Table(fds, kernel), fd, d)
    {
      var clock := 0;
      for i := 0 to |batches|
        invariant Valid() && old(steps) <= steps && old(resumed) <= resumed
      {
        for j := 0 to |batches[i]|
          invariant Valid() && old(steps) <= steps && old(resumed) <= resumed
        {
          clock := Dispatch(batches[i][j].0, batches[i][j].1, behaviour, clock);
        }
      }
      forall fd, d ensures
        Arrivals(steps, fd, d) == Departures(EMPTY, steps, fd, d) + Waiting(Table(fds, kernel), fd, d)
      {
        EveryRun(steps, fd, d);
      }
    }
  }
}
