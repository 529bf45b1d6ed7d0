/**
 What the invariant of the mutex protocol gives: no deadlock in any interleaving, and what each
 routine leaves behind when it returns.
 */
module BtMutexTheorems {
  import opened Wrappers
  import opened BtMutex
  import opened BtMutexProof

  // ----- no deadlock

  /** The address a connection waits for, if it waits. */
  ghost function WaitAddress(k: Conn): Option<nat> {
    if WaitsOn(k).Some? then Some(k.bs[WaitsOn(k).value].pBt) else None
  }

  /** Connection c waits for a mutex that connection d owns. */
  ghost predicate WaitsFor(s: State, c: nat, d: nat) {
    && c < |s.conns| && d < |s.conns|
    && WaitAddress(s.conns[c]).Some?
    && WaitAddress(s.conns[c]).value in s.owner
    && s.owner[WaitAddress(s.conns[c]).value] == d
  }

  ghost predicate Stuck(s: State, c: nat) {
    exists d :: WaitsFor(s, c, d)
  }

  /** In every state of every run, a waiting connection holds only mutexes of smaller address. */
  lemma HeldBelowWaited(ss: seq<State>, i: nat, c: nat, m: nat)
    requires Run(ss) && i < |ss| && c < |ss[i].conns|
    requires var k := ss[i].conns[c]; m < |k.bs| && k.bs[m].locked && WaitAddress(k).Some?
    ensures ss[i].conns[c].bs[m].pBt < WaitAddress(ss[i].conns[c]).value
    ensures ss[i].conns[c].bs[m].pBt in ss[i].owner && ss[i].owner[ss[i].conns[c].bs[m].pBt] == c
  {
    RunKeeps(ss, i);
    WaitsAboveHeld(ss[i].conns[c], m);
  }

  /** Along a chain of waiting connections the addresses grow. */
  lemma WaitsGrow(s: State, c: nat, d: nat)
    requires Inv(s) && WaitsFor(s, c, d) && WaitAddress(s.conns[d]).Some?
    ensures WaitAddress(s.conns[c]).value < WaitAddress(s.conns[d]).value
  {
    var a := WaitAddress(s.conns[c]).value;
    assert Holds(s.conns[d], a);
    var m :| 0 <= m < |s.conns[d].bs| && s.conns[d].bs[m].pBt == a && s.conns[d].bs[m].locked;
    WaitsAboveHeld(s.conns[d], m);
  }

  /** Each connection of the list waits for the next, and the last for the first. */
  ghost predicate Cycle(s: State, cs: seq<nat>) {
    && |cs| > 0
    && (forall i :: 0 < i < |cs| ==> WaitsFor(s, cs[i - 1], cs[i]))
    && WaitsFor(s, cs[|cs| - 1], cs[0])
  }

  lemma {:induction false} ChainGrows(s: State, cs: seq<nat>, i: nat)
    requires Inv(s) && Cycle(s, cs) && i < |cs|
    ensures cs[i] < |s.conns| && WaitAddress(s.conns[cs[i]]).Some?
    ensures WaitAddress(s.conns[cs[0]]).Some?
    ensures i > 0 ==> WaitAddress(s.conns[cs[0]]).value < WaitAddress(s.conns[cs[i]]).value
    decreases i
  {
    if i == 0 {
      if |cs| > 1 { assert WaitsFor(s, cs[1 - 1], cs[1]); }
    } else {
      ChainGrows(s, cs, i - 1);
      assert WaitsFor(s, cs[i - 1], cs[i]);
      if i + 1 < |cs| { assert WaitsFor(s, cs[i + 1 - 1], cs[i + 1]); }
      WaitsGrow(s, cs[i - 1], cs[i]);
    }
  }

  /** No interleaving of any number of connections reaches a cycle of waiting connections. */
  lemma NoDeadlock(ss: seq<State>, i: nat, cs: seq<nat>)
    requires Run(ss) && i < |ss|
    ensures !Cycle(ss[i], cs)
  {
    RunKeeps(ss, i);
    if Cycle(ss[i], cs) {
      ChainGrows(ss[i], cs, |cs| - 1);
      WaitsGrow(ss[i], cs[|cs| - 1], cs[0]);
    }
  }

  /** The largest address any connection waits for, plus one. */
  ghost function Ceiling(conns: seq<Conn>): (r: nat)
    ensures forall c :: 0 <= c < |conns| && WaitAddress(conns[c]).Some? ==> WaitAddress(conns[c]).value < r
  {
    if conns == [] then 0
    else
      var n := Ceiling(conns[..|conns| - 1]);
      var last := WaitAddress(conns[|conns| - 1]);
      if last.Some? && last.value >= n then last.value + 1 else n
  }

  /** Following who waits for whom from a waiting connection ends at one that is not stuck. */
  lemma {:induction false} WaitEnds(s: State, c: nat) returns (path: seq<nat>)
    requires Inv(s) && c < |s.conns|
    ensures |path| > 0 && path[0] == c
    ensures forall i :: 0 < i < |path| ==> WaitsFor(s, path[i - 1], path[i])
    ensures path[|path| - 1] < |s.conns| && !Stuck(s, path[|path| - 1])
    decreases Ceiling(s.conns) - if WaitAddress(s.conns[c]).Some? then WaitAddress(s.conns[c]).value else 0,
              if WaitAddress(s.conns[c]).Some? then 1 else 0
  {
    hide Inv;
    if !Stuck(s, c) {
      path := [c];
    } else {
      var d: nat :| WaitsFor(s, c, d);
      if WaitAddress(s.conns[d]).Some? {
        WaitsGrow(s, c, d);
        var rest := WaitEnds(s, d);
        path := [c] + rest;
      } else {
        path := [c, d];
      }
    }
  }

  /** A connection that is not stuck can take a step. */
  lemma FreeCanMove(s: State, c: nat) returns (s': State)
    requires Inv(s) && c < |s.conns| && !Stuck(s, c)
    ensures StepOf(s, s', c, true)
  {
    var k' , owner' := MoveOf(s, c);
    s' := State(s.conns[c := k'], owner');
  }

  /** In every state of every run with at least one connection, some connection can take a step. */
  lemma Progress(ss: seq<State>, i: nat) returns (s': State)
    requires Run(ss) && i < |ss| && |ss[i].conns| > 0
    ensures Next(ss[i], s', true)
  {
    RunKeeps(ss, i);
    var path := WaitEnds(ss[i], 0);
    s' := FreeCanMove(ss[i], path[|path| - 1]);
  }

  lemma MoveOf(s: State, c: nat) returns (k': Conn, owner': map<nat, nat>)
    requires Inv(s) && c < |s.conns| && !Stuck(s, c)
    ensures LocalStep(s.conns[c], c, s.owner, k', owner', true)
  {
    var k := s.conns[c];
    k', owner' := k, s.owner;
    match k.pc
    case Idle =>
      k' := k.(pc := AllScan(0), start := k.bs);
    case TryLock(p) =>
      k' := k.(pc := BackOff(p, p + 1));
    case BackOff(p, j) =>
      if j >= |k.bs| { k' := k.(pc := Block(p)); }
      else if k.bs[j].locked {
        k', owner' := k.(bs := Lock(k.bs, j, false), pc := BackOff(p, j + 1)), s.owner - {k.bs[j].pBt};
      } else { k' := k.(pc := BackOff(p, j + 1)); }
    case Block(p) =>
      Unowned(s, c, p);
      k', owner' := k.(bs := Lock(k.bs, p, true), pc := Reacquire(p, p + 1)), s.owner[k.bs[p].pBt := c];
    case Reacquire(p, j) =>
      if j >= |k.bs| { k' := k.(pc := Idle); }
      else if k.bs[j].want > 0 {
        Unowned(s, c, j);
        k', owner' := k.(bs := Lock(k.bs, j, true), pc := Reacquire(p, j + 1)), s.owner[k.bs[j].pBt := c];
      } else { k' := k.(pc := Reacquire(p, j + 1)); }
    case _ =>
      k', owner' := MoveOn(s, c);
  }

  lemma MoveOn(s: State, c: nat) returns (k': Conn, owner': map<nat, nat>)
    requires Inv(s) && c < |s.conns| && !Stuck(s, c)
    requires var pc := s.conns[c].pc; !(pc.Idle? || pc.TryLock? || pc.BackOff? || pc.Block? || pc.Reacquire?)
    ensures Inside(s.conns[c], c, s.owner, k', owner')
  {
    var k := s.conns[c];
    k', owner' := k, s.owner;
    match k.pc
    case AllScan(i) =>
      if i >= |k.aDb| { k' := k.(pc := Idle); }
      else if k.aDb[i].None? || k.aDb[i].value >= |k.bs| { k' := k.(pc := AllScan(i + 1)); }
      else {
        var bs := Want(k.bs, k.aDb[i].value, 1);
        var p := FirstUnlocked(bs, 0);
        k' := k.(bs := bs, pc := if bs[k.aDb[i].value].locked then AllScan(i + 1) else AllBackOff(i, p, p + 1));
      }
    case AllBackOff(i, p, j) =>
      if j >= |k.bs| { k' := k.(pc := AllLock(i, p)); }
      else if k.bs[j].locked {
        k', owner' := k.(bs := Lock(k.bs, j, false), pc := AllBackOff(i, p, j + 1)), s.owner - {k.bs[j].pBt};
      } else { k' := k.(pc := AllBackOff(i, p, j + 1)); }
    case AllLock(i, p) =>
      if p >= |k.bs| { k' := k.(pc := AllScan(i + 1)); }
      else {
        Unowned(s, c, p);
        k', owner' := k.(bs := Lock(k.bs, p, true), pc := AllLock(i, p + 1)), s.owner[k.bs[p].pBt := c];
      }
    case AllLeave(i) =>
      k', owner' := LeaveMove(k, s.owner, i, AllLeave(i + 1), if i < |k.aDb| then k.aDb[i] else None, i >= |k.aDb|);
    case ArrayScan(n) =>
      if n >= |k.arr| || k.arr[n] >= |k.bs| { k' := k.(pc := Idle); }
      else {
        k' := k.(bs := Want(k.bs, k.arr[n], 1), pc := if k.bs[k.arr[n]].locked then ArrayScan(n + 1) else ArrayBlock(n));
      }
    case _ =>
      k', owner' := MoveInArray(s, c);
  }

  lemma MoveInArray(s: State, c: nat) returns (k': Conn, owner': map<nat, nat>)
    requires Inv(s) && c < |s.conns| && !Stuck(s, c) && (s.conns[c].pc.ArrayBlock? || s.conns[c].pc.ArrayLeave?)
    ensures Inside(s.conns[c], c, s.owner, k', owner')
  {
    var k := s.conns[c];
    match k.pc
    case ArrayBlock(n) =>
      Unowned(s, c, k.arr[n]);
      k', owner' := k.(bs := Lock(k.bs, k.arr[n], true), pc := ArrayScan(n + 1)), s.owner[k.bs[k.arr[n]].pBt := c];
    case ArrayLeave(n) =>
      k', owner' := LeaveMove(k, s.owner, n, ArrayLeave(n + 1), if n < |k.arr| then Some(k.arr[n]) else None, n >= |k.arr|);
  }

  lemma LeaveMove(k: Conn, owner: map<nat, nat>, i: nat, pc: Pc, what: Option<nat>, done: bool)
    returns (k': Conn, owner': map<nat, nat>)
    ensures LeaveOne(k, owner, k', owner', i, pc, what, done)
  {
    k', owner' := k.(pc := pc), owner;
    if done {
      k' := k.(pc := Idle);
    } else if what.Some? && what.value < |k.bs| && k.bs[what.value].want > 0 {
      var bs := Want(k.bs, what.value, -1);
      if bs[what.value].want == 0 {
        k', owner' := k.(bs := Lock(bs, what.value, false), pc := pc), owner - {bs[what.value].pBt};
      } else {
        k' := k.(bs := bs, pc := pc);
      }
    }
  }

  /** The mutex that a connection waits for without being stuck is free. */
  lemma Unowned(s: State, c: nat, p: nat)
    requires Inv(s) && c < |s.conns| && !Stuck(s, c) && WaitsOn(s.conns[c]) == Some(p)
    ensures s.conns[c].bs[p].pBt !in s.owner
  {
    var a := s.conns[c].bs[p].pBt;
    if a in s.owner { assert WaitsFor(s, c, s.owner[a]); }
  }

  // ----- what a routine leaves behind

  /** The list with Btree p entered once more; nothing else has changed. */
  ghost function Entered(bs: seq<Btree>, p: nat): seq<Btree>
    requires p < |bs|
  {
    bs[p := Btree(bs[p].pBt, bs[p].want + 1, true)]
  }

  /** The list with Btree p left once; it stays locked while it is still wanted. */
  ghost function Left(bs: seq<Btree>, p: nat): seq<Btree>
    requires p < |bs| && bs[p].want > 0
  {
    bs[p := Btree(bs[p].pBt, bs[p].want - 1, bs[p].want > 1)]
  }

  ghost function AllEntered(bs: seq<Btree>): seq<Btree> {
    seq(|bs|, m requires 0 <= m < |bs| => Btree(bs[m].pBt, bs[m].want + 1, true))
  }

  ghost function AllLeft(bs: seq<Btree>): seq<Btree>
    requires forall m :: 0 <= m < |bs| ==> bs[m].want > 0
  {
    seq(|bs|, m requires 0 <= m < |bs| => Btree(bs[m].pBt, bs[m].want - 1, bs[m].want > 1))
  }

  ghost function ArrayEntered(bs: seq<Btree>, arr: seq<nat>): seq<Btree> {
    seq(|bs|, m requires 0 <= m < |bs| =>
      if InArray(arr, |arr|, m) then Btree(bs[m].pBt, bs[m].want + 1, true) else bs[m])
  }

  /**
   BtreeEnter returns with the list it was called with, Btree p entered: the locks it gave up on
   the way are back, whatever other connections did in between.
   */
  lemma EnterReturns(k: Conn, me: nat, owner: map<nat, nat>, k': Conn, owner': map<nat, nat>)
    requires ConnInv(k) && (k.pc.TryLock? || k.pc.Reacquire?)
    requires LocalStep(k, me, owner, k', owner', true) && k'.pc.Idle?
    ensures k.pc.p < |k.start| && k'.bs == Entered(k.start, k.pc.p)
  {
    StepKeepsConn(k, me, owner, k', owner');
    forall m | 0 <= m < |k.bs|
      ensures k'.bs[m] == Entered(k.start, k.pc.p)[m]
    {
      assert AsExpected(k, m);
    }
  }

  /** A nested BtreeEnter returns at once and only counts. */
  lemma NestedEnterReturns(k: Conn, k': Conn, p: nat)
    requires ConnInv(k) && k.pc.Idle? && CallEnter(k, k', p) && k'.pc.Idle?
    ensures k.bs[p].want > 0 && k'.bs == Entered(k.bs, p)
  {
  }

  lemma LeaveReturns(k: Conn, owner: map<nat, nat>, k': Conn, owner': map<nat, nat>, p: nat)
    requires ConnInv(k) && k.pc.Idle? && CallLeave(k, owner, k', owner', p)
    ensures k'.pc.Idle? && k'.bs == Left(k.bs, p)
  {
    assert k.bs[p].locked;
  }

  /** BtreeEnterAll returns with every Btree of the connection locked. */
  lemma EnterAllReturns(k: Conn, me: nat, owner: map<nat, nat>, k': Conn, owner': map<nat, nat>)
    requires ConnInv(k) && k.pc.AllScan? && LocalStep(k, me, owner, k', owner', true) && k'.pc.Idle?
    ensures k'.bs == AllEntered(k.start)
  {
    assert k.pc.i >= |k.aDb|;
    ScannedAll(k, k');
  }

  lemma LeaveAllReturns(k: Conn, me: nat, owner: map<nat, nat>, k': Conn, owner': map<nat, nat>)
    requires ConnInv(k) && k.pc.AllLeave? && LocalStep(k, me, owner, k', owner', true) && k'.pc.Idle?
    ensures (forall m :: 0 <= m < |k.start| ==> k.start[m].want > 0) && k'.bs == AllLeft(k.start)
  {
    assert k.pc.i >= |k.aDb|;
    forall m | 0 <= m < |k.start|
      ensures k.start[m].want > 0
    {
      assert Wanted(k.start, m);
    }
    forall m | 0 <= m < |k.bs|
      ensures k'.bs[m] == AllLeft(k.start)[m]
    {
      assert AsExpected(k, m);
      assert Named(k.aDb, |k.aDb|, m);
      var n :| 0 <= n < |k.aDb| && k.aDb[n] == Some(m);
      assert Named(k.aDb, k.pc.i, m);
    }
  }

  lemma ArrayEnterReturns(k: Conn, me: nat, owner: map<nat, nat>, k': Conn, owner': map<nat, nat>)
    requires ConnInv(k) && k.pc.ArrayScan? && LocalStep(k, me, owner, k', owner', true) && k'.pc.Idle?
    ensures k'.bs == ArrayEntered(k.start, k.arr)
  {
    assert k.pc.n >= |k.arr|;
    forall m | 0 <= m < |k.bs|
      ensures k'.bs[m] == ArrayEntered(k.start, k.arr)[m]
    {
      assert AsExpected(k, m);
      assert InArray(k.arr, k.pc.n, m) <==> InArray(k.arr, |k.arr|, m);
    }
  }

  /** Leaving undoes entering, for one Btree and for all of them. */
  lemma LeaveUndoesEnter(bs: seq<Btree>, p: nat)
    requires Settled(bs) && p < |bs|
    ensures Left(Entered(bs, p), p) == bs
    ensures AllLeft(AllEntered(bs)) == bs
    ensures Settled(Entered(bs, p)) && Settled(AllEntered(bs))
  {
    assert Left(Entered(bs, p), p)[p] == bs[p];
    forall m | 0 <= m < |bs|
      ensures AllLeft(AllEntered(bs))[m] == bs[m]
    {
    }
  }

  // ----- why a mutex array may only be entered below what is held

  ghost predicate LooseRun(ss: seq<State>) {
    && |ss| > 0 && Init(ss[0])
    && (forall i :: 0 < i < |ss| ==> Next(ss[i - 1], ss[i], false))
  }

  /** A connection with two Btrees and a mutex array that has the smaller one. */
  function Pair(pc: Pc, first: (nat, bool), second: (nat, bool), start: seq<Btree>): Conn {
    Conn([Btree(10, first.0, first.1), Btree(20, second.0, second.1)], [Some(0), Some(1)], [0], pc, start)
  }

  const NONE := [Btree(10, 0, false), Btree(20, 0, false)]

  /** The connection that enters the larger Btree and then the array, after n of its steps. */
  function Careless(n: nat): Conn {
    if n == 0 then Pair(Idle, (0, false), (0, false), NONE)
    else if n == 1 then Pair(TryLock(1), (0, false), (1, false), NONE)
    else if n == 2 then Pair(Idle, (0, false), (1, true), NONE)
    else if n == 3 then Pair(ArrayScan(0), (0, false), (1, true), [Btree(10, 0, false), Btree(20, 1, true)])
    else Pair(ArrayBlock(0), (1, false), (1, true), [Btree(10, 0, false), Btree(20, 1, true)])
  }

  /** The connection that enters the smaller Btree and then the larger. */
  function Careful(n: nat): Conn {
    if n == 0 then Pair(Idle, (0, false), (0, false), NONE)
    else if n == 1 then Pair(TryLock(0), (1, false), (0, false), NONE)
    else if n == 2 then Pair(Idle, (1, true), (0, false), NONE)
    else Pair(if n == 3 then TryLock(1) else if n == 4 then BackOff(1, 2) else Block(1),
              (1, true), (1, false), [Btree(10, 1, true), Btree(20, 0, false)])
  }

  function Both(n: nat, m: nat): State {
    State([Careless(n), Careful(m)],
          (if n < 2 then map[] else map[20 := 0]) + (if m < 2 then map[] else map[10 := 1]))
  }

  lemma CarelessSteps(n: nat, m: nat)
    requires n < 4
    ensures Next(Both(n, m), Both(n + 1, m), false)
  {
    if n == 0 { assert CallEnter(Careless(0), Careless(1), 1); }
    assert LocalStep(Careless(n), 0, Both(n, m).owner, Careless(n + 1), Both(n + 1, m).owner, false);
    assert StepOf(Both(n, m), Both(n + 1, m), 0, false);
  }

  lemma CarefulSteps(n: nat, m: nat)
    requires m < 5 && n >= 2
    ensures Next(Both(n, m), Both(n, m + 1), false)
  {
    if m == 0 { assert CallEnter(Careful(0), Careful(1), 0); }
    if m == 2 { assert CallEnter(Careful(2), Careful(3), 1); }
    assert LocalStep(Careful(m), 1, Both(n, m).owner, Careful(m + 1), Both(n, m + 1).owner, false);
    assert StepOf(Both(n, m), Both(n, m + 1), 1, false);
  }

  /**
   Without the guard the protocol deadlocks: one connection enters the larger Btree and then an
   array with the smaller one, the other enters the smaller and then the larger.
   */
  lemma UnguardedArrayDeadlocks() returns (ss: seq<State>)
    ensures LooseRun(ss) && Cycle(ss[|ss| - 1], [0, 1])
  {
    hide Both, Next, Init, Cycle;
    ss := [Both(0, 0), Both(1, 0), Both(2, 0), Both(2, 1), Both(2, 2), Both(2, 3), Both(2, 4), Both(2, 5),
           Both(3, 5), Both(4, 5)];
    CarelessSteps(0, 0);
    CarelessSteps(1, 0);
    CarefulSteps(2, 0);
    CarefulSteps(2, 1);
    CarefulSteps(2, 2);
    CarefulSteps(2, 3);
    CarefulSteps(2, 4);
    CarelessSteps(2, 5);
    CarelessSteps(3, 5);
    BothAtStart();
    BothAtEnd();
  }

  lemma BothAtStart()
    ensures Init(Both(0, 0))
  {
    var k := Careless(0);
    assert Careful(0) == k;
    assert k.aDb[0] == Some(0) && k.aDb[1] == Some(1);
    assert WellFormed(k);
  }

  lemma BothAtEnd()
    ensures Cycle(Both(4, 5), [0, 1])
  {
  }
}
