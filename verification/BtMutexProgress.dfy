/**
 Calls of btmutex.c come to an end: every routine takes a bounded number of steps of its own, whatever the
 other connections do, and an idle connection can make every call that the source allows.
 */
module BtMutexProgress {
  import opened Wrappers
  import opened BtMutex
  import opened BtMutexProof
  import opened BtMutexTheorems
  import opened BtMutexRuns

  // ----- how many steps a routine still has to take

  function Left(n: nat, i: nat): nat {
    if i < n then n - i else 0
  }

  /** The steps for one database in EnterAll: the count, giving up and taking all locks, and going on. */
  function PerDb(k: Conn): nat {
    2 * |k.bs| + 5
  }

  /** What is left of EnterAll from database i on. */
  function FromDb(k: Conn, i: nat): (r: nat)
    ensures r > 0
  {
    Left(|k.aDb|, i) * PerDb(k) + 1
  }

  /** At most so many steps are left of the routine the connection is in. */
  function Todo(k: Conn): nat {
    match k.pc
    case Idle => 0
    case TryLock(_) => 2 * |k.bs| + 6
    case BackOff(_, j) => Left(|k.bs|, j) + |k.bs| + 4
    case Block(_) => |k.bs| + 3
    case Reacquire(_, j) => Left(|k.bs|, j) + 1
    case AllScan(i) => FromDb(k, i)
    case AllBackOff(i, _, j) => FromDb(k, i + 1) + Left(|k.bs|, j) + |k.bs| + 3
    case AllLock(i, p) => FromDb(k, i + 1) + Left(|k.bs|, p) + 1
    case AllLeave(i) => Left(|k.aDb|, i) + 1
    case ArrayScan(n) => 2 * Left(|k.arr|, n) + 2
    case ArrayBlock(n) => 2 * Left(|k.arr|, n) + 1
    case ArrayLeave(n) => Left(|k.arr|, n) + 1
  }

  lemma NextDb(k: Conn, i: nat)
    ensures FromDb(k, i) == FromDb(k, i + 1) + if i < |k.aDb| then PerDb(k) else 0
  {
    if i < |k.aDb| {
      var n := PerDb(k);
      assert Left(|k.aDb|, i) == Left(|k.aDb|, i + 1) + 1;
      assert (Left(|k.aDb|, i + 1) + 1) * n == Left(|k.aDb|, i + 1) * n + n;
    }
  }

  lemma SameFromDb(k: Conn, k': Conn, i: nat)
    requires SameLists(k, k')
    ensures FromDb(k', i) == FromDb(k, i)
  {
  }

  lemma AllShrinks(k: Conn, me: nat, owner: map<nat, nat>, k': Conn, owner': map<nat, nat>)
    requires In(k.pc, EnteringAll) && Inside(k, me, owner, k', owner') && SameLists(k, k')
    ensures Todo(k') < Todo(k)
  {
    hide FirstUnlocked, FromDb;
    NextDb(k, k.pc.i);
    SameFromDb(k, k', k.pc.i);
    SameFromDb(k, k', k.pc.i + 1);
  }

  lemma EnterShrinks(k: Conn, me: nat, owner: map<nat, nat>, k': Conn, owner': map<nat, nat>)
    requires k.pc.TryLock? || k.pc.BackOff? || k.pc.Block? || k.pc.Reacquire?
    requires Inside(k, me, owner, k', owner') && SameLists(k, k')
    ensures Todo(k') < Todo(k)
  {
    hide FromDb, Lock, Want;
  }

  lemma OtherShrinks(k: Conn, me: nat, owner: map<nat, nat>, k': Conn, owner': map<nat, nat>)
    requires k.pc.AllLeave? || k.pc.ArrayScan? || k.pc.ArrayBlock? || k.pc.ArrayLeave?
    requires Inside(k, me, owner, k', owner') && SameLists(k, k')
    ensures Todo(k') < Todo(k)
  {
    hide FromDb, Lock, Want;
  }

  /** Every step of a routine leaves fewer of them. */
  lemma TodoShrinks(k: Conn, me: nat, owner: map<nat, nat>, k': Conn, owner': map<nat, nat>)
    requires !k.pc.Idle? && Inside(k, me, owner, k', owner') && SameLists(k, k')
    ensures Todo(k') < Todo(k)
  {
    hide Inside, Todo;
    if In(k.pc, EnteringAll) {
      AllShrinks(k, me, owner, k', owner');
    } else if k.pc.TryLock? || k.pc.BackOff? || k.pc.Block? || k.pc.Reacquire? {
      EnterShrinks(k, me, owner, k', owner');
    } else {
      OtherShrinks(k, me, owner, k', owner');
    }
  }

  /** How often connection c moves between times i and t. */
  ghost function Moves(ss: seq<State>, c: nat, i: nat, t: nat): nat
    requires Everywhere(ss, c) && i <= t < |ss|
    decreases t
  {
    if t == i then 0 else Moves(ss, c, i, t - 1) + if At(ss, c, t) != At(ss, c, t - 1) then 1 else 0
  }

  /**
   In any run, guarded or not, a connection that is inside a call from time i to time t has moved less
   often than its routine has steps.  Together with the end of every chain of waiting connections this
   is why calls return.
   */
  lemma {:induction false} CallIsBounded(ss: seq<State>, guarded: bool, c: nat, i: nat, t: nat)
    requires Steps(ss, guarded) && Everywhere(ss, c) && i <= t < |ss|
    requires forall u :: i <= u <= t ==> !At(ss, c, u).pc.Idle?
    ensures Moves(ss, c, i, t) + Todo(At(ss, c, t)) <= Todo(At(ss, c, i))
    ensures Moves(ss, c, i, t) < Todo(At(ss, c, i))
    decreases t
  {
    hide Inside, Steps, Todo;
    Busy(At(ss, c, t));
    if t > i {
      CallIsBounded(ss, guarded, c, i, t - 1);
      InsideStep(ss, guarded, c, t - 1);
      var k, k' := At(ss, c, t - 1), At(ss, c, t);
      if k' != k {
        InsideKeepsLists(k, c, ss[t - 1].owner, k', ss[t].owner);
        TodoShrinks(k, c, ss[t - 1].owner, k', ss[t].owner);
      }
    }
  }

  lemma Busy(k: Conn)
    requires !k.pc.Idle?
    ensures Todo(k) > 0
  {
  }

  // ----- the calls that can be made

  /** Connection c goes from its state in s to k', and the mutexes to owner'. */
  function After(s: State, c: nat, k': Conn, owner': map<nat, nat>): State
    requires c < |s.conns|
  {
    State(s.conns[c := k'], owner')
  }

  /** An idle connection can enter any of its Btrees, all of them, and a safe array. */
  lemma CanEnter(s: State, c: nat, p: nat) returns (one: State, all: State, arr: State)
    requires c < |s.conns| && s.conns[c].pc.Idle? && p < |s.conns[c].bs|
    ensures StepOf(s, one, c, true) && CallEnter(s.conns[c], one.conns[c], p)
    ensures StepOf(s, all, c, true) && all.conns[c] == s.conns[c].(pc := AllScan(0), start := s.conns[c].bs)
    ensures ArraySafe(s.conns[c]) ==>
      StepOf(s, arr, c, true) && arr.conns[c] == s.conns[c].(pc := ArrayScan(0), start := s.conns[c].bs)
  {
    var k := s.conns[c];
    var k1 := k.(bs := Want(k.bs, p, 1), pc := if k.bs[p].locked then Idle else TryLock(p), start := k.bs);
    assert CallEnter(k, k1, p);
    one := After(s, c, k1, s.owner);
    all := After(s, c, k.(pc := AllScan(0), start := k.bs), s.owner);
    arr := After(s, c, k.(pc := ArrayScan(0), start := k.bs), s.owner);
  }

  /** Enter takes a free mutex at once. */
  lemma TryTakesFree(s: State, c: nat, p: nat) returns (s': State)
    requires c < |s.conns| && s.conns[c].pc == TryLock(p) && p < |s.conns[c].bs| && s.conns[c].bs[p].pBt !in s.owner
    ensures StepOf(s, s', c, true) && s'.conns[c].pc.Idle? && s'.conns[c].bs[p].locked
    ensures s'.owner == s.owner[s.conns[c].bs[p].pBt := c]
  {
    var k := s.conns[c];
    s' := After(s, c, k.(bs := Lock(k.bs, p, true), pc := Idle), s.owner[k.bs[p].pBt := c]);
    assert Acquire(k, c, s.owner, s'.conns[c], s'.owner, p, Idle);
  }

  /** It can leave every Btree that it has entered, all if it has entered all, and an array that it has entered. */
  lemma CanLeave(s: State, c: nat, p: nat) returns (one: State, all: State, arr: State)
    requires c < |s.conns| && s.conns[c].pc.Idle?
    ensures p < |s.conns[c].bs| && s.conns[c].bs[p].want > 0 ==>
      StepOf(s, one, c, true) && CallLeave(s.conns[c], s.owner, one.conns[c], one.owner, p)
    ensures AllWanted(s.conns[c]) ==>
      StepOf(s, all, c, true) && all.conns[c] == s.conns[c].(pc := AllLeave(0), start := s.conns[c].bs)
    ensures ArrayWanted(s.conns[c]) ==>
      StepOf(s, arr, c, true) && arr.conns[c] == s.conns[c].(pc := ArrayLeave(0), start := s.conns[c].bs)
  {
    var k := s.conns[c];
    one := s;
    if p < |k.bs| && k.bs[p].want > 0 {
      var bs := Want(k.bs, p, -1);
      var k1 := k.(bs := bs, start := k.bs);
      if bs[p].want == 0 {
        one := After(s, c, k1.(bs := Lock(bs, p, false), pc := Idle), s.owner - {bs[p].pBt});
      } else {
        one := After(s, c, k1, s.owner);
      }
      assert CallLeave(k, s.owner, one.conns[c], one.owner, p);
    }
    all := After(s, c, k.(pc := AllLeave(0), start := k.bs), s.owner);
    arr := After(s, c, k.(pc := ArrayLeave(0), start := k.bs), s.owner);
  }
}
