/**
 Whole calls inside runs of btmutex.c: what a connection has when a call returns, whatever the other
 connections did in the meantime, and when entering a mutex array keeps the locking order.
 */
module BtMutexRuns {
  import opened Wrappers
  import opened BtMutex
  import opened BtMutexProof
  import opened BtMutexTheorems

  // ----- one connection in a run

  ghost predicate Steps(ss: seq<State>, guarded: bool) {
    forall i :: 0 < i < |ss| ==> Next(ss[i - 1], ss[i], guarded)
  }

  /** Connection c at time t. */
  ghost function At(ss: seq<State>, c: nat, t: nat): Conn
    requires t < |ss| && c < |ss[t].conns|
  {
    ss[t].conns[c]
  }

  ghost predicate Everywhere(ss: seq<State>, c: nat) {
    forall t :: 0 <= t < |ss| ==> c < |ss[t].conns|
  }

  /** At time t connection c has not moved, or has taken a step of its own. */
  lemma OwnStep(ss: seq<State>, guarded: bool, c: nat, t: nat)
    requires Steps(ss, guarded) && Everywhere(ss, c) && t + 1 < |ss|
    ensures At(ss, c, t + 1) == At(ss, c, t)
         || LocalStep(At(ss, c, t), c, ss[t].owner, At(ss, c, t + 1), ss[t + 1].owner, guarded)
  {
    hide LocalStep;
    var i := t + 1;
    assert Next(ss[i - 1], ss[i], guarded);
    var d: nat :| StepOf(ss[t], ss[t + 1], d, guarded);
  }

  /** The routines that take more than one step. */
  datatype Routine = Entering(p: nat) | EnteringAll | LeavingAll | EnteringArray | LeavingArray

  ghost predicate In(pc: Pc, r: Routine) {
    match r
    case Entering(p) => pc == TryLock(p) || pc == Block(p) || (pc.BackOff? && pc.p == p) || (pc.Reacquire? && pc.p == p)
    case EnteringAll => pc.AllScan? || pc.AllBackOff? || pc.AllLock?
    case LeavingAll => pc.AllLeave?
    case EnteringArray => pc.ArrayScan? || pc.ArrayBlock?
    case LeavingArray => pc.ArrayLeave?
  }

  /** A step inside a routine stays in it or returns, and remembers the list at the call. */
  lemma StaysIn(k: Conn, me: nat, owner: map<nat, nat>, k': Conn, owner': map<nat, nat>, r: Routine)
    requires In(k.pc, r) && Inside(k, me, owner, k', owner')
    ensures k'.pc.Idle? || In(k'.pc, r)
  {
    hide FirstUnlocked;
  }

  /** Connection c is inside a call from time i on, and back at time j. */
  ghost predicate During(ss: seq<State>, c: nat, i: nat, j: nat) {
    && Everywhere(ss, c) && i < j < |ss|
    && At(ss, c, i).pc.Idle? && At(ss, c, j).pc.Idle?
    && (forall t :: i < t < j ==> !At(ss, c, t).pc.Idle?)
  }

  /** A connection inside a routine has not moved, or has taken a step inside it. */
  lemma InsideStep(ss: seq<State>, guarded: bool, c: nat, t: nat)
    requires Steps(ss, guarded) && Everywhere(ss, c) && t + 1 < |ss| && !At(ss, c, t).pc.Idle?
    ensures At(ss, c, t + 1) == At(ss, c, t)
         || Inside(At(ss, c, t), c, ss[t].owner, At(ss, c, t + 1), ss[t + 1].owner)
  {
    hide Inside, Call;
    OwnStep(ss, guarded, c, t);
  }

  /** During a call the connection stays in its routine. */
  lemma {:induction false} Carried(ss: seq<State>, guarded: bool, c: nat, i: nat, j: nat, t: nat, r: Routine)
    requires Steps(ss, guarded) && During(ss, c, i, j) && i < t < j && In(At(ss, c, i + 1).pc, r)
    ensures In(At(ss, c, t).pc, r) && At(ss, c, t).start == At(ss, c, i + 1).start
    decreases t
  {
    hide In, Inside, Steps;
    if t > i + 1 {
      Carried(ss, guarded, c, i, j, t - 1, r);
      InsideStep(ss, guarded, c, t - 1);
      var k, k' := At(ss, c, t - 1), At(ss, c, t);
      if k' != k {
        StaysIn(k, c, ss[t - 1].owner, k', ss[t].owner, r);
        InsideKeepsLists(k, c, ss[t - 1].owner, k', ss[t].owner);
      }
    }
  }

  /** The step with which a call returns. */
  lemma Returning(ss: seq<State>, guarded: bool, c: nat, i: nat, j: nat, r: Routine)
    requires Steps(ss, guarded) && During(ss, c, i, j) && In(At(ss, c, i + 1).pc, r)
    ensures i + 1 < j && In(At(ss, c, j - 1).pc, r) && At(ss, c, j - 1).start == At(ss, c, i + 1).start
    ensures Inside(At(ss, c, j - 1), c, ss[j - 1].owner, At(ss, c, j), ss[j].owner)
  {
    hide In, Inside, Steps;
    assert !At(ss, c, i + 1).pc.Idle? by { InIsBusy(At(ss, c, i + 1).pc, r); }
    Carried(ss, guarded, c, i, j, j - 1, r);
    InsideStep(ss, guarded, c, j - 1);
  }

  lemma InIsBusy(pc: Pc, r: Routine)
    requires In(pc, r)
    ensures !pc.Idle?
  {
  }

  // ----- calls and what they leave behind

  /** At time i connection c calls BtreeEnter, and at time j it is back. */
  ghost predicate EnterCall(ss: seq<State>, c: nat, p: nat, i: nat, j: nat) {
    During(ss, c, i, j) && CallEnter(At(ss, c, i), At(ss, c, i + 1), p)
  }

  ghost predicate LeaveCall(ss: seq<State>, c: nat, p: nat, i: nat) {
    && Everywhere(ss, c) && i + 1 < |ss| && At(ss, c, i).pc.Idle?
    && CallLeave(At(ss, c, i), ss[i].owner, At(ss, c, i + 1), ss[i + 1].owner, p)
  }

  /** At time i connection c calls a routine that begins with `pc`, and at time j it is back. */
  ghost predicate LongCall(ss: seq<State>, c: nat, pc: Pc, i: nat, j: nat) {
    && During(ss, c, i, j)
    && At(ss, c, i + 1) == At(ss, c, i).(pc := pc, start := At(ss, c, i).bs)
  }

  lemma RunConn(ss: seq<State>, c: nat, t: nat)
    requires Run(ss) && Everywhere(ss, c) && t < |ss|
    ensures ConnInv(At(ss, c, t)) && Steps(ss, true)
  {
    hide ConnInv, Next;
    RunKeeps(ss, t);
  }

  /** BtreeEnter, in any run: its Btree is entered and everything else is as it was at the call. */
  lemma EnterInRun(ss: seq<State>, c: nat, p: nat, i: nat, j: nat)
    requires Run(ss) && EnterCall(ss, c, p, i, j)
    ensures p < |At(ss, c, i).bs| && At(ss, c, j).bs == Entered(At(ss, c, i).bs, p)
  {
    hide Run, ConnInv, Inside, Steps;
    RunConn(ss, c, i);
    var k, k1 := At(ss, c, i), At(ss, c, i + 1);
    if k1.pc.Idle? {
      assert j == i + 1;
      NestedEnterReturns(k, k1, p);
    } else {
      Returning(ss, true, c, i, j, Entering(p));
      RunConn(ss, c, j - 1);
      EnterLast(At(ss, c, j - 1), c, ss[j - 1].owner, At(ss, c, j), ss[j].owner, p);
    }
  }

  lemma EnterLast(k: Conn, me: nat, owner: map<nat, nat>, k': Conn, owner': map<nat, nat>, p: nat)
    requires ConnInv(k) && In(k.pc, Entering(p)) && Inside(k, me, owner, k', owner') && k'.pc.Idle?
    ensures p < |k.start| && k'.bs == Entered(k.start, p)
  {
    EnterReturns(k, me, owner, k', owner');
  }

  /**
   Enter, and a Leave at any later time l at which the connection has what Enter left it, restore the
   counts and locks that it had. In between the other connections may have moved, and the connection
   itself may have made calls that undid one another.
   */
  lemma EnterLeavePair(ss: seq<State>, c: nat, p: nat, i: nat, j: nat, l: nat)
    requires Run(ss) && EnterCall(ss, c, p, i, j) && j <= l && LeaveCall(ss, c, p, l)
    requires At(ss, c, l).bs == At(ss, c, j).bs
    ensures At(ss, c, j).bs == Entered(At(ss, c, i).bs, p) && At(ss, c, l + 1).bs == At(ss, c, i).bs
    ensures At(ss, c, l + 1).pc.Idle? && HeldBy(ss[l + 1], c) == HeldBy(ss[i], c)
  {
    hide Run, ConnInv, Steps, CallEnter, CallLeave, HeldBy;
    EnterInRun(ss, c, p, i, j);
    RunConn(ss, c, l);
    RunConn(ss, c, i);
    LeaveReturns(At(ss, c, l), ss[l].owner, At(ss, c, l + 1), ss[l + 1].owner, p);
    SettledConn(At(ss, c, i));
    LeaveUndoesEnter(At(ss, c, i).bs, p);
    SameHeld(ss, c, i, l + 1);
  }

  lemma SettledConn(k: Conn)
    requires ConnInv(k) && k.pc.Idle?
    ensures Settled(k.bs)
  {
  }

  /** The mutexes that connection c owns. */
  ghost function HeldBy(s: State, c: nat): set<nat> {
    set a | a in s.owner && s.owner[a] == c
  }

  /** With the same list a connection owns the same mutexes. */
  lemma SameHeld(ss: seq<State>, c: nat, i: nat, j: nat)
    requires Run(ss) && Everywhere(ss, c) && i < |ss| && j < |ss| && At(ss, c, i).bs == At(ss, c, j).bs
    ensures HeldBy(ss[i], c) == HeldBy(ss[j], c)
  {
    hide Run, ConnInv;
    RunKeeps(ss, i);
    RunKeeps(ss, j);
    OwnsIffHolds(ss[i], c);
    OwnsIffHolds(ss[j], c);
  }

  lemma OwnsIffHolds(s: State, c: nat)
    requires Inv(s) && c < |s.conns|
    ensures forall a :: a in HeldBy(s, c) <==> Holds(s.conns[c], a)
  {
    hide ConnInv;
  }

  /** BtreeEnterAll, and BtreeLeaveAll at any later time l at which the connection has what EnterAll left it. */
  lemma EnterAllPair(ss: seq<State>, c: nat, i: nat, j: nat, l: nat, n: nat)
    requires Run(ss) && LongCall(ss, c, AllScan(0), i, j) && j <= l && LongCall(ss, c, AllLeave(0), l, n)
    requires At(ss, c, l).bs == At(ss, c, j).bs
    ensures At(ss, c, j).bs == AllEntered(At(ss, c, i).bs) && At(ss, c, n).bs == At(ss, c, i).bs
    ensures HeldBy(ss[n], c) == HeldBy(ss[i], c)
  {
    hide Run, ConnInv, Steps, HeldBy, Inside, AllEntered, AllLeft;
    RunConn(ss, c, i);
    Returning(ss, true, c, i, j, EnteringAll);
    RunConn(ss, c, j - 1);
    AllLast(At(ss, c, j - 1), c, ss[j - 1].owner, At(ss, c, j), ss[j].owner);
    Returning(ss, true, c, l, n, LeavingAll);
    RunConn(ss, c, n - 1);
    AllLeaveLast(At(ss, c, n - 1), c, ss[n - 1].owner, At(ss, c, n), ss[n].owner);
    SettledConn(At(ss, c, i));
    AllUndone(At(ss, c, i).bs);
    SameHeld(ss, c, i, n);
  }

  lemma AllLast(k: Conn, me: nat, owner: map<nat, nat>, k': Conn, owner': map<nat, nat>)
    requires ConnInv(k) && In(k.pc, EnteringAll) && Inside(k, me, owner, k', owner') && k'.pc.Idle?
    ensures k'.bs == AllEntered(k.start)
  {
    hide FirstUnlocked;
    EnterAllReturns(k, me, owner, k', owner');
  }

  lemma AllLeaveLast(k: Conn, me: nat, owner: map<nat, nat>, k': Conn, owner': map<nat, nat>)
    requires ConnInv(k) && In(k.pc, LeavingAll) && Inside(k, me, owner, k', owner') && k'.pc.Idle?
    ensures (forall m :: 0 <= m < |k.start| ==> k.start[m].want > 0) && k'.bs == AllLeft(k.start)
  {
    LeaveAllReturns(k, me, owner, k', owner');
  }

  lemma AllUndone(bs: seq<Btree>)
    requires Settled(bs)
    ensures AllLeft(AllEntered(bs)) == bs
  {
    if |bs| > 0 { LeaveUndoesEnter(bs, 0); }
  }

  /** MutexArrayEnter, and MutexArrayLeave at any later time l at which the connection has what Enter left it. */
  lemma ArrayPair(ss: seq<State>, c: nat, i: nat, j: nat, l: nat, n: nat)
    requires Run(ss) && LongCall(ss, c, ArrayScan(0), i, j) && j <= l && LongCall(ss, c, ArrayLeave(0), l, n)
    requires At(ss, c, l).bs == At(ss, c, j).bs
    ensures At(ss, c, j).bs == ArrayEntered(At(ss, c, i).bs, At(ss, c, i).arr) && At(ss, c, n).bs == At(ss, c, i).bs
    ensures HeldBy(ss[n], c) == HeldBy(ss[i], c)
  {
    hide Run, ConnInv, Steps, HeldBy, Inside, ArrayEntered;
    RunConn(ss, c, i);
    Returning(ss, true, c, i, j, EnteringArray);
    RunConn(ss, c, j - 1);
    SameArray(ss, c, i, j - 1);
    SameArray(ss, c, i, n - 1);
    ArrayLast(At(ss, c, j - 1), c, ss[j - 1].owner, At(ss, c, j), ss[j].owner);
    Returning(ss, true, c, l, n, LeavingArray);
    RunConn(ss, c, n - 1);
    ArrayLeaveLast(At(ss, c, n - 1), c, ss[n - 1].owner, At(ss, c, n), ss[n].owner);
    SettledConn(At(ss, c, i));
    ArrayUndone(At(ss, c, i).bs, At(ss, c, i).arr);
    SameHeld(ss, c, i, n);
  }

  lemma {:induction false} SameArray(ss: seq<State>, c: nat, i: nat, t: nat)
    requires Run(ss) && Everywhere(ss, c) && i <= t < |ss|
    ensures At(ss, c, t).arr == At(ss, c, i).arr
    decreases t
  {
    hide ConnInv, LocalStep, Next;
    if t > i {
      SameArray(ss, c, i, t - 1);
      RunConn(ss, c, t - 1);
      OwnStep(ss, true, c, t - 1);
      var k, k' := At(ss, c, t - 1), At(ss, c, t);
      if k' != k { StepKeepsConn(k, c, ss[t - 1].owner, k', ss[t].owner); }
    }
  }

  lemma ArrayLast(k: Conn, me: nat, owner: map<nat, nat>, k': Conn, owner': map<nat, nat>)
    requires ConnInv(k) && In(k.pc, EnteringArray) && Inside(k, me, owner, k', owner') && k'.pc.Idle?
    ensures k'.bs == ArrayEntered(k.start, k.arr)
  {
    ArrayEnterReturns(k, me, owner, k', owner');
  }

  /** The list with every Btree of the array left once. */
  ghost predicate ArrayLeft(bs: seq<Btree>, arr: seq<nat>, bs': seq<Btree>) {
    && |bs'| == |bs|
    && (forall m :: 0 <= m < |bs| ==>
          if InArray(arr, |arr|, m) then bs[m].want > 0 && bs'[m] == Btree(bs[m].pBt, bs[m].want - 1, bs[m].want > 1)
          else bs'[m] == bs[m])
  }

  /** MutexArrayLeave counts every Btree of the array down and unlocks at zero. */
  lemma ArrayLeaveLast(k: Conn, me: nat, owner: map<nat, nat>, k': Conn, owner': map<nat, nat>)
    requires ConnInv(k) && In(k.pc, LeavingArray) && Inside(k, me, owner, k', owner') && k'.pc.Idle?
    ensures ArrayLeft(k.start, k.arr, k'.bs)
  {
    assert k.pc.n >= |k.arr|;
    forall m | 0 <= m < |k.bs|
      ensures if InArray(k.arr, |k.arr|, m)
              then k.start[m].want > 0 && k'.bs[m] == Btree(k.start[m].pBt, k.start[m].want - 1, k.start[m].want > 1)
              else k'.bs[m] == k.start[m]
    {
      assert AsExpected(k, m);
      assert InArray(k.arr, k.pc.n, m) <==> InArray(k.arr, |k.arr|, m);
      if n: nat :| n < |k.arr| && k.arr[n] == m { assert Wanted(k.start, k.arr[n]); }
    }
  }

  lemma ArrayUndone(bs: seq<Btree>, arr: seq<nat>)
    requires Settled(bs)
    ensures forall bs' :: ArrayLeft(ArrayEntered(bs, arr), arr, bs') ==> bs' == bs
  {
    hide InArray;
  }

  // ----- when entering a mutex array keeps the locking order

  /** The connection waits for no mutex, or holds only mutexes of smaller address than that. */
  ghost predicate Ordered(k: Conn) {
    WaitsOn(k).Some? ==> forall m :: 0 <= m < |k.bs| && k.bs[m].locked ==> k.bs[m].pBt < k.bs[WaitsOn(k).value].pBt
  }

  ghost function Entry(pc: Pc): nat
    requires pc.ArrayScan? || pc.ArrayBlock?
  {
    pc.n
  }

  /** Inside MutexArrayEnter what was locked at the call stays locked, and the entries passed are locked too. */
  ghost predicate Passing(k: Conn) {
    && WellFormed(k) && |k.bs| == |k.start| && In(k.pc, EnteringArray)
    && (forall m :: 0 <= m < |k.bs| ==> (k.bs[m].locked <==> k.start[m].locked || InArray(k.arr, Entry(k.pc), m)))
    && (k.pc.ArrayBlock? ==> k.pc.n < |k.arr| && !k.start[k.arr[k.pc.n]].locked)
  }

  /** Its steps go through the entries in order and wait for each that was not locked. */
  lemma ArrayStep(k: Conn, me: nat, owner: map<nat, nat>, k': Conn, owner': map<nat, nat>)
    requires Passing(k) && Inside(k, me, owner, k', owner') && SameLists(k, k') && WellFormed(k') && k'.start == k.start
    ensures k'.pc.Idle? ==> k.pc.ArrayScan? && k.pc.n >= |k.arr|
    ensures !k'.pc.Idle? ==> Passing(k')
    ensures k.pc.ArrayBlock? ==> k'.pc == ArrayScan(k.pc.n + 1)
    ensures k.pc.ArrayScan? && k.pc.n < |k.arr| ==>
      k'.pc == if k.start[k.arr[k.pc.n]].locked then ArrayScan(k.pc.n + 1) else ArrayBlock(k.pc.n)
  {
    var n := k.pc.n;
    if n < |k.arr| {
      forall m | 0 <= m < |k.bs|
        ensures InArray(k.arr, n + 1, m) <==> InArray(k.arr, n, m) || m == k.arr[n]
      {
        InArrayNext(k, n, m);
      }
      InArrayNext(k, n, 0);
    }
  }

  lemma {:induction false} LooseWellFormed(ss: seq<State>, c: nat, t: nat)
    requires LooseRun(ss) && Everywhere(ss, c) && t < |ss|
    ensures WellFormed(At(ss, c, t)) && Steps(ss, false)
    decreases t
  {
    hide LocalStep, Next, WellFormed;
    if t > 0 {
      LooseWellFormed(ss, c, t - 1);
      OwnStep(ss, false, c, t - 1);
      var k, k' := At(ss, c, t - 1), At(ss, c, t);
      if k' != k { KeepsLists(k, c, ss[t - 1].owner, k', ss[t].owner, false); }
    }
  }

  /** At time i connection c calls MutexArrayEnter, and at time t it is still inside the call. */
  ghost predicate InArrayCall(ss: seq<State>, c: nat, i: nat, t: nat) {
    && Everywhere(ss, c) && i < t < |ss| && At(ss, c, i).pc.Idle?
    && At(ss, c, i + 1) == At(ss, c, i).(pc := ArrayScan(0), start := At(ss, c, i).bs)
    && (forall u :: i < u <= t ==> !At(ss, c, u).pc.Idle?)
  }

  lemma {:induction false} ArrayCarried(ss: seq<State>, c: nat, i: nat, t: nat)
    requires LooseRun(ss) && InArrayCall(ss, c, i, t)
    ensures Passing(At(ss, c, t)) && At(ss, c, t).start == At(ss, c, i).bs && At(ss, c, t).arr == At(ss, c, i).arr
    ensures forall m :: 0 <= m < |At(ss, c, i).bs| ==> At(ss, c, t).bs[m].pBt == At(ss, c, i).bs[m].pBt
    decreases t
  {
    hide LooseRun, Inside, WellFormed, Steps;
    LooseWellFormed(ss, c, t);
    if t > i + 1 {
      ArrayCarried(ss, c, i, t - 1);
      InsideStep(ss, false, c, t - 1);
      var k, k' := At(ss, c, t - 1), At(ss, c, t);
      if k' != k {
        InsideKeepsLists(k, c, ss[t - 1].owner, k', ss[t].owner);
        ArrayStep(k, c, ss[t - 1].owner, k', ss[t].owner);
      }
    }
  }

  /** A call that returns has waited for every entry that was not locked. */
  lemma {:induction false} Visits(ss: seq<State>, c: nat, i: nat, j: nat, t: nat, n: nat) returns (u: nat)
    requires LooseRun(ss) && LongCall(ss, c, ArrayScan(0), i, j) && i < t < j
    requires n < |At(ss, c, i).arr| && At(ss, c, i).arr[n] < |At(ss, c, i).bs| && !At(ss, c, i).bs[At(ss, c, i).arr[n]].locked
    requires In(At(ss, c, t).pc, EnteringArray) && Entry(At(ss, c, t).pc) <= n
    ensures i < u < j && At(ss, c, u).pc == ArrayBlock(n)
    decreases j - t
  {
    hide LooseRun, Inside, WellFormed, Steps;
    var k := At(ss, c, t);
    if k.pc == ArrayBlock(n) {
      u := t;
    } else {
      ArrayCarried(ss, c, i, t);
      LooseWellFormed(ss, c, t + 1);
      InsideStep(ss, false, c, t);
      var k' := At(ss, c, t + 1);
      if k' != k {
        InsideKeepsLists(k, c, ss[t].owner, k', ss[t + 1].owner);
        ArrayStep(k, c, ss[t].owner, k', ss[t + 1].owner);
      }
      u := Visits(ss, c, i, j, t + 1, n);
    }
  }

  /** What a waiting connection inside the call holds, it held at the call or has passed in the array. */
  lemma SafeIsOrdered(k: Conn, k0: Conn)
    requires Passing(k) && k0.bs == k.start && k0.arr == k.arr && ArraySafe(k0)
    ensures Ordered(k)
  {
    if k.pc.ArrayBlock? {
      var a := k.arr[k.pc.n];
      forall m | 0 <= m < |k.bs| && k.bs[m].locked
        ensures m < a
      {
        if !k.start[m].locked { assert InArray(k.arr, k.pc.n, m); }
      }
    }
  }

  lemma UnsafeIsNotOrdered(k: Conn, m: nat)
    requires Passing(k) && k.pc.ArrayBlock? && m < |k.start| && k.start[m].locked && m >= k.arr[k.pc.n]
    ensures !Ordered(k)
  {
    assert k.bs[m].locked;
    var a := k.arr[k.pc.n];
    assert m != a;
  }

  /**
   In any run, guarded or not, at every moment of a call of MutexArrayEnter, whether or not it will ever
   return: the connection is out of order exactly when it waits for an entry below a mutex that it held
   when it made the call. A safe call is never out of order.
   */
  lemma ArrayMoment(ss: seq<State>, c: nat, i: nat, t: nat)
    requires LooseRun(ss) && InArrayCall(ss, c, i, t)
    ensures In(At(ss, c, t).pc, EnteringArray)
    ensures Ordered(At(ss, c, t)) <==>
      (At(ss, c, t).pc.ArrayBlock? ==> AboveHeld(At(ss, c, i), At(ss, c, t).pc.n))
    ensures ArraySafe(At(ss, c, i)) ==> Ordered(At(ss, c, t))
  {
    hide LooseRun, Ordered, WellFormed;
    ArrayCarried(ss, c, i, t);
    OrderedIff(At(ss, c, t), At(ss, c, i));
    if ArraySafe(At(ss, c, i)) { SafeIsOrdered(At(ss, c, t), At(ss, c, i)); }
  }

  /** Entry n of the connection's array has a greater address than every mutex that the connection holds. */
  ghost predicate AboveHeld(k: Conn, n: nat) {
    n < |k.arr| && forall m :: 0 <= m < |k.bs| && k.bs[m].locked ==> m < k.arr[n]
  }

  lemma OrderedIff(k: Conn, k0: Conn)
    requires Passing(k) && k0.bs == k.start && k0.arr == k.arr
    ensures Ordered(k) <==> (k.pc.ArrayBlock? ==> AboveHeld(k0, k.pc.n))
  {
    if k.pc.ArrayBlock? {
      var n := k.pc.n;
      if AboveHeld(k0, n) {
        forall m | 0 <= m < |k.bs| && k.bs[m].locked
          ensures m < k.arr[n]
        {
          if !k.start[m].locked { assert InArray(k.arr, n, m); }
        }
      } else {
        var m: nat :| m < |k0.bs| && k0.bs[m].locked && m >= k0.arr[n];
        UnsafeIsNotOrdered(k, m);
      }
    }
  }

  /**
   In any run, guarded or not, a call of MutexArrayEnter keeps the locking order from beginning to end
   if and only if, when it is made, every mutex held is smaller than every entry that is not.
   */
  lemma ArrayOrderIff(ss: seq<State>, c: nat, i: nat, j: nat)
    requires LooseRun(ss) && LongCall(ss, c, ArrayScan(0), i, j)
    ensures ArraySafe(At(ss, c, i)) <==> forall t :: i < t < j ==> Ordered(At(ss, c, t))
  {
    hide LooseRun, Ordered, Passing, WellFormed;
    var k0 := At(ss, c, i);
    if ArraySafe(k0) {
      forall t | i < t < j
        ensures Ordered(At(ss, c, t))
      {
        ArrayCarried(ss, c, i, t);
        SafeIsOrdered(At(ss, c, t), k0);
      }
    } else {
      var n: nat, m: nat :| n < |k0.arr| && k0.arr[n] < |k0.bs| && !k0.bs[k0.arr[n]].locked
        && m < |k0.bs| && k0.bs[m].locked && m >= k0.arr[n];
      assert i + 1 < j;
      var u := Visits(ss, c, i, j, i + 1, n);
      ArrayCarried(ss, c, i, u);
      UnsafeIsNotOrdered(At(ss, c, u), m);
    }
  }
}
