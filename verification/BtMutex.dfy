/**
 The shared-cache mutex protocol of btmutex.c as a state machine.

 A connection owns a list of sharable Btrees in the order of their BtShared addresses (the pNext
 list), a database array that names them in some order, and a program counter inside one of the
 locking routines.  Every access to a mutex is one step, and the steps of any number of
 connections interleave freely.  The connection mutex keeps one connection from running two
 routines at once, so everything but the mutexes is local to a connection.
 */
module BtMutex {
  import opened Wrappers

  /** A sharable Btree: the address of its BtShared, the nesting count and the lock flag. */
  datatype Btree = Btree(pBt: nat, want: nat, locked: bool)

  /** Where a connection is.  `p`, `j` index the Btree list, `i` the database array, `n` the mutex array. */
  datatype Pc =
    | Idle
    | TryLock(p: nat)              // BtreeEnter: about to try the mutex of p
    | BackOff(p: nat, j: nat)      // BtreeEnter: giving up the later locks
    | Block(p: nat)                // BtreeEnter: waiting for p
    | Reacquire(p: nat, j: nat)    // BtreeEnter: taking the later locks again
    | AllScan(i: nat)              // BtreeEnterAll: at database i
    | AllBackOff(i: nat, p: nat, j: nat)
    | AllLock(i: nat, p: nat)      // BtreeEnterAll: waiting for p and all later ones
    | AllLeave(i: nat)             // BtreeLeaveAll: at database i
    | ArrayScan(n: nat)            // BtreeMutexArrayEnter: at entry n
    | ArrayBlock(n: nat)           // BtreeMutexArrayEnter: waiting for entry n
    | ArrayLeave(n: nat)           // BtreeMutexArrayLeave: at entry n

  /** `start` is the Btree list as it was when the routine was called. */
  datatype Conn = Conn(bs: seq<Btree>, aDb: seq<Option<nat>>, arr: seq<nat>, pc: Pc, start: seq<Btree>)

  datatype State = State(conns: seq<Conn>, owner: map<nat, nat>)

  // ----- the steps of one connection

  function Want(bs: seq<Btree>, p: nat, delta: int): seq<Btree>
    requires p < |bs| && bs[p].want + delta >= 0
  {
    bs[p := bs[p].(want := bs[p].want + delta)]
  }

  function Lock(bs: seq<Btree>, p: nat, on: bool): seq<Btree>
    requires p < |bs|
  {
    bs[p := bs[p].(locked := on)]
  }

  function FirstUnlocked(bs: seq<Btree>, p: nat): (r: nat)
    requires p <= |bs|
    ensures p <= r <= |bs|
    ensures forall m :: p <= m < r ==> bs[m].locked
    ensures r < |bs| ==> !bs[r].locked
    decreases |bs| - p
  {
    if p < |bs| && bs[p].locked then FirstUnlocked(bs, p + 1) else p
  }

  ghost predicate NextPc(k: Conn, k': Conn, pc: Pc) {
    k' == k.(pc := pc)
  }

  /** The connection takes the mutex of Btree p, which must be free, and moves on. */
  ghost predicate Acquire(k: Conn, me: nat, owner: map<nat, nat>, k': Conn, owner': map<nat, nat>, p: nat, pc: Pc)
    requires p < |k.bs|
  {
    && k.bs[p].pBt !in owner
    && owner' == owner[k.bs[p].pBt := me]
    && k' == k.(bs := Lock(k.bs, p, true), pc := pc)
  }

  /** The connection gives up the mutex of Btree p and moves on. */
  ghost predicate Surrender(k: Conn, owner: map<nat, nat>, k': Conn, owner': map<nat, nat>, bs: seq<Btree>, p: nat, pc: Pc)
    requires p < |bs|
  {
    && owner' == owner - {bs[p].pBt}
    && k' == k.(bs := Lock(bs, p, false), pc := pc)
  }

  /** A mutex array entered while a larger mutex is held would break the locking order. */
  ghost predicate ArraySafe(k: Conn) {
    forall n, m :: (0 <= n < |k.arr| && k.arr[n] < |k.bs| && !k.bs[k.arr[n]].locked
      && 0 <= m < |k.bs| && k.bs[m].locked) ==> m < k.arr[n]
  }

  /** The calls an idle connection can make. */
  ghost predicate Call(k: Conn, owner: map<nat, nat>, k': Conn, owner': map<nat, nat>, guarded: bool) {
    || (exists p :: CallEnter(k, k', p) && owner' == owner)
    || (exists p :: CallLeave(k, owner, k', owner', p))
    || (k' == k.(pc := AllScan(0), start := k.bs) && owner' == owner)
    || (AllWanted(k) && k' == k.(pc := AllLeave(0), start := k.bs) && owner' == owner)
    || ((guarded ==> ArraySafe(k)) && k' == k.(pc := ArrayScan(0), start := k.bs) && owner' == owner)
    || (ArrayWanted(k) && k' == k.(pc := ArrayLeave(0), start := k.bs) && owner' == owner)
  }

  /** sqlite3BtreeLeaveAll demands that every Btree is wanted. */
  ghost predicate AllWanted(k: Conn) {
    forall m :: 0 <= m < |k.bs| ==> k.bs[m].want > 0
  }

  ghost predicate ArrayWanted(k: Conn) {
    forall n :: 0 <= n < |k.arr| && k.arr[n] < |k.bs| ==> k.bs[k.arr[n]].want > 0
  }

  /** sqlite3BtreeEnter up to the first access to a mutex. */
  ghost predicate CallEnter(k: Conn, k': Conn, p: nat) {
    && p < |k.bs|
    && k' == k.(bs := Want(k.bs, p, 1), pc := if k.bs[p].locked then Idle else TryLock(p), start := k.bs)
  }

  /** sqlite3BtreeLeave. */
  ghost predicate CallLeave(k: Conn, owner: map<nat, nat>, k': Conn, owner': map<nat, nat>, p: nat) {
    && p < |k.bs| && k.bs[p].want > 0
    && var bs := Want(k.bs, p, -1);
       if bs[p].want == 0 then Surrender(k.(start := k.bs), owner, k', owner', bs, p, Idle)
       else owner' == owner && k' == k.(bs := bs, start := k.bs)
  }

  /** One step of a connection that is inside a routine. */
  ghost predicate Inside(k: Conn, me: nat, owner: map<nat, nat>, k': Conn, owner': map<nat, nat>)
    requires !k.pc.Idle?
  {
    match k.pc
    case TryLock(p) =>
      p < |k.bs| &&
      (Acquire(k, me, owner, k', owner', p, Idle)
       || (NextPc(k, k', BackOff(p, p + 1)) && owner' == owner))
    case BackOff(p, j) =>
      if j >= |k.bs| then NextPc(k, k', Block(p)) && owner' == owner
      else if k.bs[j].locked then Surrender(k, owner, k', owner', k.bs, j, BackOff(p, j + 1))
      else NextPc(k, k', BackOff(p, j + 1)) && owner' == owner
    case Block(p) =>
      p < |k.bs| && Acquire(k, me, owner, k', owner', p, Reacquire(p, p + 1))
    case Reacquire(p, j) =>
      if j >= |k.bs| then NextPc(k, k', Idle) && owner' == owner
      else if k.bs[j].want > 0 then Acquire(k, me, owner, k', owner', j, Reacquire(p, j + 1))
      else NextPc(k, k', Reacquire(p, j + 1)) && owner' == owner
    case AllScan(i) =>
      owner' == owner && ScanAll(k, k', i)
    case AllBackOff(i, p, j) =>
      if j >= |k.bs| then NextPc(k, k', AllLock(i, p)) && owner' == owner
      else if k.bs[j].locked then Surrender(k, owner, k', owner', k.bs, j, AllBackOff(i, p, j + 1))
      else NextPc(k, k', AllBackOff(i, p, j + 1)) && owner' == owner
    case AllLock(i, p) =>
      if p >= |k.bs| then NextPc(k, k', AllScan(i + 1)) && owner' == owner
      else Acquire(k, me, owner, k', owner', p, AllLock(i, p + 1))
    case AllLeave(i) =>
      LeaveOne(k, owner, k', owner', i, AllLeave(i + 1), if i < |k.aDb| then k.aDb[i] else None, i >= |k.aDb|)
    case ArrayScan(n) =>
      owner' == owner && ScanArray(k, k', n)
    case ArrayBlock(n) =>
      n < |k.arr| && k.arr[n] < |k.bs| && Acquire(k, me, owner, k', owner', k.arr[n], ArrayScan(n + 1))
    case ArrayLeave(n) =>
      LeaveOne(k, owner, k', owner', n, ArrayLeave(n + 1), if n < |k.arr| then Some(k.arr[n]) else None, n >= |k.arr|)
  }

  /** One round of the loop of sqlite3BtreeEnterAll, up to the first access to a mutex. */
  ghost predicate ScanAll(k: Conn, k': Conn, i: nat) {
    if i >= |k.aDb| then NextPc(k, k', Idle)
    else if k.aDb[i].None? || k.aDb[i].value >= |k.bs| then NextPc(k, k', AllScan(i + 1))
    else
      var m := k.aDb[i].value;
      var bs := Want(k.bs, m, 1);
      var p := FirstUnlocked(bs, 0);
      k' == k.(bs := bs, pc := if bs[m].locked then AllScan(i + 1) else AllBackOff(i, p, p + 1))
  }

  /** One round of the loop of sqlite3BtreeMutexArrayEnter. */
  ghost predicate ScanArray(k: Conn, k': Conn, n: nat) {
    if n >= |k.arr| || k.arr[n] >= |k.bs| then NextPc(k, k', Idle)
    else
      var m := k.arr[n];
      k' == k.(bs := Want(k.bs, m, 1), pc := if k.bs[m].locked then ArrayScan(n + 1) else ArrayBlock(n))
  }

  /** One round of a loop that leaves Btrees one by one. */
  ghost predicate LeaveOne(k: Conn, owner: map<nat, nat>, k': Conn, owner': map<nat, nat>, i: nat, pc: Pc,
                           what: Option<nat>, done: bool)
  {
    if done then NextPc(k, k', Idle) && owner' == owner
    else if what.None? || what.value >= |k.bs| || k.bs[what.value].want == 0 then
      NextPc(k, k', pc) && owner' == owner
    else
      var m := what.value;
      var bs := Want(k.bs, m, -1);
      if bs[m].want == 0 then Surrender(k, owner, k', owner', bs, m, pc)
      else owner' == owner && k' == k.(bs := bs, pc := pc)
  }

  ghost predicate LocalStep(k: Conn, me: nat, owner: map<nat, nat>, k': Conn, owner': map<nat, nat>, guarded: bool) {
    if k.pc.Idle? then Call(k, owner, k', owner', guarded) else Inside(k, me, owner, k', owner')
  }

  // ----- the whole system

  /** Some connection takes one step. */
  ghost predicate Next(s: State, s': State, guarded: bool) {
    exists c :: StepOf(s, s', c, guarded)
  }

  ghost predicate StepOf(s: State, s': State, c: nat, guarded: bool) {
    && c < |s.conns| == |s'.conns|
    && LocalStep(s.conns[c], c, s.owner, s'.conns[c], s'.owner, guarded)
    && (forall d :: 0 <= d < |s.conns| && d != c ==> s'.conns[d] == s.conns[d])
  }

  /** Nothing is locked and nobody is inside a routine. */
  ghost predicate Init(s: State) {
    && s.owner == map[]
    && (forall c :: 0 <= c < |s.conns| ==> s.conns[c].pc.Idle? && WellFormed(s.conns[c]) && Fresh(s.conns[c].bs))
  }

  ghost predicate Fresh(bs: seq<Btree>) {
    forall m :: 0 <= m < |bs| ==> bs[m].want == 0 && !bs[m].locked
  }

  /** The Btree list ascends, the database array names each of its Btrees once, the mutex array ascends. */
  ghost predicate WellFormed(k: Conn) {
    && Ascending(k.bs)
    && (forall m :: 0 <= m < |k.bs| ==> Named(k.aDb, |k.aDb|, m))
    && (forall i, j :: 0 <= i < j < |k.aDb| && k.aDb[i].Some? ==> k.aDb[i] != k.aDb[j])
    && (forall i, j :: 0 <= i < j < |k.arr| ==> k.arr[i] < k.arr[j])
    && (forall i :: 0 <= i < |k.arr| ==> k.arr[i] < |k.bs|)
  }

  ghost predicate Ascending(bs: seq<Btree>) {
    forall i, j :: 0 <= i < j < |bs| ==> bs[i].pBt < bs[j].pBt
  }

  /** Btree m is named in the first n entries of the database array. */
  ghost predicate Named(aDb: seq<Option<nat>>, n: nat, m: nat) {
    exists i :: 0 <= i < n && i < |aDb| && aDb[i] == Some(m)
  }

  ghost predicate InArray(arr: seq<nat>, n: nat, m: nat) {
    exists i :: 0 <= i < n && i < |arr| && arr[i] == m
  }

  ghost predicate Run(ss: seq<State>) {
    && |ss| > 0 && Init(ss[0])
    && (forall i :: 0 < i < |ss| ==> Next(ss[i - 1], ss[i], true))
  }
}
