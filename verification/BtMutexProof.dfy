/**
 Why the protocol of btmutex.c cannot deadlock: in every reachable state a connection that waits
 for a mutex holds only mutexes of smaller address.
 */
module BtMutexProof {
  import opened Wrappers
  import opened BtMutex

  // ----- what holds inside each routine

  /** Outside the routines a Btree is locked exactly when it is wanted. */
  ghost predicate Settled(bs: seq<Btree>) {
    forall m :: 0 <= m < |bs| ==> (bs[m].locked <==> bs[m].want > 0)
  }

  ghost predicate Wanted(bs: seq<Btree>, m: nat) {
    m < |bs| && bs[m].want > 0
  }

  /** By how much the routine has changed the nesting count of Btree m so far. */
  ghost function Change(k: Conn, m: nat): int {
    match k.pc
    case Idle => 0
    case TryLock(p) => if m == p then 1 else 0
    case BackOff(p, _) => if m == p then 1 else 0
    case Block(p) => if m == p then 1 else 0
    case Reacquire(p, _) => if m == p then 1 else 0
    case AllScan(i) => if Named(k.aDb, i, m) then 1 else 0
    case AllBackOff(i, _, _) => if Named(k.aDb, i + 1, m) then 1 else 0
    case AllLock(i, _) => if Named(k.aDb, i + 1, m) then 1 else 0
    case AllLeave(i) => if Named(k.aDb, i, m) then -1 else 0
    case ArrayScan(n) => if InArray(k.arr, n, m) then 1 else 0
    case ArrayBlock(n) => if InArray(k.arr, n + 1, m) then 1 else 0
    case ArrayLeave(n) => if InArray(k.arr, n, m) then -1 else 0
  }

  /** Whether Btree m, which has the nesting count `want` by now, is locked at this point. */
  ghost predicate Held(k: Conn, m: nat, want: int) {
    match k.pc
    case Idle => want > 0
    case TryLock(p) => Wanted(k.start, m)
    case BackOff(p, j) => Wanted(k.start, m) && (m < p || j <= m)
    case Block(p) => Wanted(k.start, m) && m < p
    case Reacquire(_, j) => want > 0 && m < j
    case AllScan(i) => Wanted(k.start, m) || NewBefore(k, i)
    case AllBackOff(_, p, j) => m < p || (j <= m && Wanted(k.start, m))
    case AllLock(_, p) => m < p
    case AllLeave(_) => want > 0
    case ArrayScan(_) => want > 0
    case ArrayBlock(n) => want > 0 && !(n < |k.arr| && m == k.arr[n])
    case ArrayLeave(_) => want > 0
  }

  /** One of the first i databases has a Btree that was not wanted when the routine was called. */
  ghost predicate NewBefore(k: Conn, i: nat) {
    exists n :: 0 <= n < i && n < |k.aDb| && k.aDb[n].Some? && NewAt(k, k.aDb[n].value)
  }

  ghost predicate NewAt(k: Conn, m: nat) {
    m < |k.start| && k.start[m].want == 0
  }

  /** The indices in the program counter make sense. */
  ghost predicate PcOk(k: Conn) {
    match k.pc
    case Idle => true
    case TryLock(p) => NewAt(k, p)
    case BackOff(p, j) => NewAt(k, p) && p < j
    case Block(p) => NewAt(k, p)
    case Reacquire(p, j) => NewAt(k, p) && p < j
    case AllScan(_) => true
    case AllBackOff(i, p, j) => NewAt(k, p) && p < j && NewBefore(k, i + 1)
    case AllLock(i, p) => NewBefore(k, i + 1)
    case AllLeave(_) => forall m :: 0 <= m < |k.start| ==> Wanted(k.start, m)
    case ArrayScan(_) => Room(k)
    case ArrayBlock(n) => n < |k.arr| && NewAt(k, k.arr[n]) && Room(k)
    case ArrayLeave(_) => forall n :: 0 <= n < |k.arr| ==> Wanted(k.start, k.arr[n])
  }

  /** What was held when the mutex array was entered lies below every entry that was not. */
  ghost predicate Room(k: Conn) {
    forall n, m :: (0 <= n < |k.arr| && NewAt(k, k.arr[n]) && Wanted(k.start, m)) ==> m < k.arr[n]
  }

  ghost predicate AsExpected(k: Conn, m: nat)
    requires m < |k.bs| == |k.start|
  {
    && k.bs[m].pBt == k.start[m].pBt
    && k.bs[m].want == k.start[m].want + Change(k, m)
    && (k.bs[m].locked <==> Held(k, m, k.bs[m].want))
  }

  /** The Btree list is determined by the list at the call and the program counter. */
  ghost predicate ConnInv(k: Conn) {
    WellFormed(k) && if k.pc.Idle? then Settled(k.bs) else RoutineInv(k)
  }

  ghost predicate RoutineInv(k: Conn) {
    && |k.bs| == |k.start| && Settled(k.start) && PcOk(k)
    && (forall m :: 0 <= m < |k.bs| ==> AsExpected(k, m))
  }

  /** The Btree whose mutex the connection is waiting for. */
  ghost function WaitsOn(k: Conn): Option<nat> {
    match k.pc
    case Block(p) => if p < |k.bs| then Some(p) else None
    case Reacquire(_, j) => if j < |k.bs| && k.bs[j].want > 0 then Some(j) else None
    case AllLock(_, p) => if p < |k.bs| then Some(p) else None
    case ArrayBlock(n) => if n < |k.arr| && k.arr[n] < |k.bs| then Some(k.arr[n]) else None
    case _ => None
  }

  /** A waiting connection holds only mutexes of smaller address. */
  lemma WaitsAboveHeld(k: Conn, m: nat)
    requires ConnInv(k) && WaitsOn(k).Some? && m < |k.bs| && k.bs[m].locked
    ensures k.bs[m].pBt < k.bs[WaitsOn(k).value].pBt
  {
    assert AsExpected(k, m);
    if k.pc.ArrayBlock? {
      ArrayEntriesBelow(k, m);
    }
  }

  lemma ArrayEntriesBelow(k: Conn, m: nat)
    requires ConnInv(k) && k.pc.ArrayBlock? && m < |k.bs| && k.bs[m].locked
    ensures m < k.arr[k.pc.n]
  {
    var n := k.pc.n;
    assert AsExpected(k, m);
    if !Wanted(k.start, m) {
      assert InArray(k.arr, n + 1, m);
    }
  }

  // ----- every step keeps it

  /** A step changes nothing but nesting counts, lock flags and the program counter. */
  ghost predicate SameLists(k: Conn, k': Conn) {
    && k'.aDb == k.aDb && k'.arr == k.arr && |k'.bs| == |k.bs|
    && (forall m :: 0 <= m < |k.bs| ==> k'.bs[m].pBt == k.bs[m].pBt)
  }

  lemma KeepsLists(k: Conn, me: nat, owner: map<nat, nat>, k': Conn, owner': map<nat, nat>, guarded: bool)
    requires WellFormed(k) && LocalStep(k, me, owner, k', owner', guarded)
    ensures SameLists(k, k') && WellFormed(k')
    ensures k.pc.Idle? || k'.start == k.start
  {
    if k.pc.Idle? {
      CallKeepsLists(k, owner, k', owner', guarded);
    } else {
      InsideKeepsLists(k, me, owner, k', owner');
    }
    assert forall i, j :: 0 <= i < j < |k'.bs| ==> k.bs[i].pBt < k.bs[j].pBt;
  }

  lemma CallKeepsLists(k: Conn, owner: map<nat, nat>, k': Conn, owner': map<nat, nat>, guarded: bool)
    requires Call(k, owner, k', owner', guarded)
    ensures SameLists(k, k')
  {
  }

  lemma InsideKeepsLists(k: Conn, me: nat, owner: map<nat, nat>, k': Conn, owner': map<nat, nat>)
    requires !k.pc.Idle? && Inside(k, me, owner, k', owner')
    ensures SameLists(k, k') && k'.start == k.start
  {
    hide FirstUnlocked;
    match k.pc
    case TryLock(_) =>
    case BackOff(_, _) =>
    case Block(_) =>
    case Reacquire(_, _) =>
    case AllScan(_) =>
    case AllBackOff(_, _, _) =>
    case AllLock(_, _) =>
    case AllLeave(_) =>
    case ArrayScan(_) =>
    case ArrayBlock(_) =>
    case ArrayLeave(_) =>
  }

  /** A new routine starts from the settled list. */
  lemma KeepsCall(k: Conn, owner: map<nat, nat>, k': Conn, owner': map<nat, nat>)
    requires ConnInv(k) && k.pc.Idle? && WellFormed(k') && Call(k, owner, k', owner', true)
    ensures ConnInv(k')
  {
    hide ConnInv, WellFormed, CallEnter, CallLeave;
    if p: nat :| CallEnter(k, k', p) {
      CallsEnter(k, k', p);
    } else if p: nat :| CallLeave(k, owner, k', owner', p) {
      CallsLeave(k, owner, k', owner', p);
    } else {
      CallsOther(k, owner, k', owner');
    }
  }

  lemma CallsEnter(k: Conn, k': Conn, p: nat)
    requires ConnInv(k) && k.pc.Idle? && WellFormed(k') && CallEnter(k, k', p)
    ensures ConnInv(k')
  {
  }

  lemma CallsLeave(k: Conn, owner: map<nat, nat>, k': Conn, owner': map<nat, nat>, p: nat)
    requires ConnInv(k) && k.pc.Idle? && WellFormed(k') && CallLeave(k, owner, k', owner', p)
    ensures ConnInv(k')
  {
    assert forall m :: 0 <= m < |k.bs| ==> (k.bs[m].locked <==> k.bs[m].want > 0);
  }

  lemma CallsOther(k: Conn, owner: map<nat, nat>, k': Conn, owner': map<nat, nat>)
    requires ConnInv(k) && k.pc.Idle? && WellFormed(k') && Call(k, owner, k', owner', true)
    requires forall p :: !CallEnter(k, k', p) && !CallLeave(k, owner, k', owner', p)
    ensures ConnInv(k')
  {
    assert k'.bs == k.bs == k'.start;
    forall m | 0 <= m < |k'.bs|
      ensures AsExpected(k', m)
    {
      assert k'.bs[m] == k.bs[m];
      assert Change(k', m) == 0;
    }
  }

  lemma KeepsEnter(k: Conn, me: nat, owner: map<nat, nat>, k': Conn, owner': map<nat, nat>)
    requires ConnInv(k) && (k.pc.TryLock? || k.pc.BackOff? || k.pc.Block? || k.pc.Reacquire?)
    requires WellFormed(k') && Inside(k, me, owner, k', owner') && SameLists(k, k') && k'.start == k.start
    ensures ConnInv(k')
  {
    forall m | 0 <= m < |k'.bs|
      ensures k'.pc.Idle? ==> (k'.bs[m].locked <==> k'.bs[m].want > 0)
      ensures !k'.pc.Idle? ==> AsExpected(k', m)
    {
      assert AsExpected(k, m);
    }
  }

  /** The next entry of the database array adds one name. */
  lemma NamedNext(aDb: seq<Option<nat>>, i: nat, m: nat)
    requires i < |aDb|
    ensures Named(aDb, i + 1, m) <==> Named(aDb, i, m) || aDb[i] == Some(m)
  {
  }

  lemma NamedOnce(k: Conn, i: nat, m: nat)
    requires WellFormed(k) && i < |k.aDb| && k.aDb[i] == Some(m)
    ensures !Named(k.aDb, i, m)
  {
  }

  lemma InArrayNext(k: Conn, n: nat, m: nat)
    requires WellFormed(k) && n < |k.arr|
    ensures InArray(k.arr, n + 1, m) <==> InArray(k.arr, n, m) || k.arr[n] == m
    ensures !InArray(k.arr, n, k.arr[n])
  {
  }

  lemma KeepsAllScan(k: Conn, me: nat, owner: map<nat, nat>, k': Conn, owner': map<nat, nat>)
    requires ConnInv(k) && k.pc.AllScan? && WellFormed(k') && Inside(k, me, owner, k', owner')
    requires SameLists(k, k') && k'.start == k.start
    ensures ConnInv(k')
  {
    hide FirstUnlocked;
    var i := k.pc.i;
    if i >= |k.aDb| {
      ScannedAll(k, k');
    } else if k.aDb[i].None? || k.aDb[i].value >= |k.bs| {
      forall m | 0 <= m < |k'.bs| ensures AsExpected(k', m) {
        assert AsExpected(k, m);
        NamedNext(k.aDb, i, m);
        assert NewBefore(k', i + 1) <==> NewBefore(k, i);
      }
    } else {
      ScansOne(k, k', i, k.aDb[i].value);
    }
  }

  /** At the end of EnterAll everything is locked. */
  lemma ScannedAll(k: Conn, k': Conn)
    requires ConnInv(k) && k.pc.AllScan? && k.pc.i >= |k.aDb| && NextPc(k, k', Idle)
    ensures forall m :: 0 <= m < |k'.bs| ==>
      k'.bs[m] == Btree(k.start[m].pBt, k.start[m].want + 1, true)
    ensures Settled(k'.bs)
  {
    forall m | 0 <= m < |k.bs|
      ensures k.bs[m] == Btree(k.start[m].pBt, k.start[m].want + 1, true)
    {
      assert AsExpected(k, m);
      assert Named(k.aDb, |k.aDb|, m);
      var n :| 0 <= n < |k.aDb| && k.aDb[n] == Some(m);
      assert Named(k.aDb, k.pc.i, m);
      if !Wanted(k.start, m) { assert NewAt(k, k.aDb[n].value); }
    }
  }

  lemma ScansOne(k: Conn, k': Conn, i: nat, v: nat)
    requires ConnInv(k) && k.pc == AllScan(i) && i < |k.aDb| && k.aDb[i] == Some(v) && v < |k.bs|
    requires ScanAll(k, k', i) && WellFormed(k') && SameLists(k, k') && k'.start == k.start
    ensures ConnInv(k')
  {
    hide FirstUnlocked;
    var bs := Want(k.bs, v, 1);
    var p := FirstUnlocked(bs, 0);
    NamedOnce(k, i, v);
    assert AsExpected(k, v);
    forall m | 0 <= m < |k'.bs|
      ensures AsExpected(k', m)
    {
      assert AsExpected(k, m);
      NamedNext(k.aDb, i, m);
      assert k.bs[v].locked ==> (NewBefore(k', i + 1) <==> NewBefore(k, i));
    }
    if !k.bs[v].locked {
      assert NewAt(k', k'.aDb[i].value);
      assert AsExpected(k, p);
    }
  }

  lemma KeepsAllLock(k: Conn, me: nat, owner: map<nat, nat>, k': Conn, owner': map<nat, nat>)
    requires ConnInv(k) && (k.pc.AllBackOff? || k.pc.AllLock?) && WellFormed(k') && Inside(k, me, owner, k', owner')
    requires SameLists(k, k') && k'.start == k.start
    ensures ConnInv(k')
  {
    assert NewBefore(k', k.pc.i + 1);
    forall m | 0 <= m < |k'.bs|
      ensures AsExpected(k', m)
    {
      assert AsExpected(k, m);
    }
  }

  lemma KeepsArrayEnter(k: Conn, me: nat, owner: map<nat, nat>, k': Conn, owner': map<nat, nat>)
    requires ConnInv(k) && (k.pc.ArrayScan? || k.pc.ArrayBlock?) && WellFormed(k') && Inside(k, me, owner, k', owner')
    requires SameLists(k, k') && k'.start == k.start
    ensures ConnInv(k')
  {
    var n := k.pc.n;
    if n < |k.arr| { assert AsExpected(k, k.arr[n]); }
    forall m | 0 <= m < |k'.bs|
      ensures k'.pc.Idle? ==> (k'.bs[m].locked <==> k'.bs[m].want > 0)
      ensures !k'.pc.Idle? ==> AsExpected(k', m)
    {
      assert AsExpected(k, m);
      if n < |k.arr| { InArrayNext(k, n, m); }
    }
  }

  lemma KeepsAllLeave(k: Conn, me: nat, owner: map<nat, nat>, k': Conn, owner': map<nat, nat>)
    requires ConnInv(k) && k.pc.AllLeave? && WellFormed(k') && Inside(k, me, owner, k', owner')
    requires SameLists(k, k') && k'.start == k.start
    ensures ConnInv(k')
  {
    var i := k.pc.i;
    if i < |k.aDb| && k.aDb[i].Some? && k.aDb[i].value < |k.bs| {
      var v := k.aDb[i].value;
      assert AsExpected(k, v) && Wanted(k.start, v);
      NamedOnce(k, i, v);
    }
    forall m | 0 <= m < |k'.bs|
      ensures k'.pc.Idle? ==> (k'.bs[m].locked <==> k'.bs[m].want > 0)
      ensures !k'.pc.Idle? ==> AsExpected(k', m)
    {
      assert AsExpected(k, m);
      if i < |k.aDb| { NamedNext(k.aDb, i, m); }
    }
  }

  lemma KeepsArrayLeave(k: Conn, me: nat, owner: map<nat, nat>, k': Conn, owner': map<nat, nat>)
    requires ConnInv(k) && k.pc.ArrayLeave? && WellFormed(k') && Inside(k, me, owner, k', owner')
    requires SameLists(k, k') && k'.start == k.start
    ensures ConnInv(k')
  {
    var n := k.pc.n;
    if n < |k.arr| {
      assert AsExpected(k, k.arr[n]) && Wanted(k.start, k.arr[n]);
    }
    forall m | 0 <= m < |k'.bs|
      ensures k'.pc.Idle? ==> (k'.bs[m].locked <==> k'.bs[m].want > 0)
      ensures !k'.pc.Idle? ==> AsExpected(k', m)
    {
      assert AsExpected(k, m);
      if n < |k.arr| { InArrayNext(k, n, m); InArrayNext(k, n, k.arr[n]); }
    }
  }

  /** Every step of a connection keeps its invariant. */
  lemma StepKeepsConn(k: Conn, me: nat, owner: map<nat, nat>, k': Conn, owner': map<nat, nat>)
    requires ConnInv(k) && LocalStep(k, me, owner, k', owner', true)
    ensures ConnInv(k') && SameLists(k, k')
  {
    KeepsLists(k, me, owner, k', owner', true);
    if k.pc.Idle? {
      KeepsCall(k, owner, k', owner');
    } else if k.pc.AllScan? {
      KeepsAllScan(k, me, owner, k', owner');
    } else if k.pc.AllBackOff? || k.pc.AllLock? {
      KeepsAllLock(k, me, owner, k', owner');
    } else if k.pc.ArrayScan? || k.pc.ArrayBlock? {
      KeepsArrayEnter(k, me, owner, k', owner');
    } else if k.pc.AllLeave? {
      KeepsAllLeave(k, me, owner, k', owner');
    } else if k.pc.ArrayLeave? {
      KeepsArrayLeave(k, me, owner, k', owner');
    } else {
      KeepsEnter(k, me, owner, k', owner');
    }
  }

  // ----- who holds which mutex

  ghost predicate SameFlags(k: Conn, k': Conn, except: Option<nat>)
    requires |k.bs| == |k'.bs|
  {
    forall m :: 0 <= m < |k.bs| && Some(m) != except ==> k'.bs[m].locked == k.bs[m].locked
  }

  ghost predicate Takes(k: Conn, me: nat, owner: map<nat, nat>, k': Conn, owner': map<nat, nat>, p: nat)
    requires |k.bs| == |k'.bs|
  {
    && p < |k.bs| && k'.bs[p].locked && SameFlags(k, k', Some(p))
    && k.bs[p].pBt !in owner && owner' == owner[k.bs[p].pBt := me]
  }

  ghost predicate Drops(k: Conn, owner: map<nat, nat>, k': Conn, owner': map<nat, nat>, p: nat)
    requires |k.bs| == |k'.bs|
  {
    && p < |k.bs| && k.bs[p].locked && !k'.bs[p].locked && SameFlags(k, k', Some(p))
    && owner' == owner - {k.bs[p].pBt}
  }

  /** A step takes one mutex, drops one, or touches none. */
  ghost predicate Effect(k: Conn, me: nat, owner: map<nat, nat>, k': Conn, owner': map<nat, nat>)
    requires |k.bs| == |k'.bs|
  {
    || (owner' == owner && SameFlags(k, k', None))
    || (exists p :: Takes(k, me, owner, k', owner', p))
    || (exists p :: Drops(k, owner, k', owner', p))
  }

  lemma EffectOfCall(k: Conn, me: nat, owner: map<nat, nat>, k': Conn, owner': map<nat, nat>)
    requires ConnInv(k) && k.pc.Idle? && Call(k, owner, k', owner', true) && SameLists(k, k')
    ensures Effect(k, me, owner, k', owner')
  {
    if p: nat :| CallLeave(k, owner, k', owner', p) {
      if k.bs[p].want == 1 {
        assert Drops(k, owner, k', owner', p);
      }
    }
  }

  lemma EffectInside(k: Conn, me: nat, owner: map<nat, nat>, k': Conn, owner': map<nat, nat>)
    requires ConnInv(k) && !k.pc.Idle? && Inside(k, me, owner, k', owner') && SameLists(k, k')
    ensures Effect(k, me, owner, k', owner')
  {
    hide FirstUnlocked, WellFormed, PcOk, Settled;
    match k.pc
    case TryLock(p) =>
      if owner' != owner { assert Takes(k, me, owner, k', owner', p); }
    case BackOff(p, j) =>
      if j < |k.bs| && k.bs[j].locked { assert Drops(k, owner, k', owner', j); }
    case Block(p) =>
      assert Takes(k, me, owner, k', owner', p);
    case Reacquire(p, j) =>
      if j < |k.bs| && k.bs[j].want > 0 { assert Takes(k, me, owner, k', owner', j); }
    case AllScan(_) =>
    case AllBackOff(i, p, j) =>
      if j < |k.bs| && k.bs[j].locked { assert Drops(k, owner, k', owner', j); }
    case AllLock(i, p) =>
      if p < |k.bs| { assert Takes(k, me, owner, k', owner', p); }
    case AllLeave(i) =>
      LeaveEffect(k, me, owner, k', owner', if i < |k.aDb| then k.aDb[i] else None);
    case ArrayScan(_) =>
    case ArrayBlock(n) =>
      assert Takes(k, me, owner, k', owner', k.arr[n]);
    case ArrayLeave(n) =>
      LeaveEffect(k, me, owner, k', owner', if n < |k.arr| then Some(k.arr[n]) else None);
  }

  lemma LeaveEffect(k: Conn, me: nat, owner: map<nat, nat>, k': Conn, owner': map<nat, nat>, what: Option<nat>)
    requires ConnInv(k) && (k.pc.AllLeave? || k.pc.ArrayLeave?) && SameLists(k, k')
    requires exists i, pc, done :: LeaveOne(k, owner, k', owner', i, pc, what, done)
    ensures Effect(k, me, owner, k', owner')
  {
    if what.Some? && what.value < |k.bs| {
      assert AsExpected(k, what.value);
      if k'.bs[what.value].locked != k.bs[what.value].locked {
        assert Drops(k, owner, k', owner', what.value);
      }
    }
  }

  /** The mutexes a connection has locked are the ones it owns. */
  ghost predicate OwnerInv(s: State) {
    && (forall c, m :: 0 <= c < |s.conns| && 0 <= m < |s.conns[c].bs| && s.conns[c].bs[m].locked ==>
          s.conns[c].bs[m].pBt in s.owner && s.owner[s.conns[c].bs[m].pBt] == c)
    && (forall a :: a in s.owner ==> s.owner[a] < |s.conns| && Holds(s.conns[s.owner[a]], a))
  }

  ghost predicate Holds(k: Conn, a: nat) {
    exists m :: 0 <= m < |k.bs| && k.bs[m].pBt == a && k.bs[m].locked
  }

  ghost predicate Inv(s: State) {
    && (forall c :: 0 <= c < |s.conns| ==> ConnInv(s.conns[c]))
    && OwnerInv(s)
  }

  lemma KeepsOwners(s: State, s': State, c: nat)
    requires Inv(s) && StepOf(s, s', c, true) && SameLists(s.conns[c], s'.conns[c]) && Ascending(s.conns[c].bs)
    requires Effect(s.conns[c], c, s.owner, s'.conns[c], s'.owner)
    ensures OwnerInv(s')
  {
    hide ConnInv, LocalStep;
    var k, k' := s.conns[c], s'.conns[c];
    if p: nat :| Takes(k, c, s.owner, k', s'.owner, p) {
      OwnersAfterTake(s, s', c, p);
    } else if p: nat :| Drops(k, s.owner, k', s'.owner, p) {
      OwnersAfterDrop(s, s', c, p);
    } else {
      assert forall a :: Holds(k, a) ==> Holds(k', a);
    }
  }

  lemma OwnersAfterTake(s: State, s': State, c: nat, p: nat)
    requires OwnerInv(s) && c < |s.conns| == |s'.conns| && SameLists(s.conns[c], s'.conns[c])
    requires forall d :: 0 <= d < |s.conns| && d != c ==> s'.conns[d] == s.conns[d]
    requires Takes(s.conns[c], c, s.owner, s'.conns[c], s'.owner, p)
    ensures OwnerInv(s')
  {
    var k, k' := s.conns[c], s'.conns[c];
    forall a | a in s'.owner
      ensures s'.owner[a] < |s'.conns| && Holds(s'.conns[s'.owner[a]], a)
    {
      if a == k.bs[p].pBt {
        assert k'.bs[p].pBt == a;
      } else if s.owner[a] == c {
        var m :| 0 <= m < |k.bs| && k.bs[m].pBt == a && k.bs[m].locked;
        assert k'.bs[m].pBt == a && k'.bs[m].locked;
      }
    }
  }

  lemma OwnersAfterDrop(s: State, s': State, c: nat, p: nat)
    requires OwnerInv(s) && c < |s.conns| == |s'.conns| && SameLists(s.conns[c], s'.conns[c])
    requires Ascending(s.conns[c].bs)
    requires forall d :: 0 <= d < |s.conns| && d != c ==> s'.conns[d] == s.conns[d]
    requires Drops(s.conns[c], s.owner, s'.conns[c], s'.owner, p)
    ensures OwnerInv(s')
  {
    var k, k' := s.conns[c], s'.conns[c];
    forall a | a in s'.owner
      ensures s'.owner[a] < |s'.conns| && Holds(s'.conns[s'.owner[a]], a)
    {
      if s.owner[a] == c {
        var m :| 0 <= m < |k.bs| && k.bs[m].pBt == a && k.bs[m].locked;
        assert k'.bs[m].pBt == a && k'.bs[m].locked;
      }
    }
    forall d, m | 0 <= d < |s'.conns| && 0 <= m < |s'.conns[d].bs| && s'.conns[d].bs[m].locked
      ensures s'.conns[d].bs[m].pBt in s'.owner && s'.owner[s'.conns[d].bs[m].pBt] == d
    {
      assert s.conns[d].bs[m].locked && s'.conns[d].bs[m].pBt == s.conns[d].bs[m].pBt;
      if d == c { assert m != p; assert m < p || p < m; }
    }
  }

  /** Every step of the system keeps the invariant. */
  lemma StepKeeps(s: State, s': State)
    requires Inv(s) && Next(s, s', true)
    ensures Inv(s')
  {
    hide ConnInv, OwnerInv, Inside, Call, Effect, SameLists;
    var c: nat :| StepOf(s, s', c, true);
    var k, k' := s.conns[c], s'.conns[c];
    StepKeepsConn(k, c, s.owner, k', s'.owner);
    if k.pc.Idle? {
      EffectOfCall(k, c, s.owner, k', s'.owner);
    } else {
      EffectInside(k, c, s.owner, k', s'.owner);
    }
    assert Ascending(k.bs) by { WellOrdered(k); }
    KeepsOwners(s, s', c);
  }

  lemma WellOrdered(k: Conn)
    requires ConnInv(k)
    ensures Ascending(k.bs)
  {
  }

  /** Every state of every run satisfies the invariant. */
  lemma {:induction false} RunKeeps(ss: seq<State>, i: nat)
    requires Run(ss) && i < |ss|
    ensures Inv(ss[i])
    decreases i
  {
    if i > 0 {
      RunKeeps(ss, i - 1);
      StepKeeps(ss[i - 1], ss[i]);
    }
  }
}
