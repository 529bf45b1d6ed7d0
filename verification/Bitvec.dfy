/**
 The bitmap of bitvec.c: a set of page numbers between 1 and a fixed size that is a plain bitmap
 when the size is small, a hash table while it has few members, and otherwise a fan of smaller
 bitmaps of the same kind.
 */
module Bitvec {
  import opened Memory

  /** Sizes on a machine with four-byte pointers. */
  const NBIT: nat := 4000
  const NINT: nat := 125
  const NPTR: nat := 125
  const MXHASH: nat := 62

  // ----- the bitmap

  /** 1 << k in a byte. */
  function Mask(k: nat): bv8
    requires k < 8
  {
    if k == 0 then 1 else if k == 1 then 2 else if k == 2 then 4 else if k == 3 then 8
    else if k == 4 then 16 else if k == 5 then 32 else if k == 6 then 64 else 128
  }

  predicate BitAt(bits: seq<bv8>, i: nat)
    requires i / 8 < |bits|
  {
    bits[i / 8] & Mask(i % 8) != 0
  }

  lemma MaskBits(x: bv8, a: nat, b: nat)
    requires a < 8 && b < 8
    ensures (x | Mask(a)) & Mask(b) != 0 <==> a == b || x & Mask(b) != 0
    ensures (x & !Mask(a)) & Mask(b) != 0 <==> a != b && x & Mask(b) != 0
  {
    if a == b {
      SameMask(x, Mask(a));
    } else {
      OtherMask(x, a, b);
    }
  }

  lemma SameMask(x: bv8, m: bv8)
    ensures (x | m) & m == m && (x & !m) & m == 0
  {
  }

  lemma OtherMask(x: bv8, a: nat, b: nat)
    requires a < 8 && b < 8 && a != b
    ensures (x | Mask(a)) & Mask(b) == x & Mask(b)
    ensures (x & !Mask(a)) & Mask(b) == x & Mask(b)
  {
    Apart(a, b);
    DisjointMasks(x, Mask(a), Mask(b));
  }

  lemma Apart(a: nat, b: nat)
    requires a < 8 && b < 8 && a != b
    ensures Mask(a) & Mask(b) == 0
  {
  }

  lemma DisjointMasks(x: bv8, m: bv8, n: bv8)
    requires m & n == 0
    ensures (x | m) & n == x & n && (x & !m) & n == x & n
  {
  }

  lemma SetBit(bits: seq<bv8>, i: nat, j: nat)
    requires i / 8 < |bits| && j / 8 < |bits|
    ensures BitAt(bits[i / 8 := bits[i / 8] | Mask(i % 8)], j) <==> i == j || BitAt(bits, j)
  {
    hide Mask;
    if i / 8 == j / 8 {
      MaskBits(bits[i / 8], i % 8, j % 8);
      SameByte(i, j);
    }
  }

  lemma ClearBit(bits: seq<bv8>, i: nat, j: nat)
    requires i / 8 < |bits| && j / 8 < |bits|
    ensures BitAt(bits[i / 8 := bits[i / 8] & !Mask(i % 8)], j) <==> i != j && BitAt(bits, j)
  {
    hide Mask;
    if i / 8 == j / 8 {
      MaskBits(bits[i / 8], i % 8, j % 8);
      SameByte(i, j);
    }
  }

  lemma SameByte(i: nat, j: nat)
    requires i / 8 == j / 8
    ensures i == j <==> i % 8 == j % 8
  {
  }

  // ----- the hash table

  /** Where probing for x starts. */
  function Hash(x: nat): (h: nat)
    ensures h < NINT
  {
    ((x * 37) % 0x1_0000_0000) % NINT
  }

  /** The slot t steps after the start for x, going round at the end. */
  function Slot(x: nat, t: nat): (h: nat)
    requires t < NINT
    ensures h < NINT
  {
    if Hash(x) + t < NINT then Hash(x) + t else Hash(x) + t - NINT
  }

  /** How many steps after the start for x the slot h comes. */
  function Steps(x: nat, h: nat): (t: nat)
    requires h < NINT
    ensures t < NINT && Slot(x, t) == h
  {
    if h >= Hash(x) then h - Hash(x) else h + NINT - Hash(x)
  }

  /** The first t slots for x are taken. */
  ghost predicate Taken(a: seq<nat>, x: nat, t: nat)
    requires |a| == NINT && t <= NINT
  {
    forall s :: 0 <= s < t ==> a[Slot(x, s)] != 0
  }

  /** Every value can be found by probing, and none is there twice. */
  ghost predicate Table(a: seq<nat>) {
    && |a| == NINT
    && (forall h :: 0 <= h < NINT && a[h] != 0 ==> Taken(a, a[h], Steps(a[h], h)))
    && (forall h, g :: 0 <= h < g < NINT && a[h] != 0 ==> a[h] != a[g])
  }

  ghost function Members(a: seq<nat>): set<nat> {
    set h | 0 <= h < |a| && a[h] != 0 :: a[h]
  }

  lemma {:induction false} DistinctCount(a: seq<nat>)
    requires forall h :: 0 <= h < |a| ==> a[h] != 0
    requires forall h, g :: 0 <= h < g < |a| ==> a[h] != a[g]
    ensures |Members(a)| == |a|
  {
    if a == [] {
      assert Members(a) == {};
    } else {
      var n := |a| - 1;
      DistinctCount(a[..n]);
      assert Members(a) == Members(a[..n]) + {a[n]};
    }
  }

  /** A table with fewer members than slots has an empty slot on every way round. */
  lemma SomeEmpty(a: seq<nat>, x: nat)
    requires Table(a) && |Members(a)| < NINT
    ensures !Taken(a, x, NINT)
  {
    if Taken(a, x, NINT) {
      forall h | 0 <= h < NINT ensures a[h] != 0 { assert a[Slot(x, Steps(x, h))] != 0; }
      DistinctCount(a);
    }
  }

  /** Probing that meets an empty slot before x has shown that x is not there. */
  lemma NotThere(a: seq<nat>, x: nat, t: nat)
    requires Table(a) && x != 0 && t < NINT && a[Slot(x, t)] == 0
    requires forall s :: 0 <= s < t ==> a[Slot(x, s)] != x
    ensures x !in Members(a)
  {
  }

  /** Putting x into the empty slot that probing found keeps the table. */
  lemma Inserted(a: seq<nat>, x: nat, t: nat)
    requires Table(a) && x != 0 && t < NINT && Taken(a, x, t) && a[Slot(x, t)] == 0 && x !in Members(a)
    ensures Table(a[Slot(x, t) := x])
    ensures Members(a[Slot(x, t) := x]) == Members(a) + {x}
  {
    var h0 := Slot(x, t);
    var b := a[h0 := x];
    assert Steps(x, h0) == t;
    forall h | 0 <= h < NINT && b[h] != 0
      ensures Taken(b, b[h], Steps(b[h], h))
    {
      if h != h0 { assert Taken(a, a[h], Steps(a[h], h)); }
    }
    assert b[h0] == x;
    assert forall v :: v in Members(a) ==> v in Members(b) by {
      forall v | v in Members(a) ensures v in Members(b) {
        var h :| 0 <= h < NINT && a[h] == v && a[h] != 0;
        assert b[h] == v;
      }
    }
  }

  /** Look x up: found, or an empty slot where it would go. */
  method Probe(a: seq<nat>, x: nat) returns (found: bool, h: nat, ghost t: nat)
    requires Table(a) && |Members(a)| < NINT && x != 0
    ensures found <==> x in Members(a)
    ensures !found ==> t < NINT && h == Slot(x, t) && Taken(a, x, t) && a[h] == 0
  {
    h := Hash(x);
    t := 0;
    SomeEmpty(a, x);
    while a[h] != 0
      invariant t < NINT && h == Slot(x, t) && Taken(a, x, t)
      invariant forall s :: 0 <= s < t ==> a[Slot(x, s)] != x
      decreases NINT - t
    {
      if a[h] == x { return true, h, t; }
      h := h + 1;
      if h == NINT { h := 0; }
      t := t + 1;
    }
    NotThere(a, x, t);
    found := false;
  }

  // ----- the three representations in one object

  /** Which sub-bitmap holds i when each has d values, and which value it is there. */
  function Bin(i: nat, d: nat): nat
    requires i > 0 && d > 0
  {
    (i - 1) / d
  }

  function Within(i: nat, d: nat): (r: nat)
    requires i > 0 && d > 0
    ensures 1 <= r <= d
  {
    (i - 1) % d + 1
  }

  lemma BinFits(i: nat, d: nat, n: nat)
    requires 1 <= i <= n * d && d > 0
    ensures Bin(i, d) < n
  {
  }

  lemma SameBin(i: nat, j: nat, d: nat)
    requires i > 0 && j > 0 && d > 0 && Bin(i, d) == Bin(j, d) && Within(i, d) == Within(j, d)
    ensures i == j
  {
    assert i - 1 == d * Bin(i, d) + (Within(i, d) - 1);
    assert j - 1 == d * Bin(j, d) + (Within(j, d) - 1);
  }

  class Vec {
    const iSize: nat
    var nSet: nat
    var iDivisor: nat
    var aBitmap: seq<bv8>       // if iSize <= NBIT
    var aHash: seq<nat>         // if iSize > NBIT and iDivisor == 0
    var apSub: seq<Vec?>        // otherwise
    ghost var repr: set<object>
    /** The numbers whose bit is set. */
    ghost var members: set<nat>

    ghost predicate Valid()
      reads this, repr
      ensures Valid() ==> this in repr
      decreases repr
    {
      && this in repr
      && (forall i :: i in members ==> 1 <= i <= iSize)
      && if iSize <= NBIT then BitmapOk() else if iDivisor == 0 then HashOk() else FanOk()
    }

    ghost predicate BitmapOk()
      reads this
    {
      iDivisor == 0 && |aBitmap| == NBIT / 8
      && forall i :: 1 <= i <= iSize && i <= NBIT ==> (i in members <==> BitAt(aBitmap, i - 1))
    }

    ghost predicate HashOk()
      reads this
    {
      Table(aHash) && Members(aHash) == members && nSet == |members| && nSet < MXHASH
    }

    ghost predicate FanOk()
      requires this in repr
      reads this, repr
      decreases repr, 1
    {
      && 0 < iDivisor < iSize <= NPTR * iDivisor && |apSub| == NPTR
      && (forall n :: 0 <= n < NPTR && apSub[n] != null ==> SubOk(apSub[n]))
      && (forall n, m :: 0 <= n < m < NPTR ==> Separate(apSub[n], apSub[m]))
      && (forall i :: 1 <= i <= iSize ==> (i in members <==> InSub(i)))
    }

    ghost predicate SubOk(sub: Vec)
      requires this in repr
      reads this, repr
      decreases repr, 0
    {
      && sub in repr && sub.repr <= repr && this !in sub.repr
      && sub.iSize == iDivisor && sub.Valid()
    }

    /** Two sub-bitmaps share nothing. */
    ghost predicate Separate(a: Vec?, b: Vec?)
      reads this, repr
    {
      a != null && b != null && a in repr && b in repr ==> a.repr !! b.repr
    }

    ghost predicate InSub(i: nat)
      requires i > 0 && iDivisor > 0
      reads this, repr
    {
      var n := Bin(i, iDivisor);
      n < |apSub| && apSub[n] != null && apSub[n] in repr && Within(i, iDivisor) in apSub[n].members
    }

    /** sqlite3BitvecCreate: null when there is no memory. */
    static method Create(size: nat, mem: Outcomes, at: nat) returns (p: Vec?)
      ensures p != null <==> mem(at)
      ensures p != null ==> p.Valid() && fresh(p.repr) && p.iSize == size && p.members == {} && p.iDivisor == 0
    {
      if !mem(at) { return null; }
      p := new Vec(size);
    }

    /** Setting i needs no memory: its place is there, and no hash table becomes full. */
    ghost predicate Ready(i: nat)
      requires Valid() && 1 <= i <= iSize
      reads this, repr
      decreases iSize
    {
      if iSize <= NBIT then true
      else if iDivisor == 0 then i in members || |members| + 1 < MXHASH
      else
        assert FanOk();
        BinFits(i, iDivisor, NPTR);
        var sub := apSub[Bin(i, iDivisor)];
        sub != null && SubOk(sub) && sub.Ready(Within(i, iDivisor))
    }

    /** The sub-bitmap that would hold i has not been made yet. */
    ghost predicate NoPlace(i: nat)
      requires Valid() && 1 <= i <= iSize
      reads this, repr
    {
      iSize > NBIT && iDivisor > 0 &&
        (assert FanOk(); BinFits(i, iDivisor, NPTR); apSub[Bin(i, iDivisor)] == null)
    }

    constructor (size: nat)
      ensures Valid() && fresh(repr) && iSize == size && members == {} && iDivisor == 0
    {
      iSize := size;
      nSet, iDivisor := 0, 0;
      aBitmap := seq(NBIT / 8, _ => 0);
      aHash := seq(NINT, _ => 0);
      apSub := seq(NPTR, _ => null);
      members := {};
      repr := {this};
      new;
      assert Members(aHash) == {};
    }

    /** sqlite3BitvecTest: a missing bitmap and numbers out of range are not set. */
    static method Test(p: Vec?, i: nat) returns (r: bool)
      requires p != null ==> p.Valid()
      ensures r <==> p != null && i in p.members
      decreases if p == null then 0 else p.iSize
    {
      if p == null { return false; }
      if i > p.iSize || i == 0 { return false; }
      if p.iSize <= NBIT { return BitAt(p.aBitmap, i - 1); }
      if p.iDivisor > 0 {
        BinFits(i, p.iDivisor, NPTR);
        var bin := Bin(i, p.iDivisor);
        assert p.apSub[bin] != null ==> p.SubOk(p.apSub[bin]);
        r := Test(p.apSub[bin], Within(i, p.iDivisor));
      } else {
        var h; ghost var t;
        r, h, t := Probe(p.aHash, i);
      }
    }

    /** Setting a bit of a plain bitmap. */
    method SetBitmap(i: nat)
      requires Valid() && iSize <= NBIT && 1 <= i <= iSize
      modifies this
      ensures Valid() && repr == old(repr) && iDivisor == old(iDivisor) && members == old(members) + {i}
    {
      var n := i - 1;
      forall j | 0 <= j < NBIT { SetBit(aBitmap, n, j); }
      aBitmap := aBitmap[n / 8 := aBitmap[n / 8] | Mask(n % 8)];
      members := members + {i};
    }

    /** Setting a bit in the hash table while it stays small enough. */
    method SetHash(i: nat) returns (full: bool)
      requires Valid() && iSize > NBIT && iDivisor == 0 && 1 <= i <= iSize
      modifies this
      ensures !full ==> Valid() && repr == old(repr) && iDivisor == 0 && members == old(members) + {i}
      ensures full <==> old(i !in members && |members| + 1 >= MXHASH)
      ensures full ==> members == old(members) && i !in members && |members| + 1 == MXHASH && aHash == old(aHash)
      ensures full ==> apSub == old(apSub) && repr == old(repr) && iDivisor == 0
    {
      var found, h; ghost var t;
      found, h, t := Probe(aHash, i);
      full := false;
      if found { assert members + {i} == members; return; }
      nSet := nSet + 1;
      if nSet >= MXHASH { full := true; return; }
      Inserted(aHash, i, t);
      aHash := aHash[h := i];
      members := members + {i};
    }

    /** Make sure that there is a sub-bitmap for the bin, if memory allows. */
    method NeedSub(bin: nat, mem: Outcomes, at: nat) returns (ok: bool, next: nat)
      requires Valid() && iSize > NBIT && iDivisor > 0 && bin < NPTR
      modifies this
      ensures Valid() && fresh(repr - old(repr)) && iDivisor == old(iDivisor) && members == old(members)
      ensures |apSub| == |old(apSub)| == NPTR && (ok ==> apSub[bin] != null)
      ensures ok <==> old(apSub[bin]) != null || mem(at)
      ensures next == if old(apSub[bin]) == null then at + 1 else at
      ensures old(apSub[bin]) != null ==> apSub == old(apSub) && repr == old(repr)
    {
      ok, next := true, at;
      if apSub[bin] == null {
        var sub := Create(iDivisor, mem, at);
        next := at + 1;
        if sub == null { return false, next; }
        apSub := apSub[bin := sub];
        repr := repr + sub.repr;
        forall n | 0 <= n < NPTR && apSub[n] != null
          ensures SubOk(apSub[n])
        {
          assert n != bin ==> old(SubOk(apSub[n]));
        }
        forall i | 1 <= i <= iSize
          ensures i in members <==> InSub(i)
        {
          assert i in members <==> old(InSub(i));
        }
      }
    }

    /** Setting a bit through the sub-bitmap that holds it. */
    method SetFan(i: nat, mem: Outcomes, at: nat) returns (ok: bool, next: nat)
      requires Valid() && iSize > NBIT && iDivisor > 0 && 1 <= i <= iSize
      modifies repr
      ensures Valid() && fresh(repr - old(repr)) && iDivisor == old(iDivisor)
      ensures members <= old(members) + {i}
      ensures ok ==> members == old(members) + {i}
      ensures next >= at && (ok <==> AllMade(mem, at, next)) && (next == at <==> old(Ready(i)))
      ensures old(NoPlace(i)) && !mem(at) ==> !ok && next == at + 1 && members == old(members)
      decreases iSize, 0
    {
      BinFits(i, iDivisor, NPTR);
      var bin := Bin(i, iDivisor);
      ok, next := NeedSub(bin, mem, at);
      if !ok { return; }
      var sub := apSub[bin];
      assert SubOk(sub);
      ok, next := SetIn(sub, bin, i, mem, next);
    }

    method SetIn(sub: Vec, bin: nat, i: nat, mem: Outcomes, at: nat) returns (ok: bool, next: nat)
      requires Valid() && iSize > NBIT && iDivisor > 0 && 1 <= i <= iSize
      requires bin == Bin(i, iDivisor) < NPTR == |apSub| && apSub[bin] == sub && SubOk(sub)
      modifies repr
      ensures Valid() && fresh(repr - old(repr)) && iDivisor == old(iDivisor)
      ensures members <= old(members) + {i}
      ensures ok ==> members == old(members) + {i}
      ensures next >= at && (ok <==> AllMade(mem, at, next)) && (next == at <==> old(sub.Ready(Within(i, iDivisor))))
      decreases iSize, 0, 0
    {
      hide Bin, Within, Ready, AllMade, BitmapOk, HashOk, NoPlace;
      ok, next := sub.Set(Within(i, iDivisor), mem, at);
      repr := repr + sub.repr;
      members := set j | 1 <= j <= iSize && InSub(j);
      forall n | 0 <= n < NPTR && apSub[n] != null
        ensures SubOk(apSub[n])
        ensures n != bin ==> apSub[n].members == old(apSub[n].members)
      {
        if n != bin { assert old(SubOk(apSub[n])); assert old(Separate(apSub[n], sub)) || old(Separate(sub, apSub[n])); }
      }
      forall n, m | 0 <= n < m < NPTR
        ensures Separate(apSub[n], apSub[m])
      {
        assert old(Separate(apSub[n], apSub[m]));
        assert apSub[n] != null ==> old(SubOk(apSub[n]));
        assert apSub[m] != null ==> old(SubOk(apSub[m]));
      }
      forall j | 1 <= j <= iSize
        ensures InSub(j) ==> j in old(members) || j == i
        ensures ok ==> (InSub(j) <==> j in old(members) || j == i)
      {
        assert j in old(members) <==> old(InSub(j));
        if Bin(j, iDivisor) == bin && Within(j, iDivisor) == Within(i, iDivisor) { SameBin(i, j, iDivisor); }
      }
    }

    /** The members among the first j entries of a hash table. */
    static ghost function Among(a: seq<nat>, j: nat): set<nat>
      requires j <= |a|
    {
      set h | 0 <= h < j && a[h] != 0 :: a[h]
    }

    static lemma AmongNext(a: seq<nat>, j: nat)
      requires j < |a|
      ensures Among(a, j + 1) == if a[j] != 0 then Among(a, j) + {a[j]} else Among(a, j)
    {
    }

    static lemma AmongAll(a: seq<nat>)
      ensures Among(a, 0) == {} && Among(a, |a|) == Members(a)
    {
    }

    /** Turn the full hash table into a fan: the conversion in sqlite3BitvecSet. */
    method Convert(i: nat, mem: Outcomes, at: nat) returns (ok: bool, next: nat)
      requires this in repr && iSize > NBIT && iDivisor == 0 && 1 <= i <= iSize
      requires |aHash| == NINT && Members(aHash) == members && forall v :: v in members ==> 1 <= v <= iSize
      modifies repr
      ensures Valid() && fresh(repr - old(repr)) && members <= old(members) + {i}
      ensures ok ==> members == old(members) + {i}
      ensures next > at && (ok <==> AllMade(mem, at, next))
      decreases iSize, 1
    {
      hide Members, BitmapOk, HashOk, FanOk, Ready, Among, AllMade;
      var values := aHash;
      ghost var all := members;
      AmongAll(values);
      StartFan();
      NothingReady(i);
      ok, next := SetFan(i, mem, at);
      var j := 0;
      while j < NINT
        invariant j <= NINT && Valid() && fresh(repr - old(repr)) && iSize > NBIT && iDivisor > 0
        invariant members <= {i} + Among(values, j)
        invariant ok ==> members == {i} + Among(values, j)
        invariant next > at && (ok <==> AllMade(mem, at, next))
      {
        AmongNext(values, j);
        if values[j] != 0 {
          InAll(values, j);
          var done;
          ghost var before := next;
          done, next := SetFan(values[j], mem, next);
          MadeOn(mem, at, before, next);
          ok := ok && done;
        }
        j := j + 1;
      }
    }

    /** A fan without any sub-bitmaps. */
    method StartFan()
      requires this in repr && iSize > NBIT && iDivisor == 0
      modifies this
      ensures Valid() && repr == old(repr) && iDivisor > 0 && members == {}
      ensures |apSub| == NPTR && forall n :: 0 <= n < NPTR ==> apSub[n] == null
    {
      apSub := seq(NPTR, _ => null);
      iDivisor := (iSize + NPTR - 1) / NPTR;
      members := {};
      forall j | 1 <= j <= iSize ensures !InSub(j) { BinFits(j, iDivisor, NPTR); }
    }

    /** In a fan without sub-bitmaps nothing can be set without memory. */
    lemma NothingReady(i: nat)
      requires Valid() && iSize > NBIT && iDivisor > 0 && 1 <= i <= iSize
      requires |apSub| == NPTR && forall n :: 0 <= n < NPTR ==> apSub[n] == null
      ensures !Ready(i)
    {
      BinFits(i, iDivisor, NPTR);
    }

    /**
     sqlite3BitvecSet: success exactly when every allocation that was made succeeded, and none is made
     exactly when the place for the number is there.
     */
    method Set(i: nat, mem: Outcomes, at: nat) returns (ok: bool, next: nat)
      requires Valid() && 1 <= i <= iSize
      modifies repr
      ensures Valid() && fresh(repr - old(repr))
      ensures members <= old(members) + {i}
      ensures ok ==> members == old(members) + {i}
      ensures next >= at && (ok <==> AllMade(mem, at, next)) && (next == at <==> old(Ready(i)))
      ensures old(NoPlace(i)) && !mem(at) ==> !ok && next == at + 1 && members == old(members)
      decreases iSize, 2
    {
      if iSize <= NBIT {
        SetBitmap(i);
        return true, at;
      }
      if iDivisor > 0 {
        ok, next := SetFan(i, mem, at);
        return;
      }
      var full := SetHash(i);
      ok, next := true, at;
      if full { ok, next := Convert(i, mem, at); }
    }

    /** Clearing a bit of a plain bitmap. */
    method ClearBitmap(i: nat)
      requires Valid() && iSize <= NBIT && 1 <= i <= NBIT
      modifies this
      ensures Valid() && repr == old(repr) && members == old(members) - {i}
    {
      var n := i - 1;
      forall j | 0 <= j < NBIT { ClearBit(aBitmap, n, j); }
      aBitmap := aBitmap[n / 8 := aBitmap[n / 8] & !Mask(n % 8)];
      members := members - {i};
    }

    /** Clearing a bit of the hash table: build it again without the value. */
    method ClearHash(i: nat)
      requires Valid() && iSize > NBIT && iDivisor == 0
      modifies this
      ensures Valid() && repr == old(repr) && iDivisor == 0 && members == old(members) - {i}
    {
      HashMembers();
      var values := aHash;
      ghost var all := members;
      KeptAll(values, i);
      hide BitmapOk, FanOk, HashOk, Among, Kept;
      Reset();
      var j := 0;
      while j < NINT
        invariant j <= NINT && Valid() && repr == old(repr) && iSize > NBIT && iDivisor == 0
        invariant members == Kept(values, j, i) && members <= all
      {
        KeptNext(values, j, i);
        if values[j] != 0 && values[j] != i {
          InAll(values, j);
          AddBack(values[j], all);
        }
        j := j + 1;
      }
    }

    /** The members among the first j entries other than i. */
    static ghost function Kept(a: seq<nat>, j: nat, i: nat): set<nat>
      requires j <= |a|
    {
      set h | 0 <= h < j && a[h] != 0 && a[h] != i :: a[h]
    }

    static lemma KeptNext(a: seq<nat>, j: nat, i: nat)
      requires j < |a|
      ensures Kept(a, j + 1, i) == if a[j] != 0 && a[j] != i then Kept(a, j, i) + {a[j]} else Kept(a, j, i)
    {
    }

    static lemma KeptAll(a: seq<nat>, i: nat)
      ensures Kept(a, 0, i) == {} && Kept(a, |a|, i) == Among(a, |a|) - {i}
    {
    }

    /** Setting a value again that the hash table held never makes it too full. */
    method AddBack(v: nat, ghost all: set<nat>)
      requires Valid() && iSize > NBIT && iDivisor == 0 && 1 <= v <= iSize
      requires members <= all && v in all && |all| < MXHASH
      modifies this
      ensures Valid() && repr == old(repr) && iDivisor == 0 && members == old(members) + {v}
    {
      FewerThan(members, v, all);
      var full := SetHash(v);
    }

    static lemma InAll(a: seq<nat>, j: nat)
      requires j < |a| && a[j] != 0
      ensures a[j] in Among(a, |a|)
    {
    }

    lemma HashMembers()
      requires Valid() && iSize > NBIT && iDivisor == 0
      ensures |aHash| == NINT && members == Among(aHash, NINT) && |members| < MXHASH
    {
      assert Among(aHash, NINT) == Members(aHash);
    }

    /** Empty the hash table. */
    method Reset()
      requires this in repr && iSize > NBIT && iDivisor == 0
      modifies this
      ensures Valid() && repr == old(repr) && iDivisor == 0 && members == {}
    {
      aHash := seq(NINT, _ => 0);
      nSet := 0;
      members := {};
      assert Members(aHash) == {};
    }

    static lemma FewerThan(s: set<nat>, v: nat, all: set<nat>)
      requires s <= all && v in all
      ensures v !in s ==> |s| + 1 <= |all|
    {
      if v !in s { Subset(s + {v}, all); }
    }

    static lemma {:induction false} Subset(s: set<nat>, all: set<nat>)
      requires s <= all
      ensures |s| <= |all|
    {
      assert all == s + (all - s);
    }

    /** Clearing i stays inside the arrays of the bitmap, which reach further than iSize. */
    predicate InReach(i: nat)
      reads this
    {
      && i >= 1
      && (iSize <= NBIT ==> i <= NBIT)
      && (iSize > NBIT && iDivisor > 0 ==> i <= NPTR * iDivisor)
    }

    lemma SizeInReach(i: nat)
      requires Valid() && 1 <= i <= iSize
      ensures InReach(i)
    {
    }

    /** sqlite3BitvecClear, also for numbers beyond the size, which are not set. */
    method Clear(i: nat)
      requires Valid() && InReach(i)
      modifies repr
      ensures Valid() && repr == old(repr) && members == old(members) - {i}
      decreases iSize
    {
      if iSize <= NBIT {
        ClearBitmap(i);
      } else if iDivisor > 0 {
        BinFits(i, iDivisor, NPTR);
        var bin := Bin(i, iDivisor);
        if apSub[bin] != null {
          ClearIn(apSub[bin], bin, i);
        } else {
          assert i in members <==> InSub(i);
        }
      } else {
        ClearHash(i);
      }
    }

    method ClearIn(sub: Vec, bin: nat, i: nat)
      requires Valid() && iSize > NBIT && iDivisor > 0 && 1 <= i <= NPTR * iDivisor
      requires bin == Bin(i, iDivisor) < NPTR == |apSub| && apSub[bin] == sub
      modifies repr
      ensures Valid() && repr == old(repr) && members == old(members) - {i}
      decreases iSize, 0
    {
      hide Bin, Within;
      assert SubOk(sub);
      sub.SizeInReach(Within(i, iDivisor));
      sub.Clear(Within(i, iDivisor));
      members := members - {i};
      forall n | 0 <= n < NPTR && apSub[n] != null
        ensures SubOk(apSub[n])
        ensures n != bin ==> apSub[n].members == old(apSub[n].members)
      {
        assert old(SubOk(apSub[n]));
        if n != bin { assert old(Separate(apSub[n], sub)) || old(Separate(sub, apSub[n])); }
      }
      forall n, m | 0 <= n < m < NPTR
        ensures Separate(apSub[n], apSub[m])
      {
        assert old(Separate(apSub[n], apSub[m]));
        assert apSub[n] != null ==> old(SubOk(apSub[n]));
        assert apSub[m] != null ==> old(SubOk(apSub[m]));
      }
      forall j | 1 <= j <= iSize
        ensures InSub(j) <==> j in old(members) && j != i
      {
        assert j in old(members) <==> old(InSub(j));
        if Bin(j, iDivisor) == bin && Within(j, iDivisor) == Within(i, iDivisor) { SameBin(i, j, iDivisor); }
      }
    }
  }

  // ----- whole runs

  datatype Op = SetOp(i: nat) | ClearOp(i: nat)

  /** The set that a sequence of operations describes. */
  ghost function After(s: set<nat>, ops: seq<Op>): set<nat> {
    if ops == [] then s
    else
      var before := After(s, ops[..|ops| - 1]);
      match ops[|ops| - 1]
      case SetOp(i) => before + {i}
      case ClearOp(i) => before - {i}
  }

  /** The last operation on i sets it. */
  ghost predicate LastSets(ops: seq<Op>, i: nat) {
    exists k :: LastOn(ops, i, k) && ops[k].SetOp?
  }

  ghost predicate LastOn(ops: seq<Op>, i: nat, k: int) {
    0 <= k < |ops| && ops[k].i == i && forall j :: k < j < |ops| ==> ops[j].i != i
  }

  /** A number is in the set exactly when the last operation on it was to set it. */
  lemma {:induction false} LastOperationDecides(ops: seq<Op>, i: nat)
    ensures i in After({}, ops) <==> LastSets(ops, i)
    decreases |ops|
  {
    if ops != [] {
      var n := |ops| - 1;
      var before := ops[..n];
      LastOperationDecides(before, i);
      if ops[n].i == i {
        assert LastOn(ops, i, n);
      } else {
        if LastSets(before, i) {
          var k :| LastOn(before, i, k) && before[k].SetOp?;
          assert LastOn(ops, i, k);
        }
        if LastSets(ops, i) {
          var k :| LastOn(ops, i, k) && ops[k].SetOp?;
          assert LastOn(before, i, k);
        }
      }
    }
  }

  /**
   A bitmap that goes through a sequence of operations holds the set they describe, if and as long as
   there is memory.
   */
  method Replay(v: Vec, ops: seq<Op>, mem: Outcomes, at: nat) returns (ok: bool, next: nat)
    requires v.Valid() && forall k :: 0 <= k < |ops| ==> 1 <= ops[k].i <= v.iSize
    modifies v.repr
    ensures v.Valid() && fresh(v.repr - old(v.repr))
    ensures next >= at && (ok <==> AllMade(mem, at, next))
    ensures ok ==> v.members == After(old(v.members), ops)
  {
    ok, next := true, at;
    var k := 0;
    while k < |ops|
      invariant k <= |ops| && v.Valid() && fresh(v.repr - old(v.repr))
      invariant next >= at && (ok <==> AllMade(mem, at, next))
      invariant ok ==> v.members == After(old(v.members), ops[..k])
    {
      assert ops[..k + 1][..k] == ops[..k];
      match ops[k] {
        case SetOp(i) =>
          var done;
          done, next := v.Set(i, mem, next);
          ok := ok && done;
        case ClearOp(i) =>
          v.Clear(i);
      }
      k := k + 1;
    }
    assert ops[..k] == ops;
  }

  /**
   With memory, a new bitmap that goes through any operations tests true for exactly the numbers that
   were set last; without, it is told.
   */
  method ReplayAndTest(size: nat, ops: seq<Op>, i: nat, mem: Outcomes) returns (ok: bool, r: bool)
    requires forall k :: 0 <= k < |ops| ==> 1 <= ops[k].i <= size
    ensures (forall n :: mem(n)) ==> ok
    ensures ok ==> (r <==> LastSets(ops, i))
  {
    hide LastSets, After;
    var v := Vec.Create(size, mem, 0);
    if v == null { return false, false; }
    var next;
    ok, next := Replay(v, ops, mem, 1);
    r := Vec.Test(v, i);
    LastOperationDecides(ops, i);
  }
}
