/**
 The hash table of fts3_hash.c: all elements are on one doubly linked list, and the elements of a
 bucket are a contiguous run of that list.
 */
module Fts3Hash {
  import opened Memory
  import Bits

  type Key = seq<bv8>

  /** fts3BinHash: the characters are signed. */
  function BinHash(key: Key): bv32 {
    if key == [] then 0
    else
      var h := BinHash(key[..|key| - 1]);
      var c := key[|key| - 1];
      ((h << 3) ^ h) ^ (if c >= 0x80 then (c as bv32) | 0xffff_ff00 else c as bv32)
  }

  /** The bucket of a key in a table of `size` buckets, a power of two. */
  function BucketOf(key: Key, size: nat): (b: nat)
    requires size > 0
    ensures b < size
  {
    ((BinHash(key) & 0x7fff_ffff) as nat) % size
  }

  // ----- runs

  /** The elements of bucket b are the run of `counts[b]` elements from `starts[b]` on. */
  ghost predicate Runs(hs: seq<nat>, counts: seq<nat>, starts: seq<nat>) {
    && |counts| == |starts|
    && (forall b :: 0 <= b < |counts| ==> starts[b] + counts[b] <= |hs|)
    && (forall i :: 0 <= i < |hs| ==> hs[i] < |counts|)
    && (forall b, i :: 0 <= b < |counts| && 0 <= i < |hs| ==> (hs[i] == b <==> InRun(counts, starts, b, i)))
  }

  ghost predicate InRun(counts: seq<nat>, starts: seq<nat>, b: nat, i: nat)
    requires b < |counts| == |starts|
  {
    starts[b] <= i < starts[b] + counts[b]
  }

  /** Where fts3HashInsertElement links a new element of bucket b: before the run, or in front of all. */
  ghost function InsertAt(counts: seq<nat>, starts: seq<nat>, b: nat): nat
    requires b < |counts| == |starts|
  {
    if counts[b] > 0 then starts[b] else 0
  }

  function With<T>(s: seq<T>, p: nat, x: T): seq<T>
    requires p <= |s|
  {
    s[..p] + [x] + s[p..]
  }

  function Without<T>(s: seq<T>, p: nat): seq<T>
    requires p < |s|
  {
    s[..p] + s[p + 1..]
  }

  /** The runs after an element was linked at p into bucket b. */
  ghost function StartsAfter(counts: seq<nat>, starts: seq<nat>, b: nat, p: nat): (r: seq<nat>)
    requires b < |counts| == |starts|
    ensures |r| == |starts|
  {
    seq(|starts|, d requires 0 <= d < |starts| =>
      if d == b then p else if counts[d] == 0 then 0 else if starts[d] >= p then starts[d] + 1 else starts[d])
  }

  lemma RunsInsert(hs: seq<nat>, counts: seq<nat>, starts: seq<nat>, b: nat)
    requires Runs(hs, counts, starts) && b < |counts|
    ensures InsertAt(counts, starts, b) <= |hs|
    ensures var p := InsertAt(counts, starts, b);
      Runs(With(hs, p, b), counts[b := counts[b] + 1], StartsAfter(counts, starts, b, p))
  {
    var p := InsertAt(counts, starts, b);
    var hs', counts', starts' := With(hs, p, b), counts[b := counts[b] + 1], StartsAfter(counts, starts, b, p);
    forall d | 0 <= d < |counts'|
      ensures starts'[d] + counts'[d] <= |hs'|
    {
    }
    forall d, i | 0 <= d < |counts'| && 0 <= i < |hs'|
      ensures hs'[i] == d <==> InRun(counts', starts', d, i)
    {
      RunsInsertAt(hs, counts, starts, b, d, i);
    }
  }

  lemma RunsInsertAt(hs: seq<nat>, counts: seq<nat>, starts: seq<nat>, b: nat, d: nat, i: nat)
    requires Runs(hs, counts, starts) && b < |counts| && d < |counts| && i <= |hs|
    ensures InsertAt(counts, starts, b) <= |hs|
    ensures var p := InsertAt(counts, starts, b);
      (With(hs, p, b)[i] == d) == InRun(counts[b := counts[b] + 1], StartsAfter(counts, starts, b, p), d, i)
  {
    var p := InsertAt(counts, starts, b);
    if i < p {
      assert hs[i] == d <==> InRun(counts, starts, d, i);
    } else if i > p {
      assert hs[i - 1] == d <==> InRun(counts, starts, d, i - 1);
    }
    if counts[d] > 0 && d != b && counts[b] > 0 {
      // the run of d does not reach across the start of the run of b
      assert hs[p] == b <==> InRun(counts, starts, b, p);
      assert hs[p] == d <==> InRun(counts, starts, d, p);
    }
  }

  ghost function StartsWithout(starts: seq<nat>, p: nat): (r: seq<nat>)
    ensures |r| == |starts|
  {
    seq(|starts|, d requires 0 <= d < |starts| => if starts[d] > p then starts[d] - 1 else starts[d])
  }

  lemma RunsRemove(hs: seq<nat>, counts: seq<nat>, starts: seq<nat>, p: nat)
    requires Runs(hs, counts, starts) && p < |hs|
    ensures hs[p] < |counts| && counts[hs[p]] > 0
    ensures Runs(Without(hs, p), counts[hs[p] := counts[hs[p]] - 1], StartsWithout(starts, p))
  {
    var b := hs[p];
    assert InRun(counts, starts, b, p);
    var hs', counts', starts' := Without(hs, p), counts[b := counts[b] - 1], StartsWithout(starts, p);
    forall d | 0 <= d < |counts'|
      ensures starts'[d] + counts'[d] <= |hs'|
    {
      if d != b && counts[d] > 0 { assert hs[p] == d <==> InRun(counts, starts, d, p); }
    }
    forall d, i | 0 <= d < |counts'| && 0 <= i < |hs'|
      ensures hs'[i] == d <==> InRun(counts', starts', d, i)
    {
      var k := if i < p then i else i + 1;
      assert hs'[i] == hs[k];
      assert hs[k] == d <==> InRun(counts, starts, d, k);
      assert hs[p] == d <==> InRun(counts, starts, d, p);
    }
  }

  // ----- the linked list

  class Elem {
    const key: Key
    var data: nat               // never 0, which stands for NULL
    var next: Elem?
    var prev: Elem?

    constructor (k: Key)
      ensures key == k && data == 0
    {
      key := k;
      data, next, prev := 0, null, null;
    }
  }

  ghost predicate Distinct(es: seq<Elem>) {
    forall i, j :: 0 <= i < j < |es| ==> es[i] != es[j]
  }

  function At(es: seq<Elem>, i: int): Elem? {
    if 0 <= i < |es| then es[i] else null
  }

  /** The elements are doubly linked in this order. */
  ghost predicate Linked(es: seq<Elem>)
    reads es`next, es`prev
  {
    Distinct(es) && forall i :: 0 <= i < |es| ==> es[i].next == At(es, i + 1) && es[i].prev == At(es, i - 1)
  }

  lemma NextOf(es: seq<Elem>, i: nat)
    requires Linked(es) && i < |es|
    ensures es[i].next == if i + 1 < |es| then es[i + 1] else null
    ensures es[i].prev == if i > 0 then es[i - 1] else null
  {
  }

  twostate predicate SameData(es: seq<Elem>)
    reads es
  {
    forall i :: 0 <= i < |es| ==> es[i].data == old(es[i].data)
  }

  /** Only the links next to position p have changed: those before it now lead to e. */
  ghost predicate Joined(es: seq<Elem>, e: Elem, p: nat)
    requires p <= |es|
    reads es, e
  {
    && e.next == At(es, p) && e.prev == At(es, p - 1)
    && (forall i :: 0 <= i < |es| ==> es[i].next == if i == p - 1 then e else At(es, i + 1))
    && (forall i :: 0 <= i < |es| ==> es[i].prev == if i == p then e else At(es, i - 1))
  }

  lemma JoinedIsLinked(es: seq<Elem>, e: Elem, p: nat)
    requires Distinct(es) && e !in es && p <= |es| && Joined(es, e, p)
    ensures Linked(With(es, p, e))
  {
    hide Joined, At, With, Distinct;
    var ns := With(es, p, e);
    forall i | 0 <= i < |ns|
      ensures ns[i].next == At(ns, i + 1) && ns[i].prev == At(ns, i - 1)
    {
      JoinedAt(es, e, p, i);
    }
    InsertDistinct(es, e, p);
  }

  lemma InsertDistinct(es: seq<Elem>, e: Elem, p: nat)
    requires Distinct(es) && e !in es && p <= |es|
    ensures Distinct(With(es, p, e))
  {
  }

  lemma JoinedAt(es: seq<Elem>, e: Elem, p: nat, i: nat)
    requires p <= |es| && Joined(es, e, p) && i < |With(es, p, e)|
    ensures var ns := With(es, p, e); ns[i].next == At(ns, i + 1) && ns[i].prev == At(ns, i - 1)
  {
    var ns := With(es, p, e);
    if i < p {
      assert ns[i] == es[i];
    } else if i > p {
      assert ns[i] == es[i - 1];
    }
  }

  /** Link e in front of `head`, which is not the first element. */
  method LinkBetween(ghost es: seq<Elem>, e: Elem, ghost p: nat, head: Elem)
    requires Linked(es) && e !in es && 0 < p < |es|
    requires head == es[p] == At(es, p) && es[p - 1] == At(es, p - 1)
    modifies es, e
    ensures Joined(es, e, p) && SameData(es) && e.data == old(e.data)
  {
    hide At;
    e.next := head;
    e.prev := head.prev;
    head.prev.next := e;
    head.prev := e;
  }

  /** Link e in front of the first element, if any. */
  method LinkFirst(ghost es: seq<Elem>, e: Elem, first: Elem?)
    requires Linked(es) && e !in es && first == At(es, 0)
    modifies es, e
    ensures Joined(es, e, 0) && SameData(es) && e.data == old(e.data)
  {
    e.next := first;
    if first != null { first.prev := e; }
    e.prev := null;
  }

  /** Link e in at position p, in front of `head`, or in front of all elements when there is no head. */
  method Link(ghost es: seq<Elem>, e: Elem, ghost p: nat, head: Elem?, first: Elem?) returns (newFirst: Elem?)
    requires Linked(es) && e !in es && p <= |es| && first == At(es, 0)
    requires head == null ==> p == 0
    requires head != null ==> p < |es| && head == es[p]
    modifies es, e
    ensures Linked(With(es, p, e)) && newFirst == At(With(es, p, e), 0)
    ensures SameData(es) && e.data == old(e.data)
  {
    newFirst := first;
    if head != null && head.prev != null {
      LinkBetween(es, e, p, head);
    } else {
      LinkFirst(es, e, first);
      newFirst := e;
    }
    JoinedIsLinked(es, e, p);
  }

  /** Only the links next to position p have changed: they now lead past it. */
  ghost predicate Skipped(es: seq<Elem>, p: nat)
    requires p < |es|
    reads es
  {
    && (forall i :: 0 <= i < |es| ==> es[i].next == if i == p - 1 then At(es, p + 1) else At(es, i + 1))
    && (forall i :: 0 <= i < |es| ==> es[i].prev == if i == p + 1 then At(es, p - 1) else At(es, i - 1))
  }

  lemma SkippedIsLinked(es: seq<Elem>, p: nat)
    requires Distinct(es) && p < |es| && Skipped(es, p)
    ensures Linked(Without(es, p))
  {
    var ns := Without(es, p);
    forall i | 0 <= i < |ns|
      ensures ns[i].next == At(ns, i + 1) && ns[i].prev == At(ns, i - 1)
    {
      SkippedAt(es, p, i);
    }
    WithoutDistinct(es, p);
  }

  lemma WithoutDistinct(es: seq<Elem>, p: nat)
    requires Distinct(es) && p < |es|
    ensures Distinct(Without(es, p))
  {
  }

  lemma SkippedAt(es: seq<Elem>, p: nat, i: nat)
    requires p < |es| && Skipped(es, p) && i < |es| - 1
    ensures var ns := Without(es, p); ns[i].next == At(ns, i + 1) && ns[i].prev == At(ns, i - 1)
  {
    var ns := Without(es, p);
    if i < p {
      assert ns[i] == es[i];
    } else {
      assert ns[i] == es[i + 1];
    }
  }

  /** Take the element at position p out of the list. */
  method UnlinkAt(ghost es: seq<Elem>, e: Elem, ghost p: nat, first: Elem?) returns (newFirst: Elem?)
    requires Linked(es) && p < |es| && es[p] == e && first == At(es, 0)
    modifies es
    ensures SameData(es)
    ensures Linked(Without(es, p)) && newFirst == At(Without(es, p), 0)
    ensures e.next == At(es, p + 1)
  {
    newFirst := first;
    if e.prev != null { e.prev.next := e.next; } else { newFirst := e.next; }
    if e.next != null { e.next.prev := e.prev; }
    SkippedIsLinked(es, p);
  }

  // ----- buckets

  /** One slot of the table: the number of its elements and the first of them. */
  datatype Bucket = Bucket(count: nat, chain: Elem?)

  ghost function Hashes(es: seq<Elem>, size: nat): (hs: seq<nat>)
    requires size > 0
    ensures |hs| == |es|
    ensures forall i :: 0 <= i < |es| ==> hs[i] == BucketOf(es[i].key, size)
  {
    seq(|es|, i requires 0 <= i < |es| => BucketOf(es[i].key, size))
  }

  ghost function Counts(ht: seq<Bucket>): (r: seq<nat>)
    ensures |r| == |ht|
    ensures forall b :: 0 <= b < |ht| ==> r[b] == ht[b].count
  {
    seq(|ht|, b requires 0 <= b < |ht| => ht[b].count)
  }

  /** Every bucket is a contiguous run of exactly `count` elements beginning at `chain`. */
  ghost predicate TableOk(es: seq<Elem>, ht: seq<Bucket>, starts: seq<nat>) {
    && |ht| > 0
    && Runs(Hashes(es, |ht|), Counts(ht), starts)
    && (forall b :: 0 <= b < |ht| ==>
          ht[b].chain == if ht[b].count > 0 then At(es, starts[b]) else null)
  }

  lemma TableInsert(es: seq<Elem>, ht: seq<Bucket>, starts: seq<nat>, e: Elem)
    requires TableOk(es, ht, starts)
    ensures var b := BucketOf(e.key, |ht|);
      var p := InsertAt(Counts(ht), starts, b);
      && p <= |es|
      && (ht[b].chain == null ==> p == 0)
      && (ht[b].chain != null ==> p < |es| && ht[b].chain == es[p])
      && TableOk(With(es, p, e), ht[b := Bucket(ht[b].count + 1, e)], StartsAfter(Counts(ht), starts, b, p))
  {
    hide Runs, BucketOf;
    var b := BucketOf(e.key, |ht|);
    var counts := Counts(ht);
    RunsFit(es, ht, starts);
    var p := InsertAt(counts, starts, b);
    RunsInsert(Hashes(es, |ht|), counts, starts, b);
    var ht' := ht[b := Bucket(ht[b].count + 1, e)];
    assert Hashes(With(es, p, e), |ht|) == With(Hashes(es, |ht|), p, b);
    assert Counts(ht') == counts[b := counts[b] + 1];
    forall d | 0 <= d < |ht'|
      ensures ht'[d].chain == if ht'[d].count > 0 then At(With(es, p, e), StartsAfter(counts, starts, b, p)[d]) else null
    {
      assert ht[d].count > 0 ==> starts[d] + ht[d].count <= |es|;
    }
  }

  lemma ChainOf(es: seq<Elem>, ht: seq<Bucket>, starts: seq<nat>, b: nat)
    requires TableOk(es, ht, starts) && b < |ht|
    ensures b < |starts| && starts[b] + ht[b].count <= |es|
    ensures ht[b].count > 0 ==> ht[b].chain == es[starts[b]]
  {
    RunsFit(es, ht, starts);
  }

  lemma RunsFit(es: seq<Elem>, ht: seq<Bucket>, starts: seq<nat>)
    requires TableOk(es, ht, starts)
    ensures |starts| == |ht|
    ensures forall b :: 0 <= b < |ht| ==> starts[b] + ht[b].count <= |es|
  {
    var counts := Counts(ht);
    forall b | 0 <= b < |ht|
      ensures starts[b] + ht[b].count <= |es|
    {
      assert starts[b] + counts[b] <= |Hashes(es, |ht|)|;
    }
  }

  /** The bucket of the element at p after fts3RemoveElementByHash. */
  function Shrunk(bucket: Bucket, e: Elem, next: Elem?): Bucket
    requires bucket.count > 0
  {
    if bucket.count == 1 then Bucket(0, null)
    else if bucket.chain == e then Bucket(bucket.count - 1, next)
    else Bucket(bucket.count - 1, bucket.chain)
  }

  lemma TableRemove(es: seq<Elem>, ht: seq<Bucket>, starts: seq<nat>, p: nat)
    requires TableOk(es, ht, starts) && p < |es| && Distinct(es)
    ensures var b := BucketOf(es[p].key, |ht|);
      && ht[b].count > 0
      && TableOk(Without(es, p), ht[b := Shrunk(ht[b], es[p], At(es, p + 1))], StartsWithout(starts, p))
  {
    hide Runs, BucketOf;
    var b := BucketOf(es[p].key, |ht|);
    var counts, hs := Counts(ht), Hashes(es, |ht|);
    RunsFit(es, ht, starts);
    RunsRemove(hs, counts, starts, p);
    var ht' := ht[b := Shrunk(ht[b], es[p], At(es, p + 1))];
    assert Hashes(Without(es, p), |ht|) == Without(hs, p);
    assert Counts(ht') == counts[b := counts[b] - 1];
    forall d | 0 <= d < |ht'|
      ensures ht'[d].chain == if ht'[d].count > 0 then At(Without(es, p), StartsWithout(starts, p)[d]) else null
    {
      RunStart(hs, counts, starts, d, p);
    }
  }

  /** An element lies in the run of its own bucket only. */
  lemma RunStart(hs: seq<nat>, counts: seq<nat>, starts: seq<nat>, d: nat, p: nat)
    requires Runs(hs, counts, starts) && d < |counts| && p < |hs|
    ensures d == hs[p] ==> starts[d] <= p < starts[d] + counts[d]
    ensures d != hs[p] ==> !(starts[d] <= p < starts[d] + counts[d])
    ensures starts[d] + counts[d] <= |hs|
  {
    assert hs[p] == d <==> InRun(counts, starts, d, p);
  }

  lemma TableEmpty(size: nat)
    requires size > 0
    ensures TableOk([], seq(size, i => Bucket(0, null)), seq(size, i => 0))
  {
  }

  predicate PowerOfTwo(n: nat) {
    n == 1 || (n > 0 && n % 2 == 0 && PowerOfTwo(n / 2))
  }

  lemma WithoutElem(es: seq<Elem>, p: nat)
    requires Distinct(es) && p < |es|
    ensures forall x :: x in Without(es, p) ==> x in es && x != es[p]
    ensures forall x :: x in es && x != es[p] ==> x in Without(es, p)
  {
    var ns := Without(es, p);
    forall x | x in es && x != es[p]
      ensures x in ns
    {
      var i :| 0 <= i < |es| && es[i] == x;
      assert ns[if i < p then i else i - 1] == x;
    }
  }

  ghost predicate HasKey(s: set<Elem>, k: Key) {
    exists x :: x in s && x.key == k
  }

  /** The elements s hold exactly the entries of m. */
  ghost predicate Holds(s: set<Elem>, m: map<Key, nat>)
    reads s`data
  {
    && (forall x :: x in s ==> x.key in m && m[x.key] == x.data)
    && (forall k :: k in m ==> HasKey(s, k))
    && (forall x, y :: x in s && y in s && x.key == y.key ==> x == y)
  }

  lemma Forget(e: Elem, s: set<Elem>, m: map<Key, nat>)
    requires Holds(s, m) && e in s
    ensures Holds(s - {e}, m - {e.key}) && |m - {e.key}| == |m| - 1
  {
    var m' := m - {e.key};
    assert m'.Keys == m.Keys - {e.key};
    assert |m| == |m.Keys| && |m'| == |m'.Keys|;
    forall k | k in m'
      ensures HasKey(s - {e}, k)
    {
      var x :| x in s && x.key == k;
      assert x in s - {e};
    }
  }

  lemma Entry(s: set<Elem>, m: map<Key, nat>, e: Elem)
    requires Holds(s, m) && e in s
    ensures e.key in m && m[e.key] == e.data
  {
  }

  lemma NoEntry(s: set<Elem>, m: map<Key, nat>, key: Key)
    requires Holds(s, m) && forall x :: x in s ==> x.key != key
    ensures key !in m
  {
  }

  lemma Learn(e: Elem, s: set<Elem>, m: map<Key, nat>)
    requires Holds(s, m) && e.key !in m
    ensures Holds(s + {e}, m[e.key := e.data]) && |m[e.key := e.data]| == |m| + 1
  {
    hide HasKey;
    OneMoreKey(m, e.key, e.data);
    forall k | k in m[e.key := e.data]
      ensures HasKey(s + {e}, k)
    {
      KeyOrOld(e, s, k);
    }
  }

  lemma KeyOrOld(e: Elem, s: set<Elem>, k: Key)
    requires k == e.key || HasKey(s, k)
    ensures HasKey(s + {e}, k)
  {
    if k == e.key {
      assert e in s + {e};
    } else {
      var x :| x in s && x.key == k;
      assert x in s + {e};
    }
  }

  lemma OneMoreKey(m: map<Key, nat>, k: Key, v: nat)
    requires k !in m
    ensures |m[k := v]| == |m| + 1
  {
    var m' := m[k := v];
    assert m'.Keys == m.Keys + {k};
    assert |m| == |m.Keys| && |m'| == |m'.Keys|;
  }

  ghost function Front(es: seq<Elem>, k: nat): set<Elem>
    requires k <= |es|
  {
    set i | 0 <= i < k :: es[i]
  }

  lemma FrontBounds(es: seq<Elem>, k: nat)
    requires Distinct(es) && k < |es|
    ensures forall i :: k <= i < |es| ==> es[i] !in Front(es, k)
    ensures Front(es, k + 1) == Front(es, k) + {es[k]}
    ensures forall x :: x in Front(es, k) ==> x in es
  {
  }

  /** From k on, the elements still lead to one another; their backward links no longer matter. */
  ghost predicate Rest(es: seq<Elem>, k: nat)
    reads es
  {
    forall i :: k <= i < |es| ==> es[i].next == At(es, i + 1)
  }

  lemma NonNull(es: seq<Elem>, k: nat)
    requires k <= |es|
    ensures At(es, k) == null <==> k == |es|
    ensures k < |es| ==> At(es, k) == es[k]
  {
  }

  class Hash {
    const copyKey: bool             // whether the table keeps copies of its keys
    var count: nat
    var first: Elem?
    var htsize: nat
    var ht: seq<Bucket>             // no buckets: the null pointer
    ghost var elems: seq<Elem>      // in list order
    ghost var starts: seq<nat>      // where the run of each bucket begins
    ghost var repr: set<Elem>
    ghost var m: map<Key, nat>      // the map the table stands for

    /** The list and the buckets are well formed. */
    ghost predicate Shape()
      reads this`first, this`htsize, this`ht, this`elems, this`starts, this`repr, repr`next, repr`prev
    {
      && (forall x :: x in elems ==> x in repr)
      && (forall x :: x in repr ==> x in elems)
      && Linked(elems) && first == At(elems, 0)
      && htsize == |ht| > 0 && TableOk(elems, ht, starts)
    }

    /** Without buckets there are no elements. */
    ghost predicate Core()
      reads this`first, this`htsize, this`ht, this`elems, this`starts, this`repr, repr`next, repr`prev
    {
      && (htsize == 0 ==> ht == [] && elems == [] && repr == {} && first == null)
      && (htsize > 0 ==> Shape())
    }

    ghost predicate Valid()
      reads this, repr
    {
      && Core() && (htsize > 0 ==> PowerOfTwo(htsize))
      && count == |elems| == |m|
      && Holds(repr, m)
      && (forall k :: k in m ==> m[k] != 0)
    }

    constructor (copyKey: bool)
      ensures Valid() && m == map[] && repr == {} && this.copyKey == copyKey
    {
      this.copyKey := copyKey;
      count, first, htsize, ht := 0, null, 0, [];
      elems, starts, repr, m := [], [], {}, map[];
    }

    /** fts3HashInsertElement */
    method InsertElement(b: nat, e: Elem)
      requires Shape() && e !in repr && b == BucketOf(e.key, htsize)
      modifies this`first, this`ht, this`elems, this`starts, this`repr, repr, e
      ensures Shape() && repr == old(repr) + {e} && |ht| == old(|ht|)
      ensures |elems| == old(|elems|) + 1
      ensures e.data == old(e.data) && forall x :: x in old(repr) ==> x.data == old(x.data)
    {
      hide Runs, BucketOf, Linked, InsertAt, TableOk;
      TableInsert(elems, ht, starts, e);
      RunsFit(elems, ht, starts);
      ghost var p := InsertAt(Counts(ht), starts, b);
      first := Link(elems, e, p, ht[b].chain, first);
      starts := StartsAfter(Counts(ht), starts, b, p);
      ht := ht[b := Bucket(ht[b].count + 1, e)];
      elems := With(elems, p, e);
      repr := repr + {e};
    }
  
    /** One round of the loop of fts3Rehash: the first k elements of the old list es are in the new one. */
    method Move(ghost es: seq<Elem>, ghost k: nat, elem: Elem) returns (next: Elem?)
      requires Shape() && htsize > 0 && Distinct(es) && k < |es| && elem == es[k]
      requires repr == Front(es, k) && |elems| == k && Rest(es, k)
      modifies this`first, this`ht, this`elems, this`starts, this`repr, es
      ensures Shape() && |ht| == old(|ht|)
      ensures repr == Front(es, k + 1) && |elems| == k + 1 && Rest(es, k + 1)
      ensures next == At(es, k + 1)
      ensures forall i :: 0 <= i < |es| ==> es[i].data == old(es[i].data)
    {
      hide Shape, At, BucketOf;
      FrontBounds(es, k);
      next := elem.next;
      InsertElement(BucketOf(elem.key, htsize), elem);
    }

    /** fts3Rehash: without memory for the buckets nothing changes. */
    method Rehash(newSize: nat, made: bool)
      requires Core() && newSize > 0
      modifies this`first, this`htsize, this`ht, this`elems, this`starts, this`repr, repr
      ensures Core() && repr == old(repr) && |elems| == old(|elems|)
      ensures htsize == if made then newSize else old(htsize)
      ensures forall x :: x in repr ==> x.data == old(x.data)
    {
      hide At, Shape, Linked, Front;
      if !made { return; }
      ghost var es := elems;
      var elem := first;
      StartOver(es);
      ht, htsize, first := seq(newSize, i => Bucket(0, null)), newSize, null;
      elems, starts, repr := [], seq(newSize, i => 0), {};
      EmptyShape();
      ghost var k := 0;
      while elem != null
        invariant k <= |es| && elem == At(es, k) && Rest(es, k)
        invariant Shape() && htsize == newSize && repr == Front(es, k) && |elems| == k
        invariant forall i :: 0 <= i < |es| ==> es[i].data == old(es[i].data)
        decreases |es| - k
      {
        NonNull(es, k);
        elem := Move(es, k, elem);
        k := k + 1;
      }
      NonNull(es, k);
    }

    lemma StartOver(es: seq<Elem>)
      requires Core() && es == elems
      ensures Distinct(es) && Rest(es, 0) && first == At(es, 0) && Front(es, 0) == {} && Front(es, |es|) == repr
      ensures forall x :: x in es ==> x in repr
      ensures forall x :: x in repr ==> x in es
    {
    }

    lemma EmptyShape()
      requires htsize > 0 && ht == seq(htsize, i => Bucket(0, null)) && starts == seq(htsize, i => 0)
      requires elems == [] && repr == {} && first == null
      ensures Shape()
    {
      TableEmpty(htsize);
    }

    /** fts3FindElementByHash */
    method FindElementByHash(key: Key, h: nat) returns (e: Elem?)
      requires Valid() && (htsize > 0 ==> h == BucketOf(key, htsize))
      ensures e != null ==> e in repr && e.key == key && key in m && m[key] == e.data
      ensures e == null ==> key !in m
    {
      hide BucketOf, Holds, PowerOfTwo, Linked, TableOk, At;
      e := null;
      if htsize > 0 {
        RunsFit(elems, ht, starts);
        ChainOf(elems, ht, starts, h);
        var elem, left := ht[h].chain, ht[h].count;
        ghost var j := starts[h];
        while left > 0 && elem != null
          invariant starts[h] <= j && j + left == starts[h] + ht[h].count
          invariant left > 0 ==> elem == elems[j]
          invariant forall i :: starts[h] <= i < j ==> elems[i].key != key
        {
          if elem.key == key {
            Entry(repr, m, elem);
            return elem;
          }
          NextOf(elems, j);
          elem := elem.next;
          left, j := left - 1, j + 1;
        }
        NotInRun(elems, ht, starts, key);
      }
      NoEntry(repr, m, key);
    }

    /** The unlinking part of fts3RemoveElementByHash. */
    method Detach(e: Elem, b: nat)
      requires Shape() && e in repr && b == BucketOf(e.key, htsize)
      modifies this`first, this`ht, this`elems, this`starts, this`repr, repr
      ensures Shape() && repr == old(repr) - {e} && |ht| == old(|ht|)
      ensures |elems| == old(|elems|) - 1
      ensures forall x :: x in old(repr) ==> x.data == old(x.data)
    {
      hide Runs, BucketOf, At, TableOk, StartsWithout;
      ghost var p: nat :| p < |elems| && elems[p] == e;
      TableRemove(elems, ht, starts, p);
      WithoutElem(elems, p);
      first := UnlinkAt(elems, e, p, first);
      starts := StartsWithout(starts, p);
      ht := ht[b := Shrunk(ht[b], e, e.next)];
      elems := Without(elems, p);
      repr := repr - {e};
    }

    /** fts3RemoveElementByHash */
    method RemoveElementByHash(e: Elem, b: nat)
      requires Valid() && e in repr && htsize > 0 && b == BucketOf(e.key, htsize)
      modifies this, repr
      ensures Valid() && m == old(m) - {e.key} && repr <= old(repr)
      ensures htsize == if m == map[] then 0 else old(htsize)
    {
      hide BucketOf, Shape, Holds;
      Detach(e, b);
      count := count - 1;
      Forget(e, old(repr), old(m));
      m := m - {e.key};
      if count == 0 {
        assert m == map[];
        Clear();
      }
    }

    /** sqlite3Fts3HashFind */
    method Find(key: Key) returns (data: nat)
      requires Valid()
      ensures data == if key in m then m[key] else 0
    {
      data := 0;
      if htsize > 0 {
        var e := FindElementByHash(key, BucketOf(key, htsize));
        if e != null { data := e.data; }
      }
    }

    /** Link a new element for its key into the table, which then has one entry more. */
    method Enter(e: Elem, data: nat)
      requires Shape() && e !in repr && Holds(repr, m) && e.key !in m && htsize > 0
      requires PowerOfTwo(htsize) && data != 0
      requires count == |elems| + 1 == |m| + 1 && forall k :: k in m ==> m[k] != 0
      modifies this, repr, e
      ensures Valid() && m == old(m)[e.key := data] && repr == old(repr) + {e} && htsize == old(htsize)
    {
      hide BucketOf, Shape, PowerOfTwo, Holds;
      InsertElement(BucketOf(e.key, htsize), e);
      e.data := data;
      Learn(e, old(repr), m);
      m := m[e.key := data];
    }

    /** How many buckets an insertion leaves: 8 at first, and twice as many when there are more elements than that. */
    static function Buckets(size: nat, count: nat, mem: Outcomes, at: nat): nat {
      if size == 0 then if mem(at) then 8 else 0
      else if count > size && mem(at) then size * 2
      else size
    }

    /** The growing part of sqlite3Fts3HashInsert: make sure there are buckets, and enough of them. */
    method Grow(mem: Outcomes, at: nat) returns (next: nat)
      requires Core() && (htsize > 0 ==> PowerOfTwo(htsize)) && (htsize == 0 ==> count <= 8)
      modifies this`first, this`htsize, this`ht, this`elems, this`starts, this`repr, repr
      ensures Core() && (htsize > 0 ==> PowerOfTwo(htsize))
      ensures repr == old(repr) && |elems| == old(|elems|)
      ensures htsize == Buckets(old(htsize), count, mem, at)
      ensures next == if old(htsize) == 0 || count > old(htsize) then at + 1 else at
      ensures forall x :: x in repr ==> x.data == old(x.data)
    {
      hide Shape;
      next := at;
      if htsize == 0 {
        Rehash(8, mem(next));
        next := next + 1;
      }
      if 0 < htsize < count {
        Rehash(htsize * 2, mem(next));
        next := next + 1;
      }
    }

    /** How many allocations a new element takes, and whether they all succeed. */
    function ForElement(): nat
    {
      if copyKey then 2 else 1
    }

    ghost predicate ElementMade(mem: Outcomes, at: nat)
    {
      AllMade(mem, at, at + ForElement())
    }

    /** A new key cannot be inserted: there is no memory for its element or for the first buckets. */
    ghost predicate Fails(mem: Outcomes, at: nat)
      reads this
    {
      !ElementMade(mem, at) || (htsize == 0 && !mem(at + ForElement()))
    }

    /** The element of a new key and, if the table keeps its own keys, the copy of the key. */
    method NewElement(key: Key, mem: Outcomes, at: nat) returns (e: Elem?, next: nat)
      ensures e != null <==> ElementMade(mem, at)
      ensures e != null ==> fresh(e) && e.key == key && next == at + ForElement()
      ensures e == null ==> at < next <= at + ForElement() && !mem(next - 1)
    {
      next := at + 1;
      if !mem(at) { return null, next; }
      if copyKey {
        next := at + 2;
        if !mem(at + 1) { return null, next; }
      }
      e := new Elem(key);
    }

    /**
     sqlite3Fts3HashInsert: a zero datum removes the entry. The old datum of the key is returned; for a
     new key, zero, or the new datum exactly when there is no memory for its element or for the first
     buckets. Without memory for more buckets the entry is still made.
     */
    method Insert(key: Key, data: nat, mem: Outcomes, at: nat) returns (r: nat, next: nat)
      requires Valid()
      modifies this, repr
      ensures Valid() && next >= at
      ensures forall x :: x in repr ==> x in old(repr) || fresh(x)
      ensures key in old(m) ==> r == old(m)[key] && m == if data == 0 then old(m) - {key} else old(m)[key := data]
      ensures key !in old(m) && data == 0 ==> r == 0 && m == old(m)
      ensures key !in old(m) && data != 0 && old(Fails(mem, at)) ==> r == data && m == old(m) && !AllMade(mem, at, next)
      ensures key !in old(m) && data != 0 && !old(Fails(mem, at)) ==> r == 0 && m == old(m)[key := data]
      ensures key !in old(m) && data != 0 && !old(Fails(mem, at)) ==>
        htsize == Buckets(old(htsize), |m|, mem, at + ForElement())
      ensures key in old(m) || data == 0 ==>
        next == at && htsize == if m == map[] && old(m) != map[] then 0 else old(htsize)
    {
      hide BucketOf, Shape, PowerOfTwo, Holds, AllMade, Fails, Buckets;
      next := at;
      var h := if htsize > 0 then BucketOf(key, htsize) else 0;
      var elem := FindElementByHash(key, h);
      if elem != null {
        r := elem.data;
        if data == 0 {
          RemoveElementByHash(elem, h);
        } else {
          Replace(elem, data);
        }
        return;
      }
      if data == 0 { return 0, next; }
      r, next := InsertNew(key, data, mem, at);
    }

    /** The part of sqlite3Fts3HashInsert for a key that is not there. */
    method InsertNew(key: Key, data: nat, mem: Outcomes, at: nat) returns (r: nat, next: nat)
      requires Valid() && key !in m && data != 0
      modifies this, repr
      ensures Valid() && next >= at
      ensures forall x :: x in repr ==> x in old(repr) || fresh(x)
      ensures old(Fails(mem, at)) ==> r == data && m == old(m) && !AllMade(mem, at, next)
      ensures !old(Fails(mem, at)) ==> r == 0 && m == old(m)[key := data]
      ensures !old(Fails(mem, at)) ==> htsize == Buckets(old(htsize), |m|, mem, at + ForElement())
    {
      hide BucketOf, Shape, PowerOfTwo, Holds;
      var e;
      e, next := NewElement(key, mem, at);
      if e == null { return data, next; }
      count := count + 1;
      next := Grow(mem, next);
      if htsize == 0 {
        count := 0;
        return data, next;
      }
      Enter(e, data);
      r := 0;
    }

    method Replace(e: Elem, data: nat)
      requires Valid() && e in repr && data != 0
      modifies e`data, this`m
      ensures Valid() && m == old(m)[e.key := data]
    {
      hide Shape, PowerOfTwo;
      e.data := data;
      m := m[e.key := data];
    }

    /** fts3HashClear; the freed elements are simply no longer part of the table. */
    method Clear()
      modifies this
      ensures Valid() && m == map[] && repr == {} && htsize == 0
    {
      first, ht, htsize, count := null, [], 0, 0;
      elems, starts, repr, m := [], [], {}, map[];
    }
  }

  // ----- the number of buckets

  lemma ModHalves(x: nat, n: nat)
    requires n > 0
    ensures x % (2 * n) == x % 2 + 2 * (x / 2 % n)
  {
    var q, r := x / 2 / n, x / 2 % n;
    assert x == 2 * (n * q + r) + x % 2;
    assert x == (2 * n) * q + (2 * r + x % 2);
    Remainder(x, 2 * n, q, 2 * r + x % 2);
  }

  lemma Remainder(x: nat, n: nat, q: nat, r: nat)
    requires r < n && x == n * q + r
    ensures x % n == r
  {
    var d, m := x / n, x % n;
    assert x == n * d + m;
    if d < q { Times(n, d + 1, q); }
    if q < d { Times(n, q + 1, d); }
  }

  lemma Times(n: nat, a: nat, b: nat)
    requires a <= b
    ensures n * a <= n * b
  {
  }

  /** With a power of two of buckets, the remainder that picks the bucket is the low bits of the hash. */
  lemma {:induction false} BucketIsLowBits(h: nat, size: nat) returns (k: nat)
    requires PowerOfTwo(size)
    ensures size == Bits.Pow2(k) && h % size == Bits.Low(h, k)
    decreases size
  {
    if size == 1 {
      k := 0;
    } else {
      var k1 := BucketIsLowBits(h / 2, size / 2);
      k := k1 + 1;
      ModHalves(h, size / 2);
    }
  }

  // ----- whole runs

  datatype Put = Put(key: Key, data: nat)

  /** What one of them makes of a map. */
  ghost function Step(m: map<Key, nat>, p: Put): map<Key, nat> {
    if p.data == 0 then m - {p.key} else m[p.key := p.data]
  }

  ghost function Datum(m: map<Key, nat>, key: Key): nat {
    if key in m then m[key] else 0
  }

  /** The map that a sequence of insertions, and removals by a zero datum, describes. */
  ghost function After(m: map<Key, nat>, puts: seq<Put>): map<Key, nat> {
    if puts == [] then m else Step(After(m, puts[..|puts| - 1]), puts[|puts| - 1])
  }

  lemma AfterMore(m: map<Key, nat>, puts: seq<Put>, k: nat)
    requires k < |puts|
    ensures After(m, puts[..k + 1]) == Step(After(m, puts[..k]), puts[k])
  {
    assert puts[..k + 1][..k] == puts[..k];
  }

  /** Every call has returned the datum that its key had before. */
  ghost predicate Answered(m: map<Key, nat>, puts: seq<Put>, data: seq<nat>) {
    |data| <= |puts| && forall k :: 0 <= k < |data| ==> data[k] == Datum(After(m, puts[..k]), puts[k].key)
  }

  lemma AnsweredMore(m: map<Key, nat>, puts: seq<Put>, data: seq<nat>, r: nat)
    requires Answered(m, puts, data) && |data| < |puts|
    requires r == Datum(After(m, puts[..|data|]), puts[|data|].key)
    ensures Answered(m, puts, data + [r])
  {
    hide After, Datum;
  }

  /**
   With memory, a table that goes through any insertions and removals is the map they describe, and
   every one of them returns the datum that the key had before, or zero.
   */
  method Replay(h: Hash, puts: seq<Put>, mem: Outcomes, at: nat) returns (data: seq<nat>, next: nat)
    requires h.Valid()
    modifies h, h.repr
    ensures h.Valid() && next >= at && |data| == |puts|
    ensures AllMade(mem, at, next) ==> h.m == After(old(h.m), puts) && Answered(old(h.m), puts, data)
  {
    hide Hash.Valid, Hash.Core, Hash.Shape, Holds, PowerOfTwo, AllMade, After, Answered, Step, Datum;
    data, next := [], at;
    ghost var m0 := h.m;
    Started(m0, puts);
    while |data| < |puts|
      invariant |data| <= |puts| && h.Valid() && next >= at
      invariant forall x :: x in h.repr ==> x in old(h.repr) || fresh(x)
      invariant AllMade(mem, at, next) ==> h.m == After(m0, puts[..|data|]) && Answered(m0, puts, data)
    {
      var r;
      ghost var mid := next;
      r, next := PutIn(h, puts[|data|], mem, next);
      MadeOn(mem, at, mid, next);
      AfterMore(m0, puts, |data|);
      if AllMade(mem, at, mid) && AllMade(mem, mid, next) { AnsweredMore(m0, puts, data, r); }
      data := data + [r];
    }
    assert puts[..|puts|] == puts;
  }

  lemma Started(m: map<Key, nat>, puts: seq<Put>)
    ensures After(m, puts[..0]) == m && Answered(m, puts, [])
  {
  }

  /** One insertion or removal, if there is memory. */
  method PutIn(h: Hash, p: Put, mem: Outcomes, at: nat) returns (r: nat, next: nat)
    requires h.Valid()
    modifies h, h.repr
    ensures h.Valid() && next >= at
    ensures forall x :: x in h.repr ==> x in old(h.repr) || fresh(x)
    ensures AllMade(mem, at, next) ==> h.m == Step(old(h.m), p) && r == Datum(old(h.m), p.key)
  {
    hide Hash.Shape, Holds, PowerOfTwo, AllMade, Hash.Fails;
    r, next := h.Insert(p.key, p.data, mem, at);
    assert p.key !in old(h.m) ==> old(h.m) - {p.key} == old(h.m);
  }

  /** A key that no element of its bucket has is not in the table. */
  lemma NotInRun(es: seq<Elem>, ht: seq<Bucket>, starts: seq<nat>, key: Key)
    requires TableOk(es, ht, starts)
    requires var h := BucketOf(key, |ht|);
      h < |starts| && starts[h] + ht[h].count <= |es| && forall i :: starts[h] <= i < starts[h] + ht[h].count ==> es[i].key != key
    ensures forall x :: x in es ==> x.key != key
  {
    hide BucketOf;
    var h := BucketOf(key, |ht|);
    forall x | x in es
      ensures x.key != key
    {
      if x.key == key {
        var i :| 0 <= i < |es| && es[i] == x;
        RunStart(Hashes(es, |ht|), Counts(ht), starts, h, i);
        assert false;
      }
    }
  }
}
