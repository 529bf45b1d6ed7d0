/**
 sqlite3BtreeMutexArrayInsert of btmutex.c keeps the mutex array in address order, which the
 locking protocol relies on.
 */
module BtMutexArray {

  ghost predicate Ascending(s: seq<nat>) {
    forall i, j :: 0 <= i < j < |s| ==> s[i] < s[j]
  }

  /** s with x at position p. */
  ghost function Inserted(s: seq<nat>, p: nat, x: nat): seq<nat>
    requires p <= |s|
  {
    s[..p] + [x] + s[p..]
  }

  lemma InsertedAscends(s: seq<nat>, p: nat, x: nat)
    requires Ascending(s) && p <= |s| && x !in s
    requires (forall i :: 0 <= i < p ==> s[i] <= x) && (p < |s| ==> x < s[p])
    ensures Ascending(Inserted(s, p, x))
  {
    var r := Inserted(s, p, x);
    forall i, j | 0 <= i < j < |r|
      ensures r[i] < r[j]
    {
      assert i < p ==> r[i] == s[i] && s[i] in s;
      assert i > p ==> r[i] == s[i - 1];
      assert j < p ==> r[j] == s[j];
      assert j > p ==> r[j] == s[j - 1] && (p < |s| ==> s[p] <= s[j - 1]);
    }
  }

  lemma InsertedAdds(s: seq<nat>, p: nat, x: nat)
    requires p <= |s|
    ensures multiset(Inserted(s, p, x)) == multiset(s) + multiset{x}
  {
    assert s == s[..p] + s[p..];
  }

  /** The array of a statement, with the addresses of its Btrees' shared parts. */
  class MutexArray {
    const aBtree: array<nat>
    var nMutex: nat

    ghost predicate Valid()
      reads this, aBtree
    {
      nMutex <= aBtree.Length && Ascending(aBtree[..nMutex])
    }

    constructor (size: nat)
      ensures Valid() && nMutex == 0 && fresh(aBtree) && aBtree.Length == size
    {
      aBtree := new nat[size](i => 0);
      nMutex := 0;
    }

    /** Shift the entries from i on up by one. */
    method MakeRoom(i: nat)
      requires i <= nMutex < aBtree.Length
      modifies aBtree
      ensures aBtree[..i] == old(aBtree[..i])
      ensures aBtree[i + 1..nMutex + 1] == old(aBtree[i..nMutex])
    {
      var j := nMutex;
      while j > i
        invariant i <= j <= nMutex
        invariant forall k :: 0 <= k <= j && k < aBtree.Length ==> aBtree[k] == old(aBtree[k])
        invariant forall k :: j < k <= nMutex ==> aBtree[k] == old(aBtree[k - 1])
      {
        aBtree[j] := aBtree[j - 1];
        j := j - 1;
      }
    }

    /** Put x in at position i. */
    method Place(i: nat, x: nat)
      requires i <= nMutex < aBtree.Length
      modifies this, aBtree
      ensures nMutex == old(nMutex) + 1 <= aBtree.Length
      ensures aBtree[..nMutex] == Inserted(old(aBtree[..nMutex]), i, x)
    {
      ghost var s := aBtree[..nMutex];
      MakeRoom(i);
      aBtree[i] := x;
      nMutex := nMutex + 1;
      assert aBtree[..i] == s[..i];
      assert aBtree[i + 1..nMutex] == s[i..];
      assert aBtree[..nMutex] == aBtree[..i] + [x] + aBtree[i + 1..nMutex];
    }

    /** Only a sharable Btree is added, in its place. */
    method Insert(sharable: bool, pBt: nat)
      requires Valid() && pBt !in aBtree[..nMutex] && nMutex < aBtree.Length
      modifies this, aBtree
      ensures Valid()
      ensures !sharable ==> aBtree[..nMutex] == old(aBtree[..nMutex])
      ensures sharable ==> multiset(aBtree[..nMutex]) == multiset(old(aBtree[..nMutex])) + multiset{pBt}
    {
      if !sharable { return; }
      ghost var s := aBtree[..nMutex];
      var i := 0;
      while i < nMutex && aBtree[i] <= pBt
        invariant 0 <= i <= nMutex && forall k :: 0 <= k < i ==> s[k] <= pBt
      {
        i := i + 1;
      }
      InsertedAscends(s, i, pBt);
      InsertedAdds(s, i, pBt);
      hide Ascending, Inserted;
      Place(i, pBt);
    }
  }
}
