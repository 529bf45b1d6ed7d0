/**
 DROP TABLE on an auto-vacuum database: the order in which destroyTable of build.c destroys root pages,
 and what that does to the recorded roots when each destruction moves the largest root page.
 */
module DestroyTable {

  // ----- the code generator

  /** No page for 0, which stands for "none". */
  ghost function Pages(tab: nat, indices: seq<nat>): set<nat> {
    ({tab} + set i | 0 <= i < |indices| :: indices[i]) - {0}
  }

  ghost predicate Descending(s: seq<nat>) {
    forall i, k :: 0 <= i < k < |s| ==> s[i] > s[k]
  }

  /** A page that is still to be destroyed, after `destroyed` was. */
  predicate Open(page: nat, destroyed: nat) {
    destroyed == 0 || page < destroyed
  }

  /** One round: the largest page not yet destroyed, or 0. */
  method Largest(tab: nat, indices: seq<nat>, destroyed: nat) returns (largest: nat)
    ensures largest != 0 ==> largest in Pages(tab, indices) && Open(largest, destroyed)
    ensures forall p :: p in Pages(tab, indices) && Open(p, destroyed) ==> p <= largest
  {
    largest := if Open(tab, destroyed) then tab else 0;
    for k := 0 to |indices|
      invariant largest != 0 ==> largest in Pages(tab, indices) && Open(largest, destroyed)
      invariant Open(tab, destroyed) ==> tab <= largest
      invariant forall i :: 0 <= i < k && Open(indices[i], destroyed) ==> indices[i] <= largest
    {
      if Open(indices[k], destroyed) && indices[k] > largest { largest := indices[k]; }
    }
  }

  /** destroyTable: every distinct root page of the table and its indices once, the largest first. */
  method DestroyTable(tab: nat, indices: seq<nat>) returns (plan: seq<nat>)
    ensures Descending(plan)
    ensures (set p | p in plan) == Pages(tab, indices)
  {
    plan := [];
    var destroyed := 0;
    while true
      invariant destroyed == if plan == [] then 0 else plan[|plan| - 1]
      invariant Descending(plan) && forall p :: p in plan ==> p in Pages(tab, indices)
      invariant forall p :: p in Pages(tab, indices) ==> p in plan || Open(p, destroyed)
      decreases if destroyed == 0 then 1 else 0, destroyed
    {
      var largest := Largest(tab, indices, destroyed);
      if largest == 0 { return; }
      plan := plan + [largest];
      destroyed := largest;
    }
  }

  // ----- what the database does

  /** Every root page holds one schema entry, and roots[e] is the page recorded for entry e. */
  datatype Db = Db(pages: map<nat, nat>, roots: seq<nat>)

  /** The recorded roots of all entries that still exist are right; destroyed entries may have any. */
  ghost predicate Correct(db: Db) {
    forall p :: p in db.pages ==> db.pages[p] < |db.roots| && db.roots[db.pages[p]] == p
  }

  ghost function Entries(db: Db): set<nat> {
    set p | p in db.pages :: db.pages[p]
  }

  ghost predicate IsTop(top: nat, pages: map<nat, nat>) {
    top in pages && forall p :: p in pages ==> p <= top
  }

  lemma {:induction false} TopExists(s: set<nat>) returns (top: nat)
    requires s != {}
    ensures top in s && forall p :: p in s ==> p <= top
    decreases |s|
  {
    var x :| x in s;
    if s == {x} {
      top := x;
    } else {
      var rest := TopExists(s - {x});
      top := if x > rest then x else rest;
      assert forall p :: p in s ==> p == x || p in s - {x};
    }
  }

  /** sqlite3RootPageMoved as a function of the recorded roots. */
  function Moved(roots: seq<nat>, from: nat, to: nat): (r: seq<nat>)
    ensures |r| == |roots|
    ensures forall e :: 0 <= e < |r| ==> r[e] == if roots[e] == from then to else roots[e]
  {
    seq(|roots|, e requires 0 <= e < |roots| => if roots[e] == from then to else roots[e])
  }

  /** sqlite3RootPageMoved: all tables, then all indices. */
  method RootPageMoved(tables: array<nat>, indices: array<nat>, from: nat, to: nat)
    requires tables != indices
    modifies tables, indices
    ensures tables[..] + indices[..] == Moved(old(tables[..] + indices[..]), from, to)
  {
    MoveAll(tables, from, to);
    MoveAll(indices, from, to);
  }

  method MoveAll(roots: array<nat>, from: nat, to: nat)
    modifies roots
    ensures roots[..] == Moved(old(roots[..]), from, to)
  {
    for e := 0 to roots.Length
      invariant forall i :: 0 <= i < e ==> roots[i] == Moved(old(roots[..]), from, to)[i]
      invariant forall i :: e <= i < roots.Length ==> roots[i] == old(roots[i])
    {
      if roots[e] == from { roots[e] := to; }
    }
  }

  /** OP_Destroy with auto-vacuum: the largest root page `top` fills the hole. */
  ghost function Destroy(db: Db, p: nat, top: nat): Db
    requires p in db.pages && IsTop(top, db.pages)
  {
    if top == p then Db(db.pages - {p}, db.roots)
    else Db((db.pages - {top})[p := db.pages[top]], Moved(db.roots, top, p))
  }

  /** A run destroys the pages of the plan one after another. */
  ghost predicate Runs(db: Db, plan: seq<nat>, db': Db)
    decreases |plan|
  {
    if plan == [] then db == db'
    else
      && plan[0] in db.pages
      && exists top :: IsTop(top, db.pages) && Runs(Destroy(db, plan[0], top), plan[1..], db')
  }

  /** Destroying a page removes the entry on it and no other, and keeps the recorded roots right. */
  lemma DestroyKeeps(db: Db, p: nat, top: nat)
    requires Correct(db) && p in db.pages && IsTop(top, db.pages)
    ensures Correct(Destroy(db, p, top))
    ensures Entries(Destroy(db, p, top)) == Entries(db) - {db.pages[p]}
    ensures forall q :: q in db.pages && q < p ==> q in Destroy(db, p, top).pages && Destroy(db, p, top).pages[q] == db.pages[q]
  {
    var db' := Destroy(db, p, top);
    forall e | e in Entries(db) - {db.pages[p]}
      ensures e in Entries(db')
    {
      var q :| q in db.pages && db.pages[q] == e;
      assert if q == top then db'.pages[p] == e else db'.pages[q] == e;
    }
    forall e | e in Entries(db')
      ensures e in Entries(db) - {db.pages[p]}
    {
      var q :| q in db'.pages && db'.pages[q] == e;
      var was := if q == p then top else q;
      assert db.pages[was] == e && was != p;
    }
  }

  ghost function Doomed(db: Db, plan: seq<nat>): set<nat>
    requires forall i :: 0 <= i < |plan| ==> plan[i] in db.pages
  {
    set i | 0 <= i < |plan| :: db.pages[plan[i]]
  }

  /**
   Destroying pages in descending order never moves a page that is still to be destroyed: every run goes
   through, removes exactly the entries that were on those pages at the start, and every other entry
   ends with its true root page recorded.
   */
  lemma {:induction false} DescendingIsSafe(db: Db, plan: seq<nat>)
    requires Correct(db) && Descending(plan) && forall i :: 0 <= i < |plan| ==> plan[i] in db.pages
    ensures exists db' :: Runs(db, plan, db')
    ensures forall db' :: Runs(db, plan, db') ==> Correct(db') && Entries(db') == Entries(db) - Doomed(db, plan)
    decreases |plan|, 1
  {
    if plan == [] {
      assert Runs(db, plan, db);
    } else {
      assert plan[0] in db.pages.Keys;
      var t := TopExists(db.pages.Keys);
      assert IsTop(t, db.pages);
      After(db, plan, t);
      var db1 :| Runs(Destroy(db, plan[0], t), plan[1..], db1);
      assert Runs(db, plan, db1);
      forall db' | Runs(db, plan, db')
        ensures Correct(db') && Entries(db') == Entries(db) - Doomed(db, plan)
      {
        var top :| IsTop(top, db.pages) && Runs(Destroy(db, plan[0], top), plan[1..], db');
        After(db, plan, top);
      }
    }
  }

  lemma {:induction false} After(db: Db, plan: seq<nat>, top: nat)
    requires Correct(db) && Descending(plan) && plan != [] && forall i :: 0 <= i < |plan| ==> plan[i] in db.pages
    requires IsTop(top, db.pages)
    ensures var db1 := Destroy(db, plan[0], top);
      && (exists db' :: Runs(db1, plan[1..], db'))
      && (forall db' :: Runs(db1, plan[1..], db') ==> Correct(db') && Entries(db') == Entries(db) - Doomed(db, plan))
    decreases |plan|, 0
  {
    var p, rest := plan[0], plan[1..];
    var db1 := Destroy(db, p, top);
    DestroyKeeps(db, p, top);
    RestStays(db, plan, db1);
    DescendingIsSafe(db1, rest);
  }

  lemma RestStays(db: Db, plan: seq<nat>, db1: Db)
    requires Descending(plan) && plan != [] && forall i :: 0 <= i < |plan| ==> plan[i] in db.pages
    requires forall q :: q in db.pages && q < plan[0] ==> q in db1.pages && db1.pages[q] == db.pages[q]
    ensures Descending(plan[1..]) && forall i :: 0 <= i < |plan[1..]| ==> plan[1..][i] in db1.pages
    ensures Doomed(db, plan) == {db.pages[plan[0]]} + Doomed(db1, plan[1..])
  {
    var rest := plan[1..];
    forall e | e in Doomed(db, plan)
      ensures e in {db.pages[plan[0]]} + Doomed(db1, rest)
    {
      var i :| 0 <= i < |plan| && db.pages[plan[i]] == e;
      if i > 0 { assert rest[i - 1] == plan[i]; }
    }
    forall e | e in Doomed(db1, rest)
      ensures e in Doomed(db, plan)
    {
      var i :| 0 <= i < |rest| && db1.pages[rest[i]] == e;
      assert plan[i + 1] == rest[i];
    }
  }

  /** The entries of a table and its indices. */
  ghost function EntriesOn(db: Db, pages: set<nat>): set<nat> {
    set p | p in pages && p in db.pages :: db.pages[p]
  }

  lemma DoomedAre(db: Db, plan: seq<nat>, pages: set<nat>)
    requires (forall i :: 0 <= i < |plan| ==> plan[i] in db.pages) && (set p | p in plan) == pages
    ensures Doomed(db, plan) == EntriesOn(db, pages)
  {
    forall e | e in EntriesOn(db, pages)
      ensures e in Doomed(db, plan)
    {
      var p :| p in pages && p in db.pages && db.pages[p] == e;
      assert p in set q | q in plan;
      var i :| 0 <= i < |plan| && plan[i] == p;
    }
    forall i | 0 <= i < |plan|
      ensures plan[i] in pages
    {
      assert plan[i] in set q | q in plan;
    }
  }

  /**
   DROP TABLE as a whole: the plan that destroyTable makes for a table and its indices goes through, and
   removes exactly the entries on their root pages; all others end with their true roots recorded.
   */
  method DropTable(tab: nat, indices: seq<nat>, ghost db: Db) returns (plan: seq<nat>)
    requires Correct(db) && forall p :: p in Pages(tab, indices) ==> p in db.pages
    ensures exists db' :: Runs(db, plan, db')
    ensures forall db' :: Runs(db, plan, db') ==>
      Correct(db') && Entries(db') == Entries(db) - EntriesOn(db, Pages(tab, indices))
  {
    hide Correct, Runs, Entries, EntriesOn, Pages;
    plan := DestroyTable(tab, indices);
    forall i | 0 <= i < |plan|
      ensures plan[i] in db.pages
    {
      assert plan[i] in set q | q in plan;
    }
    DescendingIsSafe(db, plan);
    DoomedAre(db, plan, Pages(tab, indices));
  }

  /** In another order a page can be moved away before it is destroyed: destroying 4 moves page 5. */
  lemma AscendingFails()
    ensures var db := Db(map[4 := 0, 5 := 1], [4, 5]);
      && Correct(db) && forall db' :: !Runs(db, [4, 5], db')
  {
    var db := Db(map[4 := 0, 5 := 1], [4, 5]);
    assert [4, 5][1..] == [5];
    forall db', top | IsTop(top, db.pages)
      ensures !Runs(Destroy(db, 4, top), [5], db')
    {
      assert 5 in db.pages && top in db.pages;
      assert 5 !in Destroy(db, 4, top).pages;
    }
  }
}
