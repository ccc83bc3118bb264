/** The canonical form of appends. */
module Preorders {
  // Without right origins the place of an item depends on its origin and its client only:
  // an item is followed by all that descends from it, and siblings ascend by client.  A list
  // is the preorder of the tree of origins.

  import opened Common
  import opened Yata
  import opened Agreement
  import opened Registers
  import R = Replicas

  function Children(all: set<Item>, o: Option<ID>): set<Item> {
    set e | e in all && e.origin == o
  }

  predicate IsEldest(kids: set<Item>, x: Item) {
    x in kids && forall y <- kids :: x.id.client <= y.id.client
  }

  lemma {:induction false} HasEldest(kids: set<Item>)
    requires kids != {}
    ensures exists x :: IsEldest(kids, x)
  {
    var x :| x in kids;
    if kids == {x} {
      assert IsEldest(kids, x);
    } else {
      var rest := kids - {x};
      HasEldest(rest);
      var y :| IsEldest(rest, y);
      var z := if x.id.client <= y.id.client then x else y;
      assert forall e <- kids :: e == x || e in rest;
      assert IsEldest(kids, z);
    }
  }

  ghost function Eldest(kids: set<Item>): (x: Item)
    requires kids != {}
    ensures IsEldest(kids, x)
  {
    HasEldest(kids);
    var x :| IsEldest(kids, x);
    x
  }

  /** All that descends from `o`, by clients: it depends on the set of items only. */
  ghost function Preorder(all: set<Item>, o: Option<ID>): seq<Item>
    decreases |all|, 0, 0
  {
    var kids := Children(all, o);
    if kids == {} then []
    else
      Smaller(all, kids);
      Family(all - kids, kids)
  }

  /** The siblings, each followed by its descendants. */
  ghost function Family(rest: set<Item>, kids: set<Item>): seq<Item>
    decreases |rest|, 1, |kids|
  {
    if kids == {} then []
    else
      var x := Eldest(kids);
      [x] + Preorder(rest, Some(x.id)) + Family(rest, kids - {x})
  }

  lemma Smaller(all: set<Item>, kids: set<Item>)
    requires kids <= all && kids != {}
    ensures |all - kids| < |all|
  {
    assert all == (all - kids) + kids;
  }

  // ----- The descendants of one item in a list -----

  function Left(s: seq<Item>, j: nat): int
    requires j < |s|
  {
    LeftOf(s, s[j])
  }

  /** The id at a position; before the first one there is none. */
  function IdAt(s: seq<Item>, l: int): Option<ID>
    requires -1 <= l < |s|
  {
    if l == -1 then None else Some(s[l].id)
  }

  predicate KidAt(s: seq<Item>, l: int, a: nat, b: nat, j: nat) {
    a <= j < b <= |s| && Left(s, j) == l
  }

  function KidsFrom(s: seq<Item>, l: int, a: nat, b: nat): set<Item>
    requires b <= |s|
  {
    set j | a <= j < b && KidAt(s, l, a, b, j) :: s[j]
  }

  /** Nothing from `b` on refers to the items from `l` up to there. */
  predicate EndsAt(s: seq<Item>, l: int, b: nat)
    requires b <= |s|
  {
    forall j :: b <= j < |s| ==> Left(s, j) < l || b <= Left(s, j)
  }

  /** All items of the range are children of `l`, or refer to items of the range. */
  predicate Within(s: seq<Item>, l: int, a: nat, b: nat)
    requires b <= |s|
  {
    forall j :: a <= j < b ==> Left(s, j) == l || a <= Left(s, j)
  }

  predicate Suits(s: seq<Item>, all: set<Item>, l: int, a: nat, b: nat)
    requires b <= |s|
  {
    all <= Items(s) && forall j :: a <= j < b && Left(s, j) != l ==> s[j] in all
  }

  lemma SameLeft(s: seq<Item>, l: int, j: nat)
    requires Canonical(s) && -1 <= l < |s| && j < |s|
    ensures s[j].origin == IdAt(s, l) <==> Left(s, j) == l
    ensures Left(s, j) < j
  {
    var k := Agreement.At(s, s[j]);
    FindAt(s, j);
    if l >= 0 {
      FindAt(s, l);
    }
  }

  function NextKid(s: seq<Item>, l: int, j: nat, b: nat): (m: nat)
    requires j <= b <= |s|
    ensures j <= m <= b && (m < b ==> Left(s, m) == l)
    ensures forall i :: j <= i < m ==> Left(s, i) != l
    decreases b - j
  {
    if j == b || Left(s, j) == l then j else NextKid(s, l, j + 1, b)
  }

  /** Where the next sibling begins, the descendants of the one before it end. */
  lemma SubtreeEnds(log: seq<Item>, s: seq<Item>, l: int, a: nat, m: nat, b: nat)
    requires Replica(log, s) && -1 <= l < a < m <= b <= |s| && Left(s, a) == l && EndsAt(s, l, b) && Within(s, l, a, b)
    requires (m < b ==> Left(s, m) == l) && forall i :: a < i < m ==> Left(s, i) != l
    ensures EndsAt(s, a, m) && Within(s, a, a + 1, m) && Within(s, l, m, b)
  {
    forall j | m <= j < |s|
      ensures (Left(s, j) < a || m <= Left(s, j)) && (j < b ==> Left(s, j) == l || m <= Left(s, j)) {
      if m < j < b {
        Nested(log, s, m, j);
      }
    }
  }

  lemma KidsNext(s: seq<Item>, l: int, a: nat, m: nat, b: nat)
    requires UniqueIds(s) && a < m <= b <= |s| && Left(s, a) == l && forall i :: a < i < m ==> Left(s, i) != l
    ensures KidsFrom(s, l, a, b) - {s[a]} == KidsFrom(s, l, m, b)
  {
    forall e | e in KidsFrom(s, l, a, b) - {s[a]} ensures e in KidsFrom(s, l, m, b) {
      var j :| a <= j < b && KidAt(s, l, a, b, j) && s[j] == e;
      assert KidAt(s, l, m, b, j);
    }
    forall e | e in KidsFrom(s, l, m, b) ensures e in KidsFrom(s, l, a, b) - {s[a]} {
      var j :| m <= j < b && KidAt(s, l, m, b, j) && s[j] == e;
      assert KidAt(s, l, a, b, j);
    }
  }

  /** The first of the siblings is the eldest. */
  lemma FirstIsEldest(log: seq<Item>, s: seq<Item>, l: int, a: nat, b: nat)
    requires Replica(log, s) && Appended(s) && -1 <= l < a < b <= |s| && Left(s, a) == l
    ensures KidsFrom(s, l, a, b) != {} && Eldest(KidsFrom(s, l, a, b)) == s[a]
  {
    var kids := KidsFrom(s, l, a, b);
    assert KidAt(s, l, a, b, a) && s[a] in kids;
    var x := Eldest(kids);
    var j :| a <= j < b && KidAt(s, l, a, b, j) && s[j] == x;
    if j != a {
      SameLeft(s, l, a);
      SameLeft(s, l, j);
      SiblingsAscend(log, s, a, j);
    }
  }

  lemma {:induction false} FamilyIs(log: seq<Item>, s: seq<Item>, rest: set<Item>, l: int, a: nat, b: nat)
    requires Replica(log, s) && Appended(s) && -1 <= l < a <= b <= |s| && (a < b ==> Left(s, a) == l)
    requires EndsAt(s, l, b) && Within(s, l, a, b) && Suits(s, rest, l, a, b)
    ensures Family(rest, KidsFrom(s, l, a, b)) == s[a..b]
    decreases b - a, 1
  {
    if a < b {
      var m := NextKid(s, l, a + 1, b);
      SubtreeEnds(log, s, l, a, m, b);
      FamilyFirst(log, s, rest, l, a, m, b);
      SubtreeIs(log, s, rest, l, a, m, b);
      FamilyIs(log, s, rest, l, m, b);
      Joined(s, a, m, b);
    } else {
      assert KidsFrom(s, l, a, b) == {};
    }
  }

  lemma FamilyNext(rest: set<Item>, kids: set<Item>, x: Item)
    requires kids != {} && Eldest(kids) == x
    ensures Family(rest, kids) == [x] + Preorder(rest, Some(x.id)) + Family(rest, kids - {x})
  {
  }

  lemma FamilyFirst(log: seq<Item>, s: seq<Item>, rest: set<Item>, l: int, a: nat, m: nat, b: nat)
    requires Replica(log, s) && Appended(s) && -1 <= l < a < m <= b <= |s| && Left(s, a) == l
    requires forall i :: a < i < m ==> Left(s, i) != l
    ensures Family(rest, KidsFrom(s, l, a, b)) ==
      [s[a]] + Preorder(rest, Some(s[a].id)) + Family(rest, KidsFrom(s, l, m, b))
  {
    FirstIsEldest(log, s, l, a, b);
    KidsNext(s, l, a, m, b);
    FamilyNext(rest, KidsFrom(s, l, a, b), s[a]);
  }

  lemma Joined(s: seq<Item>, a: nat, m: nat, b: nat)
    requires a < m <= b <= |s|
    ensures [s[a]] + s[a + 1..m] + s[m..b] == s[a..b]
  {
  }

  lemma {:induction false} SubtreeIs(log: seq<Item>, s: seq<Item>, rest: set<Item>, l: int, a: nat, m: nat, b: nat)
    requires Replica(log, s) && Appended(s) && -1 <= l < a < m <= b <= |s| && Suits(s, rest, l, a, b)
    requires EndsAt(s, a, m) && Within(s, a, a + 1, m) && forall i :: a < i < m ==> Left(s, i) != l
    ensures Preorder(rest, Some(s[a].id)) == s[a + 1..m]
    decreases m - a, 0
  {
    PreorderIs(log, s, rest, a, m);
  }

  /** What follows an item in the list, up to `b`, is the preorder of its descendants. */
  lemma {:induction false} PreorderIs(log: seq<Item>, s: seq<Item>, all: set<Item>, l: int, b: nat)
    requires Replica(log, s) && Appended(s) && -1 <= l < b <= |s| && EndsAt(s, l, b) && Within(s, l, l + 1, b)
    requires all <= Items(s) && forall j :: l < j < b ==> s[j] in all
    ensures Preorder(all, IdAt(s, l)) == s[l + 1..b]
    decreases b - (l + 1), 2
  {
    var a := l + 1;
    ChildrenAre(s, all, l, b);
    if a < b {
      FirstKid(s, l, b);
      RestSuits(s, all, l, b);
      FamilyIs(log, s, all - KidsFrom(s, l, a, b), l, a, b);
      PreorderKids(all, IdAt(s, l), KidsFrom(s, l, a, b));
    } else {
      assert KidsFrom(s, l, a, b) == {};
      NoPreorder(all, IdAt(s, l));
    }
  }

  lemma FirstKid(s: seq<Item>, l: int, b: nat)
    requires Canonical(s) && -1 <= l && l + 1 < b <= |s| && Within(s, l, l + 1, b)
    ensures Left(s, l + 1) == l && KidsFrom(s, l, l + 1, b) != {}
  {
    SameLeft(s, l, l + 1);
    assert KidAt(s, l, l + 1, b, l + 1) && s[l + 1] in KidsFrom(s, l, l + 1, b);
  }

  lemma NoPreorder(all: set<Item>, o: Option<ID>)
    requires Children(all, o) == {}
    ensures Preorder(all, o) == []
  {
  }

  lemma PreorderKids(all: set<Item>, o: Option<ID>, kids: set<Item>)
    requires Children(all, o) == kids && kids != {}
    ensures Preorder(all, o) == Family(all - kids, kids)
  {
  }

  lemma ChildrenAre(s: seq<Item>, all: set<Item>, l: int, b: nat)
    requires Canonical(s) && -1 <= l < b <= |s| && EndsAt(s, l, b) && all <= Items(s)
    requires forall j :: l < j < b ==> s[j] in all
    ensures Children(all, IdAt(s, l)) == KidsFrom(s, l, l + 1, b)
  {
    forall e | e in Children(all, IdAt(s, l)) ensures e in KidsFrom(s, l, l + 1, b) {
      var j :| 0 <= j < |s| && s[j] == e;
      SameLeft(s, l, j);
      assert KidAt(s, l, l + 1, b, j);
    }
    forall e | e in KidsFrom(s, l, l + 1, b) ensures e in Children(all, IdAt(s, l)) {
      var j :| l + 1 <= j < b && KidAt(s, l, l + 1, b, j) && s[j] == e;
      SameLeft(s, l, j);
    }
  }

  lemma RestSuits(s: seq<Item>, all: set<Item>, l: int, b: nat)
    requires Canonical(s) && -1 <= l < b <= |s| && all <= Items(s) && forall j :: l < j < b ==> s[j] in all
    ensures Suits(s, all - KidsFrom(s, l, l + 1, b), l, l + 1, b)
  {
    forall e | e in KidsFrom(s, l, l + 1, b) ensures LeftOf(s, e) == l {
      var i :| l + 1 <= i < b && KidAt(s, l, l + 1, b, i) && s[i] == e;
    }
  }

  /** Every replica of an append history is the preorder of its items. */
  lemma ListIsPreorder(log: seq<Item>, s: seq<Item>)
    requires CausalLog(log) && Replica(log, s) && Appended(s)
    ensures s == Preorder(Items(s), None)
  {
    if s == [] {
      assert Children(Items(s), None) == {};
    } else {
      forall j | 0 <= j < |s| ensures Left(s, j) >= -1 {
      }
      PreorderIs(log, s, Items(s), -1, |s|);
      assert s[0..|s|] == s;
    }
  }

  /** So every replica of every run of appends is: its list is a function of its set of items. */
  lemma PreorderOfRun(steps: seq<R.Step>, c: nat)
    requires R.Run(R.INIT, steps) && AppendRun(R.INIT, steps)
    ensures var s := R.After(R.INIT, steps).At(c).items; s == Preorder(Items(s), None)
  {
    R.InitValid();
    R.RunValid(R.INIT, steps);
    LogAppended(R.INIT, steps);
    var w := R.After(R.INIT, steps);
    assert R.ValidAt(w, c);
    ListIsPreorder(w.log, w.At(c).items);
  }
}
