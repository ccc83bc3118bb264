/** Canonical lists agree. */
module Agreement {
  import opened Arcs
  import opened Common
  import opened Yata

  /** Items in the order of their creation: what an item refers to was created before. */
  predicate CausalLog(log: seq<Item>) {
    && UniqueIds(log)
    && (forall i :: 0 <= i < |log| ==> RefersBack(log, i))
  }

  predicate RefersBack(log: seq<Item>, i: nat)
    requires i < |log|
  {
    && (log[i].origin.Some? ==> Find(log, log[i].origin.value) < i)
    && (log[i].rightOrigin.Some? ==> Find(log, log[i].rightOrigin.value) < i)
  }

  /** A list that holds items of the log only, arranged as `integrate` does. */
  predicate Replica(log: seq<Item>, s: seq<Item>) {
    Canonical(s) && forall e <- s :: e in log
  }

  predicate Before(s: seq<Item>, x: Item, y: Item) {
    Find(s, x.id) < Find(s, y.id)
  }

  function Age(log: seq<Item>, x: Item): nat {
    Find(log, x.id)
  }

  /** What an id found in both lists stands for. */
  lemma Shared(log: seq<Item>, s: seq<Item>, t: seq<Item>, id: ID) returns (e: Item)
    requires CausalLog(log) && Replica(log, s) && Replica(log, t)
    requires Has(s, id) && Has(t, id)
    ensures e.id == id && e in s && e in t
    ensures e == s[Find(s, id)] && e == t[Find(t, id)]
  {
    e := s[Find(s, id)];
    var f := t[Find(t, id)];
    assert e in log && f in log;
  }

  lemma Older(log: seq<Item>, x: Item)
    requires CausalLog(log) && x in log
    ensures x.origin.Some? ==> Find(log, x.origin.value) < Age(log, x)
    ensures x.rightOrigin.Some? ==> Find(log, x.rightOrigin.value) < Age(log, x)
  {
    var i :| 0 <= i < |log| && log[i] == x;
    FindAt(log, i);
    assert RefersBack(log, i);
  }

  /** What the arrangement says of an item that is in a list. */
  lemma At(s: seq<Item>, x: Item) returns (i: nat)
    requires Canonical(s) && x in s
    ensures i < |s| && s[i] == x && Find(s, x.id) == i && DepsIn(s, x)
    ensures LeftOf(s, x) < i < RightOf(s, x)
  {
    i :| i < |s| && s[i] == x;
    FindAt(s, i);
    assert Placed(ArcsOf(s), i);
  }

  /** What the arrangement says of two items of a list. */
  lemma Pair(s: seq<Item>, x: Item, y: Item)
    requires Canonical(s) && x in s && y in s && Before(s, x, y)
    ensures Find(s, x.id) <= LeftOf(s, y) || LeftOf(s, y) <= LeftOf(s, x)
    ensures x.origin == y.origin ==> RightOf(s, x) <= Find(s, y.id) || x.id.client < y.id.client
  {
    var i := At(s, x);
    var j := At(s, y);
    assert Ordered(ArcsOf(s), i, j);
  }

  /** The descent of the proof: a disagreement about `x` and `y` is one about older items. */
  lemma {:induction false} NoConflict(log: seq<Item>, s: seq<Item>, t: seq<Item>, x: Item, y: Item)
    requires CausalLog(log) && Replica(log, s) && Replica(log, t)
    requires x in s && x in t && y in s && y in t
    requires Before(s, x, y) && Before(t, y, x)
    ensures false
    decreases Age(log, x) + Age(log, y), 1
  {
    var i := At(s, x);
    var j := At(s, y);
    var i' := At(t, x);
    var j' := At(t, y);
    Older(log, x);
    Older(log, y);
    Pair(s, x, y);
    Pair(t, y, x);
    if i <= LeftOf(s, y) {
      var o := Shared(log, s, t, y.origin.value);
      NoConflict(log, s, t, x, o);
    } else if j' <= LeftOf(t, x) {
      var o := Shared(log, s, t, x.origin.value);
      NoConflict(log, s, t, o, y);
    } else if x.origin != y.origin {
      SameRefs(s, x, y);
      SameRefs(t, x, y);
      var ox := Shared(log, s, t, x.origin.value);
      var oy := Shared(log, s, t, y.origin.value);
      NoConflict(log, s, t, oy, ox);
    } else {
      NoSiblingConflict(log, s, t, x, y);
    }
  }

  lemma {:induction false} NoSiblingConflict(log: seq<Item>, s: seq<Item>, t: seq<Item>, x: Item, y: Item)
    requires CausalLog(log) && Replica(log, s) && Replica(log, t)
    requires x in s && x in t && y in s && y in t
    requires Before(s, x, y) && Before(t, y, x) && x.origin == y.origin
    ensures false
    decreases Age(log, x) + Age(log, y), 0
  {
    var j := At(s, y);
    var i' := At(t, x);
    Pair(s, x, y);
    Pair(t, y, x);
    if RightOf(s, x) <= j {
      var i := At(s, x);
      Older(log, x);
      var r := Shared(log, s, t, x.rightOrigin.value);
      NoConflict(log, s, t, r, y);
    } else {
      var j' := At(t, y);
      Older(log, y);
      var r := Shared(log, s, t, y.rightOrigin.value);
      NoConflict(log, s, t, x, r);
    }
  }

  /** Two replicas order their common items the same way. */
  lemma Agree(log: seq<Item>, s: seq<Item>, t: seq<Item>, x: Item, y: Item)
    requires CausalLog(log) && Replica(log, s) && Replica(log, t)
    requires x in s && x in t && y in s && y in t
    ensures Before(s, x, y) <==> Before(t, x, y)
  {
    var i := At(s, x);
    var j := At(s, y);
    var i' := At(t, x);
    var j' := At(t, y);
    if Before(s, x, y) && Before(t, y, x) {
      NoConflict(log, s, t, x, y);
    }
    if Before(s, y, x) && Before(t, x, y) {
      NoConflict(log, s, t, y, x);
    }
  }

  predicate SameItems(s: seq<Item>, t: seq<Item>) {
    (forall e <- s :: e in t) && (forall e <- t :: e in s)
  }

  /** Where the lists agree up to `k`, they agree about the next item. */
  lemma SameNext(log: seq<Item>, s: seq<Item>, t: seq<Item>, k: nat)
    requires CausalLog(log) && Replica(log, s) && Replica(log, t) && SameItems(s, t)
    requires k < |s| && k < |t| && s[..k] == t[..k]
    ensures s[k] == t[k]
  {
    var x, y := s[k], t[k];
    var m := NotBefore(s, t, k, x);
    var n := NotBefore(t, s, k, y);
    FindAt(s, k);
    FindAt(t, k);
    FindAt(t, m);
    FindAt(s, n);
    Agree(log, s, t, x, y);
  }

  /** An item of `s` from position `k` on is not among the first `k` of `t`. */
  lemma NotBefore(s: seq<Item>, t: seq<Item>, k: nat, x: Item) returns (m: nat)
    requires UniqueIds(s) && k <= |s| && k <= |t| && s[..k] == t[..k] && x in s[k..] && x in t
    ensures k <= m < |t| && t[m] == x
  {
    m :| 0 <= m < |t| && t[m] == x;
    var n :| k <= n < |s| && s[n] == x;
    forall j | 0 <= j < k ensures s[j] == t[j] {
      assert s[..k][j] == t[..k][j];
    }
  }

  lemma {:induction false} SamePrefix(log: seq<Item>, s: seq<Item>, t: seq<Item>, k: nat)
    requires CausalLog(log) && Replica(log, s) && Replica(log, t) && SameItems(s, t)
    requires k <= |s| && k <= |t|
    ensures s[..k] == t[..k]
  {
    if k > 0 {
      SamePrefix(log, s, t, k - 1);
      SameNext(log, s, t, k - 1);
    }
  }

  /** Convergence: replicas that hold the same items hold the same list. */
  lemma SameList(log: seq<Item>, s: seq<Item>, t: seq<Item>)
    requires CausalLog(log) && Replica(log, s) && Replica(log, t) && SameItems(s, t)
    ensures s == t
  {
    var k := if |s| < |t| then |s| else |t|;
    SamePrefix(log, s, t, k);
    if k < |t| {
      var m := NotBefore(t, s, k, t[k]);
    }
    if k < |s| {
      var m := NotBefore(s, t, k, s[k]);
    }
  }
}
