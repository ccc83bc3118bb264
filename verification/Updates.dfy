/** Reading and writing updates. */
module Updates {
  import opened Common
  import opened Yata
  import opened Structs
  import opened MergeUpdates
  import I = IntegrateStructs

  // ----- Reading -----

  /** `readClientsStructRefs`: the structs of one client. */
  function ByClient(s: seq<Struct>, c: nat): (r: seq<Struct>)
    ensures forall t <- r :: t in s && t.client == c
    ensures forall t <- s :: t.client == c ==> t in r
  {
    if s == [] then []
    else if s[0].client == c then [s[0]] + ByClient(s[1..], c)
    else ByClient(s[1..], c)
  }

  function Grouped(s: seq<Struct>): (r: I.Refs)
    ensures forall c <- r :: r[c] == ByClient(s, c) != []
    ensures forall t <- s :: t.client in r && t in r[t.client]
  {
    map c | c in (set t <- s :: t.client) :: ByClient(s, c)
  }

  predicate JoinsAt(s: seq<Struct>, i: nat)
    requires i + 1 < |s|
  {
    s[i].End() == s[i + 1].clock
  }

  ghost predicate EntryAt(s: seq<Struct>, c: nat, content: Content, i: nat)
    requires i < |s|
  {
    s[i].client == c && From(s[i], content)
  }

  /** The structs of one client, clocks without a gap. */
  ghost predicate ClientList(s: seq<Struct>, c: nat, content: Content) {
    && (forall i :: 0 <= i < |s| ==> EntryAt(s, c, content, i))
    && (forall i :: 0 <= i < |s| - 1 ==> JoinsAt(s, i))
  }

  lemma {:induction false} LowerClients(s: seq<Struct>, content: Content, c: nat)
    requires Update(s, content) && (s == [] || s[0].client < c)
    ensures ByClient(s, c) == []
  {
    if s != [] {
      UpdateTail(s, content);
      assert |s| > 1 ==> MeetsAt(s, 0);
      LowerClients(s[1..], content, c);
    }
  }

  lemma ClientListCons(t: Struct, s: seq<Struct>, c: nat, content: Content)
    requires ClientList(s, c, content) && t.client == c && From(t, content)
    requires s != [] ==> t.End() == s[0].clock
    ensures ClientList([t] + s, c, content)
  {
    var r := [t] + s;
    forall i | 0 <= i < |r| ensures EntryAt(r, c, content, i) {
      assert i > 0 ==> EntryAt(s, c, content, i - 1);
    }
    forall i | 0 <= i < |r| - 1 ensures JoinsAt(r, i) {
      assert i > 0 ==> JoinsAt(s, i - 1);
    }
  }

  lemma {:induction false} ByClientList(s: seq<Struct>, content: Content, c: nat)
    requires Update(s, content)
    ensures ClientList(ByClient(s, c), c, content)
  {
    if s != [] {
      UpdateTail(s, content);
      ByClientList(s[1..], content, c);
      if s[0].client == c {
        assert From(s[0], content);
        if |s| > 1 {
          assert MeetsAt(s, 0);
          if s[1].client == c {
            assert ByClient(s[1..], c)[0] == s[1];
          } else {
            LowerClients(s[1..], content, c);
          }
        }
        ClientListCons(s[0], ByClient(s[1..], c), c, content);
      }
    }
  }

  // ----- Writing -----

  /** `writeClientsStructs`: the structs of the clients, higher clients first. */
  function Written(refs: I.Refs, cs: set<nat>): seq<Struct>
    requires cs <= refs.Keys
  {
    if cs == {} then [] else refs[I.Largest(cs)] + Written(refs, cs - {I.Largest(cs)})
  }

  lemma HoldsConcat(a: seq<Struct>, b: seq<Struct>, id: ID)
    ensures Holds(a + b, id) <==> Holds(a, id) || Holds(b, id)
  {
    if i :| 0 <= i < |a| && MergeUpdates.Has(a[i], id) {
      assert MergeUpdates.Has((a + b)[i], id);
    }
    if i :| 0 <= i < |b| && MergeUpdates.Has(b[i], id) {
      assert MergeUpdates.Has((a + b)[|a| + i], id);
    }
    if i :| 0 <= i < |a + b| && MergeUpdates.Has((a + b)[i], id) {
      assert if i < |a| then MergeUpdates.Has(a[i], id) else MergeUpdates.Has(b[i - |a|], id);
    }
  }

  lemma UpdateConcat(a: seq<Struct>, b: seq<Struct>, c: nat, content: Content)
    requires ClientList(a, c, content) && Update(b, content) && (b != [] ==> b[0].client < c)
    ensures Update(a + b, content)
  {
    var s := a + b;
    forall i | 0 <= i < |s| - 1 ensures MeetsAt(s, i) {
      if i < |a| {
        assert EntryAt(a, c, content, i);
      }
      if i < |a| - 1 {
        assert EntryAt(a, c, content, i + 1) && JoinsAt(a, i);
      } else if i >= |a| {
        assert MeetsAt(b, i - |a|);
      }
    }
    forall i | 0 <= i < |s| ensures From(s[i], content) {
      assert i < |a| ==> EntryAt(a, c, content, i);
    }
  }

  /** What is written is an update, with the ids of the lists. */
  lemma {:induction false} WrittenUpdate(refs: I.Refs, cs: set<nat>, content: Content)
    requires cs <= refs.Keys && forall c <- cs :: ClientList(refs[c], c, content)
    ensures Update(Written(refs, cs), content)
    ensures Written(refs, cs) != [] ==> Written(refs, cs)[0].client in cs
    ensures forall id :: Holds(Written(refs, cs), id) <==> id.client in cs && Holds(refs[id.client], id)
  {
    if cs != {} {
      var m := I.Largest(cs);
      var rest := cs - {m};
      WrittenUpdate(refs, rest, content);
      if refs[m] != [] {
        assert EntryAt(refs[m], m, content, 0);
      }
      UpdateConcat(refs[m], Written(refs, rest), m, content);
      forall id ensures Holds(Written(refs, cs), id) <==> id.client in cs && Holds(refs[id.client], id) {
        HoldsConcat(refs[m], Written(refs, rest), id);
        if Holds(refs[m], id) {
          var i :| 0 <= i < |refs[m]| && MergeUpdates.Has(refs[m][i], id);
          assert EntryAt(refs[m], m, content, i);
        }
      }
    }
  }

  lemma {:induction false} ByClientConcat(a: seq<Struct>, b: seq<Struct>, c: nat)
    ensures ByClient(a + b, c) == ByClient(a, c) + ByClient(b, c)
  {
    if a == [] {
      assert a + b == b;
    } else {
      ByClientConcat(a[1..], b, c);
      ByClientCons(a[0], a[1..], b, c);
      assert [a[0]] + a[1..] == a;
    }
  }

  lemma ByClientCons(x: Struct, a: seq<Struct>, b: seq<Struct>, c: nat)
    requires ByClient(a + b, c) == ByClient(a, c) + ByClient(b, c)
    ensures ByClient([x] + a + b, c) == ByClient([x] + a, c) + ByClient(b, c)
  {
    Associative([x], a, b);
    assert ([x] + a)[1..] == a && ([x] + (a + b))[1..] == a + b;
  }

  lemma {:induction false} ByClientOwn(s: seq<Struct>, c: nat, d: nat)
    requires forall t <- s :: t.client == c
    ensures ByClient(s, d) == if d == c then s else []
  {
    if s != [] {
      ByClientOwn(s[1..], c, d);
    }
  }

  /** Reading what was written gives the lists back. */
  lemma {:induction false} ReadWritten(refs: I.Refs, cs: set<nat>, c: nat)
    requires cs <= refs.Keys && forall d <- cs, t <- refs[d] :: t.client == d
    ensures ByClient(Written(refs, cs), c) == if c in cs then refs[c] else []
  {
    if cs != {} {
      var m := I.Largest(cs);
      ReadWritten(refs, cs - {m}, c);
      ByClientConcat(refs[m], Written(refs, cs - {m}), c);
      ByClientOwn(refs[m], m, c);
    }
  }
}
