/** `integrateStructs`, one by one. */
module IntegrateStructs {
  // Structs are integrated in the order of their dependencies, with a stack of structs that
  // wait for another client's structs.

  import opened Common
  import opened Yata
  import opened Structs

  type Refs = map<nat, seq<Struct>>

  /** The variables of `integrateStructs`: `refs` and `read` are `clientsStructRefs` with
      the fields `i`, `ids` is `clientsStructRefsIds`, `rest` is `restStructs`, `state`
      caches states of the store `sv`, and `applied` lists the calls of `integrate`. */
  datatype Vars = Vars(refs: Refs, read: map<nat, nat>, ids: seq<nat>, stack: seq<Struct>, rest: Refs,
                       missing: map<nat, nat>, state: map<nat, nat>, sv: StateVector, applied: seq<Struct>)

  datatype Leftovers = Leftovers(structs: Refs, missing: map<nat, nat>)

  // ----- What is assumed of an update -----

  ghost predicate OkAt(refs: Refs, time: Time, c: nat, k: nat)
    requires c in refs && k < |refs[c]|
  {
    refs[c][k].client == c && refs[c][k].len > 0 && Acyclic(time, refs[c][k])
  }

  /** Each list holds structs of its own client, and nothing depends on itself. */
  ghost predicate WellFormed(refs: Refs, time: Time) {
    && ClocksAscend(time)
    && (forall c, k :: c in refs && 0 <= k < |refs[c]| ==> OkAt(refs, time, c, k))
  }

  // ----- Order of the clients -----

  function Largest(s: set<nat>): (m: nat)
    requires s != {}
    ensures m in s && forall x <- s :: x <= m
  {
    HasLargest(s);
    var m :| m in s && forall x <- s :: x <= m;
    m
  }

  lemma {:induction false} HasLargest(s: set<nat>)
    requires s != {}
    ensures exists m :: m in s && forall x <- s :: x <= m
  {
    var x :| x in s;
    if s != {x} {
      var t := s - {x};
      HasLargest(t);
      var m :| m in t && forall y <- t :: y <= m;
      assert forall y <- s :: y == x || y in t;
      var n := if x <= m then m else x;
      assert n in s && forall y <- s :: y <= n;
    }
  }

  function Ascending(s: set<nat>): (r: seq<nat>)
    ensures forall x :: x in r <==> x in s
  {
    if s == {} then [] else Ascending(s - {Largest(s)}) + [Largest(s)]
  }

  /** `filter`: the ids that are not in a set. */
  function Without(ids: seq<nat>, s: set<nat>): (r: seq<nat>)
    ensures forall x :: x in r <==> x in ids && x !in s
  {
    if ids == [] then []
    else if ids[0] in s then Without(ids[1..], s)
    else [ids[0]] + Without(ids[1..], s)
  }

  lemma {:induction false} WithoutTwice(ids: seq<nat>, s: set<nat>, t: set<nat>)
    ensures Without(Without(ids, s), t) == Without(ids, s + t)
  {
    if ids != [] {
      WithoutTwice(ids[1..], s, t);
      var rest := Without(ids[1..], s);
      if ids[0] !in s {
        assert Without(ids, s) == [ids[0]] + rest;
        assert ([ids[0]] + rest)[1..] == rest;
      }
    }
  }

  // ----- The invariant -----

  /** In the store, or nothing to integrate. */
  ghost predicate Done(s: Struct, sv: StateVector) {
    s.Skip? || s.End() <= State(sv, s.client)
  }

  /** `pend` are the structs that were read and are not settled: the stack and its head.
      Each is the last one that was read of its client. */
  ghost predicate PendAt(v: Vars, pend: seq<Struct>, m: nat)
    requires m < |pend|
  {
    var c := pend[m].client;
    c in v.refs && c in v.read && 0 < v.read[c] <= |v.refs[c]| && v.refs[c][v.read[c] - 1] == pend[m]
  }

  ghost predicate ReadAt(v: Vars, pend: seq<Struct>, c: nat, k: nat)
    requires c in v.refs && c in v.read && k < |v.refs[c]|
  {
    Done(v.refs[c][k], v.sv) || (k + 1 == v.read[c] && v.refs[c][k] in pend)
  }

  ghost predicate RestAt(refs0: Refs, v: Vars, c: nat)
    requires c in v.rest
  {
    && c in refs0 && 0 < |v.rest[c]| <= |refs0[c]|
    && v.rest[c] == refs0[c][|refs0[c]| - |v.rest[c]|..]
    && (forall k :: 0 <= k < |refs0[c]| - |v.rest[c]| ==> Done(refs0[c][k], v.sv))
  }

  ghost predicate Differ(pend: seq<Struct>, i: nat, j: nat)
    requires i < j < |pend|
  {
    pend[i].client != pend[j].client
  }

  /** Every client is being read or given up, and the ids still to visit are known. */
  ghost predicate Domains(refs0: Refs, v: Vars) {
    && v.refs.Keys == v.read.Keys && v.refs.Keys !! v.rest.Keys && v.refs.Keys + v.rest.Keys == refs0.Keys
    && (forall c :: c in v.refs ==> v.refs[c] == refs0[c] && v.read[c] <= |v.refs[c]|)
    && (forall c :: c in v.refs && v.read[c] < |v.refs[c]| ==> c in v.ids)
    && (forall c :: c in v.ids ==> c in v.refs)
  }

  ghost predicate AllRead(v: Vars, pend: seq<Struct>)
    requires v.refs.Keys == v.read.Keys && forall c :: c in v.refs ==> v.read[c] <= |v.refs[c]|
  {
    forall c, k :: c in v.refs && 0 <= k < v.read[c] ==> ReadAt(v, pend, c, k)
  }

  ghost predicate AllPend(v: Vars, pend: seq<Struct>) {
    && (forall m :: 0 <= m < |pend| ==> PendAt(v, pend, m))
    && (forall i, j :: 0 <= i < j < |pend| ==> Differ(pend, i, j))
  }

  ghost predicate AllRest(refs0: Refs, v: Vars) {
    forall c :: c in v.rest ==> RestAt(refs0, v, c)
  }

  /** No struct of the update gets lost. */
  ghost predicate Conserved(refs0: Refs, v: Vars, pend: seq<Struct>) {
    Domains(refs0, v) && AllRead(v, pend) && AllPend(v, pend) && AllRest(refs0, v)
  }

  function Clients(pend: seq<Struct>): set<nat> {
    set p <- pend :: p.client
  }

  /** Nothing more of this client will be integrated. */
  ghost predicate Final(v: Vars, pend: seq<Struct>, c: nat) {
    c !in v.refs || (c in v.read && v.read[c] == |v.refs[c]| && c !in Clients(pend))
  }

  /** Why a leftover stays blocked, and what `missing` says about it. */
  ghost predicate StuckOn(v: Vars, pend: seq<Struct>, c: nat) {
    Final(v, pend, c) && (c in v.rest || (c in v.missing && v.missing[c] <= State(v.sv, c)))
  }

  /** Behind a gap the clock before the struct is recorded, or a smaller one; else it is
      the client of the first missing dependency that matters. */
  ghost predicate Stuck(v: Vars, pend: seq<Struct>, h: Struct) {
    if State(v.sv, h.client) < h.clock then h.client in v.missing && v.missing[h.client] < h.clock
    else
      var m := Missing(h, v.sv);
      m.Some? && StuckOn(v, pend, m.value)
  }

  ghost predicate StuckAt(v: Vars, pend: seq<Struct>, c: nat)
    requires c in v.rest
  {
    v.rest[c] != [] && !v.rest[c][0].Skip? && Stuck(v, pend, v.rest[c][0])
  }

  /** A struct on the stack waits for the client of the one above it. */
  ghost predicate WaitsAt(v: Vars, pend: seq<Struct>, m: nat)
    requires m + 1 < |pend|
  {
    && !pend[m].Skip? && pend[m].clock <= State(v.sv, pend[m].client)
    && WaitsFor(pend[m], pend[m + 1].client, v.sv)
  }

  /** Every leftover stays blocked. */
  ghost predicate AllStuck(v: Vars, pend: seq<Struct>) {
    forall c :: c in v.rest ==> StuckAt(v, pend, c)
  }

  ghost predicate AllWait(v: Vars, pend: seq<Struct>) {
    forall m :: 0 <= m < |pend| - 1 ==> WaitsAt(v, pend, m)
  }

  /** The cached states are those of the store. */
  ghost predicate Cached(v: Vars) {
    forall c :: c in v.state ==> v.state[c] == State(v.sv, c)
  }

  /** The store is what the calls of `integrate` made of it, each of which was ready. */
  ghost predicate Lawful(refs0: Refs, sv0: StateVector, v: Vars) {
    Legal(sv0, v.applied) && v.sv == Replay(sv0, v.applied) && AllListed(refs0, v.applied)
  }

  /** Nothing is integrated that is not in the update. */
  ghost predicate ListedAt(refs0: Refs, applied: seq<Struct>, i: nat)
    requires i < |applied|
  {
    applied[i].client in refs0 && applied[i] in refs0[applied[i].client]
  }

  ghost predicate AllListed(refs0: Refs, applied: seq<Struct>) {
    forall i :: 0 <= i < |applied| ==> ListedAt(refs0, applied, i)
  }

  /** A recorded clock is not in the store, and does not get there any more. */
  ghost predicate NotedAt(v: Vars, pend: seq<Struct>, c: nat)
    requires c in v.missing
  {
    State(v.sv, c) <= v.missing[c] && Final(v, pend, c)
  }

  ghost predicate Noted(v: Vars, pend: seq<Struct>) {
    forall c <- v.missing :: NotedAt(v, pend, c)
  }

  ghost predicate Core(refs0: Refs, sv0: StateVector, v: Vars, pend: seq<Struct>) {
    Conserved(refs0, v, pend) && AllStuck(v, pend) && AllWait(v, pend) && Cached(v) && Lawful(refs0, sv0, v)
  }

  /** Everything was read. */
  ghost predicate ReadUp(v: Vars) {
    forall c <- v.refs :: c in v.read && v.read[c] == |v.refs[c]|
  }

  /** Why `clock` is recorded for `client`: a struct stands behind a gap of its own client, or
      its first missing dependency is of that client. */
  ghost predicate Cause(sv: StateVector, h: Struct, client: nat, clock: nat) {
    if State(sv, h.client) < h.clock then client == h.client && clock == h.clock - 1
    else Missing(h, sv) == Some(client) && clock == State(sv, client)
  }

  /** What is recorded is recorded for a leftover. */
  ghost predicate ReasonAt(rest: Refs, missing: map<nat, nat>, sv: StateVector, c: nat)
    requires c in missing
  {
    exists b <- rest :: rest[b] != [] && Cause(sv, rest[b][0], c, missing[c])
  }

  ghost predicate Reasoned(v: Vars) {
    forall c <- v.missing :: ReasonAt(v.rest, v.missing, v.sv, c)
  }

  ghost predicate Inv(refs0: Refs, sv0: StateVector, v: Vars, pend: seq<Struct>) {
    Core(refs0, sv0, v, pend) && Noted(v, pend) && Reasoned(v)
  }

  /** What of the invariant is needed to look up a struct. */
  lemma Readable(refs0: Refs, sv0: StateVector, v: Vars, pend: seq<Struct>)
    requires Inv(refs0, sv0, v, pend)
    ensures v.refs.Keys == v.read.Keys && forall c <- v.refs :: v.read[c] <= |v.refs[c]|
    ensures (forall c <- v.ids :: c in v.refs) && forall c <- v.refs :: v.read[c] < |v.refs[c]| ==> c in v.ids
    ensures Cached(v) && forall c <- v.missing :: State(v.sv, c) <= v.missing[c] && Final(v, pend, c)
  {
    assert forall c <- v.missing :: NotedAt(v, pend, c);
  }

  // ----- The calls of `integrate` -----

  /** A struct may be integrated: it extends its client, and what it refers to is there. */
  ghost predicate Ready(s: Struct, sv: StateVector) {
    !s.Skip? && s.clock <= State(sv, s.client) < s.End() && Missing(s, sv).None?
  }

  function Replay(sv: StateVector, applied: seq<Struct>): StateVector {
    if applied == [] then sv
    else Replay(sv, applied[..|applied| - 1])[applied[|applied| - 1].client := applied[|applied| - 1].End()]
  }

  ghost predicate Legal(sv: StateVector, applied: seq<Struct>) {
    applied == [] || (Legal(sv, applied[..|applied| - 1]) &&
      Ready(applied[|applied| - 1], Replay(sv, applied[..|applied| - 1])))
  }

  // ----- Dead ends -----

  lemma PendingClients(v: Vars)
    requires AllPend(v, v.stack)
    ensures forall c <- Clients(v.stack) :: c in v.refs && c in v.read && 0 < v.read[c] <= |v.refs[c]|
  {
    forall c | c in Clients(v.stack) ensures c in v.refs && c in v.read && 0 < v.read[c] <= |v.refs[c]| {
      var m :| 0 <= m < |v.stack| && v.stack[m].client == c;
      assert PendAt(v, v.stack, m);
    }
  }

  function Unread(v: Vars, cs: set<nat>): Refs
    requires forall c <- cs :: c in v.refs && c in v.read && 0 < v.read[c] <= |v.refs[c]|
  {
    map c | c in cs :: v.refs[c][v.read[c] - 1..]
  }

  /** The variables after the clients `cs` went to the leftovers: what was not read of
      them, and the last struct that was. */
  function GivenUp(v: Vars, cs: set<nat>): Vars
    requires forall c <- cs :: c in v.refs && c in v.read && 0 < v.read[c] <= |v.refs[c]|
  {
    v.(refs := v.refs - cs, read := v.read - cs, ids := Without(v.ids, cs),
       rest := v.rest + Unread(v, cs))
  }

  lemma UnreadNext(v: Vars, cs: set<nat>, c: nat)
    requires forall e <- cs + {c} :: e in v.refs && e in v.read && 0 < v.read[e] <= |v.refs[e]|
    ensures v.rest + Unread(v, cs + {c}) == (v.rest + Unread(v, cs))[c := v.refs[c][v.read[c] - 1..]]
  {
    UnreadMore(v, cs, c);
    PlusUpdate(v.rest, Unread(v, cs), c, v.refs[c][v.read[c] - 1..]);
  }

  lemma UnreadMore(v: Vars, cs: set<nat>, c: nat)
    requires forall e <- cs + {c} :: e in v.refs && e in v.read && 0 < v.read[e] <= |v.refs[e]|
    ensures Unread(v, cs + {c}) == Unread(v, cs)[c := v.refs[c][v.read[c] - 1..]]
  {
    assert c in cs + {c};
  }

  lemma PlusUpdate(a: Refs, b: Refs, c: nat, s: seq<Struct>)
    ensures a + b[c := s] == (a + b)[c := s]
  {
  }

  lemma GivenUpNext(v: Vars, cs: set<nat>, c: nat)
    requires forall e <- cs + {c} :: e in v.refs && e in v.read && 0 < v.read[e] <= |v.refs[e]|
    requires c !in cs
    ensures var r := GivenUp(v, cs);
      && c in r.refs && c in r.read && r.refs[c] == v.refs[c] && r.read[c] == v.read[c]
      && GivenUp(v, cs + {c}) == r.(rest := r.rest[c := r.refs[c][r.read[c] - 1..]], refs := r.refs - {c},
                                    read := r.read - {c}, ids := Without(r.ids, {c}))
  {
    var r := GivenUp(v, cs);
    WithoutTwice(v.ids, cs, {c});
    UnreadNext(v, cs, c);
    assert r.refs[c] == v.refs[c] && r.read[c] == v.read[c];
    assert v.refs - (cs + {c}) == (v.refs - cs) - {c};
    assert v.read - (cs + {c}) == (v.read - cs) - {c};
  }

  /** One round of `addStackToRestSS`: the client of the struct goes to the leftovers. */
  function GiveUpOne(v: Vars, item: Struct): Vars {
    var c := item.client;
    var w := if c in v.refs && c in v.read && 0 < v.read[c] <= |v.refs[c]|
             then v.(rest := v.rest[c := v.refs[c][v.read[c] - 1..]], refs := v.refs - {c}, read := v.read - {c})
             else v.(rest := v.rest[c := [item]]);
    w.(ids := Without(w.ids, {c}))
  }

  function GiveUpAll(v: Vars, stack: seq<Struct>): Vars {
    if stack == [] then v else GiveUpOne(GiveUpAll(v, stack[..|stack| - 1]), stack[|stack| - 1])
  }

  lemma {:induction false} GiveUpAllIs(v: Vars, n: nat)
    requires AllPend(v, v.stack) && n <= |v.stack|
    ensures forall c <- Clients(v.stack[..n]) :: c in v.refs && c in v.read && 0 < v.read[c] <= |v.refs[c]|
    ensures GiveUpAll(v, v.stack[..n]) == GivenUp(v, Clients(v.stack[..n]))
  {
    PendingClients(v);
    if n == 0 {
      EmptyGivenUp(v);
    } else {
      assert v.stack[..n][..n - 1] == v.stack[..n - 1];
      GiveUpAllIs(v, n - 1);
      NextClient(v.stack, n - 1);
      GivenUpNext(v, Clients(v.stack[..n - 1]), v.stack[n - 1].client);
    }
  }

  /** `addStackToRestSS`. */
  method AddStackToRest(v: Vars) returns (r: Vars)
    requires AllPend(v, v.stack)
    ensures forall c <- Clients(v.stack) :: c in v.refs && c in v.read && 0 < v.read[c] <= |v.refs[c]|
    ensures r == GivenUp(v, Clients(v.stack)).(stack := []) == GiveUpAll(v, v.stack).(stack := [])
  {
    PendingClients(v);
    r := v;
    EmptyGivenUp(v);
    for n := 0 to |v.stack|
      invariant Clients(v.stack[..n]) <= Clients(v.stack)
      invariant r == GivenUp(v, Clients(v.stack[..n]))
    {
      var item := v.stack[n];
      NextClient(v.stack, n);
      GivenUpNext(v, Clients(v.stack[..n]), item.client);
      if item.client in r.refs {
        var i := r.read[item.client] - 1;
        r := r.(rest := r.rest[item.client := r.refs[item.client][i..]], refs := r.refs - {item.client},
          read := r.read - {item.client});
      } else {
        r := r.(rest := r.rest[item.client := [item]]);
      }
      r := r.(ids := Without(r.ids, {item.client}));
    }
    assert v.stack[..|v.stack|] == v.stack;
    GiveUpAllIs(v, |v.stack|);
    r := r.(stack := []);
  }

  lemma {:induction false} WithoutNone(ids: seq<nat>)
    ensures Without(ids, {}) == ids
  {
    if ids != [] {
      WithoutNone(ids[1..]);
    }
  }

  lemma EmptyGivenUp(v: Vars)
    ensures Clients(v.stack[..0]) == {} && GivenUp(v, {}) == v
  {
    WithoutNone(v.ids);
    assert Unread(v, {}) == map[];
  }

  lemma NextClient(stack: seq<Struct>, n: nat)
    requires n < |stack| && forall i, j :: 0 <= i < j < |stack| ==> Differ(stack, i, j)
    ensures Clients(stack[..n + 1]) == Clients(stack[..n]) + {stack[n].client}
    ensures stack[n].client !in Clients(stack[..n]) && Clients(stack[..n + 1]) <= Clients(stack)
  {
    assert stack[..n + 1] == stack[..n] + [stack[n]];
    forall p | p in stack[..n] ensures p.client != stack[n].client {
      var i :| 0 <= i < n && stack[i] == p;
      assert Differ(stack, i, n);
    }
  }

  // ----- What the steps of the loop keep -----

  lemma SettleConserved(refs0: Refs, v: Vars, head: Struct)
    requires Conserved(refs0, v, v.stack + [head]) && Done(head, v.sv)
    ensures Conserved(refs0, v, v.stack)
  {
    var pend := v.stack + [head];
    forall c, k | c in v.refs && 0 <= k < v.read[c] ensures ReadAt(v, v.stack, c, k) {
      assert ReadAt(v, pend, c, k);
    }
    forall m | 0 <= m < |v.stack| ensures PendAt(v, v.stack, m) {
      assert PendAt(v, pend, m);
    }
    forall i, j | 0 <= i < j < |v.stack| ensures Differ(v.stack, i, j) {
      assert Differ(pend, i, j);
    }
  }

  lemma SettleStuck(v: Vars, head: Struct)
    requires AllStuck(v, v.stack + [head])
    ensures AllStuck(v, v.stack)
  {
    var pend := v.stack + [head];
    forall c | c in v.rest ensures StuckAt(v, v.stack, c) {
      assert StuckAt(v, pend, c);
      assert Clients(v.stack) <= Clients(pend);
      StuckMono(v, pend, v, v.stack, v.rest[c][0]);
    }
  }

  /** A struct that is settled is no longer pending. */
  lemma Settle(refs0: Refs, sv0: StateVector, v: Vars, head: Struct)
    requires Inv(refs0, sv0, v, v.stack + [head]) && Done(head, v.sv)
    ensures Inv(refs0, sv0, v, v.stack)
  {
    SettleConserved(refs0, v, head);
    SettleStuck(v, head);
    SettleNoted(v, head);
    forall m | 0 <= m < |v.stack| - 1 ensures WaitsAt(v, v.stack, m) {
      assert WaitsAt(v, v.stack + [head], m);
    }
  }

  lemma SettleNoted(v: Vars, head: Struct)
    requires Noted(v, v.stack + [head])
    ensures Noted(v, v.stack)
  {
    forall c | c in v.missing ensures NotedAt(v, v.stack, c) {
      assert NotedAt(v, v.stack + [head], c) && Clients(v.stack) <= Clients(v.stack + [head]);
    }
  }

  /** Being stuck does not depend on more than what stays as it is. */
  lemma StuckMono(v: Vars, pend: seq<Struct>, v': Vars, pend': seq<Struct>, h: Struct)
    requires Stuck(v, pend, h)
    requires forall c :: c in v.rest ==> c in v'.rest
    requires forall c :: c in v.missing ==> c in v'.missing && v'.missing[c] <= v.missing[c]
    requires forall c :: Final(v, pend, c) ==> Final(v', pend', c) && State(v.sv, c) == State(v'.sv, c)
    requires State(v.sv, h.client) == State(v'.sv, h.client) && Grows(v.sv, v'.sv)
    ensures Stuck(v', pend', h)
  {
    if h.clock <= State(v.sv, h.client) {
      StillFirst(h, v.sv, v'.sv, Missing(h, v.sv).value);
    }
  }

  /** Reading the next struct of a client. */
  function Read(v: Vars, pend: seq<Struct>, c: nat): Vars
    requires c in v.read
  {
    v.(read := v.read[c := v.read[c] + 1], stack := pend)
  }

  lemma ReadConserved(refs0: Refs, time: Time, v: Vars, pend: seq<Struct>, c: nat)
    requires WellFormed(refs0, time) && Conserved(refs0, v, pend)
    requires c in v.refs && v.read[c] < |v.refs[c]| && c !in Clients(pend)
    ensures Conserved(refs0, Read(v, pend, c), pend + [v.refs[c][v.read[c]]])
  {
    var h, v' := v.refs[c][v.read[c]], Read(v, pend, c);
    var pend' := pend + [h];
    assert OkAt(refs0, time, c, v.read[c]);
    forall b, k | b in v'.refs && 0 <= k < v'.read[b] ensures ReadAt(v', pend', b, k) {
      if !(b == c && k == v.read[c]) {
        assert ReadAt(v, pend, b, k);
        if b == c {
          assert OkAt(refs0, time, c, k);
        }
      }
    }
    forall m | 0 <= m < |pend'| ensures PendAt(v', pend', m) {
      if m < |pend| {
        assert PendAt(v, pend, m) && pend[m].client in Clients(pend);
      }
    }
    forall i, j | 0 <= i < j < |pend'| ensures Differ(pend', i, j) {
      assert pend[i].client in Clients(pend);
      assert j < |pend| ==> Differ(pend, i, j);
    }
    forall b | b in v'.rest ensures RestAt(refs0, v', b) {
      assert RestAt(refs0, v, b);
    }
  }

  lemma ReadStuck(v: Vars, pend: seq<Struct>, c: nat)
    requires AllStuck(v, pend) && c in v.refs && c in v.read && v.read[c] < |v.refs[c]|
    requires v.refs[c][v.read[c]].client == c
    ensures AllStuck(Read(v, pend, c), pend + [v.refs[c][v.read[c]]])
  {
    var h, v' := v.refs[c][v.read[c]], Read(v, pend, c);
    var pend' := pend + [h];
    assert Clients(pend') == Clients(pend) + {c};
    forall b | Final(v, pend, b) ensures Final(v', pend', b) {
    }
    forall b | b in v'.rest ensures StuckAt(v', pend', b) {
      assert StuckAt(v, pend, b);
      StuckMono(v, pend, v', pend', v.rest[b][0]);
    }
  }

  lemma ReadWait(v: Vars, pend: seq<Struct>, c: nat)
    requires AllWait(v, pend) && c in v.refs && c in v.read && v.read[c] < |v.refs[c]|
    requires v.refs[c][v.read[c]].client == c
    requires pend != [] ==> !pend[|pend| - 1].Skip? && pend[|pend| - 1].clock <= State(v.sv, pend[|pend| - 1].client)
    requires pend != [] ==> WaitsFor(pend[|pend| - 1], c, v.sv)
    ensures AllWait(Read(v, pend, c), pend + [v.refs[c][v.read[c]]])
  {
    hide WaitsFor;
    var v', pend' := Read(v, pend, c), pend + [v.refs[c][v.read[c]]];
    forall m | 0 <= m < |pend'| - 1 ensures WaitsAt(v', pend', m) {
      assert m < |pend| - 1 ==> WaitsAt(v, pend, m);
    }
  }

  /** Reading the next struct of a client that is not pending. */
  lemma ReadNext(refs0: Refs, sv0: StateVector, time: Time, v: Vars, pend: seq<Struct>, c: nat)
    requires WellFormed(refs0, time) && Inv(refs0, sv0, v, pend)
    requires c in v.refs && v.read[c] < |v.refs[c]| && c !in Clients(pend)
    requires pend != [] ==> !pend[|pend| - 1].Skip? && pend[|pend| - 1].clock <= State(v.sv, pend[|pend| - 1].client)
    requires pend != [] ==> WaitsFor(pend[|pend| - 1], c, v.sv)
    ensures Inv(refs0, sv0, Read(v, pend, c), pend + [v.refs[c][v.read[c]]])
  {
    hide AllWait, AllStuck, Noted, Legal;
    assert OkAt(refs0, time, c, v.read[c]);
    ReadConserved(refs0, time, v, pend, c);
    ReadStuck(v, pend, c);
    ReadWait(v, pend, c);
    ReadNoted(v, pend, c);
  }

  lemma ReadNoted(v: Vars, pend: seq<Struct>, c: nat)
    requires Noted(v, pend) && v.refs.Keys == v.read.Keys && c in v.refs && v.read[c] < |v.refs[c]|
    requires v.refs[c][v.read[c]].client == c
    ensures Noted(Read(v, pend, c), pend + [v.refs[c][v.read[c]]])
  {
    var v', pend' := Read(v, pend, c), pend + [v.refs[c][v.read[c]]];
    forall b | b in v'.missing ensures NotedAt(v', pend', b) {
      assert NotedAt(v, pend, b) && Clients(pend') == Clients(pend) + {c};
    }
  }

  /** What `integrate` does to the variables. */
  function Applied(v: Vars, head: Struct): Vars {
    v.(sv := v.sv[head.client := head.End()], applied := v.applied + [head],
      state := v.state[head.client := head.End()])
  }

  lemma AppliedConserved(refs0: Refs, v: Vars, head: Struct)
    requires Conserved(refs0, v, v.stack + [head]) && State(v.sv, head.client) < head.End()
    ensures Conserved(refs0, Applied(v, head), v.stack + [head])
  {
    var pend, v' := v.stack + [head], Applied(v, head);
    forall c, k | c in v.refs && 0 <= k < v.read[c] ensures ReadAt(v', pend, c, k) {
      assert ReadAt(v, pend, c, k);
    }
    forall m | 0 <= m < |pend| ensures PendAt(v', pend, m) {
      assert PendAt(v, pend, m);
    }
    forall c | c in v.rest ensures RestAt(refs0, v', c) {
      assert RestAt(refs0, v, c);
    }
  }

  lemma AppliedStuck(refs0: Refs, time: Time, v: Vars, head: Struct)
    requires WellFormed(refs0, time) && Conserved(refs0, v, v.stack + [head]) && AllStuck(v, v.stack + [head])
    requires State(v.sv, head.client) < head.End()
    ensures AllStuck(Applied(v, head), v.stack + [head])
  {
    hide Stuck;
    var pend, v' := v.stack + [head], Applied(v, head);
    AppliedFinal(refs0, v, head);
    RestClients(refs0, time, v);
    forall c | c in v.rest ensures StuckAt(v', pend, c) {
      assert StuckAt(v, pend, c) && Final(v, pend, c);
      StuckMono(v, pend, v', pend, v.rest[c][0]);
    }
  }

  /** What is final stays as it is. */
  lemma AppliedFinal(refs0: Refs, v: Vars, head: Struct)
    requires Conserved(refs0, v, v.stack + [head]) && State(v.sv, head.client) < head.End()
    ensures Grows(v.sv, Applied(v, head).sv)
    ensures forall c :: Final(v, v.stack + [head], c) ==>
      Final(Applied(v, head), v.stack + [head], c) && State(v.sv, c) == State(Applied(v, head).sv, c)
  {
    var pend := v.stack + [head];
    assert PendAt(v, pend, |v.stack|) && pend[|v.stack|] == head && head.client in Clients(pend);
  }

  lemma AppliedWait(refs0: Refs, v: Vars, head: Struct)
    requires Conserved(refs0, v, v.stack + [head]) && AllWait(v, v.stack + [head])
    requires State(v.sv, head.client) < head.End()
    ensures AllWait(Applied(v, head), v.stack)
  {
    var pend, v' := v.stack + [head], Applied(v, head);
    forall m | 0 <= m < |v.stack| - 1 ensures WaitsAt(v', v.stack, m) {
      assert WaitsAt(v, pend, m) && Differ(pend, m, |v.stack|) && Differ(pend, m + 1, |v.stack|);
      StillWaits(pend[m], pend[m + 1].client, v.sv, v'.sv);
    }
  }

  lemma StillWaits(s: Struct, c: nat, sv: StateVector, sv': StateVector)
    requires WaitsFor(s, c, sv) && State(sv, c) == State(sv', c) && Grows(sv, sv')
    ensures WaitsFor(s, c, sv')
  {
    StillFirst(s, sv, sv', c);
  }

  lemma AppliedLawful(sv0: StateVector, v: Vars, head: Struct)
    requires Legal(sv0, v.applied) && v.sv == Replay(sv0, v.applied) && Ready(head, v.sv)
    ensures var v' := Applied(v, head); Legal(sv0, v'.applied) && v'.sv == Replay(sv0, v'.applied)
  {
    assert (v.applied + [head])[..|v.applied|] == v.applied;
  }

  lemma AppliedListed(refs0: Refs, v: Vars, head: Struct)
    requires AllListed(refs0, v.applied) && Domains(refs0, v) && PendAt(v, v.stack + [head], |v.stack|)
    ensures AllListed(refs0, Applied(v, head).applied)
  {
    var applied := v.applied + [head];
    forall i | 0 <= i < |applied| ensures ListedAt(refs0, applied, i) {
      assert i < |v.applied| ==> ListedAt(refs0, v.applied, i);
    }
  }

  lemma RestClients(refs0: Refs, time: Time, v: Vars)
    requires WellFormed(refs0, time) && AllRest(refs0, v)
    ensures forall c <- v.rest :: v.rest[c] != [] ==> v.rest[c][0].client == c
  {
    forall c | c in v.rest && v.rest[c] != [] ensures v.rest[c][0].client == c {
      assert RestAt(refs0, v, c) && OkAt(refs0, time, c, |refs0[c]| - |v.rest[c]|);
    }
  }

  /** Integrating a struct settles it. */
  lemma Apply(refs0: Refs, sv0: StateVector, time: Time, v: Vars, head: Struct)
    requires WellFormed(refs0, time) && Inv(refs0, sv0, v, v.stack + [head]) && Ready(head, v.sv)
    ensures Inv(refs0, sv0, Applied(v, head), v.stack)
  {
    AppliedConserved(refs0, v, head);
    AppliedStuck(refs0, time, v, head);
    AppliedWait(refs0, v, head);
    AppliedLawful(sv0, v, head);
    AppliedListed(refs0, v, head);
    AppliedNoted(refs0, v, head);
    RestClients(refs0, time, v);
    AppliedReasoned(refs0, v, head);
    SettleConserved(refs0, Applied(v, head), head);
    SettleStuck(Applied(v, head), head);
    SettleNoted(Applied(v, head), head);
  }

  /** What is recorded is recorded for the same leftover as before. */
  lemma AppliedReasoned(refs0: Refs, v: Vars, head: Struct)
    requires Conserved(refs0, v, v.stack + [head]) && Noted(v, v.stack + [head]) && Reasoned(v)
    requires forall c <- v.rest :: v.rest[c] != [] ==> v.rest[c][0].client == c
    requires State(v.sv, head.client) < head.End()
    ensures Reasoned(Applied(v, head))
  {
    hide Cause;
    var pend, v' := v.stack + [head], Applied(v, head);
    AppliedFinal(refs0, v, head);
    forall c | c in v'.missing ensures ReasonAt(v'.rest, v'.missing, v'.sv, c) {
      assert NotedAt(v, pend, c) && ReasonAt(v.rest, v.missing, v.sv, c);
      var b :| b in v.rest && v.rest[b] != [] && Cause(v.sv, v.rest[b][0], c, v.missing[c]);
      assert Final(v, pend, b);
      StillCause(v.sv, v'.sv, v.rest[b][0], c, v.missing[c]);
    }
  }

  lemma StillCause(sv: StateVector, sv': StateVector, h: Struct, c: nat, clock: nat)
    requires Cause(sv, h, c, clock) && Grows(sv, sv')
    requires State(sv, c) == State(sv', c) && State(sv, h.client) == State(sv', h.client)
    ensures Cause(sv', h, c, clock)
  {
    if h.clock <= State(sv, h.client) {
      StillFirst(h, sv, sv', c);
    }
  }

  /** No clock is recorded for a client that is still pending. */
  lemma AppliedNoted(refs0: Refs, v: Vars, head: Struct)
    requires Conserved(refs0, v, v.stack + [head]) && Noted(v, v.stack + [head])
    ensures Noted(Applied(v, head), v.stack + [head])
  {
    var pend, v' := v.stack + [head], Applied(v, head);
    assert PendAt(v, pend, |v.stack|) && pend[|v.stack|] == head;
    forall c | c in v'.missing ensures NotedAt(v', pend, c) {
      assert NotedAt(v, pend, c) && head.client in Clients(pend);
    }
  }

  /** Recording why a struct is blocked keeps the smallest clock for each client. */
  function UpdateMissing(missing: map<nat, nat>, client: nat, clock: nat): (r: map<nat, nat>)
    ensures client in r && r[client] <= clock
    ensures forall c :: c in missing ==> c in r && r[c] <= missing[c]
  {
    if client !in missing || missing[client] > clock then missing[client := clock] else missing
  }

  /** Only the ids still to visit, the cache and the stack may differ. */
  ghost predicate SameView(v: Vars, v': Vars) {
    v' == v.(ids := v'.ids, state := v'.state, stack := v'.stack)
  }

  /** The recorded clocks may differ too. */
  ghost predicate SameReading(v: Vars, v': Vars) {
    v' == v.(ids := v'.ids, state := v'.state, stack := v'.stack, missing := v'.missing)
  }

  lemma SameConserved(refs0: Refs, v: Vars, v': Vars, pend: seq<Struct>)
    requires v.refs.Keys == v.read.Keys && forall c :: c in v.refs ==> v.read[c] <= |v.refs[c]|
    requires SameReading(v, v') && AllRead(v, pend) && AllPend(v, pend) && AllRest(refs0, v) && AllWait(v, pend)
    ensures AllRead(v', pend) && AllPend(v', pend) && AllRest(refs0, v') && AllWait(v', pend)
  {
    forall c, k | c in v.refs && 0 <= k < v.read[c] ensures ReadAt(v', pend, c, k) {
      assert ReadAt(v, pend, c, k);
    }
    forall m | 0 <= m < |pend| ensures PendAt(v', pend, m) {
      assert PendAt(v, pend, m);
    }
    forall c | c in v.rest ensures RestAt(refs0, v', c) {
      assert RestAt(refs0, v, c);
    }
    forall m | 0 <= m < |pend| - 1 ensures WaitsAt(v', pend, m) {
      assert WaitsAt(v, pend, m);
    }
  }

  lemma SameStuck(v: Vars, v': Vars, pend: seq<Struct>)
    requires SameView(v, v') && AllStuck(v, pend)
    ensures AllStuck(v', pend)
  {
    forall c | c in v.rest ensures StuckAt(v', pend, c) {
      assert StuckAt(v, pend, c);
      StuckMono(v, pend, v', pend, v.rest[c][0]);
    }
  }

  lemma SameNoted(v: Vars, v': Vars, pend: seq<Struct>)
    requires SameView(v, v') && Noted(v, pend) && Reasoned(v)
    ensures Noted(v', pend) && Reasoned(v')
  {
    forall c | c in v.missing ensures NotedAt(v', pend, c) {
      assert NotedAt(v, pend, c);
    }
  }

  lemma UpdateMissingInv(refs0: Refs, sv0: StateVector, v: Vars, pend: seq<Struct>, client: nat, clock: nat)
    requires Core(refs0, sv0, v, pend)
    ensures Core(refs0, sv0, v.(missing := UpdateMissing(v.missing, client, clock)), pend)
  {
    hide AllRead, AllPend, AllRest, AllWait, AllStuck, Legal, AllListed;
    var v' := v.(missing := UpdateMissing(v.missing, client, clock));
    SameConserved(refs0, v, v', pend);
    MoreMissing(v, v', pend);
  }

  lemma MoreMissing(v: Vars, v': Vars, pend: seq<Struct>)
    requires AllStuck(v, pend) && v' == v.(missing := v'.missing)
    requires forall c <- v.missing :: c in v'.missing && v'.missing[c] <= v.missing[c]
    ensures AllStuck(v', pend)
  {
    hide Stuck;
    forall c | c in v.rest ensures StuckAt(v', pend, c) {
      assert StuckAt(v, pend, c);
      StuckMono(v, pend, v', pend, v.rest[c][0]);
    }
  }

  // ----- The loop as a function of its variables -----

  /** The variables at the head of the loop: `stackHead`, and the client that is being read. */
  datatype Machine = Machine(v: Vars, head: Option<Struct>, target: Option<nat>)

  function Looked(v: Vars, client: nat): Vars {
    if client in v.state then v else v.(state := v.state[client := State(v.sv, client)])
  }

  function GaveUp(v: Vars, head: Struct, client: nat, clock: nat): Vars {
    var w := v.(stack := v.stack + [head], missing := UpdateMissing(v.missing, client, clock));
    GiveUpAll(w, w.stack).(stack := [])
  }

  ghost predicate GivesUp(v: Vars, head: Struct, client: nat, clock: nat, r: Vars) {
    r == GaveUp(v, head, client, clock)
  }

  predicate Unfinished(v: Vars, client: nat) {
    client in v.refs && client in v.read && v.read[client] < |v.refs[client]|
  }

  /** What a round does with `head`, and the struct that comes before it, if there is one. */
  function Handled(v: Vars, head: Struct): (Vars, Option<Struct>) {
    if head.Skip? then (v, None)
    else
      var w := Looked(v, head.client);
      var localClock := w.state[head.client];
      if localClock < head.clock then (GaveUp(w, head, head.client, head.clock - 1), None)
      else
        match Missing(head, w.sv)
        case Some(m) =>
          if Unfinished(w, m) then (Read(w, w.stack + [head], m), Some(w.refs[m][w.read[m]]))
          else (GaveUp(w, head, m, State(w.sv, m)), None)
        case None =>
          (if localClock == head.clock || localClock - head.clock < head.len then Applied(w, head) else w, None)
  }

  /** The ids without those at the end that were read to their end. */
  function Popped(ids: seq<nat>, refs: Refs, read: map<nat, nat>): seq<nat> {
    if ids == [] then []
    else
      var c := ids[|ids| - 1];
      if c in refs && c in read && read[c] == |refs[c]| then Popped(ids[..|ids| - 1], refs, read) else ids
  }

  function Picked(v: Vars, target: Option<nat>): (Vars, Option<nat>) {
    if target.Some? && Unfinished(v, target.value) then (v, target)
    else
      var ids := Popped(v.ids, v.refs, v.read);
      (v.(ids := ids), if ids == [] then None else Some(ids[|ids| - 1]))
  }

  /** The next struct to handle: the top of the stack, or the next one of a client. */
  function Next(v: Vars, target: Option<nat>): Machine {
    if v.stack != [] then Machine(v.(stack := v.stack[..|v.stack| - 1]), Some(v.stack[|v.stack| - 1]), target)
    else
      var (w, t) := Picked(v, target);
      if t.Some? && Unfinished(w, t.value) then Machine(Read(w, [], t.value), Some(w.refs[t.value][w.read[t.value]]), t)
      else Machine(w, None, t)
  }

  function Step(m: Machine): Machine {
    if m.head.None? then m
    else
      var (w, again) := Handled(m.v, m.head.value);
      if again.Some? then Machine(w, again, m.target) else Next(w, m.target)
  }

  lemma StepIs(v0: Vars, head: Struct, target: Option<nat>, v: Vars, again: Option<Struct>)
    requires Handled(v0, head) == (v, again)
    ensures Step(Machine(v0, Some(head), target)) == if again.Some? then Machine(v, again, target) else Next(v, target)
  {
  }

  function Steps(m: Machine, n: nat): Machine {
    if n == 0 then m else Step(Steps(m, n - 1))
  }

  function Start(refs: Refs, sv: StateVector): Vars {
    Vars(refs, map c | c in refs :: 0, Ascending(refs.Keys), [], map[], map[], map[], sv, [])
  }

  function LeftOf(v: Vars): Option<Leftovers> {
    if v.rest != map[] then Some(Leftovers(v.rest, v.missing)) else None
  }

  /** The machine halts with this result. */
  ghost predicate Computes(refs: Refs, sv: StateVector, sv': StateVector, applied: seq<Struct>,
                           left: Option<Leftovers>) {
    exists n :: HaltsIn(refs, sv, n, sv', applied, left)
  }

  ghost predicate HaltsIn(refs: Refs, sv: StateVector, n: nat, sv': StateVector, applied: seq<Struct>,
                          left: Option<Leftovers>) {
    var m := Steps(Next(Start(refs, sv), None), n);
    m.head.None? && m.v.sv == sv' && m.v.applied == applied && LeftOf(m.v) == left
  }

  lemma {:induction false} Halted(m: Machine, n: nat, k: nat)
    requires Steps(m, n).head.None? && n <= k
    ensures Steps(m, k) == Steps(m, n)
  {
    if n < k {
      Halted(m, n, k - 1);
    }
  }

  /** The result is determined, recorded clocks and all. */
  lemma ComputesOnce(refs: Refs, sv: StateVector, sv1: StateVector, applied1: seq<Struct>, left1: Option<Leftovers>,
                     sv2: StateVector, applied2: seq<Struct>, left2: Option<Leftovers>)
    requires Computes(refs, sv, sv1, applied1, left1) && Computes(refs, sv, sv2, applied2, left2)
    ensures sv1 == sv2 && applied1 == applied2 && left1 == left2
  {
    var i :| HaltsIn(refs, sv, i, sv1, applied1, left1);
    var j :| HaltsIn(refs, sv, j, sv2, applied2, left2);
    var m := Next(Start(refs, sv), None);
    Halted(m, i, Max(i, j));
    Halted(m, j, Max(i, j));
  }

  // ----- A dead end -----

  /** Why the last struct of the stack cannot go on. */
  ghost predicate DeadEnd(v: Vars, h: Struct) {
    if State(v.sv, h.client) < h.clock then h.client in v.missing && v.missing[h.client] < h.clock
    else
      var m := Missing(h, v.sv);
      m.Some? && Exhausted(v, m.value)
  }

  /** Nothing more of the client is in the update, and its state is recorded. */
  ghost predicate Exhausted(v: Vars, c: nat) {
    && (c in v.refs ==> c in v.read && v.read[c] == |v.refs[c]|) && c !in Clients(v.stack)
    && c in v.missing && v.missing[c] <= State(v.sv, c)
  }

  lemma FlushDomains(refs0: Refs, v: Vars)
    requires Domains(refs0, v) && AllPend(v, v.stack)
    ensures forall c <- Clients(v.stack) :: c in v.refs && c in v.read && 0 < v.read[c] <= |v.refs[c]|
    ensures Domains(refs0, GivenUp(v, Clients(v.stack)).(stack := []))
  {
    PendingClients(v);
    GivenUpDomains(refs0, v, Clients(v.stack));
  }

  lemma GivenUpDomains(refs0: Refs, v: Vars, cs: set<nat>)
    requires Domains(refs0, v) && forall c <- cs :: c in v.refs && c in v.read && 0 < v.read[c] <= |v.refs[c]|
    ensures Domains(refs0, GivenUp(v, cs).(stack := []))
  {
    GivenUpKeys(refs0, v, cs);
    var r := GivenUp(v, cs);
    forall c | c in r.refs ensures r.refs[c] == refs0[c] && r.read[c] <= |r.refs[c]| && c !in cs {
      assert c in v.refs;
    }
  }

  lemma GivenUpKeys(refs0: Refs, v: Vars, cs: set<nat>)
    requires forall c <- cs :: c in v.refs && c in v.read && 0 < v.read[c] <= |v.refs[c]|
    requires v.refs.Keys == v.read.Keys && v.refs.Keys !! v.rest.Keys && v.refs.Keys + v.rest.Keys == refs0.Keys
    ensures var r := GivenUp(v, cs);
      && r.refs.Keys == v.refs.Keys - cs == r.read.Keys && r.rest.Keys == v.rest.Keys + cs
      && r.refs.Keys !! r.rest.Keys && r.refs.Keys + r.rest.Keys == refs0.Keys
  {
    var r := GivenUp(v, cs);
    assert r.refs.Keys == v.refs.Keys - cs && r.read.Keys == v.read.Keys - cs;
    assert r.rest.Keys == v.rest.Keys + cs;
  }

  lemma FlushRead(refs0: Refs, time: Time, v: Vars)
    requires WellFormed(refs0, time) && Domains(refs0, v) && AllRead(v, v.stack) && AllPend(v, v.stack)
    ensures forall c <- Clients(v.stack) :: c in v.refs && c in v.read && 0 < v.read[c] <= |v.refs[c]|
    ensures var r := GivenUp(v, Clients(v.stack)).(stack := []); Domains(refs0, r) && AllRead(r, [])
  {
    PendingClients(v);
    FlushDomains(refs0, v);
    var r := GivenUp(v, Clients(v.stack)).(stack := []);
    forall c, k | c in r.refs && 0 <= k < r.read[c] ensures ReadAt(r, [], c, k) {
      assert ReadAt(v, v.stack, c, k) && OkAt(refs0, time, c, k);
    }
  }

  lemma FlushRest(refs0: Refs, time: Time, v: Vars)
    requires WellFormed(refs0, time) && Conserved(refs0, v, v.stack)
    ensures forall c <- Clients(v.stack) :: c in v.refs && c in v.read && 0 < v.read[c] <= |v.refs[c]|
    ensures AllRest(refs0, GivenUp(v, Clients(v.stack)).(stack := []))
  {
    PendingClients(v);
    var r := GivenUp(v, Clients(v.stack)).(stack := []);
    forall c | c in r.rest ensures RestAt(refs0, r, c) {
      if c in Clients(v.stack) {
        forall k | 0 <= k < v.read[c] - 1 ensures Done(refs0[c][k], r.sv) {
          assert ReadAt(v, v.stack, c, k);
        }
      } else {
        assert RestAt(refs0, v, c);
      }
    }
  }

  /** Why the leftover of a struct on the stack is stuck. */
  lemma WaiterStuck(v: Vars, r: Vars, h: Struct, above: Struct)
    requires above in v.stack && h.clock <= State(v.sv, h.client) && WaitsFor(h, above.client, v.sv)
    requires forall c <- Clients(v.stack) :: c in v.refs && c in v.read && 0 < v.read[c] <= |v.refs[c]|
    requires r == GivenUp(v, Clients(v.stack)).(stack := [])
    ensures Stuck(r, [], h)
  {
    assert above.client in Clients(v.stack);
    assert StuckOn(r, [], above.client);
  }

  lemma StackStuck(v: Vars, r: Vars, m: nat)
    requires AllPend(v, v.stack) && AllWait(v, v.stack) && m < |v.stack|
    requires forall c <- Clients(v.stack) :: c in v.refs && c in v.read && 0 < v.read[c] <= |v.refs[c]|
    requires r == GivenUp(v, Clients(v.stack)).(stack := [])
    requires DeadEnd(v, v.stack[|v.stack| - 1])
    ensures Stuck(r, [], v.stack[m])
  {
    var h := v.stack[m];
    if m + 1 < |v.stack| {
      assert WaitsAt(v, v.stack, m);
      WaiterStuck(v, r, h, v.stack[m + 1]);
    } else if h.clock <= State(v.sv, h.client) {
      assert StuckOn(r, [], Missing(h, v.sv).value);
    }
  }

  lemma FlushStuck(refs0: Refs, v: Vars)
    requires Conserved(refs0, v, v.stack) && AllStuck(v, v.stack) && AllWait(v, v.stack)
    requires v.stack != [] && !v.stack[|v.stack| - 1].Skip? && DeadEnd(v, v.stack[|v.stack| - 1])
    ensures forall c <- Clients(v.stack) :: c in v.refs && c in v.read && 0 < v.read[c] <= |v.refs[c]|
    ensures AllStuck(GivenUp(v, Clients(v.stack)).(stack := []), [])
  {
    hide Domains, AllRead, AllRest, AllPend, AllWait;
    PendingClients(v);
    var r := GivenUp(v, Clients(v.stack)).(stack := []);
    forall c | c in r.rest ensures StuckAt(r, [], c) {
      if c in Clients(v.stack) {
        StackStuckAt(v, r, c);
      } else {
        RestSame(v, r, c);
        assert StuckAt(v, v.stack, c);
        StuckMono(v, v.stack, r, [], v.rest[c][0]);
      }
    }
  }

  lemma StackStuckAt(v: Vars, r: Vars, c: nat)
    requires AllPend(v, v.stack) && AllWait(v, v.stack) && c in Clients(v.stack)
    requires forall c <- Clients(v.stack) :: c in v.refs && c in v.read && 0 < v.read[c] <= |v.refs[c]|
    requires r == GivenUp(v, Clients(v.stack)).(stack := [])
    requires !v.stack[|v.stack| - 1].Skip? && DeadEnd(v, v.stack[|v.stack| - 1])
    ensures c in r.rest && StuckAt(r, [], c)
  {
    var m :| 0 <= m < |v.stack| && v.stack[m].client == c;
    assert m + 1 < |v.stack| ==> WaitsAt(v, v.stack, m);
    StackStuck(v, r, m);
    RestBegins(v, r, m);
  }

  /** What is given up of a client begins with its struct of the stack. */
  lemma RestBegins(v: Vars, r: Vars, m: nat)
    requires AllPend(v, v.stack) && m < |v.stack|
    requires forall c <- Clients(v.stack) :: c in v.refs && c in v.read && 0 < v.read[c] <= |v.refs[c]|
    requires r == GivenUp(v, Clients(v.stack)).(stack := [])
    ensures var c := v.stack[m].client; c in r.rest && r.rest[c] != [] && r.rest[c][0] == v.stack[m]
  {
    assert PendAt(v, v.stack, m);
  }

  lemma RestSame(v: Vars, r: Vars, c: nat)
    requires forall c <- Clients(v.stack) :: c in v.refs && c in v.read && 0 < v.read[c] <= |v.refs[c]|
    requires r == GivenUp(v, Clients(v.stack)).(stack := []) && c in r.rest && c !in Clients(v.stack)
    ensures c in v.rest && r.rest[c] == v.rest[c]
  {
  }

  /** At a dead end the whole stack goes to the leftovers. */
  lemma Flush(refs0: Refs, sv0: StateVector, time: Time, v: Vars)
    requires WellFormed(refs0, time) && Core(refs0, sv0, v, v.stack)
    requires v.stack != [] && !v.stack[|v.stack| - 1].Skip? && DeadEnd(v, v.stack[|v.stack| - 1])
    ensures forall c <- Clients(v.stack) :: c in v.refs && c in v.read && 0 < v.read[c] <= |v.refs[c]|
    ensures Core(refs0, sv0, GivenUp(v, Clients(v.stack)).(stack := []), [])
  {
    FlushRead(refs0, time, v);
    FlushRest(refs0, time, v);
    FlushStuck(refs0, v);
  }

  /** A client may be recorded once nothing more of it will be integrated. */
  ghost predicate Closing(v: Vars, client: nat, clock: nat) {
    State(v.sv, client) <= clock && (client in Clients(v.stack) || Final(v, v.stack, client))
  }

  /** The clock that is recorded is recorded for `head`, which is left over now. */
  lemma FlushReasoned(v0: Vars, v: Vars, head: Struct, client: nat, clock: nat)
    requires AllPend(v, v.stack) && Reasoned(v0) && v0.refs.Keys !! v0.rest.Keys
    requires v.stack != [] && v.stack[|v.stack| - 1] == head && Cause(v.sv, head, client, clock)
    requires v == v0.(stack := v.stack, missing := UpdateMissing(v0.missing, client, clock))
    ensures forall c <- Clients(v.stack) :: c in v.refs && c in v.read && 0 < v.read[c] <= |v.refs[c]|
    ensures Reasoned(GivenUp(v, Clients(v.stack)).(stack := []))
  {
    hide Cause;
    PendingClients(v);
    var r := GivenUp(v, Clients(v.stack)).(stack := []);
    RestBegins(v, r, |v.stack| - 1);
    forall b | b in v0.rest ensures b in r.rest && r.rest[b] == v0.rest[b] {
      assert b !in Clients(v.stack);
    }
    ReasonsMore(v0.rest, v0.missing, r.rest, v.sv, head, client, clock);
  }

  lemma ReasonsMore(rest: Refs, missing: map<nat, nat>, rest': Refs, sv: StateVector, head: Struct, client: nat,
                    clock: nat)
    requires forall c <- missing :: ReasonAt(rest, missing, sv, c)
    requires forall b <- rest :: b in rest' && rest'[b] == rest[b]
    requires head.client in rest' && rest'[head.client] != [] && rest'[head.client][0] == head
    requires Cause(sv, head, client, clock)
    ensures var m := UpdateMissing(missing, client, clock); forall c <- m :: ReasonAt(rest', m, sv, c)
  {
    var m := UpdateMissing(missing, client, clock);
    forall c | c in m ensures ReasonAt(rest', m, sv, c) {
      if c in missing && missing[c] == m[c] {
        assert ReasonAt(rest, missing, sv, c);
        var b :| b in rest && rest[b] != [] && Cause(sv, rest[b][0], c, missing[c]);
        assert b in rest' && Cause(sv, rest'[b][0], c, m[c]);
      } else {
        assert Cause(sv, rest'[head.client][0], c, m[c]);
      }
    }
  }

  lemma FlushNoted(v0: Vars, v: Vars, client: nat, clock: nat)
    requires AllPend(v, v.stack) && Noted(v0, v.stack) && Closing(v, client, clock)
    requires v == v0.(stack := v.stack, missing := UpdateMissing(v0.missing, client, clock))
    ensures forall c <- Clients(v.stack) :: c in v.refs && c in v.read && 0 < v.read[c] <= |v.refs[c]|
    ensures Noted(GivenUp(v, Clients(v.stack)).(stack := []), [])
  {
    PendingClients(v);
    var r := GivenUp(v, Clients(v.stack)).(stack := []);
    forall c | c in r.missing ensures NotedAt(r, [], c) {
      assert c in v0.missing ==> NotedAt(v0, v.stack, c);
    }
  }

  // ----- No client waits for itself -----

  lemma PendOk(refs0: Refs, time: Time, v: Vars, pend: seq<Struct>, j: nat)
    requires WellFormed(refs0, time) && Domains(refs0, v) && AllPend(v, pend) && j < |pend|
    ensures Acyclic(time, pend[j]) && pend[j].len > 0
  {
    assert PendAt(v, pend, j);
    assert OkAt(refs0, time, pend[j].client, v.read[pend[j].client] - 1);
  }

  /** The structs of the stack get older towards its top. */
  lemma {:induction false} Older(refs0: Refs, time: Time, v: Vars, pend: seq<Struct>, j: nat)
    requires WellFormed(refs0, time) && Domains(refs0, v) && AllPend(v, pend) && AllWait(v, pend) && j < |pend|
    requires pend[|pend| - 1].clock <= State(v.sv, pend[|pend| - 1].client)
    ensures pend[j].clock <= State(v.sv, pend[j].client)
    ensures time(ID(pend[|pend| - 1].client, pend[|pend| - 1].clock)) <= time(ID(pend[j].client, pend[j].clock))
    decreases |pend| - j
  {
    if j + 1 < |pend| {
      Older(refs0, time, v, pend, j + 1);
      assert WaitsAt(v, pend, j);
      PendOk(refs0, time, v, pend, j);
      WaitsForOlder(time, v.sv, pend[j], pend[j + 1]);
    }
  }

  /** The client that a struct waits for has no struct on the stack. */
  lemma NotPending(refs0: Refs, sv0: StateVector, time: Time, v: Vars, pend: seq<Struct>, c: nat)
    requires WellFormed(refs0, time) && Inv(refs0, sv0, v, pend) && pend != []
    requires pend[|pend| - 1].clock <= State(v.sv, pend[|pend| - 1].client)
    requires WaitsFor(pend[|pend| - 1], c, v.sv)
    ensures c !in Clients(pend)
  {
    hide Noted, Lawful, Cached, AllStuck, AllRest;
    var h := pend[|pend| - 1];
    PendOk(refs0, time, v, pend, |pend| - 1);
    forall j | 0 <= j < |pend| ensures pend[j].client != c {
      Older(refs0, time, v, pend, j);
      if pend[j].client == c {
        WaitsForOlder(time, v.sv, h, pend[j]);
      }
    }
  }

  // ----- The loop -----

  ghost function UnreadPlaces(v: Vars): set<(nat, nat)> {
    set c, k | c in v.refs && c in v.read && v.read[c] <= k < |v.refs[c]| :: (c, k)
  }

  /** How many structs were not read yet. */
  ghost function ToRead(v: Vars): nat {
    |UnreadPlaces(v)|
  }

  lemma {:induction false} SmallerSet<T>(s: set<T>, t: set<T>)
    requires s <= t
    ensures |s| <= |t| && (s < t ==> |s| < |t|)
  {
    assert t == s + (t - s);
  }

  /** `getNextStructTarget`: drops the clients that were read to their end. */
  method NextTarget(ids: seq<nat>, refs: Refs, read: map<nat, nat>) returns (ids': seq<nat>, target: Option<nat>)
    requires forall c <- ids :: c in refs && c in read && read[c] <= |refs[c]|
    ensures forall c <- ids' :: c in ids
    ensures forall c <- ids :: read[c] < |refs[c]| ==> c in ids'
    ensures target.None? ==> ids' == []
    ensures target.Some? ==> target.value in ids' && read[target.value] < |refs[target.value]|
    ensures ids' == Popped(ids, refs, read) && target == if ids' == [] then None else Some(ids'[|ids'| - 1])
  {
    ids' := ids;
    while |ids'| > 0 && read[ids'[|ids'| - 1]] == |refs[ids'[|ids'| - 1]]|
      invariant forall c <- ids' :: c in ids
      invariant forall c <- ids :: read[c] < |refs[c]| ==> c in ids'
      invariant Popped(ids, refs, read) == Popped(ids', refs, read)
    {
      ghost var before := ids';
      ids' := ids'[..|ids'| - 1];
      assert before == ids' + [before[|before| - 1]];
    }
    target := if |ids'| == 0 then None else Some(ids'[|ids'| - 1]);
  }

  /** The invariant does not depend on the stack, and on the cache only through its values. */
  lemma SameButState(refs0: Refs, sv0: StateVector, v: Vars, v': Vars, pend: seq<Struct>)
    requires Inv(refs0, sv0, v, pend) && v' == v.(state := v'.state, stack := v'.stack) && Cached(v')
    ensures Inv(refs0, sv0, v', pend)
  {
    hide AllRead, AllPend, AllRest, AllWait, AllStuck, Noted, Reasoned, Legal, AllListed;
    SameConserved(refs0, v, v', pend);
    SameStuck(v, v', pend);
    SameNoted(v, v', pend);
  }

  /** A dead end: records why `head` is blocked and gives the stack up. */
  method GiveUp(ghost refs0: Refs, ghost sv0: StateVector, ghost time: Time, v0: Vars, head: Struct, client: nat,
                clock: nat)
    returns (v: Vars)
    requires WellFormed(refs0, time) && Inv(refs0, sv0, v0, v0.stack + [head]) && !head.Skip?
    requires DeadEnd(v0.(stack := v0.stack + [head], missing := UpdateMissing(v0.missing, client, clock)), head)
    requires Closing(v0.(stack := v0.stack + [head]), client, clock) && Cause(v0.sv, head, client, clock)
    ensures Inv(refs0, sv0, v, v.stack) && v.stack == [] && ToRead(v) <= ToRead(v0)
    ensures GivesUp(v0, head, client, clock, v)
  {
    ghost var pend := v0.stack + [head];
    v := v0.(stack := v0.stack + [head]);
    SameButState(refs0, sv0, v0, v, pend);
    UpdateMissingInv(refs0, sv0, v, pend, client, clock);
    v := v.(missing := UpdateMissing(v.missing, client, clock));
    Flush(refs0, sv0, time, v);
    FlushNoted(v0, v, client, clock);
    FlushReasoned(v0, v, head, client, clock);
    ghost var v1 := v;
    v := AddStackToRest(v);
    SmallerSet(UnreadPlaces(v), UnreadPlaces(v1));
  }

  /** Looks for the struct that `head` waits for: the next one of client `m`. */
  method Wait(ghost refs0: Refs, ghost sv0: StateVector, ghost time: Time, v0: Vars, head0: Struct, m: nat)
    returns (v: Vars, head: Struct, again: bool)
    requires WellFormed(refs0, time) && Inv(refs0, sv0, v0, v0.stack + [head0]) && !head0.Skip?
    requires head0.clock <= State(v0.sv, head0.client) && WaitsFor(head0, m, v0.sv)
    ensures Inv(refs0, sv0, v, if again then v.stack + [head] else v.stack)
    ensures ToRead(v) <= ToRead(v0) && (again ==> ToRead(v) < ToRead(v0))
    ensures !again ==> v.stack == []
    ensures (v, if again then Some(head) else None) ==
            if Unfinished(v0, m) then (Read(v0, v0.stack + [head0], m), Some(v0.refs[m][v0.read[m]]))
            else (GaveUp(v0, head0, m, State(v0.sv, m)), None)
  {
    hide Inv;
    ghost var pend := v0.stack + [head0];
    Readable(refs0, sv0, v0, pend);
    NotPending(refs0, sv0, time, v0, pend, m);
    if m in v0.refs && v0.read[m] < |v0.refs[m]| {
      ReadNext(refs0, sv0, time, v0, pend, m);
      ReadShrinks(v0, pend, m);
      v, head, again := Read(v0, v0.stack + [head0], m), v0.refs[m][v0.read[m]], true;
    } else {
      NothingToRead(v0, head0, m);
      v := GiveUp(refs0, sv0, time, v0, head0, m, State(v0.sv, m));
      head, again := head0, false;
    }
  }

  /** Handles a struct whose clocks follow on those in the store, or are known. */
  method Proceed(ghost refs0: Refs, ghost sv0: StateVector, ghost time: Time, v0: Vars, head0: Struct, offset: nat)
    returns (v: Vars, head: Struct, again: bool)
    requires WellFormed(refs0, time) && Inv(refs0, sv0, v0, v0.stack + [head0]) && !head0.Skip?
    requires offset == State(v0.sv, head0.client) - head0.clock
    ensures Inv(refs0, sv0, v, if again then v.stack + [head] else v.stack)
    ensures ToRead(v) <= ToRead(v0) && (again ==> ToRead(v) < ToRead(v0))
    ensures !again ==> |v.stack| <= |v0.stack|
    ensures head0.client in v0.state ==>
      v == Handled(v0, head0).0 && (if again then Some(head) else None) == Handled(v0, head0).1
  {
    hide Inv;
    Readable(refs0, sv0, v0, v0.stack + [head0]);
    var missing := Missing(head0, v0.sv);
    if missing.Some? {
      v, head, again := Wait(refs0, sv0, time, v0, head0, missing.value);
    } else if offset == 0 || offset < head0.len {
      HeadOk(refs0, sv0, time, v0, head0);
      Apply(refs0, sv0, time, v0, head0);
      v, head, again := Applied(v0, head0), head0, false;
    } else {
      Settle(refs0, sv0, v0, head0);
      v, head, again := v0, head0, false;
    }
  }

  /** The cached state of a client. */
  method LocalClock(ghost refs0: Refs, ghost sv0: StateVector, v0: Vars, ghost pend: seq<Struct>, client: nat)
    returns (v: Vars, clock: nat)
    requires Inv(refs0, sv0, v0, pend)
    ensures Inv(refs0, sv0, v, pend) && v == Looked(v0, client) && clock == State(v.sv, client) == v.state[client]
  {
    v := v0;
    if client !in v.state {
      v := v.(state := v.state[client := State(v.sv, client)]);
      SameButState(refs0, sv0, v0, v, pend);
    }
    clock := v.state[client];
  }

  /** Handles a struct in front of which clocks of its client are missing. */
  method LeaveGap(ghost refs0: Refs, ghost sv0: StateVector, ghost time: Time, ghost before: Vars, v0: Vars,
                  head: Struct)
    returns (v: Vars)
    requires WellFormed(refs0, time) && Inv(refs0, sv0, v0, v0.stack + [head]) && !head.Skip?
    requires v0 == Looked(before, head.client) && State(v0.sv, head.client) == v0.state[head.client] < head.clock
    ensures Inv(refs0, sv0, v, v.stack) && v.stack == [] && ToRead(v) <= ToRead(v0)
    ensures Handled(before, head).0 == v && Handled(before, head).1 == None
  {
    var clock: nat := head.clock - 1;
    v := GiveUp(refs0, sv0, time, v0, head, head.client, clock);
    HandledGap(before, v0, head, clock, v);
  }

  /** The first part of a round: handles `head`.  With `again`, a struct that `head` waits
      for comes first. */
  method Handle(ghost refs0: Refs, ghost sv0: StateVector, ghost time: Time, v0: Vars, head0: Struct)
    returns (v: Vars, head: Struct, again: bool)
    requires WellFormed(refs0, time) && Inv(refs0, sv0, v0, v0.stack + [head0])
    ensures Inv(refs0, sv0, v, if again then v.stack + [head] else v.stack)
    ensures ToRead(v) <= ToRead(v0) && (again ==> ToRead(v) < ToRead(v0))
    ensures !again ==> |v.stack| <= |v0.stack|
    ensures v == Handled(v0, head0).0 && (if again then Some(head) else None) == Handled(v0, head0).1
  {
    if head0.Skip? {
      Settle(refs0, sv0, v0, head0);
      return v0, head0, false;
    }
    v, head, again := HandleClocks(refs0, sv0, time, v0, head0);
  }

  /** Handles a struct that is no `Skip`. */
  method HandleClocks(ghost refs0: Refs, ghost sv0: StateVector, ghost time: Time, v0: Vars, head0: Struct)
    returns (v: Vars, head: Struct, again: bool)
    requires WellFormed(refs0, time) && Inv(refs0, sv0, v0, v0.stack + [head0]) && !head0.Skip?
    ensures Inv(refs0, sv0, v, if again then v.stack + [head] else v.stack)
    ensures ToRead(v) <= ToRead(v0) && (again ==> ToRead(v) < ToRead(v0))
    ensures !again ==> |v.stack| <= |v0.stack|
    ensures v == Handled(v0, head0).0 && (if again then Some(head) else None) == Handled(v0, head0).1
  {
    hide Inv;
    var localClock;
    v, localClock := LocalClock(refs0, sv0, v0, v0.stack + [head0], head0.client);
    var offset := localClock - head0.clock;
    if offset < 0 {
      v := LeaveGap(refs0, sv0, time, v0, v, head0);
      head, again := head0, false;
    } else {
      HandledLooked(v0, head0);
      v, head, again := Proceed(refs0, sv0, time, v, head0, offset);
    }
  }

  lemma HandledLooked(v: Vars, head: Struct)
    requires !head.Skip?
    ensures Handled(v, head).0 == Handled(Looked(v, head.client), head).0
    ensures Handled(v, head).1 == Handled(Looked(v, head.client), head).1
  {
  }

  lemma HandledGap(v: Vars, w: Vars, head: Struct, clock: nat, r: Vars)
    requires !head.Skip? && w == Looked(v, head.client) && w.state[head.client] < head.clock == clock + 1
    requires GivesUp(w, head, head.client, clock, r)
    ensures Handled(v, head).0 == r && Handled(v, head).1 == None
  {
  }

  lemma HeadOk(refs0: Refs, sv0: StateVector, time: Time, v: Vars, head: Struct)
    requires WellFormed(refs0, time) && Inv(refs0, sv0, v, v.stack + [head])
    ensures head.len > 0
  {
    assert PendAt(v, v.stack + [head], |v.stack|);
    assert OkAt(refs0, time, head.client, v.read[head.client] - 1);
  }

  lemma ReadShrinks(v: Vars, pend: seq<Struct>, c: nat)
    requires v.refs.Keys == v.read.Keys && c in v.refs && v.read[c] < |v.refs[c]|
    ensures ToRead(Read(v, pend, c)) < ToRead(v)
  {
    var s, t := UnreadPlaces(Read(v, pend, c)), UnreadPlaces(v);
    assert (c, v.read[c]) in t && (c, v.read[c]) !in s;
    SmallerSet(s, t);
  }

  /** Where the client that `head` waits for has nothing left to read, `head` is at a dead end. */
  lemma NothingToRead(v: Vars, head: Struct, m: nat)
    requires head.clock <= State(v.sv, head.client)
    requires WaitsFor(head, m, v.sv) && m !in Clients(v.stack + [head])
    requires v.refs.Keys == v.read.Keys && (m in v.refs ==> v.read[m] == |v.refs[m]|)
    ensures DeadEnd(v.(stack := v.stack + [head], missing := UpdateMissing(v.missing, m, State(v.sv, m))), head)
  {
  }

  /** The current target, or the next client with something to read. */
  method PickTarget(ghost refs0: Refs, ghost sv0: StateVector, v0: Vars, target0: Option<nat>)
    returns (v: Vars, target: Option<nat>)
    requires Inv(refs0, sv0, v0, []) && v0.stack == []
    ensures Inv(refs0, sv0, v, []) && v == v0.(ids := v.ids)
    ensures target.Some? ==> Unfinished(v, target.value)
    ensures target.None? ==> ReadUp(v)
    ensures (v, target) == Picked(v0, target0)
  {
    hide Inv;
    v, target := v0, target0;
    Readable(refs0, sv0, v, []);
    if target.None? || !Unfinished(v, target.value) {
      var ids';
      ids', target := NextTarget(v.ids, v.refs, v.read);
      v := v.(ids := ids');
      IdsInv(refs0, sv0, v0, v);
    }
  }

  /** The next struct of the current target, or of the next client with something to read. */
  method ReadTarget(ghost refs0: Refs, ghost sv0: StateVector, ghost time: Time, v0: Vars, target0: Option<nat>)
    returns (v: Vars, head: Option<Struct>, target: Option<nat>)
    requires WellFormed(refs0, time) && Inv(refs0, sv0, v0, []) && v0.stack == []
    ensures head.Some? ==> Inv(refs0, sv0, v, v.stack + [head.value]) && ToRead(v) < ToRead(v0)
    ensures head.None? ==> Inv(refs0, sv0, v, []) && ReadUp(v)
    ensures Machine(v, head, target) == Next(v0, target0)
  {
    v, target := PickTarget(refs0, sv0, v0, target0);
    head := None;
    if target.Some? {
      ReadNext(refs0, sv0, time, v, [], target.value);
      ReadShrinks(v, [], target.value);
      assert UnreadPlaces(v) == UnreadPlaces(v0);
      head := Some(v.refs[target.value][v.read[target.value]]);
      v := Read(v, [], target.value);
    }
  }

  /** The second part of a round: the next struct to handle, if there is one. */
  method NextHead(ghost refs0: Refs, ghost sv0: StateVector, ghost time: Time, v0: Vars, target0: Option<nat>)
    returns (v: Vars, head: Option<Struct>, target: Option<nat>)
    requires WellFormed(refs0, time) && Inv(refs0, sv0, v0, v0.stack)
    ensures head.Some? ==> Inv(refs0, sv0, v, v.stack + [head.value])
    ensures head.Some? ==> ToRead(v) < ToRead(v0) || (ToRead(v) == ToRead(v0) && |v.stack| < |v0.stack|)
    ensures head.None? ==> Inv(refs0, sv0, v, []) && ReadUp(v)
    ensures Machine(v, head, target) == Next(v0, target0)
  {
    if |v0.stack| > 0 {
      var n := |v0.stack| - 1;
      head, target := Some(v0.stack[n]), target0;
      v := v0.(stack := v0.stack[..n]);
      assert v0.stack == v.stack + [head.value];
      SameButState(refs0, sv0, v0, v, v0.stack);
      assert UnreadPlaces(v) == UnreadPlaces(v0);
    } else {
      v, head, target := ReadTarget(refs0, sv0, time, v0, target0);
    }
  }

  /** Of the ids only those of clients with something to read matter. */
  lemma IdsInv(refs0: Refs, sv0: StateVector, v: Vars, v': Vars)
    requires Inv(refs0, sv0, v, []) && v' == v.(ids := v'.ids)
    requires forall c <- v'.ids :: c in v.ids
    requires forall c <- v.ids :: c in v.refs && (v.read[c] < |v.refs[c]| ==> c in v'.ids)
    ensures Inv(refs0, sv0, v', [])
  {
    hide AllRead, AllPend, AllRest, AllWait, AllStuck, Noted, Reasoned, Legal, AllListed;
    SameConserved(refs0, v, v', []);
    SameStuck(v, v', []);
    SameNoted(v, v', []);
  }

  // ----- The result -----

  /** Why the first leftover of a client is blocked, as far as `missing` tells. */
  ghost predicate Explained(left: Leftovers, sv: StateVector, h: Struct) {
    if State(sv, h.client) < h.clock then h.client in left.missing && left.missing[h.client] < h.clock
    else
      var m := Missing(h, sv);
      m.Some? && Recorded(left, sv, m.value)
  }

  /** The client has leftovers itself, or its state is recorded. */
  ghost predicate Recorded(left: Leftovers, sv: StateVector, c: nat) {
    c in left.structs || (c in left.missing && left.missing[c] <= State(sv, c))
  }

  /** The leftovers of a client: the end of its list, from a blocked struct on. */
  ghost predicate LeftoverAt(refs0: Refs, left: Leftovers, sv: StateVector, c: nat)
    requires c in left.structs
  {
    && c in refs0 && 0 < |left.structs[c]| <= |refs0[c]|
    && left.structs[c] == refs0[c][|refs0[c]| - |left.structs[c]|..]
    && (forall k :: 0 <= k < |refs0[c]| - |left.structs[c]| ==> Done(refs0[c][k], sv))
    && !left.structs[c][0].Skip? && Blocked(left.structs[c][0], sv) && Explained(left, sv, left.structs[c][0])
  }

  ghost predicate SettledAt(refs0: Refs, sv: StateVector, c: nat, k: nat)
    requires c in refs0 && k < |refs0[c]|
  {
    Done(refs0[c][k], sv)
  }

  ghost predicate Outcome(refs0: Refs, sv: StateVector, left: Leftovers) {
    && (forall c :: c in left.structs ==> LeftoverAt(refs0, left, sv, c))
    && (forall c, k :: c in refs0 && c !in left.structs && 0 <= k < |refs0[c]| ==> SettledAt(refs0, sv, c, k))
    && (forall c <- left.missing :: ReasonAt(left.structs, left.missing, sv, c))
  }

  lemma AllSettled(refs0: Refs, sv0: StateVector, time: Time, v: Vars)
    requires WellFormed(refs0, time) && Inv(refs0, sv0, v, [])
    requires ReadUp(v)
    ensures Outcome(refs0, v.sv, Leftovers(v.rest, v.missing))
  {
    var left := Leftovers(v.rest, v.missing);
    forall c, k | c in refs0 && c !in v.rest && 0 <= k < |refs0[c]| ensures SettledAt(refs0, v.sv, c, k) {
      assert c in v.refs && ReadAt(v, [], c, k);
    }
    forall c | c in v.rest ensures LeftoverAt(refs0, left, v.sv, c) {
      RestStays(refs0, v, c);
    }
  }

  lemma RestStays(refs0: Refs, v: Vars, c: nat)
    requires c in v.rest && AllRest(refs0, v) && AllStuck(v, [])
    ensures LeftoverAt(refs0, Leftovers(v.rest, v.missing), v.sv, c)
  {
    assert RestAt(refs0, v, c) && StuckAt(v, [], c);
    StuckExplained(v, v.rest[c][0]);
  }

  lemma StuckExplained(v: Vars, h: Struct)
    requires Stuck(v, [], h)
    ensures Blocked(h, v.sv) && Explained(Leftovers(v.rest, v.missing), v.sv, h)
  {
  }

  /** The rounds, until nothing is left to read. */
  method Rounds(ghost refs0: Refs, ghost sv0: StateVector, ghost time: Time, v0: Vars) returns (v: Vars)
    requires WellFormed(refs0, time) && Inv(refs0, sv0, v0, v0.stack)
    ensures Inv(refs0, sv0, v, []) && ReadUp(v)
    ensures exists n, target :: Steps(Next(v0, None), n) == Machine(v, None, target)
  {
    hide Inv;
    var head, target;
    v, head, target := NextHead(refs0, sv0, time, v0, None);
    ghost var n: nat := 0;
    while head.Some?
      invariant Steps(Next(v0, None), n) == Machine(v, head, target)
      invariant head.Some? ==> Inv(refs0, sv0, v, v.stack + [head.value])
      invariant head.None? ==> Inv(refs0, sv0, v, []) && ReadUp(v)
      decreases head.Some?, ToRead(v), |v.stack|
    {
      v, head, target := Round(refs0, sv0, time, v, head.value, target);
      n := n + 1;
    }
  }

  /** Integrates all structs that can be integrated, each one when what it refers to is in
      the store, and returns the others. */
  method IntegrateStructs(refs0: Refs, sv0: StateVector, ghost time: Time)
    returns (sv: StateVector, applied: seq<Struct>, left: Option<Leftovers>)
    requires WellFormed(refs0, time)
    ensures Legal(sv0, applied) && sv == Replay(sv0, applied) && AllListed(refs0, applied)
    ensures Outcome(refs0, sv, if left.Some? then left.value else Leftovers(map[], map[]))
    ensures left.Some? ==>
      left.value.structs != map[] && forall c <- left.value.missing :: State(sv, c) <= left.value.missing[c]
    ensures Computes(refs0, sv0, sv, applied, left)
  {
    var v := Start(refs0, sv0);
    InitInv(refs0, sv0, v);
    v := Rounds(refs0, sv0, time, v);
    AllSettled(refs0, sv0, time, v);
    sv, applied := v.sv, v.applied;
    left := if v.rest != map[] then Some(Leftovers(v.rest, v.missing)) else None;
    ghost var n, target :| Steps(Next(Start(refs0, sv0), None), n) == Machine(v, None, target);
    assert HaltsIn(refs0, sv0, n, sv, applied, left);
    assert forall c <- v.missing :: NotedAt(v, [], c);
    if v.rest == map[] {
      NoLeftovers(refs0, sv, v.rest, v.missing);
    }
  }

  lemma NoLeftovers(refs0: Refs, sv: StateVector, rest: Refs, missing: map<nat, nat>)
    requires Outcome(refs0, sv, Leftovers(rest, missing)) && rest == map[]
    ensures Outcome(refs0, sv, Leftovers(map[], map[]))
  {
  }

  lemma InitInv(refs0: Refs, sv0: StateVector, v: Vars)
    requires v == Start(refs0, sv0)
    ensures Inv(refs0, sv0, v, v.stack)
  {
  }

  /** One round of the loop. */
  method Round(ghost refs0: Refs, ghost sv0: StateVector, ghost time: Time, v0: Vars, head0: Struct,
               target0: Option<nat>)
    returns (v: Vars, head: Option<Struct>, target: Option<nat>)
    requires WellFormed(refs0, time) && Inv(refs0, sv0, v0, v0.stack + [head0])
    ensures head.Some? ==> Inv(refs0, sv0, v, v.stack + [head.value])
    ensures head.Some? ==> ToRead(v) < ToRead(v0) || (ToRead(v) == ToRead(v0) && |v.stack| < |v0.stack|)
    ensures head.None? ==> Inv(refs0, sv0, v, []) && ReadUp(v)
    ensures Machine(v, head, target) == Step(Machine(v0, Some(head0), target0))
  {
    hide Inv;
    var again, next;
    v, next, again := Handle(refs0, sv0, time, v0, head0);
    StepIs(v0, head0, target0, v, if again then Some(next) else None);
    if again {
      head, target := Some(next), target0;
    } else {
      v, head, target := NextHead(refs0, sv0, time, v, target0);
    }
  }
}
