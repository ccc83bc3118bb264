/** The structs of updates. */
module Structs {
  import opened Common
  import opened Yata

  /** The parent of an item: a type at the top of the document, or inside of another item. */
  datatype Home = Top(name: string) | In(item: ID)

  /** Where a list of items belongs: the children of a type, or the values of one of its keys. */
  datatype Place = Place(home: Home, sub: Option<string>)

  /** Items with an origin or a right origin take their parent and `parentSub` from there. */
  datatype Parent = Copied | Given(place: Place) {
    /** The item that holds the parent, if an update names it. */
    function Named(): Option<ID> {
      if Given? && place.home.In? then Some(place.home.item) else None
    }

    function Deps(): seq<ID> {
      Listed(Named())
    }
  }

  /** A `Skip` stands for clocks that an update does not hold.  The content of an item that
      is `gone` was deleted before the update was written. */
  datatype Struct =
    | Skip(client: nat, clock: nat, len: nat)
    | GC(client: nat, clock: nat, len: nat)
    | Item(client: nat, clock: nat, len: nat, origin: Option<ID>, rightOrigin: Option<ID>, parent: Parent, gone: bool)
  {
    function End(): nat {
      clock + len
    }

    predicate Covers(id: ID) {
      id.client == client && clock <= id.clock < End()
    }

    /** The ids that must be in the store first: origin, right origin, and parent. */
    function Deps(): seq<ID> {
      match this
      case Item(_, _, _, o, r, p, _) => Listed(o) + Listed(r) + p.Deps()
      case _ => []
    }
  }

  function Listed(o: Option<ID>): seq<ID> {
    if o.Some? then [o.value] else []
  }

  /** `getState` for every client: the first clock that the store does not hold. */
  type StateVector = map<nat, nat>

  function State(sv: StateVector, client: nat): nat {
    if client in sv then sv[client] else 0
  }

  predicate Held(sv: StateVector, id: ID) {
    id.clock < State(sv, id.client)
  }

  ghost predicate Grows(sv: StateVector, sv': StateVector) {
    forall c: nat :: State(sv, c) <= State(sv', c)
  }

  /** The client of the first dependency that is not in the store. */
  function FirstMissing(deps: seq<ID>, client: nat, sv: StateVector): (m: Option<nat>)
    ensures m.None? <==> forall d <- deps :: d.client == client || Held(sv, d)
    ensures m.Some? ==> exists d <- deps :: d.client == m.value && d.client != client && !Held(sv, d)
  {
    if deps == [] then None
    else if deps[0].client != client && !Held(sv, deps[0]) then Some(deps[0].client)
    else FirstMissing(deps[1..], client, sv)
  }

  /** An item of another client that is not in the store. */
  predicate Lacks(o: Option<ID>, client: nat, sv: StateVector) {
    o.Some? && o.value.client != client && !Held(sv, o.value)
  }

  /** `getMissing`: a missing origin is reported before a missing right origin, and that one
      before a missing parent. */
  function Missing(s: Struct, sv: StateVector): (m: Option<nat>)
    ensures !s.Item? ==> m == None
    ensures s.Item? && Lacks(s.origin, s.client, sv) ==> m == Some(s.origin.value.client)
    ensures s.Item? && !Lacks(s.origin, s.client, sv) && Lacks(s.rightOrigin, s.client, sv) ==>
      m == Some(s.rightOrigin.value.client)
    ensures s.Item? && !Lacks(s.origin, s.client, sv) && !Lacks(s.rightOrigin, s.client, sv) ==>
      m == if Lacks(s.parent.Named(), s.client, sv) then Some(s.parent.Named().value.client) else None
    ensures m.None? <==> forall d <- s.Deps() :: d.client == s.client || Held(sv, d)
    ensures m.Some? ==> exists d <- s.Deps() :: d.client == m.value && d.client != s.client && !Held(sv, d)
  {
    if !s.Item? then None
    else
      MissingInOrder(s, sv);
      FirstMissing(s.Deps(), s.client, sv)
  }

  lemma MissingInOrder(s: Struct, sv: StateVector)
    requires s.Item?
    ensures FirstMissing(s.Deps(), s.client, sv) ==
      if Lacks(s.origin, s.client, sv) then Some(s.origin.value.client)
      else if Lacks(s.rightOrigin, s.client, sv) then Some(s.rightOrigin.value.client)
      else if Lacks(s.parent.Named(), s.client, sv) then Some(s.parent.Named().value.client)
      else None
  {
    FirstConcat(Listed(s.origin) + Listed(s.rightOrigin), s.parent.Deps(), s.client, sv);
    FirstConcat(Listed(s.origin), Listed(s.rightOrigin), s.client, sv);
    FirstListed(s.origin, s.client, sv);
    FirstListed(s.rightOrigin, s.client, sv);
    FirstListed(s.parent.Named(), s.client, sv);
  }

  lemma FirstListed(o: Option<ID>, client: nat, sv: StateVector)
    ensures FirstMissing(Listed(o), client, sv) == if Lacks(o, client, sv) then Some(o.value.client) else None
  {
    assert o.Some? ==> Listed(o)[1..] == [];
  }

  lemma {:induction false} FirstConcat(a: seq<ID>, b: seq<ID>, client: nat, sv: StateVector)
    ensures FirstMissing(a + b, client, sv) ==
      if FirstMissing(a, client, sv).Some? then FirstMissing(a, client, sv) else FirstMissing(b, client, sv)
  {
    if a == [] {
      assert a + b == b;
    } else {
      assert (a + b)[1..] == a[1..] + b;
      FirstConcat(a[1..], b, client, sv);
    }
  }

  /** The client of the first dependency is reported for as long as that one is missing. */
  lemma StillFirst(s: Struct, sv: StateVector, sv': StateVector, c: nat)
    requires Missing(s, sv) == Some(c) && Grows(sv, sv') && State(sv', c) == State(sv, c)
    ensures Missing(s, sv') == Some(c)
  {
    assert s.origin.Some? ==> State(sv, s.origin.value.client) <= State(sv', s.origin.value.client);
    assert s.rightOrigin.Some? ==> State(sv, s.rightOrigin.value.client) <= State(sv', s.rightOrigin.value.client);
  }

  /** It is the client of a dependency. */
  lemma MissingDep(s: Struct, sv: StateVector) returns (d: ID)
    requires Missing(s, sv).Some?
    ensures d in s.Deps() && d.client == Missing(s, sv).value != s.client && !Held(sv, d)
  {
    d :| d in s.Deps() && d.client == Missing(s, sv).value && d.client != s.client && !Held(sv, d);
  }

  /** `s` cannot be integrated: clocks of its own client are missing, or a dependency is. */
  predicate Blocked(s: Struct, sv: StateVector) {
    State(sv, s.client) < s.clock || Missing(s, sv).Some?
  }

  predicate WaitsFor(s: Struct, client: nat, sv: StateVector) {
    Missing(s, sv) == Some(client)
  }

  // ----- What is known about all items of all clients -----

  /** When the units were created.  Units of a client are created in the order of their
      clocks, and after everything they refer to. */
  type Time = ID -> nat

  ghost predicate Acyclic(time: Time, s: Struct) {
    && (forall d <- s.Deps() :: time(d) < time(ID(s.client, s.clock)))
  }

  ghost predicate AscendsAt(time: Time, c: nat, i: nat, j: nat) {
    i < j ==> time(ID(c, i)) < time(ID(c, j))
  }

  ghost predicate ClocksAscend(time: Time) {
    forall c, i, j :: AscendsAt(time, c, i, j)
  }

  /** A struct is younger than one that it waits for, if that one comes next of its client. */
  lemma WaitsForOlder(time: Time, sv: StateVector, s: Struct, t: Struct)
    requires ClocksAscend(time) && Acyclic(time, s)
    requires WaitsFor(s, t.client, sv) && t.clock <= State(sv, t.client)
    ensures time(ID(t.client, t.clock)) < time(ID(s.client, s.clock))
  {
    var d := MissingDep(s, sv);
    assert AscendsAt(time, t.client, t.clock, d.clock);
  }
}
