/** `diffUpdateV2`. */
module DiffUpdate {
  // The part of an update that a peer does not have yet.

  import opened Common
  import opened Yata
  import opened Structs
  import opened MergeUpdates

  /** `write` with an offset: the struct without its first units. */
  function Offset(s: Struct, offset: nat): Struct
    requires offset < s.len
  {
    if offset == 0 then s else Slice(s, offset)
  }

  predicate KeptId(sv: StateVector, s: seq<Struct>, id: ID) {
    Holds(s, id) && State(sv, id.client) <= id.clock
  }

  /** A struct, no `Skip`, that holds something new. */
  predicate New(s: Struct, sv: StateVector) {
    !s.Skip? && State(sv, s.client) < s.End()
  }

  /** From the first struct of a client on that holds something new, all of its structs are
      written, also the `Skip`s. */
  predicate Reached(s: seq<Struct>, i: nat, sv: StateVector) {
    i < |s| && exists j :: 0 <= j <= i && s[j].client == s[i].client && New(s[j], sv)
  }

  /** The struct from a clock on. */
  function Since(s: Struct, clock: nat): Struct {
    if s.clock < clock < s.End() then Slice(s, clock - s.clock) else s
  }

  /** What is written of the first `i` structs. */
  function Pieces(s: seq<Struct>, i: nat, sv: StateVector): seq<Struct>
    requires i <= |s|
  {
    if i == 0 then []
    else Pieces(s, i - 1, sv) + if Reached(s, i - 1, sv) then [Since(s[i - 1], State(sv, s[i - 1].client))] else []
  }

  /** `out` holds what is new of the first `i` structs. */
  ghost predicate DiffOf(s: seq<Struct>, i: nat, sv: StateVector, content: Content, out: seq<Struct>) {
    && i <= |s| && Update(s, content) && Update(out, content) && out == Pieces(s, i, sv)
    && forall id :: Holds(out, id) <==> KeptId(sv, s[..i], id)
  }

  /** The next struct is of a lower client than everything written. */
  predicate NextClient(s: seq<Struct>, i: nat, out: seq<Struct>) {
    i < |s| && out != [] ==> s[i].client < out[|out| - 1].client
  }

  /** While something is reached of a client, the last struct written is of that client. */
  lemma LastWritten(s: seq<Struct>, i: nat, sv: StateVector)
    requires i < |s| && Reached(s, i, sv)
    ensures Pieces(s, i + 1, sv) != [] && Pieces(s, i + 1, sv)[|Pieces(s, i + 1, sv)| - 1].client == s[i].client
  {
  }

  lemma ReachedBefore(s: seq<Struct>, i: nat, sv: StateVector, content: Content, j: nat)
    requires Update(s, content) && j < i < |s| && s[j].client == s[i].client && New(s[j], sv)
    ensures Reached(s, i - 1, sv) && s[i - 1].client == s[i].client
  {
    hide Update, New;
    if j < i - 1 {
      UpdatePrecedes(s, content, j, i - 1);
      UpdatePrecedes(s, content, i - 1, i);
    }
  }

  /** Nothing is reached of the next client yet. */
  lemma NotReached(s: seq<Struct>, i: nat, sv: StateVector, content: Content)
    requires Update(s, content) && i < |s| && NextClient(s, i, Pieces(s, i, sv))
    ensures Reached(s, i, sv) <==> New(s[i], sv)
  {
    hide Update, New, Pieces;
    forall j | 0 <= j < i && s[j].client == s[i].client ensures !New(s[j], sv) {
      if New(s[j], sv) {
        ReachedBefore(s, i, sv, content, j);
        LastWritten(s, i - 1, sv);
        assert false;
      }
    }
  }

  lemma TakeNext(s: seq<Struct>, i: nat, id: ID)
    requires i < |s|
    ensures Holds(s[..i + 1], id) <==> Holds(s[..i], id) || MergeUpdates.Has(s[i], id)
  {
    assert s[..i + 1] == s[..i] + [s[i]];
    HoldsSnoc(s[..i], s[i], id);
  }

  lemma DiffStart(s: seq<Struct>, sv: StateVector, content: Content)
    requires Update(s, content)
    ensures DiffOf(s, 0, sv, content, [])
  {
  }

  lemma NotEmpty(s: seq<Struct>, i: nat, content: Content)
    requires Update(s, content) && i < |s|
    ensures s[i].len > 0
  {
    assert From(s[i], content);
  }

  /** A struct with nothing new is passed over. */
  lemma PassKnown(s: seq<Struct>, i: nat, sv: StateVector, content: Content, out: seq<Struct>)
    requires DiffOf(s, i, sv, content, out) && i < |s| && NextClient(s, i, out)
    requires s[i].Skip? || s[i].End() <= State(sv, s[i].client)
    ensures DiffOf(s, i + 1, sv, content, out) && NextClient(s, i + 1, out)
  {
    assert i + 1 < |s| ==> MeetsAt(s, i);
    NotReached(s, i, sv, content);
    forall id ensures Holds(out, id) <==> KeptId(sv, s[..i + 1], id) {
      TakeNext(s, i, id);
    }
  }

  lemma Appended(out: seq<Struct>, t: Struct, content: Content)
    requires Update(out, content) && From(t, content) && (out != [] ==> Meets(out[|out| - 1], t))
    ensures Update(out + [t], content)
  {
    if out == [] {
      assert out + [t] == [t];
    } else {
      var n := |out| - 1;
      assert out == out[..n] + [out[n]];
      UpdateGrows(out[..n], out[n], t, content);
    }
  }

  /** The first struct with something new, without what is known. */
  lemma WriteFirst(s: seq<Struct>, i: nat, sv: StateVector, content: Content, out: seq<Struct>, offset: nat)
    requires DiffOf(s, i, sv, content, out) && i < |s| && NextClient(s, i, out)
    requires !s[i].Skip? && State(sv, s[i].client) < s[i].End()
    requires offset == if s[i].clock < State(sv, s[i].client) then State(sv, s[i].client) - s[i].clock else 0
    ensures DiffOf(s, i + 1, sv, content, out + [Offset(s[i], offset)]) && Reached(s, i, sv)
    ensures Offset(s[i], offset).End() == s[i].End() && Offset(s[i], offset).client == s[i].client
  {
    var t := Offset(s[i], offset);
    NotReached(s, i, sv, content);
    assert t == Since(s[i], State(sv, s[i].client));
    assert From(s[i], content);
    if offset > 0 {
      SliceFrom(s[i], offset, content);
    }
    Appended(out, t, content);
    forall id ensures Holds(out + [t], id) <==> KeptId(sv, s[..i + 1], id) {
      TakeNext(s, i, id);
      HoldsSnoc(out, t, id);
    }
  }

  lemma ReachesOn(s: seq<Struct>, i: nat, sv: StateVector)
    requires 0 < i < |s| && Reached(s, i - 1, sv) && s[i].client == s[i - 1].client
    ensures Reached(s, i, sv)
  {
    var j :| 0 <= j <= i - 1 && s[j].client == s[i - 1].client && New(s[j], sv);
    assert s[j].client == s[i].client;
  }

  /** What follows it of the same client. */
  lemma WriteRest(s: seq<Struct>, i: nat, sv: StateVector, content: Content, out: seq<Struct>)
    requires DiffOf(s, i, sv, content, out) && 0 < i < |s| && out != [] && Reached(s, i - 1, sv)
    requires s[i].client == s[i - 1].client == out[|out| - 1].client && out[|out| - 1].End() == s[i - 1].End()
    requires State(sv, s[i].client) <= s[i - 1].End()
    ensures DiffOf(s, i + 1, sv, content, out + [s[i]]) && Reached(s, i, sv)
  {
    assert MeetsAt(s, i - 1) && From(s[i], content);
    ReachesOn(s, i, sv);
    Appended(out, s[i], content);
    forall id ensures Holds(out + [s[i]], id) <==> KeptId(sv, s[..i + 1], id) {
      TakeNext(s, i, id);
      HoldsSnoc(out, s[i], id);
    }
  }

  /** Writes the rest of a client once a struct of it was written. */
  method WriteClient(s: seq<Struct>, i0: nat, sv: StateVector, ghost content: Content, out0: seq<Struct>)
    returns (i: nat, out: seq<Struct>)
    requires DiffOf(s, i0, sv, content, out0) && 0 < i0 && out0 != []
    requires s[i0 - 1].client == out0[|out0| - 1].client && out0[|out0| - 1].End() == s[i0 - 1].End()
    requires State(sv, s[i0 - 1].client) <= s[i0 - 1].End() && Reached(s, i0 - 1, sv)
    ensures DiffOf(s, i, sv, content, out) && NextClient(s, i, out) && i >= i0
  {
    i, out := i0, out0;
    var currClient := s[i - 1].client;
    while i < |s| && s[i].client == currClient
      invariant i0 <= i && DiffOf(s, i, sv, content, out) && out != []
      invariant s[i - 1].client == currClient == out[|out| - 1].client && out[|out| - 1].End() == s[i - 1].End()
      invariant State(sv, currClient) <= s[i - 1].End() && Reached(s, i - 1, sv)
    {
      WriteRest(s, i, sv, content, out);
      assert MeetsAt(s, i - 1);
      out := out + [s[i]];
      i := i + 1;
    }
    assert i < |s| ==> MeetsAt(s, i - 1);
  }

  /** The update keeps exactly the ids at or above the state vector.  Of each client it keeps
      the structs from the first one on with such an id, and of that one what is new. */
  method DiffUpdate(update: seq<Struct>, sv: StateVector, ghost content: Content) returns (out: seq<Struct>)
    requires Update(update, content)
    ensures Update(out, content)
    ensures forall id :: Holds(out, id) <==> Holds(update, id) && State(sv, id.client) <= id.clock
    ensures out == Pieces(update, |update|, sv)
  {
    hide Update, Pieces, Offset, MergeUpdates.Has, Reached;
    out := [];
    var i: nat := 0;
    DiffStart(update, sv, content);
    while i < |update|
      invariant DiffOf(update, i, sv, content, out) && NextClient(update, i, out)
      decreases |update| - i
    {
      var curr := update[i];
      var svClock := State(sv, curr.client);
      NotEmpty(update, i, content);
      if curr.Skip? {
        PassKnown(update, i, sv, content, out);
        i := i + 1;
      } else if curr.End() > svClock {
        var offset: nat := if curr.clock < svClock then svClock - curr.clock else 0;
        WriteFirst(update, i, sv, content, out, offset);
        out := out + [Offset(curr, offset)];
        i, out := WriteClient(update, i + 1, sv, content, out);
      } else {
        ghost var i0 := i;
        while i < |update| && update[i].client == curr.client && update[i].End() <= svClock
          invariant i0 <= i && (i == i0 ==> i < |update|) && DiffOf(update, i, sv, content, out)
          invariant NextClient(update, i, out)
          decreases |update| - i
        {
          PassKnown(update, i, sv, content, out);
          i := i + 1;
        }
      }
    }
    assert update[..i] == update;
  }
}
