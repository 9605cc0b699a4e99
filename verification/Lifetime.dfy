/** The ownership protocol of the Lua facade (lua/lql_lifetime.h): counted owners, native objects that belong to
    them, nested method scopes, and finalizers that may run at any point of a method. */
module Lifetime {
  import opened Wrappers

  /** lua_lql_owner; deferred is the list of closed resources that wait for the outermost method to return. */
  datatype Owner = Owner(refs: nat, active: nat, closed: bool, deferred: seq<nat>)

  /** lua_lql_resource: a native object and the owner it keeps alive. */
  datatype Resource = Resource(owner: nat, closed: bool)

  /** lua_lql_scope: one protected method call, the natives it made, and the handles it uses. */
  datatype Scope = Scope(owner: Option<nat>, resources: seq<nat>, borrowed: seq<nat>)

  /** Who will dispose of a resource: a userdata handle, a scope, the deferred list, or the code at hand. */
  datatype Place = Handle | Temporary(scope: nat) | Deferred | Loose

  /** What reaches the native library. */
  datatype Event = Native(resource: nat, owner: nat, closed: bool, active: nat) | Context(owner: nat)

  function Of(resources: map<nat, Resource>, o: nat): set<nat> {
    set r | r in resources && resources[r].owner == o
  }

  /** How many of the scopes run methods of the owner. */
  function Opened(scopes: seq<Scope>, o: nat): nat {
    if |scopes| == 0 then 0
    else Opened(scopes[..|scopes| - 1], o) + (if scopes[|scopes| - 1].owner == Some(o) then 1 else 0)
  }

  function One(b: bool): nat { if b then 1 else 0 }

  function Members(s: seq<nat>): set<nat> { set r | r in s }

  predicate Distinct(s: seq<nat>) { forall i, j :: 0 <= i < j < |s| ==> s[i] != s[j] }

  /** The list holds each resource of the set once. */
  ghost predicate Lists(s: seq<nat>, members: set<nat>) { Distinct(s) && forall r :: r in s <==> r in members }

  // ---------------------------------------------------------------- counting

  lemma OfWithout(resources: map<nat, Resource>, r: nat, o: nat)
    requires r in resources
    ensures |Of(resources, o)| == |Of(resources - {r}, o)| + One(resources[r].owner == o)
  {
    if resources[r].owner == o {
      assert Of(resources, o) == Of(resources - {r}, o) + {r};
    } else {
      assert Of(resources, o) == Of(resources - {r}, o);
    }
  }

  lemma OfWith(resources: map<nat, Resource>, r: nat, resource: Resource, o: nat)
    requires r !in resources
    ensures |Of(resources[r := resource], o)| == |Of(resources, o)| + One(resource.owner == o)
  {
    assert resources[r := resource] - {r} == resources;
    OfWithout(resources[r := resource], r, o);
  }

  lemma OpenedSnoc(scopes: seq<Scope>, s: Scope, o: nat)
    ensures Opened(scopes + [s], o) == Opened(scopes, o) + One(s.owner == Some(o))
  {
    assert (scopes + [s])[..|scopes|] == scopes;
  }

  lemma {:induction false} OpenedSame(a: seq<Scope>, b: seq<Scope>, o: nat)
    requires |a| == |b| && forall i :: 0 <= i < |a| ==> a[i].owner == b[i].owner
    ensures Opened(a, o) == Opened(b, o)
  {
    if |a| > 0 {
      OpenedSame(a[..|a| - 1], b[..|b| - 1], o);
    }
  }

  lemma {:induction false} OpenedBySome(scopes: seq<Scope>, i: nat, o: nat)
    requires i < |scopes| && scopes[i].owner == Some(o)
    ensures Opened(scopes, o) > 0
  {
    if i < |scopes| - 1 {
      OpenedBySome(scopes[..|scopes| - 1], i, o);
    }
  }

  // ---------------------------------------------------------------- the log

  ghost predicate Destroyed(log: seq<Event>, r: nat) { exists i :: 0 <= i < |log| && log[i].Native? && log[i].resource == r }

  ghost predicate Released(log: seq<Event>, o: nat) { exists i :: 0 <= i < |log| && log[i] == Context(o) }

  /** Nothing is destroyed twice, nothing after its context, and no closed handle's object inside a method of its owner. */
  ghost predicate Orderly(log: seq<Event>) {
    && (forall i, j :: 0 <= i < j < |log| && log[i].Native? && log[j].Native? ==> log[i].resource != log[j].resource)
    && (forall i, j :: 0 <= i < j < |log| && log[i].Context? && log[j].Context? ==> log[j].owner != log[i].owner)
    && (forall i, j :: 0 <= i < j < |log| && log[i].Context? ==> !(log[j].Native? && log[j].owner == log[i].owner))
    && (forall i :: 0 <= i < |log| && log[i].Native? && log[i].closed ==> log[i].active == 0)
  }

  lemma LogNative(log: seq<Event>, r: nat, o: nat, closed: bool, active: nat)
    requires Orderly(log) && !Destroyed(log, r) && !Released(log, o) && (closed ==> active == 0)
    ensures var next := log + [Native(r, o, closed, active)];
      && Orderly(next) && Destroyed(next, r)
      && (forall q :: q != r ==> (Destroyed(next, q) <==> Destroyed(log, q)))
      && (forall p :: Released(next, p) <==> Released(log, p))
  {
    var next := log + [Native(r, o, closed, active)];
    assert next[|log|] == Native(r, o, closed, active);
    forall q | q != r ensures Destroyed(next, q) <==> Destroyed(log, q) {
      if Destroyed(log, q) {
        var i :| 0 <= i < |log| && log[i].Native? && log[i].resource == q;
        assert next[i] == log[i];
      }
    }
    forall p ensures Released(next, p) <==> Released(log, p) {
      if Released(log, p) {
        var i :| 0 <= i < |log| && log[i] == Context(p);
        assert next[i] == log[i];
      }
    }
  }

  lemma LogContext(log: seq<Event>, o: nat)
    requires Orderly(log) && !Released(log, o)
    ensures var next := log + [Context(o)];
      && Orderly(next) && Released(next, o)
      && (forall q :: Destroyed(next, q) <==> Destroyed(log, q))
      && (forall p :: p != o ==> (Released(next, p) <==> Released(log, p)))
  {
    var next := log + [Context(o)];
    assert next[|log|] == Context(o);
    forall q ensures Destroyed(next, q) <==> Destroyed(log, q) {
      if Destroyed(log, q) {
        var i :| 0 <= i < |log| && log[i].Native? && log[i].resource == q;
        assert next[i] == log[i];
      }
    }
    forall p | p != o ensures Released(next, p) <==> Released(log, p) {
      if Released(log, p) {
        var i :| 0 <= i < |log| && log[i] == Context(p);
        assert next[i] == log[i];
      }
    }
  }

  // ---------------------------------------------------------------- lists

  lemma PrependLists(s: seq<nat>, members: set<nat>, r: nat)
    requires Lists(s, members) && r !in members
    ensures Lists([r] + s, members + {r})
  {
    forall q ensures q in [r] + s <==> q in members + {r} {
    }
  }

  lemma PopLists(s: seq<nat>, members: set<nat>)
    requires Lists(s, members) && |s| > 0
    ensures s[0] in members && Lists(s[1..], members - {s[0]})
  {
    assert s == [s[0]] + s[1..];
    forall q ensures q in s[1..] <==> q in members - {s[0]} {
      if q in s[1..] {
        var k :| 0 <= k < |s[1..]| && s[1..][k] == q;
        assert s[k + 1] == q;
      }
    }
  }

  lemma RemoveLists(s: seq<nat>, members: set<nat>, k: nat)
    requires Lists(s, members) && k < |s|
    ensures s[k] in members && Lists(s[..k] + s[k + 1..], members - {s[k]})
  {
    var t := s[..k] + s[k + 1..];
    assert forall i :: 0 <= i < |t| ==> t[i] == if i < k then s[i] else s[i + 1];
    forall q ensures q in t <==> q in members - {s[k]} {
      if q in t {
        var i :| 0 <= i < |t| && t[i] == q;
      }
      if q in members && q != s[k] {
        var i :| 0 <= i < |s| && s[i] == q;
        assert t[if i < k then i else i - 1] == q;
      }
    }
  }

  // ---------------------------------------------------------------- the state

  /** The owners, the undisposed resources, the living client handles and the open scopes. */
  datatype State = State(owners: map<nat, Owner>, resources: map<nat, Resource>, clients: set<nat>, scopes: seq<Scope>)

  /** refs counts the client handle, the undisposed resources and the open scopes; surplus holds the references that
      the code at hand has still to give back. */
  ghost predicate Counted(s: State, surplus: multiset<nat>) {
    forall o :: o in s.owners ==> CountedAt(s, o, surplus)
  }

  ghost predicate CountedAt(s: State, o: nat, surplus: multiset<nat>)
    requires o in s.owners
  {
    var owner := s.owners[o];
    && owner.refs == One(o in s.clients) + |Of(s.resources, o)| + Opened(s.scopes, o) + surplus[o]
    && owner.refs > 0 && owner.active == Opened(s.scopes, o)
    && (owner.closed <==> o !in s.clients)
  }

  /** Nothing points to an owner that is gone. */
  ghost predicate Alive(s: State, surplus: multiset<nat>) {
    && (forall o :: o in s.clients ==> o in s.owners)
    && (forall r :: r in s.resources ==> s.resources[r].owner in s.owners)
    && (forall i :: 0 <= i < |s.scopes| && s.scopes[i].owner.Some? ==> s.scopes[i].owner.value in s.owners)
    && (forall o :: o in surplus ==> o in s.owners)
  }

  ghost function DeferredOf(s: State, place: map<nat, Place>, o: nat): set<nat> {
    set r | r in place && place[r] == Deferred && r in s.resources && s.resources[r].owner == o
  }

  ghost function TemporaryOf(place: map<nat, Place>, i: nat): set<nat> {
    set r | r in place && place[r] == Temporary(i)
  }

  /** Every undisposed resource is in exactly one place. */
  ghost predicate Placed(s: State, place: map<nat, Place>) {
    && place.Keys == s.resources.Keys
    && (forall o :: o in s.owners ==> Lists(s.owners[o].deferred, DeferredOf(s, place, o)))
    && (forall i: nat :: i < |s.scopes| ==> Lists(s.scopes[i].resources, TemporaryOf(place, i)))
    && (forall r :: r in place ==> PlacedAt(s, place, r))
  }

  ghost predicate PlacedAt(s: State, place: map<nat, Place>, r: nat)
    requires r in place && place.Keys == s.resources.Keys
  {
    && (place[r].Temporary? ==> place[r].scope < |s.scopes| && s.scopes[place[r].scope].owner == Some(s.resources[r].owner))
    && (place[r] != Loose ==> (s.resources[r].closed <==> place[r] == Deferred))
  }

  /** A handle that a method of its owner uses stays until that method has returned. */
  ghost predicate BorrowsKept(s: State, place: map<nat, Place>, made: seq<nat>) {
    forall i: nat, b :: i < |s.scopes| && b in s.scopes[i].borrowed ==> BorrowKept(s, place, made, i, b)
  }

  ghost predicate BorrowKept(s: State, place: map<nat, Place>, made: seq<nat>, i: nat, b: nat)
    requires i < |s.scopes|
  {
    && b < |made|
    && (s.scopes[i].owner == Some(made[b]) ==> b in place && (place[b] == Place.Handle || place[b] == Deferred))
  }

  /** The log tells what is gone. */
  ghost predicate Logged(s: State, made: seq<nat>, ownersMade: nat, log: seq<Event>) {
    && Orderly(log)
    && (forall r :: r in s.resources ==> r < |made| && made[r] == s.resources[r].owner)
    && (forall o :: o in s.owners ==> o < ownersMade)
    && (forall r: nat :: r < |made| ==> made[r] < ownersMade)
    && (forall r: nat :: (r in s.resources || r >= |made|) <==> !Destroyed(log, r))
    && (forall o: nat :: (o in s.owners || o >= ownersMade) <==> !Released(log, o))
    && (forall i :: 0 <= i < |log| && log[i].Native? ==> log[i].resource < |made| && log[i].owner == made[log[i].resource])
  }

  /** The history of the state: who disposes of what, whose every resource is, and what was destroyed. */
  datatype History = History(place: map<nat, Place>, made: seq<nat>, ownersMade: nat, log: seq<Event>)

  ghost predicate Sound(s: State, surplus: multiset<nat>, h: History) {
    && Counted(s, surplus) && Alive(s, surplus) && Placed(s, h.place)
    && BorrowsKept(s, h.place, h.made) && Logged(s, h.made, h.ownersMade, h.log)
  }

  lemma {:induction false} NotOpened(scopes: seq<Scope>, o: nat)
    requires forall i :: 0 <= i < |scopes| ==> scopes[i].owner != Some(o)
    ensures Opened(scopes, o) == 0
  {
    if |scopes| > 0 {
      NotOpened(scopes[..|scopes| - 1], o);
    }
  }

  // ---------------------------------------------------------------- what the primitive moves keep

  function AddedState(s: State, o: nat): State {
    s.(owners := s.owners[o := Owner(1, 0, false, [])], clients := s.clients + {o})
  }

  lemma AddKeeps(s: State, h: History)
    requires Sound(s, multiset{}, h)
    ensures h.ownersMade !in s.owners && Sound(AddedState(s, h.ownersMade), multiset{}, h.(ownersMade := h.ownersMade + 1))
  {
    hide Counted, CountedAt, Alive, Placed, BorrowsKept, Logged;
    AddLogged(s, h);
    AddCounted(s, h.ownersMade);
    assert forall r :: r in s.resources ==> s.resources[r].owner in s.owners by {
      OwnersAreThere(s, multiset{});
    }
    AddPlaced(s, h.place, h.ownersMade);
    BorrowsStay(s, AddedState(s, h.ownersMade), h, h.(ownersMade := h.ownersMade + 1));
  }

  lemma AddCounted(s: State, o: nat)
    requires Counted(s, multiset{}) && Alive(s, multiset{}) && o !in s.owners
    ensures Counted(AddedState(s, o), multiset{}) && Alive(AddedState(s, o), multiset{})
  {
    hide Opened;
    var t := AddedState(s, o);
    assert Of(s.resources, o) == {};
    NotOpened(s.scopes, o);
    forall p | p in t.owners ensures CountedAt(t, p, multiset{}) {
      assert p != o ==> CountedAt(s, p, multiset{});
    }
  }

  lemma AddPlaced(s: State, place: map<nat, Place>, o: nat)
    requires Placed(s, place) && o !in s.owners && forall r :: r in s.resources ==> s.resources[r].owner in s.owners
    ensures Placed(AddedState(s, o), place)
  {
    hide Lists;
    var t := AddedState(s, o);
    EmptyLists();
    forall p | p in t.owners ensures Lists(t.owners[p].deferred, DeferredOf(t, place, p)) {
      assert DeferredOf(t, place, p) == if p == o then {} else DeferredOf(s, place, p);
    }
    forall q | q in place ensures PlacedAt(t, place, q) {
      assert PlacedAt(s, place, q);
    }
  }

  lemma AddLogged(s: State, h: History)
    requires Logged(s, h.made, h.ownersMade, h.log)
    ensures h.ownersMade !in s.owners && Logged(AddedState(s, h.ownersMade), h.made, h.ownersMade + 1, h.log)
  {
    hide Orderly, Destroyed, Released;
  }

  lemma EmptyLists()
    ensures Lists([], {})
  {
  }

  function Decremented(owner: Owner): Owner { if owner.refs == 0 then owner else owner.(refs := owner.refs - 1) }

  /** lua_lql_owner_release. */
  function ReleasedState(s: State, o: nat): State
    requires o in s.owners
  {
    if s.owners[o].refs <= 1 then s.(owners := s.owners - {o}) else s.(owners := s.owners[o := Decremented(s.owners[o])])
  }

  function ReleasedHistory(s: State, h: History, o: nat): History
    requires o in s.owners
  {
    if s.owners[o].refs <= 1 then h.(log := h.log + [Context(o)]) else h
  }

  lemma ReleaseKeeps(s: State, surplus: multiset<nat>, h: History, o: nat)
    requires Sound(s, surplus, h) && surplus[o] > 0
    ensures o in s.owners && Sound(ReleasedState(s, o), surplus - multiset{o}, ReleasedHistory(s, h, o))
  {
    hide Counted, CountedAt, Alive, Placed, BorrowsKept, Logged;
    ReleaseCounted(s, surplus, o);
    ReleasePlaced(s, surplus, h.place, o);
    ReleaseBorrows(s, h, o);
    ReleaseLogged(s, h, o);
  }

  lemma ReleaseCounted(s: State, surplus: multiset<nat>, o: nat)
    requires Counted(s, surplus) && Alive(s, surplus) && surplus[o] > 0
    ensures o in s.owners
    ensures Counted(ReleasedState(s, o), surplus - multiset{o}) && Alive(ReleasedState(s, o), surplus - multiset{o})
  {
    hide Opened, Of;
    assert CountedAt(s, o, surplus);
    var t, rest := ReleasedState(s, o), surplus - multiset{o};
    forall p | p in t.owners ensures CountedAt(t, p, rest) {
      assert CountedAt(s, p, surplus);
    }
    if s.owners[o].refs <= 1 {
      NoneLeft(s, o);
    }
  }

  lemma ReleasePlaced(s: State, surplus: multiset<nat>, place: map<nat, Place>, o: nat)
    requires Placed(s, place) && o in s.owners
    ensures Placed(ReleasedState(s, o), place)
  {
    hide Lists;
    var t := ReleasedState(s, o);
    forall p | p in t.owners ensures Lists(t.owners[p].deferred, DeferredOf(t, place, p)) {
      assert DeferredOf(t, place, p) == DeferredOf(s, place, p);
    }
    forall r | r in place ensures PlacedAt(t, place, r) {
      assert PlacedAt(s, place, r);
    }
  }

  /** Borrows look only at the scopes. */
  lemma SameScopesKeepBorrows(s: State, t: State, place: map<nat, Place>, made: seq<nat>)
    requires BorrowsKept(s, place, made) && t.scopes == s.scopes
    ensures BorrowsKept(t, place, made)
  {
    forall i: nat, b | i < |t.scopes| && b in t.scopes[i].borrowed ensures BorrowKept(t, place, made, i, b) {
      assert BorrowKept(s, place, made, i, b);
    }
  }

  lemma ReleaseBorrows(s: State, h: History, o: nat)
    requires BorrowsKept(s, h.place, h.made) && o in s.owners
    ensures BorrowsKept(ReleasedState(s, o), ReleasedHistory(s, h, o).place, ReleasedHistory(s, h, o).made)
  {
    SameScopesKeepBorrows(s, ReleasedState(s, o), h.place, h.made);
  }

  lemma ReleaseLogged(s: State, h: History, o: nat)
    requires Logged(s, h.made, h.ownersMade, h.log) && o in s.owners
    ensures var g := ReleasedHistory(s, h, o); Logged(ReleasedState(s, o), g.made, g.ownersMade, g.log)
  {
    hide Orderly, Destroyed, Released;
    if s.owners[o].refs <= 1 {
      LogContext(h.log, o);
    }
  }

  /** The last reference: no client handle, no resource and no scope is left. */
  lemma NoneLeft(s: State, o: nat)
    requires |Of(s.resources, o)| == 0 && Opened(s.scopes, o) == 0
    ensures forall r :: r in s.resources ==> s.resources[r].owner != o
    ensures forall i :: 0 <= i < |s.scopes| ==> s.scopes[i].owner != Some(o)
  {
    forall r | r in s.resources ensures s.resources[r].owner != o {
      assert r !in Of(s.resources, o);
    }
    forall i | 0 <= i < |s.scopes| ensures s.scopes[i].owner != Some(o) {
      if s.scopes[i].owner == Some(o) {
        OpenedBySome(s.scopes, i, o);
      }
    }
  }

  /** The scopes' owners and borrowed handles stay, and no handle or deferred resource goes. */
  lemma BorrowsStay(s: State, t: State, h: History, g: History)
    requires BorrowsKept(s, h.place, h.made) && h.made <= g.made && |t.scopes| == |s.scopes|
    requires forall i :: 0 <= i < |s.scopes| ==> t.scopes[i].owner == s.scopes[i].owner && t.scopes[i].borrowed == s.scopes[i].borrowed
    requires forall b :: b in h.place && (h.place[b] == Place.Handle || h.place[b] == Deferred) ==>
               b in g.place && (g.place[b] == Place.Handle || g.place[b] == Deferred)
    ensures BorrowsKept(t, g.place, g.made)
  {
    forall i: nat, b | i < |t.scopes| && b in t.scopes[i].borrowed ensures BorrowKept(t, g.place, g.made, i, b) {
      assert BorrowKept(s, h.place, h.made, i, b);
    }
  }

  /** A resource that is neither deferred nor a scope's temporary, before and after, can change its place. */
  lemma LooseMoves(s: State, place: map<nat, Place>, r: nat, p: Place)
    requires Placed(s, place) && r in place && (place[r] == Loose || place[r] == Place.Handle) && (p == Loose || p == Place.Handle)
    requires p == Place.Handle ==> !s.resources[r].closed
    ensures Placed(s, place[r := p])
  {
    hide Lists;
    var next := place[r := p];
    forall o | o in s.owners ensures Lists(s.owners[o].deferred, DeferredOf(s, next, o)) {
      assert DeferredOf(s, next, o) == DeferredOf(s, place, o);
    }
    forall i: nat | i < |s.scopes| ensures Lists(s.scopes[i].resources, TemporaryOf(next, i)) {
      assert TemporaryOf(next, i) == TemporaryOf(place, i);
    }
    forall q | q in next ensures PlacedAt(s, next, q) {
      assert PlacedAt(s, place, q);
    }
  }

  // ---------------------------------------------------------------- destroying a loose resource

  function DestroyedState(s: State, r: nat): State { s.(resources := s.resources - {r}) }

  function DestroyedHistory(s: State, h: History, r: nat): History
    requires r in s.resources && s.resources[r].owner in s.owners
  {
    var o := s.resources[r].owner;
    h.(place := h.place - {r}, log := h.log + [Native(r, o, s.resources[r].closed, s.owners[o].active)])
  }

  lemma DestroyKeeps(s: State, surplus: multiset<nat>, h: History, r: nat)
    requires Sound(s, surplus, h) && r in h.place && h.place[r] == Loose
    requires r in s.resources && s.resources[r].owner in s.owners
    requires s.resources[r].closed ==> s.owners[s.resources[r].owner].active == 0
    ensures Sound(DestroyedState(s, r), surplus + multiset{s.resources[r].owner}, DestroyedHistory(s, h, r))
  {
    hide Counted, CountedAt, Alive, Placed, BorrowsKept, Logged;
    DestroyCounted(s, surplus, r);
    DestroyPlaced(s, h.place, r);
    BorrowsStay(s, DestroyedState(s, r), h, DestroyedHistory(s, h, r));
    DestroyLogged(s, h, r);
  }

  lemma DestroyCounted(s: State, surplus: multiset<nat>, r: nat)
    requires Counted(s, surplus) && Alive(s, surplus) && r in s.resources
    ensures var more := surplus + multiset{s.resources[r].owner};
      Counted(DestroyedState(s, r), more) && Alive(DestroyedState(s, r), more)
  {
    hide Opened, Of;
    var t, more := DestroyedState(s, r), surplus + multiset{s.resources[r].owner};
    forall p | p in t.owners ensures CountedAt(t, p, more) {
      assert CountedAt(s, p, surplus);
      OfWithout(s.resources, r, p);
    }
  }

  lemma DestroyPlaced(s: State, place: map<nat, Place>, r: nat)
    requires Placed(s, place) && r in place && place[r] == Loose
    ensures Placed(DestroyedState(s, r), place - {r})
  {
    hide Lists;
    var t, next := DestroyedState(s, r), place - {r};
    forall o | o in t.owners ensures Lists(t.owners[o].deferred, DeferredOf(t, next, o)) {
      assert DeferredOf(t, next, o) == DeferredOf(s, place, o);
    }
    forall i: nat | i < |t.scopes| ensures Lists(t.scopes[i].resources, TemporaryOf(next, i)) {
      assert TemporaryOf(next, i) == TemporaryOf(place, i);
    }
    forall q | q in next ensures PlacedAt(t, next, q) {
      assert PlacedAt(s, place, q);
    }
  }

  lemma DestroyLogged(s: State, h: History, r: nat)
    requires Logged(s, h.made, h.ownersMade, h.log) && r in s.resources && s.resources[r].owner in s.owners
    requires s.resources[r].closed ==> s.owners[s.resources[r].owner].active == 0
    ensures var g := DestroyedHistory(s, h, r); Logged(DestroyedState(s, r), g.made, g.ownersMade, g.log)
  {
    hide Orderly, Destroyed, Released;
    var o := s.resources[r].owner;
    LogNative(h.log, r, o, s.resources[r].closed, s.owners[o].active);
  }

  // ---------------------------------------------------------------- temporaries of the innermost scope

  /** A resource leaves the list of a scope. */
  function TakenState(s: State, i: nat, k: nat): State
    requires i < |s.scopes| && k < |s.scopes[i].resources|
  {
    var list := s.scopes[i].resources;
    s.(scopes := s.scopes[i := s.scopes[i].(resources := list[..k] + list[k + 1..])])
  }

  lemma TakeKeeps(s: State, surplus: multiset<nat>, h: History, i: nat, k: nat)
    requires Sound(s, surplus, h) && i < |s.scopes| && k < |s.scopes[i].resources|
    ensures var r := s.scopes[i].resources[k];
      && r in h.place && h.place[r] == Temporary(i) && r in s.resources && !s.resources[r].closed
      && Some(s.resources[r].owner) == s.scopes[i].owner
      && Sound(TakenState(s, i, k), surplus, h.(place := h.place[r := Loose]))
  {
    hide Counted, CountedAt, Alive, Placed, BorrowsKept, Logged;
    TakePlaced(s, h.place, i, k);
    SameOwnersCounted(s, TakenState(s, i, k), surplus);
    BorrowsStay(s, TakenState(s, i, k), h, h.(place := h.place[s.scopes[i].resources[k] := Loose]));
    assert Logged(TakenState(s, i, k), h.made, h.ownersMade, h.log) by {
      SameLogged(s, TakenState(s, i, k), h);
    }
  }

  lemma SameOwnersCounted(s: State, t: State, surplus: multiset<nat>)
    requires Counted(s, surplus) && Alive(s, surplus) && t == s.(scopes := t.scopes) && |t.scopes| == |s.scopes|
    requires forall i :: 0 <= i < |s.scopes| ==> t.scopes[i].owner == s.scopes[i].owner
    ensures Counted(t, surplus) && Alive(t, surplus)
  {
    hide Opened, Of;
    forall o | o in t.owners ensures CountedAt(t, o, surplus) {
      assert CountedAt(s, o, surplus);
      OpenedSame(s.scopes, t.scopes, o);
    }
  }

  lemma SameLogged(s: State, t: State, h: History)
    requires Logged(s, h.made, h.ownersMade, h.log) && t.owners.Keys == s.owners.Keys && t.resources.Keys == s.resources.Keys
    requires forall r :: r in s.resources ==> t.resources[r].owner == s.resources[r].owner
    ensures Logged(t, h.made, h.ownersMade, h.log)
  {
    hide Orderly, Destroyed, Released;
    assert forall o :: o in t.owners <==> o in s.owners.Keys;
    assert forall r :: r in t.resources <==> r in s.resources.Keys;
  }

  lemma TakePlaced(s: State, place: map<nat, Place>, i: nat, k: nat)
    requires Placed(s, place) && i < |s.scopes| && k < |s.scopes[i].resources|
    ensures var r := s.scopes[i].resources[k];
      && r in place && place[r] == Temporary(i) && r in s.resources && !s.resources[r].closed
      && Some(s.resources[r].owner) == s.scopes[i].owner
      && Placed(TakenState(s, i, k), place[r := Loose])
  {
    hide Lists;
    var r, t := s.scopes[i].resources[k], TakenState(s, i, k);
    RemoveLists(s.scopes[i].resources, TemporaryOf(place, i), k);
    assert r in place;
    assert PlacedAt(s, place, r);
    var next := place[r := Loose];
    forall o | o in t.owners ensures Lists(t.owners[o].deferred, DeferredOf(t, next, o)) {
      assert DeferredOf(t, next, o) == DeferredOf(s, place, o);
    }
    forall j: nat | j < |t.scopes| ensures Lists(t.scopes[j].resources, TemporaryOf(next, j)) {
      assert TemporaryOf(next, j) == if j == i then TemporaryOf(place, i) - {r} else TemporaryOf(place, j);
    }
    forall q | q in next ensures PlacedAt(t, next, q) {
      assert PlacedAt(s, place, q);
    }
  }

  /** lua_lql_track_native: a new resource at the head of the innermost scope's list. */
  function TrackedState(s: State, r: nat): State
    requires |s.scopes| > 0 && s.scopes[|s.scopes| - 1].owner.Some? && s.scopes[|s.scopes| - 1].owner.value in s.owners
  {
    var i := |s.scopes| - 1;
    var o := s.scopes[i].owner.value;
    s.(owners := s.owners[o := s.owners[o].(refs := s.owners[o].refs + 1)],
       resources := s.resources[r := Resource(o, false)],
       scopes := s.scopes[i := s.scopes[i].(resources := [r] + s.scopes[i].resources)])
  }

  lemma TrackKeeps(s: State, h: History)
    requires Sound(s, multiset{}, h)
    requires |s.scopes| > 0 && s.scopes[|s.scopes| - 1].owner.Some? && s.scopes[|s.scopes| - 1].owner.value in s.owners
    ensures var i, r := |s.scopes| - 1, |h.made|;
      && r !in s.resources
      && Sound(TrackedState(s, r), multiset{},
               h.(place := h.place[r := Temporary(i)], made := h.made + [s.scopes[i].owner.value]))
  {
    hide Counted, CountedAt, Alive, Placed, BorrowsKept, Logged;
    var i, r := |s.scopes| - 1, |h.made|;
    var g := h.(place := h.place[r := Temporary(i)], made := h.made + [s.scopes[i].owner.value]);
    TrackLogged(s, h, g);
    TrackCounted(s, r);
    TrackPlaced(s, h.place, r);
    NewIsNotBorrowed(s, h, r);
    BorrowsStay(s, TrackedState(s, r), h, g);
  }

  lemma NewIsNotBorrowed(s: State, h: History, r: nat)
    requires Placed(s, h.place) && r !in s.resources
    ensures r !in h.place
  {
  }

  lemma TrackCounted(s: State, r: nat)
    requires Counted(s, multiset{}) && Alive(s, multiset{}) && r !in s.resources
    requires |s.scopes| > 0 && s.scopes[|s.scopes| - 1].owner.Some? && s.scopes[|s.scopes| - 1].owner.value in s.owners
    ensures Counted(TrackedState(s, r), multiset{}) && Alive(TrackedState(s, r), multiset{})
  {
    hide Opened, Of;
    var t, o := TrackedState(s, r), s.scopes[|s.scopes| - 1].owner.value;
    forall p | p in t.owners ensures CountedAt(t, p, multiset{}) {
      assert CountedAt(s, p, multiset{});
      OfWith(s.resources, r, Resource(o, false), p);
      OpenedSame(s.scopes, t.scopes, p);
    }
  }

  lemma TrackPlaced(s: State, place: map<nat, Place>, r: nat)
    requires Placed(s, place) && r !in s.resources
    requires |s.scopes| > 0 && s.scopes[|s.scopes| - 1].owner.Some? && s.scopes[|s.scopes| - 1].owner.value in s.owners
    ensures Placed(TrackedState(s, r), place[r := Temporary(|s.scopes| - 1)])
  {
    hide Lists;
    var i: nat := |s.scopes| - 1;
    var t, next := TrackedState(s, r), place[r := Temporary(i)];
    PrependLists(s.scopes[i].resources, TemporaryOf(place, i), r);
    forall o | o in t.owners ensures Lists(t.owners[o].deferred, DeferredOf(t, next, o)) {
      assert DeferredOf(t, next, o) == DeferredOf(s, place, o);
    }
    forall j: nat | j < |t.scopes| ensures Lists(t.scopes[j].resources, TemporaryOf(next, j)) {
      assert TemporaryOf(next, j) == if j == i then TemporaryOf(place, i) + {r} else TemporaryOf(place, j);
    }
    forall q | q in next ensures PlacedAt(t, next, q) {
      assert q != r ==> PlacedAt(s, place, q);
    }
  }

  lemma TrackLogged(s: State, h: History, g: History)
    requires Logged(s, h.made, h.ownersMade, h.log)
    requires |s.scopes| > 0 && s.scopes[|s.scopes| - 1].owner.Some? && s.scopes[|s.scopes| - 1].owner.value in s.owners
    requires g.made == h.made + [s.scopes[|s.scopes| - 1].owner.value] && g.ownersMade == h.ownersMade && g.log == h.log
    ensures |h.made| !in s.resources && Logged(TrackedState(s, |h.made|), g.made, g.ownersMade, g.log)
  {
    hide Orderly, Destroyed, Released;
  }

  lemma OwnersAreThere(s: State, surplus: multiset<nat>)
    requires Alive(s, surplus)
    ensures forall r :: r in s.resources ==> s.resources[r].owner in s.owners
    ensures forall i :: 0 <= i < |s.scopes| && s.scopes[i].owner.Some? ==> s.scopes[i].owner.value in s.owners
  {
  }

  // ---------------------------------------------------------------- closing a handle

  /** lua_lql_resource_close while a method of the owner runs. */
  function DeferredState(s: State, r: nat): State
    requires r in s.resources && s.resources[r].owner in s.owners
  {
    var o := s.resources[r].owner;
    s.(resources := s.resources[r := Resource(o, true)],
       owners := s.owners[o := s.owners[o].(deferred := [r] + s.owners[o].deferred)])
  }

  lemma DeferKeeps(s: State, h: History, r: nat)
    requires Sound(s, multiset{}, h) && r in h.place && h.place[r] == Place.Handle
    ensures r in s.resources && s.resources[r].owner in s.owners
    ensures Sound(DeferredState(s, r), multiset{}, h.(place := h.place[r := Deferred]))
  {
    hide Counted, CountedAt, Alive, Placed, BorrowsKept, Logged;
    PlacesAreResources(s, h.place);
    OwnersAreThere(s, multiset{});
    DeferCounted(s, r);
    DeferPlaced(s, h.place, r);
    BorrowsStay(s, DeferredState(s, r), h, h.(place := h.place[r := Deferred]));
    SameLogged(s, DeferredState(s, r), h);
  }

  lemma PlacesAreResources(s: State, place: map<nat, Place>)
    requires Placed(s, place)
    ensures forall r :: r in place <==> r in s.resources
    ensures forall r :: r in place && place[r] != Loose ==> (s.resources[r].closed <==> place[r] == Deferred)
  {
    assert forall r :: r in place.Keys <==> r in s.resources.Keys;
    forall r | r in place && place[r] != Loose ensures s.resources[r].closed <==> place[r] == Deferred {
      assert PlacedAt(s, place, r);
    }
  }

  lemma DeferCounted(s: State, r: nat)
    requires Counted(s, multiset{}) && Alive(s, multiset{}) && r in s.resources
    ensures s.resources[r].owner in s.owners
    ensures Counted(DeferredState(s, r), multiset{}) && Alive(DeferredState(s, r), multiset{})
  {
    hide Opened;
    var t := DeferredState(s, r);
    forall p | p in t.owners ensures CountedAt(t, p, multiset{}) {
      assert CountedAt(s, p, multiset{});
      assert Of(t.resources, p) == Of(s.resources, p);
    }
  }

  lemma DeferPlaced(s: State, place: map<nat, Place>, r: nat)
    requires Placed(s, place) && r in s.resources && s.resources[r].owner in s.owners && place[r] == Place.Handle
    ensures Placed(DeferredState(s, r), place[r := Deferred])
  {
    hide Lists;
    var o, t, next := s.resources[r].owner, DeferredState(s, r), place[r := Deferred];
    PrependLists(s.owners[o].deferred, DeferredOf(s, place, o), r);
    forall p | p in t.owners ensures Lists(t.owners[p].deferred, DeferredOf(t, next, p)) {
      assert DeferredOf(t, next, p) == if p == o then DeferredOf(s, place, o) + {r} else DeferredOf(s, place, p);
    }
    forall j: nat | j < |t.scopes| ensures Lists(t.scopes[j].resources, TemporaryOf(next, j)) {
      assert TemporaryOf(next, j) == TemporaryOf(place, j);
    }
    forall q | q in next ensures PlacedAt(t, next, q) {
      assert PlacedAt(s, place, q);
    }
  }

  /** No method of the owner runs, so nothing borrows its handles. */
  lemma IdleBorrows(s: State, surplus: multiset<nat>, h: History, g: History, t: State, o: nat, r: nat)
    requires BorrowsKept(s, h.place, h.made) && Counted(s, surplus) && o in s.owners && s.owners[o].active == 0
    requires r < |h.made| && h.made[r] == o && g.made == h.made && g.place == h.place[r := Loose] && t.scopes == s.scopes
    ensures BorrowsKept(t, g.place, g.made)
  {
    hide Opened;
    assert CountedAt(s, o, surplus);
    forall i: nat, b | i < |t.scopes| && b in t.scopes[i].borrowed ensures BorrowKept(t, g.place, g.made, i, b) {
      assert BorrowKept(s, h.place, h.made, i, b);
      if b == r && s.scopes[i].owner == Some(o) {
        OpenedBySome(s.scopes, i, o);
      }
    }
  }

  lemma MadeBy(s: State, h: History, r: nat)
    requires Logged(s, h.made, h.ownersMade, h.log) && r in s.resources
    ensures r < |h.made| && h.made[r] == s.resources[r].owner
  {
  }

  /** lua_lql_resource_close when no method of the owner runs: the resource is closed and disposed of at once. */
  lemma CloseIdleKeeps(s: State, h: History, r: nat)
    requires Sound(s, multiset{}, h) && r in h.place && h.place[r] == Place.Handle
    requires r in s.resources && s.resources[r].owner in s.owners && s.owners[s.resources[r].owner].active == 0
    ensures var t := s.(resources := s.resources[r := Resource(s.resources[r].owner, true)]);
      Sound(t, multiset{}, h.(place := h.place[r := Loose]))
  {
    hide Counted, CountedAt, Alive, Placed, BorrowsKept, Logged;
    var t, g := s.(resources := s.resources[r := Resource(s.resources[r].owner, true)]), h.(place := h.place[r := Loose]);
    CloseCounted(s, r);
    ClosePlaced(s, h.place, r);
    SameLogged(s, t, h);
    MadeBy(s, h, r);
    IdleBorrows(s, multiset{}, h, g, t, s.resources[r].owner, r);
  }

  lemma CloseCounted(s: State, r: nat)
    requires Counted(s, multiset{}) && Alive(s, multiset{}) && r in s.resources
    ensures var t := s.(resources := s.resources[r := Resource(s.resources[r].owner, true)]);
      Counted(t, multiset{}) && Alive(t, multiset{})
  {
    hide Opened;
    var t := s.(resources := s.resources[r := Resource(s.resources[r].owner, true)]);
    forall p | p in t.owners ensures CountedAt(t, p, multiset{}) {
      assert CountedAt(s, p, multiset{});
      assert Of(t.resources, p) == Of(s.resources, p);
    }
  }

  lemma ClosePlaced(s: State, place: map<nat, Place>, r: nat)
    requires Placed(s, place) && r in place && place[r] == Place.Handle && r in s.resources
    ensures Placed(s.(resources := s.resources[r := Resource(s.resources[r].owner, true)]), place[r := Loose])
  {
    hide Lists;
    var t, next := s.(resources := s.resources[r := Resource(s.resources[r].owner, true)]), place[r := Loose];
    forall o | o in t.owners ensures Lists(t.owners[o].deferred, DeferredOf(t, next, o)) {
      assert DeferredOf(t, next, o) == DeferredOf(s, place, o);
    }
    forall j: nat | j < |t.scopes| ensures Lists(t.scopes[j].resources, TemporaryOf(next, j)) {
      assert TemporaryOf(next, j) == TemporaryOf(place, j);
    }
    forall q | q in next ensures PlacedAt(t, next, q) {
      assert PlacedAt(s, place, q);
    }
  }

  // ---------------------------------------------------------------- draining the deferred list

  function DrainedState(s: State, o: nat): State
    requires o in s.owners && |s.owners[o].deferred| > 0
  {
    s.(owners := s.owners[o := s.owners[o].(deferred := s.owners[o].deferred[1..])])
  }

  lemma DrainKeeps(s: State, surplus: multiset<nat>, h: History, o: nat)
    requires Sound(s, surplus, h) && o in s.owners && |s.owners[o].deferred| > 0 && s.owners[o].active == 0
    ensures var r := s.owners[o].deferred[0];
      && r in h.place && h.place[r] == Deferred && r in s.resources && s.resources[r] == Resource(o, true)
      && Sound(DrainedState(s, o), surplus, h.(place := h.place[r := Loose]))
  {
    hide Counted, CountedAt, Alive, Placed, BorrowsKept, Logged;
    var r := s.owners[o].deferred[0];
    DrainPlaced(s, h.place, o);
    DrainCounted(s, surplus, o);
    SameLogged(s, DrainedState(s, o), h);
    MadeBy(s, h, r);
    IdleBorrows(s, surplus, h, h.(place := h.place[r := Loose]), DrainedState(s, o), o, r);
  }

  lemma DrainCounted(s: State, surplus: multiset<nat>, o: nat)
    requires Counted(s, surplus) && Alive(s, surplus) && o in s.owners && |s.owners[o].deferred| > 0
    ensures Counted(DrainedState(s, o), surplus) && Alive(DrainedState(s, o), surplus)
  {
    hide Opened, Of;
    var t := DrainedState(s, o);
    forall p | p in t.owners ensures CountedAt(t, p, surplus) {
      assert CountedAt(s, p, surplus);
    }
  }

  lemma DrainPlaced(s: State, place: map<nat, Place>, o: nat)
    requires Placed(s, place) && o in s.owners && |s.owners[o].deferred| > 0
    ensures var r := s.owners[o].deferred[0];
      r in place && place[r] == Deferred && r in s.resources && s.resources[r] == Resource(o, true) && Placed(DrainedState(s, o), place[r := Loose])
  {
    hide Lists;
    var r, t := s.owners[o].deferred[0], DrainedState(s, o);
    PopLists(s.owners[o].deferred, DeferredOf(s, place, o));
    assert PlacedAt(s, place, r);
    var next := place[r := Loose];
    forall p | p in t.owners ensures Lists(t.owners[p].deferred, DeferredOf(t, next, p)) {
      assert DeferredOf(t, next, p) == if p == o then DeferredOf(s, place, o) - {r} else DeferredOf(s, place, p);
    }
    forall j: nat | j < |t.scopes| ensures Lists(t.scopes[j].resources, TemporaryOf(next, j)) {
      assert TemporaryOf(next, j) == TemporaryOf(place, j);
    }
    forall q | q in next ensures PlacedAt(t, next, q) {
      assert PlacedAt(s, place, q);
    }
  }

  // ---------------------------------------------------------------- scopes

  /** lua_lql_guard_method on the way in. */
  function EnteredState(s: State, scope: Scope): State
    requires scope.owner.Some? ==> scope.owner.value in s.owners
  {
    var t := s.(scopes := s.scopes + [scope]);
    if scope.owner.None? then t else
    var o := s.owners[scope.owner.value];
    t.(owners := s.owners[scope.owner.value := o.(refs := o.refs + 1, active := o.active + 1)])
  }

  lemma EnterKeeps(s: State, h: History, scope: Scope)
    requires Sound(s, multiset{}, h) && scope.resources == [] && (scope.owner.Some? ==> scope.owner.value in s.owners)
    requires forall b :: b in scope.borrowed ==> b in h.place && h.place[b] == Place.Handle
    ensures Sound(EnteredState(s, scope), multiset{}, h)
  {
    hide Counted, CountedAt, Alive, Placed, BorrowsKept, Logged;
    EnterCounted(s, scope);
    EnterPlaced(s, h.place, scope);
    PlacesAreResources(s, h.place);
    EnterLogged(s, h, scope);
    EnterBorrows(s, h, scope);
  }

  lemma EnterCounted(s: State, scope: Scope)
    requires Counted(s, multiset{}) && Alive(s, multiset{}) && (scope.owner.Some? ==> scope.owner.value in s.owners)
    ensures Counted(EnteredState(s, scope), multiset{}) && Alive(EnteredState(s, scope), multiset{})
  {
    hide Opened, Of;
    var t := EnteredState(s, scope);
    forall p | p in t.owners ensures CountedAt(t, p, multiset{}) {
      assert CountedAt(s, p, multiset{});
      OpenedSnoc(s.scopes, scope, p);
    }
  }

  lemma EnterPlaced(s: State, place: map<nat, Place>, scope: Scope)
    requires Placed(s, place) && scope.resources == [] && (scope.owner.Some? ==> scope.owner.value in s.owners)
    ensures Placed(EnteredState(s, scope), place)
  {
    hide Lists;
    var t := EnteredState(s, scope);
    EmptyLists();
    forall p | p in t.owners ensures Lists(t.owners[p].deferred, DeferredOf(t, place, p)) {
      assert DeferredOf(t, place, p) == DeferredOf(s, place, p);
    }
    forall q | q in place ensures PlacedAt(t, place, q) {
      assert PlacedAt(s, place, q);
    }
    forall j: nat | j < |t.scopes| ensures Lists(t.scopes[j].resources, TemporaryOf(place, j)) {
      if j == |s.scopes| {
        assert forall q :: q in place ==> PlacedAt(s, place, q);
        assert TemporaryOf(place, j) == {};
      }
    }
  }

  lemma EnterLogged(s: State, h: History, scope: Scope)
    requires Logged(s, h.made, h.ownersMade, h.log) && (scope.owner.Some? ==> scope.owner.value in s.owners)
    ensures Logged(EnteredState(s, scope), h.made, h.ownersMade, h.log)
  {
    assert EnteredState(s, scope).owners.Keys == s.owners.Keys;
    SameLogged(s, EnteredState(s, scope), h);
  }

  lemma EnterBorrows(s: State, h: History, scope: Scope)
    requires BorrowsKept(s, h.place, h.made) && (scope.owner.Some? ==> scope.owner.value in s.owners)
    requires Logged(s, h.made, h.ownersMade, h.log)
    requires forall b :: b in scope.borrowed ==> b in h.place && h.place[b] == Place.Handle && b in s.resources
    ensures BorrowsKept(EnteredState(s, scope), h.place, h.made)
  {
    hide Orderly, Destroyed, Released;
    var t := EnteredState(s, scope);
    forall i: nat, b | i < |t.scopes| && b in t.scopes[i].borrowed ensures BorrowKept(t, h.place, h.made, i, b) {
      if i < |s.scopes| {
        assert BorrowKept(s, h.place, h.made, i, b);
      }
    }
  }

  /** lua_lql_scope_cleanup once the scope's own resources are gone: the method is no longer active. */
  function LeftState(s: State): State
    requires |s.scopes| > 0
  {
    var scope := s.scopes[|s.scopes| - 1];
    var t := s.(scopes := s.scopes[..|s.scopes| - 1]);
    if scope.owner.None? || scope.owner.value !in s.owners || s.owners[scope.owner.value].active == 0 then t else
    var o := s.owners[scope.owner.value];
    t.(owners := s.owners[scope.owner.value := o.(active := o.active - 1)])
  }

  function LeftSurplus(s: State): multiset<nat>
    requires |s.scopes| > 0
  {
    var scope := s.scopes[|s.scopes| - 1];
    if scope.owner.None? then multiset{} else multiset{scope.owner.value}
  }

  lemma LeaveKeeps(s: State, h: History)
    requires Sound(s, multiset{}, h) && |s.scopes| > 0 && s.scopes[|s.scopes| - 1].resources == []
    ensures Sound(LeftState(s), LeftSurplus(s), h)
  {
    hide Counted, CountedAt, Alive, Placed, BorrowsKept, Logged;
    LeaveCounted(s);
    LeavePlaced(s, h.place);
    assert Logged(LeftState(s), h.made, h.ownersMade, h.log) by {
      assert LeftState(s).owners.Keys == s.owners.Keys;
      SameLogged(s, LeftState(s), h);
    }
    LeaveBorrows(s, h);
  }

  lemma LeaveCounted(s: State)
    requires Counted(s, multiset{}) && Alive(s, multiset{}) && |s.scopes| > 0
    ensures Counted(LeftState(s), LeftSurplus(s)) && Alive(LeftState(s), LeftSurplus(s))
  {
    hide Opened, Of;
    var t, n := LeftState(s), |s.scopes| - 1;
    var scope := s.scopes[n];
    assert s.scopes == s.scopes[..n] + [scope];
    if scope.owner.Some? {
      assert CountedAt(s, scope.owner.value, multiset{});
      OpenedBySome(s.scopes, n, scope.owner.value);
    }
    forall p | p in t.owners ensures CountedAt(t, p, LeftSurplus(s)) {
      assert CountedAt(s, p, multiset{});
      OpenedSnoc(s.scopes[..n], scope, p);
    }
  }

  lemma LeavePlaced(s: State, place: map<nat, Place>)
    requires Placed(s, place) && |s.scopes| > 0 && s.scopes[|s.scopes| - 1].resources == []
    ensures Placed(LeftState(s), place)
  {
    var t, n := LeftState(s), |s.scopes| - 1;
    forall p | p in t.owners ensures Lists(t.owners[p].deferred, DeferredOf(t, place, p)) {
      assert DeferredOf(t, place, p) == DeferredOf(s, place, p);
    }
    assert Lists(s.scopes[n].resources, TemporaryOf(place, n));
    forall q | q in place ensures PlacedAt(t, place, q) {
      assert PlacedAt(s, place, q);
      assert q !in TemporaryOf(place, n);
    }
  }

  lemma LeaveBorrows(s: State, h: History)
    requires BorrowsKept(s, h.place, h.made) && |s.scopes| > 0
    ensures BorrowsKept(LeftState(s), h.place, h.made)
  {
    var t := LeftState(s);
    forall i: nat, b | i < |t.scopes| && b in t.scopes[i].borrowed ensures BorrowKept(t, h.place, h.made, i, b) {
      assert t.scopes[i] == s.scopes[i];
      assert BorrowKept(s, h.place, h.made, i, b);
    }
  }

  // ---------------------------------------------------------------- the client handle

  /** lua_lql_client_gc. */
  function ForsakenState(s: State, o: nat): State
    requires o in s.owners
  {
    s.(clients := s.clients - {o}, owners := s.owners[o := s.owners[o].(closed := true)])
  }

  lemma ForsakeKeeps(s: State, h: History, o: nat)
    requires Sound(s, multiset{}, h) && o in s.clients
    ensures o in s.owners && Sound(ForsakenState(s, o), multiset{o}, h)
  {
    hide Counted, CountedAt, Alive, Placed, BorrowsKept, Logged;
    ForsakeCounted(s, o);
    ForsakePlaced(s, h.place, o);
    BorrowsStay(s, ForsakenState(s, o), h, h);
    assert ForsakenState(s, o).owners.Keys == s.owners.Keys;
    SameLogged(s, ForsakenState(s, o), h);
  }

  lemma ForsakeCounted(s: State, o: nat)
    requires Counted(s, multiset{}) && Alive(s, multiset{}) && o in s.clients
    ensures o in s.owners && Counted(ForsakenState(s, o), multiset{o}) && Alive(ForsakenState(s, o), multiset{o})
  {
    hide Opened, Of;
    var t := ForsakenState(s, o);
    forall p | p in t.owners ensures CountedAt(t, p, multiset{o}) {
      assert CountedAt(s, p, multiset{});
    }
  }

  lemma ForsakePlaced(s: State, place: map<nat, Place>, o: nat)
    requires Placed(s, place) && o in s.owners
    ensures Placed(ForsakenState(s, o), place)
  {
    hide Lists;
    var t := ForsakenState(s, o);
    forall p | p in t.owners ensures Lists(t.owners[p].deferred, DeferredOf(t, place, p)) {
      assert DeferredOf(t, place, p) == DeferredOf(s, place, p);
    }
    forall q | q in place ensures PlacedAt(t, place, q) {
      assert PlacedAt(s, place, q);
    }
  }

  // ---------------------------------------------------------------- whole runs

  /** Between two steps: no resource is in the code's hands, and where no method runs nothing waits. */
  ghost predicate Settled(s: State, h: History) {
    && (forall r :: r in h.place ==> h.place[r] != Loose)
    && (forall o :: o in s.owners && s.owners[o].active == 0 ==> s.owners[o].deferred == [])
  }

  predicate Destroys(e: Event, r: nat) { e.Native? && e.resource == r }

  ghost predicate FirstThen(log: seq<Event>, i: nat, j: nat, r: nat, o: nat) {
    i < j < |log| && log[i].Native? && log[i].resource == r && log[j] == Context(o)
  }

  /** When nothing is left, every native object ever made was destroyed, once, and before its context. */
  lemma NothingLeaks(s: State, h: History, r: nat)
    requires Sound(s, multiset{}, h) && s.owners == map[] && r < |h.made|
    ensures exists i, j :: FirstThen(h.log, i, j, r, h.made[r])
    ensures forall i, k :: 0 <= i < |h.log| && 0 <= k < |h.log| && Destroys(h.log[i], r) && Destroys(h.log[k], r) ==> i == k
  {
    assert r !in s.resources by {
      OwnersAreThere(s, multiset{});
    }
    assert Destroyed(h.log, r) && Released(h.log, h.made[r]);
    var i :| 0 <= i < |h.log| && h.log[i].Native? && h.log[i].resource == r;
    var j :| 0 <= j < |h.log| && h.log[j] == Context(h.made[r]);
    assert h.log[i].owner == h.made[r];
    assert FirstThen(h.log, i, j, r, h.made[r]);
  }

  /** The first argument of a method: a client, a selector, projection or mutation, or none of them. */
  datatype Receiver = Client(owner: nat) | Handle(resource: nat) | Nobody

  lemma HoldKeeps(s: State, h: History, r: nat)
    requires Sound(s, multiset{}, h) && r in h.place && h.place[r] == Loose && r in s.resources && !s.resources[r].closed
    ensures Sound(s, multiset{}, h.(place := h.place[r := Place.Handle]))
  {
    hide Counted, Alive, Placed, BorrowsKept, Logged;
    LooseMoves(s, h.place, r, Place.Handle);
    BorrowsStay(s, s, h, h.(place := h.place[r := Place.Handle]));
  }

  /** The temporaries of the innermost scope. */
  function TopList(s: State): seq<nat> { if |s.scopes| == 0 then [] else s.scopes[|s.scopes| - 1].resources }

  ghost predicate TookAt(s: State, t: State, r: nat, k: nat) {
    |s.scopes| > 0 && k < |TopList(s)| && TopList(s)[k] == r && t == TakenState(s, |s.scopes| - 1, k)
  }

  /** The resource was unlinked from the innermost scope's list. */
  ghost predicate Took(s: State, t: State, r: nat) { exists k :: TookAt(s, t, r, k) }

  /** The owner with n references less. */
  ghost predicate Lowered(was: map<nat, Owner>, now: map<nat, Owner>, o: nat, n: nat) {
    && o in was && o in now && now == was[o := now[o]]
    && was[o] == now[o].(refs := now[o].refs + n)
  }

  /** The owner with n references less and a shorter list of deferred resources. */
  ghost predicate Drained(was: map<nat, Owner>, now: map<nat, Owner>, o: nat, n: nat) {
    && o in was && o in now && now == was[o := now[o]]
    && was[o] == now[o].(refs := now[o].refs + n, deferred := was[o].deferred)
  }

  /** lua/lql_lifetime.h:296-330: the scope's temporaries go, at the owner's outermost exit also what was deferred, each
      with its reference to the owner, and at last the scope's own. */
  function ReturnedState(s: State): State
    requires |s.scopes| > 0
  {
    var scope := s.scopes[|s.scopes| - 1];
    var t := s.(scopes := s.scopes[..|s.scopes| - 1]);
    if scope.owner.None? || scope.owner.value !in s.owners || s.owners[scope.owner.value].active == 0 then t else
    var o := scope.owner.value;
    var owner := s.owners[o];
    var gone := scope.resources + if owner.active == 1 then owner.deferred else [];
    t.(resources := s.resources - Members(gone),
       owners := if owner.refs <= |gone| + 1 then s.owners - {o}
                 else s.owners[o := Owner(owner.refs - |gone| - 1, owner.active - 1, owner.closed,
                                          if owner.active == 1 then [] else owner.deferred)])
  }

  /** What a Lua program can do with the facade; the finalizers may come between any two other steps. */
  datatype Step = Open | Call(receiver: Receiver) | Make | HandOut(resource: nat) | Drop(resource: nat)
                | Finalize(resource: nat) | FinalizeClient(owner: nat) | Return

  /** The facade between two steps. */
  datatype Moment = Moment(state: State, handles: set<nat>, ownersMade: nat, resourcesMade: nat)

  /** Whether the program can take the step: it holds the userdata that the step names, or is inside a method. */
  predicate Possible(m: Moment, step: Step) {
    match step
    case Open => true
    case Call(receiver) => (receiver.Client? ==> receiver.owner in m.state.clients) && (receiver.Handle? ==> receiver.resource in m.handles)
    case Make => |m.state.scopes| > 0 && m.state.scopes[|m.state.scopes| - 1].owner.Some?
    case HandOut(r) => r in TopList(m.state)
    case Drop(r) => r in TopList(m.state)
    case Finalize(r) => r in m.handles
    case FinalizeClient(o) => o in m.state.clients
    case Return => |m.state.scopes| > 0
  }

  /** The scope that a call opens. */
  function ScopeOf(resources: map<nat, Resource>, receiver: Receiver): Scope
    requires receiver.Handle? ==> receiver.resource in resources
  {
    match receiver
    case Client(o) => Scope(Some(o), [], [])
    case Handle(r) => Scope(Some(resources[r].owner), [], [r])
    case Nobody => Scope(None, [], [])
  }

  /** The native object is gone and its reference with it. */
  ghost predicate Disposed(s: State, t: State, r: nat) {
    && r in s.resources && s.resources[r].owner in s.owners
    && t == ReleasedState(DestroyedState(s, r), s.resources[r].owner)
  }

  ghost predicate Dropped(s: State, t: State, r: nat) { exists u :: Took(s, u, r) && Disposed(u, t, r) }

  /** Where a step leads. */
  ghost predicate Leads(m: Moment, step: Step, n: Moment)
    requires Possible(m, step)
  {
    var s, t := m.state, n.state;
    match step
    case Open => n == Moment(AddedState(s, m.ownersMade), m.handles, m.ownersMade + 1, m.resourcesMade)
    case Call(receiver) =>
      && (receiver.Handle? ==> receiver.resource in s.resources)
      && (ScopeOf(s.resources, receiver).owner.Some? ==> ScopeOf(s.resources, receiver).owner.value in s.owners)
      && n == m.(state := EnteredState(s, ScopeOf(s.resources, receiver)))
    case Make =>
      && s.scopes[|s.scopes| - 1].owner.value in s.owners
      && n == m.(state := TrackedState(s, m.resourcesMade), resourcesMade := m.resourcesMade + 1)
    case HandOut(r) => Took(s, t, r) && n == m.(state := t, handles := m.handles + {r})
    case Drop(r) => Dropped(s, t, r) && n == m.(state := t)
    case Finalize(r) =>
      && r in s.resources && s.resources[r].owner in s.owners
      && (if s.owners[s.resources[r].owner].active > 0 then t == DeferredState(s, r) else Disposed(s, t, r))
      && n == m.(state := t, handles := m.handles - {r})
    case FinalizeClient(o) => o in s.owners && n == m.(state := ReleasedState(ForsakenState(s, o), o))
    case Return => n == m.(state := ReturnedState(s))
  }

  /** One step: what it asks for if it is possible, and nothing otherwise. */
  ghost predicate Stepped(m: Moment, step: Step, n: Moment) {
    if Possible(m, step) then Leads(m, step, n) else n == m
  }

  lemma NobodyReturns(s: State)
    requires |s.scopes| > 0 && s.scopes[|s.scopes| - 1].owner.None?
    ensures ReturnedState(s) == s.(scopes := s.scopes[..|s.scopes| - 1])
  {
  }

  /** The steps of an exit add up: the temporaries, the end of the method, the deferred resources and the scope's reference. */
  lemma ReturnsTo(s: State, inside: map<nat, Owner>, drained: State, o: nat)
    requires |s.scopes| > 0 && s.scopes[|s.scopes| - 1].owner == Some(o) && Lowered(s.owners, inside, o, |TopList(s)|)
    requires inside[o].active > 0 && drained.clients == s.clients && drained.scopes == s.scopes[..|s.scopes| - 1]
    requires var outside := inside[o := inside[o].(active := inside[o].active - 1)];
      if outside[o].active > 0 then drained.owners == outside && drained.resources == s.resources - Members(TopList(s))
      else
        && Drained(outside, drained.owners, o, |s.owners[o].deferred|) && drained.owners[o].deferred == []
        && drained.resources == s.resources - Members(TopList(s)) - Members(s.owners[o].deferred)
    requires drained.owners[o].refs > 0
    ensures ReleasedState(drained, o) == ReturnedState(s)
  {
    var owner := s.owners[o];
    var gone := TopList(s) + if owner.active == 1 then owner.deferred else [];
    MembersOfBoth(TopList(s), if owner.active == 1 then owner.deferred else []);
    assert drained.resources == s.resources - Members(gone);
    assert drained.owners[o].refs == owner.refs - |gone|;
    assert drained.owners - {o} == s.owners - {o};
  }

  lemma MembersOfBoth(a: seq<nat>, b: seq<nat>)
    ensures Members(a + b) == Members(a) + Members(b)
  {
  }

  class Facade {
    var owners: map<nat, Owner>
    var resources: map<nat, Resource>
    /** The owners whose client userdata has not been finalized. */
    var clients: set<nat>
    /** The resources that a live userdata holds. */
    var handles: set<nat>
    /** The method calls in progress, innermost last. */
    var scopes: seq<Scope>
    var ownersMade: nat
    var resourcesMade: nat
    ghost var history: History

    ghost function Now(): State
      reads this
    {
      State(owners, resources, clients, scopes)
    }

    ghost function At(): Moment
      reads this
    {
      Moment(Now(), handles, ownersMade, resourcesMade)
    }

    ghost predicate Good(surplus: multiset<nat>)
      reads this
    {
      && Sound(Now(), surplus, history) && history.ownersMade == ownersMade && |history.made| == resourcesMade
      && forall r :: r in handles <==> r in history.place && history.place[r] == Place.Handle
    }

    ghost predicate Valid()
      reads this
    {
      Good(multiset{}) && Settled(Now(), history)
    }

    constructor ()
      ensures Valid() && owners == map[] && scopes == [] && history.log == []
    {
      owners, resources, clients, handles, scopes, ownersMade, resourcesMade := map[], map[], {}, {}, [], 0, 0;
      history := History(map[], [], 0, []);
    }

    /** lua/lql_core.c:2005-2022. */
    method NewClient() returns (o: nat)
      requires Valid()
      modifies this
      ensures Valid() && o == old(ownersMade) && o !in old(owners) && Now() == AddedState(old(Now()), o)
      ensures handles == old(handles) && ownersMade == o + 1 && resourcesMade == old(resourcesMade) && history.log == old(history.log)
    {
      hide Sound;
      o := ownersMade;
      AddKeeps(Now(), history);
      owners := owners[o := Owner(1, 0, false, [])];
      clients := clients + {o};
      ownersMade := ownersMade + 1;
      history := history.(ownersMade := ownersMade);
    }

    /** lua/lql_lifetime.h:64-69. */
    method Release(o: nat, ghost surplus: multiset<nat>)
      requires Good(surplus) && surplus[o] > 0
      modifies this`owners, this`history
      ensures Good(surplus - multiset{o}) && old(o in owners) && Now() == ReleasedState(old(Now()), o)
      ensures history == old(ReleasedHistory(Now(), history, o)) && old(history.log) <= history.log
    {
      hide Sound;
      ReleaseKeeps(Now(), surplus, history, o);
      RefsArePositive(Now(), surplus, history, o);
      ghost var next := ReleasedHistory(Now(), history, o);
      owners := owners[o := owners[o].(refs := owners[o].refs - 1)];
      if owners[o].refs == 0 {
        owners := owners - {o};
        assert owners == old(owners) - {o};
      }
      history := next;
    }

    /** lua/lql_lifetime.h:82-89. */
    method Dispose(r: nat, ghost surplus: multiset<nat>)
      requires Good(surplus) && r in history.place && history.place[r] == Loose
      requires r in resources && resources[r].owner in owners && (resources[r].closed ==> owners[resources[r].owner].active == 0)
      modifies this`owners, this`resources, this`history
      ensures Good(surplus) && resources == old(resources) - {r}
      ensures var o := old(resources)[r].owner; Now() == ReleasedState(DestroyedState(old(Now()), r), o)
      ensures history.place == old(history.place) - {r} && old(history.log) < history.log
      ensures history.log[|old(history.log)|]
           == Native(r, old(resources)[r].owner, old(resources)[r].closed, old(owners)[old(resources)[r].owner].active)
    {
      hide Sound;
      DestroyKeeps(Now(), surplus, history, r);
      var o := resources[r].owner;
      history := DestroyedHistory(Now(), history, r);
      resources := resources - {r};
      Release(o, surplus + multiset{o});
      assert surplus + multiset{o} - multiset{o} == surplus;
    }

    /** lua/lql_lifetime.h:332-371, entering: the receiver's owner is kept alive and marked active. */
    method Enter(receiver: Receiver)
      requires Valid()
      requires receiver.Client? ==> receiver.owner in clients
      requires receiver.Handle? ==> receiver.resource in handles
      modifies this`owners, this`scopes
      ensures Valid() && |scopes| == |old(scopes)| + 1
      ensures receiver.Handle? ==> receiver.resource in resources
      ensures ScopeOf(resources, receiver).owner.Some? ==> ScopeOf(resources, receiver).owner.value in old(owners)
      ensures Now() == EnteredState(old(Now()), ScopeOf(resources, receiver)) && history == old(history)
    {
      hide Sound;
      ReceiverIsKnown(receiver);
      var scope := ScopeOf(resources, receiver);
      var owner := scope.owner;
      EnterKeeps(Now(), history, scope);
      if owner.Some? {
        var o := owners[owner.value];
        owners := owners[owner.value := o.(refs := o.refs + 1, active := o.active + 1)];
      }
      scopes := scopes + [scope];
    }

    lemma ReceiverIsKnown(receiver: Receiver)
      requires Valid()
      requires receiver.Client? ==> receiver.owner in clients
      requires receiver.Handle? ==> receiver.resource in handles
      ensures receiver.Handle? ==> receiver.resource in resources
      ensures ScopeOf(resources, receiver).owner.Some? ==> ScopeOf(resources, receiver).owner.value in owners
    {
      hide Counted, BorrowsKept, Logged;
      PlacesAreResources(Now(), history.place);
      OwnersAreThere(Now(), multiset{});
    }

    /** lua/lql_lifetime.h:142-167: a native object made inside a method belongs to the method's scope. */
    method Track() returns (r: nat)
      requires Valid() && |scopes| > 0 && scopes[|scopes| - 1].owner.Some?
      modifies this
      ensures Valid() && r !in old(resources) && old(scopes[|scopes| - 1].owner.value in owners)
      ensures Now() == TrackedState(old(Now()), r) && handles == old(handles) && history.log == old(history.log)
      ensures r == old(resourcesMade) && resourcesMade == r + 1 && ownersMade == old(ownersMade)
    {
      hide Sound;
      OwnersOfScopes();
      TrackKeeps(Now(), history);
      r := resourcesMade;
      var i := |scopes| - 1;
      var o := scopes[i].owner.value;
      TrackSettled(r);
      owners := owners[o := owners[o].(refs := owners[o].refs + 1)];
      resources := resources[r := Resource(o, false)];
      scopes := scopes[i := scopes[i].(resources := [r] + scopes[i].resources)];
      resourcesMade := resourcesMade + 1;
      history := history.(place := history.place[r := Temporary(i)], made := history.made + [o]);
    }

    lemma OwnersOfScopes()
      requires Good(multiset{})
      ensures forall i :: 0 <= i < |scopes| && scopes[i].owner.Some? ==> scopes[i].owner.value in owners
      ensures forall r :: r in resources ==> resources[r].owner in owners
      ensures forall r :: r in history.place <==> r in resources
    {
      OwnersAreThere(Now(), multiset{});
      PlacesAreResources(Now(), history.place);
    }

    lemma TrackSettled(r: nat)
      requires Good(multiset{}) && r !in resources
      ensures r !in history.place && r !in handles
    {
      OwnersOfScopes();
    }

    /** lua/lql_lifetime.h:169-191: a native object of the innermost scope goes to a userdata. */
    method Take(r: nat) returns (found: bool)
      requires Valid() && |scopes| > 0
      modifies this`scopes, this`handles, this`history
      ensures Valid() && found == (r in TopList(old(Now())))
      ensures !found ==> Now() == old(Now()) && handles == old(handles)
      ensures found ==> Took(old(Now()), Now(), r) && handles == old(handles) + {r}
      ensures history.log == old(history.log)
    {
      hide Sound;
      var k;
      found, k := Find(r);
      if !found {
        return;
      }
      var i := |scopes| - 1;
      assert TookAt(Now(), TakenState(Now(), i, k), r, k);
      TakeKeeps(Now(), multiset{}, history, i, k);
      TakeOut(i, k);
      HoldKeeps(Now(), history, r);
      history := history.(place := history.place[r := Place.Handle]);
      handles := handles + {r};
    }

    method Find(r: nat) returns (found: bool, k: nat)
      requires |scopes| > 0
      ensures found == (r in TopList(Now()))
      ensures found ==> k < |TopList(Now())| && TopList(Now())[k] == r
    {
      var list := scopes[|scopes| - 1].resources;
      k := 0;
      while k < |list| && list[k] != r
        invariant 0 <= k <= |list| && r !in list[..k]
      {
        k := k + 1;
      }
      found := k < |list|;
      assert list == list[..k] + list[k..];
    }

    /** The list is unlinked at k; the resource is in the code's hands. */
    method TakeOut(i: nat, k: nat)
      requires Good(multiset{}) && i < |scopes| && k < |scopes[i].resources|
      modifies this`scopes, this`history
      ensures Good(multiset{}) && Now() == TakenState(old(Now()), i, k)
      ensures history == old(history.(place := history.place[scopes[i].resources[k] := Loose]))
      ensures old(scopes[i].resources[k]) in resources && !resources[old(scopes[i].resources[k])].closed
      ensures resources[old(scopes[i].resources[k])].owner in owners
      ensures scopes[i].owner == Some(resources[old(scopes[i].resources[k])].owner)
      ensures old(scopes[i].resources[k]) !in handles
    {
      hide Sound;
      var r := scopes[i].resources[k];
      TakeKeeps(Now(), multiset{}, history, i, k);
      OwnersOfScopes();
      TemporaryHasOwner(i, k);
      var list := scopes[i].resources;
      scopes := scopes[i := scopes[i].(resources := list[..k] + list[k + 1..])];
      history := history.(place := history.place[r := Loose]);
    }

    lemma TemporaryHasOwner(i: nat, k: nat)
      requires Good(multiset{}) && i < |scopes| && k < |scopes[i].resources| && scopes[i].resources[k] in resources
      ensures scopes[i].owner == Some(resources[scopes[i].resources[k]].owner)
    {
      assert scopes[i].resources[k] in TemporaryOf(history.place, i);
    }

    /** lua/lql_lifetime.h:193-197: a native object of the innermost scope is no longer needed. */
    method DestroyTemporary(r: nat) returns (found: bool)
      requires Valid() && |scopes| > 0
      modifies this`owners, this`resources, this`scopes, this`history
      ensures Valid() && found == (r in TopList(old(Now()))) && |scopes| == |old(scopes)|
      ensures !found ==> Now() == old(Now())
      ensures found ==> Dropped(old(Now()), Now(), r) && r !in TopList(Now())
      ensures old(history.log) <= history.log
    {
      hide Sound;
      var k;
      found, k := Find(r);
      if !found {
        return;
      }
      var i := |scopes| - 1;
      TakeOut(i, k);
      GoneFromList(i, r);
      ghost var before := Now();
      assert TookAt(old(Now()), before, r, k);
      Dispose(r, multiset{});
      ReleaseSettled(before, r);
      assert Took(old(Now()), before, r) && Disposed(before, Now(), r);
    }

    lemma GoneFromList(i: nat, r: nat)
      requires Good(multiset{}) && i < |scopes| && r in history.place && history.place[r] == Loose
      ensures r !in scopes[i].resources
    {
      assert Lists(scopes[i].resources, TemporaryOf(history.place, i));
    }

    lemma ReleaseSettled(before: State, r: nat)
      requires r in before.resources && before.resources[r].owner in before.owners
      requires Now() == ReleasedState(DestroyedState(before, r), before.resources[r].owner)
      ensures forall o :: o in owners ==> o in before.owners && owners[o].active == before.owners[o].active
                                          && owners[o].deferred == before.owners[o].deferred
    {
    }

    /** lua/lql_lifetime.h:91-102, from a finalizer of a selector, projection or mutation. */
    method Close(r: nat)
      requires Valid() && r in handles
      modifies this`owners, this`resources, this`handles, this`history
      ensures Valid() && handles == old(handles) - {r} && old(r in resources && resources[r].owner in owners)
      ensures old(owners[resources[r].owner].active) > 0 ==> Now() == DeferredState(old(Now()), r) && history.log == old(history.log)
      ensures old(owners[resources[r].owner].active) == 0 ==> Disposed(old(Now()), Now(), r)
      ensures old(history.log) <= history.log
    {
      hide Sound;
      OwnersOfScopes();
      var o := resources[r].owner;
      handles := handles - {r};
      if owners[o].active != 0 {
        DeferKeeps(Now(), history, r);
        resources := resources[r := Resource(o, true)];
        owners := owners[o := owners[o].(deferred := [r] + owners[o].deferred)];
        history := history.(place := history.place[r := Deferred]);
      } else {
        CloseIdleKeeps(Now(), history, r);
        resources := resources[r := Resource(o, true)];
        history := history.(place := history.place[r := Loose]);
        ghost var before := Now();
        Dispose(r, multiset{});
        ReleaseSettled(before, r);
        assert DestroyedState(before, r) == DestroyedState(old(Now()), r);
      }
    }

    /** lua/lql_core.c:1946-1960. */
    method ClientGc(o: nat)
      requires Valid() && o in clients
      modifies this`owners, this`clients, this`history
      ensures Valid() && clients == old(clients) - {o} && resources == old(resources) && scopes == old(scopes)
      ensures old(o in owners) && Now() == ReleasedState(ForsakenState(old(Now()), o), o) && old(history.log) <= history.log
    {
      hide Sound;
      ForsakeKeeps(Now(), history, o);
      clients := clients - {o};
      owners := owners[o := owners[o].(closed := true)];
      Release(o, multiset{o});
      assert multiset{o} - multiset{o} == multiset{};
    }

    /** lua/lql_lifetime.h:296-330: the innermost method has returned. */
    method Exit()
      requires Valid() && |scopes| > 0
      modifies this`owners, this`resources, this`scopes, this`history
      ensures Valid() && Now() == ReturnedState(old(Now())) && old(history.log) <= history.log
    {
      hide Sound, ReturnedState;
      ghost var was := Now();
      ExitTemporaries();
      var owner := scopes[|scopes| - 1].owner;
      OwnersOfScopes();
      LeaveKeeps(Now(), history);
      ghost var left := LeftState(Now());
      if owner.None? {
        scopes := scopes[..|scopes| - 1];
        NobodyReturns(was);
        return;
      }
      OwnerIsActive();
      var o := owner.value;
      ghost var inside := owners;
      scopes := scopes[..|scopes| - 1];
      owners := owners[o := owners[o].(active := owners[o].active - 1)];
      assert Now() == left;
      ghost var drained := GiveUp(o);
      ReturnsTo(was, inside, drained, o);
    }

    /** The scope's reference goes, after the deferred resources when no other method of the owner runs. */
    method GiveUp(o: nat) returns (ghost drained: State)
      requires Good(multiset{o}) && o in owners
      requires forall r :: r in history.place ==> history.place[r] != Loose
      requires forall p :: p in owners && p != o && owners[p].active == 0 ==> owners[p].deferred == []
      modifies this`owners, this`resources, this`history
      ensures Valid() && o in drained.owners && Now() == ReleasedState(drained, o) && old(history.log) <= history.log
      ensures drained.owners[o].refs > 0 && drained.clients == clients && drained.scopes == scopes
      ensures if old(owners)[o].active > 0 then drained == old(Now())
        else
          && Drained(old(owners), drained.owners, o, |old(owners)[o].deferred|) && drained.owners[o].deferred == []
          && drained.resources == old(resources) - Members(old(owners)[o].deferred)
    {
      hide Sound;
      if owners[o].active == 0 {
        Drain(o);
      }
      drained := Now();
      RefsArePositive(drained, multiset{o}, history, o);
      Release(o, multiset{o});
      assert multiset{o} - multiset{o} == multiset{};
    }

    /** The natives that the method made and did not hand out (lua/lql_lifetime.h:301-305). */
    method ExitTemporaries()
      requires Valid() && |scopes| > 0
      modifies this`owners, this`resources, this`scopes, this`history
      ensures Valid() && |scopes| == |old(scopes)| && scopes[..|scopes| - 1] == old(scopes)[..|scopes| - 1]
      ensures scopes[|scopes| - 1] == old(scopes)[|scopes| - 1].(resources := [])
      ensures resources == old(resources) - Members(old(TopList(Now()))) && old(history.log) <= history.log
      ensures var owner := scopes[|scopes| - 1].owner;
        if owner.None? then owners == old(owners) && old(TopList(Now())) == []
        else Lowered(old(owners), owners, owner.value, |old(TopList(Now()))|)
    {
      hide Sound;
      ghost var list, j := TopList(Now()), 0;
      var i := |scopes| - 1;
      var owner := scopes[i].owner;
      NobodyTracks(i);
      OwnersOfScopes();
      assert list[0..] == list && old(resources) - Members(list[..0]) == resources;
      while scopes[i].resources != []
        invariant Good(multiset{}) && Settled(Now(), history)
        invariant |scopes| == |old(scopes)| && scopes[..i] == old(scopes)[..i]
        invariant 0 <= j <= |list| && scopes[i] == old(scopes)[i].(resources := list[j..])
        invariant resources == old(resources) - Members(list[..j]) && old(history.log) <= history.log
        invariant if owner.None? then owners == old(owners) && list == [] else Lowered(old(owners), owners, owner.value, j)
        decreases |list| - j
      {
        DestroyFirst(i);
        NextTemporary(list, j);
        j := j + 1;
      }
      assert list[..j] == list;
    }

    method DestroyFirst(i: nat)
      requires Valid() && i < |scopes| && |scopes[i].resources| > 0
      modifies this`owners, this`resources, this`scopes, this`history
      ensures Valid() && scopes == old(scopes)[i := old(scopes[i]).(resources := old(scopes[i].resources)[1..])]
      ensures scopes[i].owner.Some? && Lowered(old(owners), owners, scopes[i].owner.value, 1)
      ensures resources == old(resources) - {old(scopes[i].resources[0])} && old(history.log) <= history.log
    {
      hide Sound;
      var r := scopes[i].resources[0];
      ghost var list := scopes[i].resources;
      assert list[..0] + list[0 + 1..] == list[1..];
      TakeOut(i, 0);
      ghost var before := Now();
      Dispose(r, multiset{});
      ReleaseSettled(before, r);
      OwnersOfScopes();
    }

    /** Only a method with an owner tracks anything. */
    lemma NobodyTracks(i: nat)
      requires Good(multiset{}) && i < |scopes|
      ensures scopes[i].owner.None? ==> scopes[i].resources == []
    {
      if |scopes[i].resources| > 0 {
        PlacesAreResources(Now(), history.place);
        assert scopes[i].resources[0] in TemporaryOf(history.place, i);
      }
    }

    lemma NextTemporary(list: seq<nat>, j: nat)
      requires j < |list|
      ensures list[j..][..0] + list[j..][0 + 1..] == list[j + 1..]
      ensures Members(list[..j + 1]) == Members(list[..j]) + {list[j]}
    {
      assert list[..j + 1] == list[..j] + [list[j]];
    }

    /** The handles that were closed meanwhile (lua/lql_lifetime.h:306-312). */
    method Drain(o: nat)
      requires Good(multiset{o}) && o in owners && owners[o].active == 0
      requires forall r :: r in history.place ==> history.place[r] != Loose
      requires forall p :: p in owners && p != o && owners[p].active == 0 ==> owners[p].deferred == []
      modifies this`owners, this`resources, this`history
      ensures Good(multiset{o}) && Settled(Now(), history) && old(history.log) <= history.log
      ensures resources == old(resources) - Members(old(owners)[o].deferred)
      ensures o in owners && Drained(old(owners), owners, o, |old(owners)[o].deferred|) && owners[o].deferred == []
    {
      hide Sound;
      ghost var list, j := owners[o].deferred, 0;
      assert list[0..] == list && old(resources) - Members(list[..0]) == resources;
      while owners[o].deferred != []
        invariant Good(multiset{o}) && o in owners && owners[o].active == 0 && old(history.log) <= history.log
        invariant Drained(old(owners), owners, o, j)
        invariant forall r :: r in history.place ==> history.place[r] != Loose
        invariant forall p :: p in owners && p != o && owners[p].active == 0 ==> owners[p].deferred == []
        invariant 0 <= j <= |list| && owners[o].deferred == list[j..]
        invariant resources == old(resources) - Members(list[..j])
        decreases |list| - j
      {
        DrainOne(o);
        SurplusIsThere(o);
        NextTemporary(list, j);
        j := j + 1;
      }
      assert list[..j] == list;
    }

    method DrainOne(o: nat)
      requires Good(multiset{o}) && o in owners && owners[o].active == 0 && |owners[o].deferred| > 0
      requires forall r :: r in history.place ==> history.place[r] != Loose
      modifies this`owners, this`resources, this`history
      ensures Good(multiset{o}) && o in owners && old(owners[o].deferred[0] in resources)
      ensures forall r :: r in history.place ==> history.place[r] != Loose
      ensures Drained(old(owners), owners, o, 1) && old(history.log) <= history.log
      ensures owners[o].deferred == old(owners[o].deferred)[1..] && resources == old(resources) - {old(owners[o].deferred[0])}
    {
      hide Sound;
      var r := owners[o].deferred[0];
      DrainKeeps(Now(), multiset{o}, history, o);
      OwnersOfDeferred(o);
      owners := owners[o := owners[o].(deferred := owners[o].deferred[1..])];
      history := history.(place := history.place[r := Loose]);
      ghost var before := Now();
      Dispose(r, multiset{o});
      ReleaseSettled(before, r);
      SurplusIsThere(o);
    }

    lemma OwnersOfDeferred(o: nat)
      requires Good(multiset{o}) && o in owners && |owners[o].deferred| > 0
      ensures owners[o].deferred[0] in resources && resources[owners[o].deferred[0]].owner == o
    {
      assert owners[o].deferred[0] in DeferredOf(Now(), history.place, o);
    }

    lemma SurplusIsThere(o: nat)
      requires Good(multiset{o})
      ensures o in owners
    {
    }

    lemma OwnerIsActive()
      requires Good(multiset{}) && |scopes| > 0 && scopes[|scopes| - 1].owner.Some?
      ensures scopes[|scopes| - 1].owner.value in owners && owners[scopes[|scopes| - 1].owner.value].active > 0
    {
    }

    /** Any steps in any order, as the Lua program and its garbage collector choose: each does what it asks for. */
    method Run(steps: seq<Step>) returns (ghost trace: seq<Moment>)
      requires Valid()
      modifies this
      ensures Valid() && old(history.log) <= history.log
      ensures |trace| == |steps| + 1 && trace[0] == old(At()) && trace[|steps|] == At()
      ensures forall i :: 0 <= i < |steps| ==> Stepped(trace[i], steps[i], trace[i + 1])
    {
      hide Good, Settled, Stepped;
      trace := [At()];
      for i := 0 to |steps|
        invariant Valid() && old(history.log) <= history.log
        invariant |trace| == i + 1 && trace[0] == old(At()) && trace[i] == At()
        invariant forall k :: 0 <= k < i ==> Stepped(trace[k], steps[k], trace[k + 1])
      {
        var _ := Perform(steps[i]);
        trace := trace + [At()];
      }
    }

    /** One step, if the program can take it. */
    method Perform(step: Step) returns (done: bool)
      requires Valid()
      modifies this
      ensures Valid() && done == Possible(old(At()), step) && Stepped(old(At()), step, At())
      ensures old(history.log) <= history.log
    {
      hide Good, Settled, ReturnedState, EnteredState, TrackedState, Took, Dropped, Disposed;
      done := true;
      match step {
        case Open => var _ := NewClient();
        case Call(receiver) =>
          if (receiver.Client? && receiver.owner !in clients) || (receiver.Handle? && receiver.resource !in handles) {
            return false;
          }
          Enter(receiver);
        case Make =>
          if |scopes| == 0 || scopes[|scopes| - 1].owner.None? {
            return false;
          }
          var _ := Track();
        case HandOut(r) =>
          if |scopes| == 0 {
            return false;
          }
          done := Take(r);
        case Drop(r) =>
          if |scopes| == 0 {
            return false;
          }
          done := DestroyTemporary(r);
        case Finalize(r) =>
          if r !in handles {
            return false;
          }
          Close(r);
        case FinalizeClient(o) =>
          if o !in clients {
            return false;
          }
          ClientGc(o);
        case Return =>
          if |scopes| == 0 {
            return false;
          }
          Exit();
      }
    }
  }

  lemma RefsArePositive(s: State, surplus: multiset<nat>, h: History, o: nat)
    requires Sound(s, surplus, h)
    ensures o in s.owners ==> s.owners[o].refs > 0
  {
    assert o in s.owners ==> CountedAt(s, o, surplus);
  }
}
