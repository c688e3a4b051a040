/** The registry of sessions: several indexes over one set, kept by joins, world changes and leaves. */
module SessionIndexes {
  import opened Basics
  import opened Relations

  // ---------- the registry as a value ----------

  datatype Index = Index(
    sessions: map<nat, Session>,
    byUUID: map<nat, Session>,
    byName: map<string, Session>,
    byXUID: map<string, Session>,
    byFakeID: map<string, Session>,
    byWorld: map<nat, set<Session>>,
    cached: map<Session, nat>)          // cached worlds of the registered sessions; 0 is nil

  ghost predicate Registered(ix: Index, s: Session) {
    s in ix.cached
  }

  function Entered(byWorld: map<nat, set<Session>>, s: Session, w: nat): map<nat, set<Session>> {
    if w == 0 then byWorld else byWorld[w := (if w in byWorld then byWorld[w] else {}) + {s}]
  }

  function Exited(byWorld: map<nat, set<Session>>, s: Session, w: nat): map<nat, set<Session>> {
    if w == 0 || w !in byWorld then byWorld
    else if byWorld[w] - {s} == {} then byWorld - {w}
    else byWorld[w := byWorld[w] - {s}]
  }

  /** Taking over a handle takes the session that had it off the register. */
  ghost function WithoutHandle(ix: Index, handle: nat): map<Session, nat> {
    if handle in ix.sessions then ix.cached - {ix.sessions[handle]} else ix.cached
  }

  ghost function Joined(ix: Index, s: Session, w: nat): Index {
    Index(ix.sessions[s.handle := s], ix.byUUID[s.uuid := s], ix.byName[s.name := s],
          if s.xuid != "" then ix.byXUID[s.xuid := s] else ix.byXUID,
          if s.isFake && s.fakeID != "" then ix.byFakeID[s.fakeID := s] else ix.byFakeID,
          Entered(ix.byWorld, s, w), WithoutHandle(ix, s.handle)[s := w])
  }

  /** The event names the world that was left; the cache already holds the new one. */
  ghost function Moved(ix: Index, s: Session, before: nat, after: nat): Index {
    ix.(byWorld := Entered(Exited(ix.byWorld, s, before), s, after),
        cached := if Registered(ix, s) then ix.cached[s := after] else ix.cached)
  }

  /** `w` is the session's cached world. */
  ghost function Left(ix: Index, s: Session, w: nat): Index {
    Index(ix.sessions - {s.handle}, ix.byUUID - {s.uuid}, ix.byName - {s.name},
          if s.xuid != "" then ix.byXUID - {s.xuid} else ix.byXUID,
          if s.isFake && s.fakeID != "" then ix.byFakeID - {s.fakeID} else ix.byFakeID,
          Exited(ix.byWorld, s, w), WithoutHandle(ix, s.handle))
  }

  datatype Event = Join(s: Session, w: nat) | Move(s: Session, before: nat, after: nat) | Leave(s: Session, w: nat)

  ghost function Apply(ix: Index, e: Event): Index {
    match e
    case Join(s, w) => Joined(ix, s, w)
    case Move(s, before, after) => Moved(ix, s, before, after)
    case Leave(s, w) => Left(ix, s, w)
  }

  const NO_SESSIONS: Index := Index(map[], map[], map[], map[], map[], map[], map[])

  ghost function After(events: seq<Event>): Index {
    if events == [] then NO_SESSIONS else Apply(After(events[..|events| - 1]), events[|events| - 1])
  }

  // ---------- what should hold ----------

  /** Every key leads to the registered session that has it. */
  ghost predicate Keyed<K(!new)>(index: map<K, Session>, members: set<Session>, has: Session -> bool, key: Session -> K) {
    && (forall k | k in index :: index[k] in members && has(index[k]) && key(index[k]) == k)
    && (forall s | s in members && has(s) :: key(s) in index && index[key(s)] == s)
  }

  function Any(s: Session): bool { true }
  function HasXUID(s: Session): bool { s.xuid != "" }
  function HasFakeID(s: Session): bool { s.isFake && s.fakeID != "" }
  function HandleOf(s: Session): nat { s.handle }
  function UUIDOf(s: Session): nat { s.uuid }
  function NameOf(s: Session): string { s.name }
  function XUIDOf(s: Session): string { s.xuid }
  function FakeIDOf(s: Session): string { s.fakeID }

  ghost predicate HandlesAgree(ix: Index) {
    Keyed(ix.sessions, ix.cached.Keys, Any, HandleOf)
  }

  ghost predicate KeysAgree(ix: Index) {
    && Keyed(ix.byUUID, ix.cached.Keys, Any, UUIDOf)
    && Keyed(ix.byName, ix.cached.Keys, Any, NameOf)
    && Keyed(ix.byXUID, ix.cached.Keys, HasXUID, XUIDOf)
    && Keyed(ix.byFakeID, ix.cached.Keys, HasFakeID, FakeIDOf)
  }

  predicate InBucket(byWorld: map<nat, set<Session>>, w: nat, s: Session) {
    w in byWorld && s in byWorld[w]
  }

  predicate NoEmptyBucket(byWorld: map<nat, set<Session>>) {
    forall w | w in byWorld :: w != 0 && byWorld[w] != {}
  }

  /** A session is in the bucket of a world exactly when it is registered with that world cached. */
  ghost predicate WorldsAgree(byWorld: map<nat, set<Session>>, cached: map<Session, nat>) {
    && NoEmptyBucket(byWorld)
    && (forall w, s | w in byWorld && s in byWorld[w] :: s in cached && cached[s] == w)
    && (forall s | s in cached && cached[s] != 0 :: InBucket(byWorld, cached[s], s))
  }

  ghost predicate Agree(ix: Index) {
    HandlesAgree(ix) && KeysAgree(ix) && WorldsAgree(ix.byWorld, ix.cached)
  }

  ghost predicate NewKeys(ix: Index, s: Session) {
    && s.handle !in ix.sessions && s.uuid !in ix.byUUID && s.name !in ix.byName && s.xuid !in ix.byXUID
    && (s.isFake ==> s.fakeID !in ix.byFakeID)
  }

  /** Joins bring new keys, moves name the world the cache had, leaves are of registered sessions. */
  ghost predicate Allowed(ix: Index, e: Event) {
    match e
    case Join(s, w) => NewKeys(ix, s)
    case Move(s, before, after) => Registered(ix, s) && s in ix.cached && before == ix.cached[s]
    case Leave(s, w) => Registered(ix, s) && w == ix.cached[s]
  }

  ghost predicate AllAllowed(events: seq<Event>) {
    forall i | 0 <= i < |events| :: Allowed(After(events[..i]), events[i])
  }

  lemma KeyAdded<K(!new)>(index: map<K, Session>, members: set<Session>, has: Session -> bool, key: Session -> K, s: Session)
    requires Keyed(index, members, has, key) && s !in members
    requires has(s) ==> key(s) !in index
    ensures Keyed(if has(s) then index[key(s) := s] else index, members + {s}, has, key)
  {}

  lemma KeyDropped<K(!new)>(index: map<K, Session>, members: set<Session>, has: Session -> bool, key: Session -> K, s: Session)
    requires Keyed(index, members, has, key) && s in members
    ensures Keyed(if has(s) then index - {key(s)} else index, members - {s}, has, key)
  {}

  lemma EnteredBuckets(byWorld: map<nat, set<Session>>, s: Session, w: nat)
    requires NoEmptyBucket(byWorld)
    ensures NoEmptyBucket(Entered(byWorld, s, w))
    ensures forall v, t :: InBucket(Entered(byWorld, s, w), v, t) <==> InBucket(byWorld, v, t) || (w != 0 && v == w && t == s)
  {}

  lemma ExitedBuckets(byWorld: map<nat, set<Session>>, s: Session, w: nat)
    requires NoEmptyBucket(byWorld)
    ensures NoEmptyBucket(Exited(byWorld, s, w))
    ensures forall v, t :: InBucket(Exited(byWorld, s, w), v, t) <==> InBucket(byWorld, v, t) && !(w != 0 && v == w && t == s)
  {
    if w in byWorld {
      assert forall t :: t in byWorld[w] - {s} <==> t in byWorld[w] && t != s;
    }
  }

  /** The agreement of buckets and cache, said of one bucket at a time. */
  lemma WorldsAgreeIff(byWorld: map<nat, set<Session>>, cached: map<Session, nat>)
    requires NoEmptyBucket(byWorld)
    ensures WorldsAgree(byWorld, cached) <==>
            forall w, s :: InBucket(byWorld, w, s) <==> w != 0 && s in cached && cached[s] == w
  {
    if forall w, s :: InBucket(byWorld, w, s) <==> w != 0 && s in cached && cached[s] == w {
      assert forall w, s | w in byWorld && s in byWorld[w] :: InBucket(byWorld, w, s);
    } else {
      var w, s :| !(InBucket(byWorld, w, s) <==> w != 0 && s in cached && cached[s] == w);
    }
  }

  lemma JoinKeepsWorlds(byWorld: map<nat, set<Session>>, cached: map<Session, nat>, s: Session, w: nat)
    requires WorldsAgree(byWorld, cached) && s !in cached
    ensures WorldsAgree(Entered(byWorld, s, w), cached[s := w])
  {
    EnteredBuckets(byWorld, s, w);
    WorldsAgreeIff(byWorld, cached);
    WorldsAgreeIff(Entered(byWorld, s, w), cached[s := w]);
  }

  lemma LeaveKeepsWorlds(byWorld: map<nat, set<Session>>, cached: map<Session, nat>, s: Session)
    requires WorldsAgree(byWorld, cached) && s in cached
    ensures WorldsAgree(Exited(byWorld, s, cached[s]), cached - {s})
  {
    ExitedBuckets(byWorld, s, cached[s]);
    WorldsAgreeIff(byWorld, cached);
    WorldsAgreeIff(Exited(byWorld, s, cached[s]), cached - {s});
  }

  /** Where everybody is in a bucket after a world change. */
  lemma MovedBuckets(byWorld: map<nat, set<Session>>, s: Session, before: nat, after: nat)
    requires NoEmptyBucket(byWorld)
    ensures var moved := Entered(Exited(byWorld, s, before), s, after);
            && NoEmptyBucket(moved)
            && forall v, t :: InBucket(moved, v, t) <==>
                 (InBucket(byWorld, v, t) && !(v == before && t == s)) || (v == after && t == s && after != 0)
  {
    ExitedBuckets(byWorld, s, before);
    EnteredBuckets(Exited(byWorld, s, before), s, after);
    assert before == 0 ==> before !in byWorld;
  }

  lemma MoveOfRegistered(byWorld: map<nat, set<Session>>, cached: map<Session, nat>, s: Session, before: nat, after: nat)
    requires WorldsAgree(byWorld, cached) && s in cached
    ensures WorldsAgree(Entered(Exited(byWorld, s, before), s, after), cached[s := after]) <==>
            before == cached[s] || cached[s] == 0 || cached[s] == after
  {
    var moved, c := Entered(Exited(byWorld, s, before), s, after), cached[s];
    MovedBuckets(byWorld, s, before, after);
    WorldsAgreeIff(byWorld, cached);
    WorldsAgreeIff(moved, cached[s := after]);
    assert InBucket(moved, c, s) <==> c != 0 && (c != before || c == after);
  }

  lemma MoveOfUnknown(byWorld: map<nat, set<Session>>, cached: map<Session, nat>, s: Session, before: nat, after: nat)
    requires WorldsAgree(byWorld, cached) && s !in cached
    ensures WorldsAgree(Entered(Exited(byWorld, s, before), s, after), cached) <==> after == 0
  {
    var moved := Entered(Exited(byWorld, s, before), s, after);
    MovedBuckets(byWorld, s, before, after);
    WorldsAgreeIff(byWorld, cached);
    WorldsAgreeIff(moved, cached);
    assert InBucket(moved, after, s) <==> after != 0;
  }

  lemma JoinKeepsKeys(ix: Index, s: Session, w: nat)
    requires HandlesAgree(ix) && KeysAgree(ix) && s !in ix.cached && NewKeys(ix, s)
    ensures HandlesAgree(Joined(ix, s, w)) && KeysAgree(Joined(ix, s, w))
  {
    var members := ix.cached.Keys;
    assert Joined(ix, s, w).cached.Keys == members + {s};
    KeyAdded(ix.sessions, members, Any, HandleOf, s);
    KeyAdded(ix.byUUID, members, Any, UUIDOf, s);
    KeyAdded(ix.byName, members, Any, NameOf, s);
    KeyAdded(ix.byXUID, members, HasXUID, XUIDOf, s);
    KeyAdded(ix.byFakeID, members, HasFakeID, FakeIDOf, s);
  }

  lemma LeaveKeepsKeys(ix: Index, s: Session)
    requires HandlesAgree(ix) && KeysAgree(ix) && Registered(ix, s)
    ensures HandlesAgree(Left(ix, s, ix.cached[s])) && KeysAgree(Left(ix, s, ix.cached[s]))
  {
    var members := ix.cached.Keys;
    assert ix.sessions[HandleOf(s)] == s;
    assert Left(ix, s, ix.cached[s]).cached.Keys == members - {s};
    KeyDropped(ix.sessions, members, Any, HandleOf, s);
    KeyDropped(ix.byUUID, members, Any, UUIDOf, s);
    KeyDropped(ix.byName, members, Any, NameOf, s);
    KeyDropped(ix.byXUID, members, HasXUID, XUIDOf, s);
    KeyDropped(ix.byFakeID, members, HasFakeID, FakeIDOf, s);
  }

  lemma JoinKeepsAgreement(ix: Index, s: Session, w: nat)
    requires Agree(ix) && Allowed(ix, Join(s, w))
    ensures Agree(Joined(ix, s, w))
  {
    assert s !in ix.cached by {
      assert s in ix.cached ==> HandleOf(s) in ix.sessions;
    }
    JoinKeepsKeys(ix, s, w);
    JoinKeepsWorlds(ix.byWorld, ix.cached, s, w);
  }

  lemma LeaveKeepsAgreement(ix: Index, s: Session)
    requires Agree(ix) && Registered(ix, s)
    ensures Agree(Left(ix, s, ix.cached[s]))
  {
    assert ix.sessions[HandleOf(s)] == s;
    LeaveKeepsKeys(ix, s);
    LeaveKeepsWorlds(ix.byWorld, ix.cached, s);
  }

  /** A world change keeps the indexes right exactly when the session is registered and the world it is said to have
      left is the cached one, unless there was none or it is the same as the new one; or when the session is not
      registered and goes nowhere. */
  lemma MoveKeepsAgreementIff(ix: Index, s: Session, before: nat, after: nat)
    requires Agree(ix)
    ensures Agree(Moved(ix, s, before, after)) <==>
            if Registered(ix, s) then before == ix.cached[s] || ix.cached[s] == 0 || ix.cached[s] == after
            else after == 0
  {
    assert Moved(ix, s, before, after).cached.Keys == ix.cached.Keys;
    if Registered(ix, s) {
      MoveOfRegistered(ix.byWorld, ix.cached, s, before, after);
    } else {
      MoveOfUnknown(ix.byWorld, ix.cached, s, before, after);
    }
  }

  /** In every reachable state all indexes agree. */
  lemma {:induction false} AlwaysAgree(events: seq<Event>)
    requires AllAllowed(events)
    ensures Agree(After(events))
  {
    if events != [] {
      var k := |events| - 1;
      var front := events[..k];
      forall i | 0 <= i < |front|
        ensures Allowed(After(front[..i]), front[i])
      {
        assert front[..i] == events[..i];
      }
      AlwaysAgree(front);
      assert Allowed(After(events[..k]), events[k]);
      match events[k]
      case Join(s, w) => JoinKeepsAgreement(After(front), s, w);
      case Move(s, before, after) => MoveKeepsAgreementIff(After(front), s, before, after);
      case Leave(s, w) => LeaveKeepsAgreement(After(front), s);
    }
  }

  // ---------- lookups ----------

  function ID(s: Session): string {
    if s.xuid != "" then s.xuid else s.fakeID
  }

  function ByID(ix: Index, id: string): Session? {
    if id == "" then null
    else if id in ix.byXUID then ix.byXUID[id]
    else if id in ix.byFakeID then ix.byFakeID[id]
    else null
  }

  /** Looking a session up by its own ID finds it, except for a fake player whose ID is the XUID of a registered
      player: that player is found instead. */
  lemma FoundByOwnIDIff(ix: Index, s: Session)
    requires Agree(ix) && Registered(ix, s) && ID(s) != "" && (s.xuid == "" ==> s.isFake)
    ensures ByID(ix, ID(s)) == s <==> (s.xuid != "" || !exists t | t in ix.cached :: t.xuid == s.fakeID)
    ensures ByID(ix, ID(s)) != null
  {
    assert s in ix.cached;
    if s.xuid == "" && s.fakeID in ix.byXUID {
      assert ix.byXUID[s.fakeID] in ix.cached && ix.byXUID[s.fakeID].xuid == s.fakeID;
    }
  }

  /** What a lookup by ID leads to: the registered session with that XUID, if there is one; otherwise the registered fake
      player with that ID, if there is one; otherwise nothing. */
  lemma ByIDFinds(ix: Index, id: string)
    requires Agree(ix)
    ensures var s := ByID(ix, id);
            && (s != null ==> id != "" && Registered(ix, s) && (s.xuid == id || (s.isFake && s.fakeID == id)))
            && (s != null && s.xuid != id ==> forall t | t in ix.cached :: t.xuid != id)
            && (s == null ==> id == "" || forall t | t in ix.cached :: t.xuid != id && !(t.isFake && t.fakeID == id))
  {
    if id in ix.byXUID {
      assert ix.byXUID[id] in ix.cached.Keys;
    }
    forall t | t in ix.cached && id != ""
      ensures t.xuid == id ==> id in ix.byXUID
      ensures t.isFake && t.fakeID == id ==> id in ix.byFakeID
    {
      assert HasXUID(t) ==> XUIDOf(t) in ix.byXUID;
      assert HasFakeID(t) ==> FakeIDOf(t) in ix.byFakeID;
    }
  }

  /** No index leads to a session that is not registered. */
  ghost predicate Unfindable(ix: Index, s: Session) {
    && (forall h | h in ix.sessions :: ix.sessions[h] != s)
    && (forall k | k in ix.byUUID :: ix.byUUID[k] != s)
    && (forall k | k in ix.byName :: ix.byName[k] != s)
    && (forall k | k in ix.byXUID :: ix.byXUID[k] != s)
    && (forall k | k in ix.byFakeID :: ix.byFakeID[k] != s)
    && (forall w | w in ix.byWorld :: s !in ix.byWorld[w])
  }

  lemma UnfindableIffAbsent(ix: Index, s: Session)
    requires Agree(ix)
    ensures Unfindable(ix, s) <==> !Registered(ix, s)
  {
    if Registered(ix, s) {
      assert ix.sessions[HandleOf(s)] == s;
    }
  }

  /** Nothing that has left can be found. */
  lemma NotFoundAfterLeaving(ix: Index, s: Session, id: string)
    requires Agree(ix) && Registered(ix, s)
    ensures Unfindable(Left(ix, s, ix.cached[s]), s) && ByID(Left(ix, s, ix.cached[s]), id) != s
  {
    LeaveKeepsAgreement(ix, s);
    assert ix.sessions[HandleOf(s)] == s;
    UnfindableIffAbsent(Left(ix, s, ix.cached[s]), s);
  }

  ghost predicate TouchesName(e: Event, name: string) {
    !e.Move? && e.s.name == name
  }

  /** The last event about the name is that session's joining. */
  ghost predicate LastNamed(events: seq<Event>, s: Session, i: nat) {
    && i < |events| && events[i].Join? && events[i].s == s
    && forall j | i < j < |events| :: !TouchesName(events[j], s.name)
  }

  ghost predicate Named(ix: Index, s: Session) {
    s.name in ix.byName && ix.byName[s.name] == s
  }

  lemma NameStep(ix: Index, e: Event, s: Session)
    ensures Named(Apply(ix, e), s) <==> if TouchesName(e, s.name) then e.Join? && e.s == s else Named(ix, s)
  {}

  lemma LastNamedStep(events: seq<Event>, s: Session)
    requires events != []
    ensures var k := |events| - 1;
            (exists i: nat :: LastNamed(events, s, i)) <==>
              if TouchesName(events[k], s.name) then events[k].Join? && events[k].s == s
              else exists i: nat :: LastNamed(events[..k], s, i)
  {
    var k := |events| - 1;
    if TouchesName(events[k], s.name) {
      assert LastNamed(events, s, k) <==> events[k].Join? && events[k].s == s;
      assert forall i: nat | i < k :: !LastNamed(events, s, i);
    } else {
      assert forall i: nat | i < k :: LastNamed(events, s, i) <==> LastNamed(events[..k], s, i);
      assert !LastNamed(events, s, k);
    }
  }

  /** Without asking that names be unique: a name leads to a session exactly when nobody of that name joined or left
      after it joined. In particular a leave takes away the entry of a newer session of the same name. */
  lemma {:induction false} FoundByNameIff(events: seq<Event>, s: Session)
    ensures Named(After(events), s) <==> exists i: nat :: LastNamed(events, s, i)
  {
    if events != [] {
      var front, e := events[..|events| - 1], events[|events| - 1];
      FoundByNameIff(front, s);
      NameStep(After(front), e, s);
      LastNamedStep(events, s);
    }
  }

  /** A player who rejoins before the old session is removed loses the name entry when it is. */
  lemma RejoinLosesName(a: Session, b: Session, w: nat)
    requires a.name == b.name && a.handle != b.handle
    ensures var ix := After([Join(a, w), Join(b, w), Leave(a, w)]);
            Registered(ix, b) && b.name !in ix.byName
  {
    var both := [Join(a, w), Join(b, w)];
    assert both[..1] == [Join(a, w)] && [Join(a, w)][..0] == [];
    assert (both + [Leave(a, w)])[..2] == both;
    assert both + [Leave(a, w)] == [Join(a, w), Join(b, w), Leave(a, w)];
    assert After(both) == Joined(After([Join(a, w)]), b, w);
    assert After(both).sessions[a.handle] == a && b in After(both).cached;
  }

  // ---------- grouping ----------

  ghost predicate Groups(byWorld: map<nat, set<Session>>, groups: map<nat, seq<Session>>) {
    groups.Keys == byWorld.Keys && forall w | w in groups :: Enumerates(groups[w], byWorld[w])
  }

  /** The grouping lists every registered session that has a world once, under that world, and nothing else. */
  lemma GroupedOnce(ix: Index, groups: map<nat, seq<Session>>, s: Session, w: nat)
    requires Agree(ix) && Groups(ix.byWorld, groups)
    ensures w in groups && s in groups[w] <==> w != 0 && Registered(ix, s) && ix.cached[s] == w
    ensures forall v, i, j | w in groups && v in groups && 0 <= i < |groups[w]| && 0 <= j < |groups[v]|
                             && groups[w][i] == groups[v][j] :: w == v && i == j
  {
    WorldsAgreeIff(ix.byWorld, ix.cached);
    assert InBucket(ix.byWorld, w, s) <==> w in groups && s in groups[w];
    forall v, i, j | w in groups && v in groups && 0 <= i < |groups[w]| && 0 <= j < |groups[v]|
                     && groups[w][i] == groups[v][j]
      ensures w == v && i == j
    {
      var t := groups[w][i];
      assert t in ix.byWorld[w] && t in ix.byWorld[v];
      assert ix.cached[t] == w && ix.cached[t] == v;
    }
  }

  // ---------- the manager ----------

  class Manager {
    var sessions: map<nat, Session>
    var byUUID: map<nat, Session>
    var byName: map<string, Session>
    var byXUID: map<string, Session>
    var byFakeID: map<string, Session>
    var byWorld: map<nat, set<Session>>

    constructor ()
      ensures Abs() == NO_SESSIONS
    {
      sessions, byUUID, byName, byXUID, byFakeID, byWorld := map[], map[], map[], map[], map[], map[];
    }

    ghost function Abs(): Index
      reads this, sessions.Values
    {
      Index(sessions, byUUID, byName, byXUID, byFakeID, byWorld, map s | s in sessions.Values :: s.world)
    }

    method PutInto(s: Session, w: nat)
      modifies this`byWorld
      ensures byWorld == Entered(old(byWorld), s, w)
    {
      if w != 0 {
        if w !in byWorld {
          byWorld := byWorld[w := {}];
        }
        byWorld := byWorld[w := byWorld[w] + {s}];
      }
    }

    method TakeFrom(s: Session, w: nat)
      modifies this`byWorld
      ensures byWorld == Exited(old(byWorld), s, w)
    {
      if w != 0 && w in byWorld {
        byWorld := byWorld[w := byWorld[w] - {s}];
        if |byWorld[w]| == 0 {
          byWorld := byWorld - {w};
        }
      }
    }

    method AddSession(s: Session)
      requires HandlesAgree(Abs())
      modifies this
      ensures Abs() == Joined(old(Abs()), s, s.world).(byFakeID := old(byFakeID))
    {
      ValuesAdded(sessions, s);
      sessions := sessions[s.handle := s];
      byUUID := byUUID[s.uuid := s];
      byName := byName[s.name := s];
      if s.xuid != "" {
        byXUID := byXUID[s.xuid := s];
      }
      PutInto(s, s.world);
      assert sessions.Values == old(sessions.Values - HandleHolder(sessions, s.handle)) + {s};
      JoinIsAdded(s);
    }

    twostate lemma JoinIsAdded(s: Session)
      requires sessions.Values == old(sessions.Values - HandleHolder(sessions, s.handle)) + {s}
      requires forall t | t in sessions.Values :: t.world == old(t.world)
      ensures Abs().cached == WithoutHandle(old(Abs()), s.handle)[s := s.world]
    {}

    twostate lemma LeaveIsDropped(s: Session)
      requires sessions.Values == old(sessions.Values - HandleHolder(sessions, s.handle))
      requires forall t | t in sessions.Values :: t.world == old(t.world)
      ensures Abs().cached == WithoutHandle(old(Abs()), s.handle)
    {}

    /** SpawnFake: the fake ID is indexed after the session has been added. */
    method AddFake(s: Session, w: nat)
      requires s.isFake && HandlesAgree(Abs())
      modifies this, s`world
      ensures Abs() == Joined(old(Abs()), s, w)
    {
      s.world := w;
      JoinSetsWorld(old(Abs()), Abs(), s, w);
      AddSession(s);
      if s.fakeID != "" {
        byFakeID := byFakeID[s.fakeID := s];
      }
    }

    method MoveSession(s: Session, before: nat, after: nat)
      modifies this`byWorld
      ensures byWorld == Entered(Exited(old(byWorld), s, before), s, after)
    {
      TakeFrom(s, before);
      PutInto(s, after);
    }

    /** The event handler refreshes the cache first. */
    method HandleChangeWorld(s: Session, before: nat, after: nat)
      modifies this`byWorld, s`world
      ensures Abs() == Moved(old(Abs()), s, before, after) && s.world == after
    {
      s.world := after;
      MoveSession(s, before, after);
      assert Abs().cached == Moved(old(Abs()), s, before, after).cached;
    }

    /** The index part of a removal. */
    method Unregister(s: Session)
      requires HandlesAgree(Abs())
      modifies this
      ensures Abs() == Left(old(Abs()), s, s.world)
    {
      ValuesDropped(sessions, s);
      sessions := sessions - {s.handle};
      byUUID := byUUID - {s.uuid};
      byName := byName - {s.name};
      if s.xuid != "" {
        byXUID := byXUID - {s.xuid};
      }
      TakeFrom(s, s.world);
      if s.isFake && s.fakeID != "" {
        byFakeID := byFakeID - {s.fakeID};
      }
      assert sessions.Values == old(sessions.Values - HandleHolder(sessions, s.handle));
      LeaveIsDropped(s);
    }

    /** `order` is how the map of the remaining sessions happens to be walked; `tables` are their components. */
    method RemoveSession(s: Session, types: seq<bool>, order: seq<Session>, ghost tables: seq<seq<Component?>>)
      requires HandlesAgree(Abs())
      requires Enumerates(order, (sessions - {s.handle}).Values)
      requires SizedTables(tables, types) && AreTables(order, tables)
      modifies this, AllRels(tables, types)`target, AllSets(tables, types)`targets
      ensures Abs() == Left(old(Abs()), s, s.world)
      ensures forall r | r in AllRels(tables, types) :: r.target == Dropped(old(r.target), s)
      ensures forall t | t in AllSets(tables, types) :: t.targets == old(t.targets) - {s}
    {
      Unregister(s);
      ClearAllRelationsTo(order, types, s, tables);
    }

    method GetSessionByID(id: string) returns (s: Session?)
      ensures s == ByID(Abs(), id)
    {
      if id == "" {
        return null;
      }
      if id in byXUID {
        return byXUID[id];
      }
      if id in byFakeID {
        return byFakeID[id];
      }
      return null;
    }

    /** The loops over the buckets and over each bucket, in any order. */
    method GroupedSessions() returns (groups: map<nat, seq<Session>>)
      ensures Groups(byWorld, groups)
    {
      groups := map[];
      var todo := byWorld.Keys;
      while todo != {}
        invariant todo <= byWorld.Keys && groups.Keys == byWorld.Keys - todo
        invariant forall w | w in groups :: Enumerates(groups[w], byWorld[w])
        decreases todo
      {
        var w :| w in todo;
        todo := todo - {w};
        var list := Listed(byWorld[w]);
        groups := groups[w := list];
      }
    }

    method AllSessions() returns (list: seq<Session>)
      ensures Enumerates(list, set s | s in sessions.Values && !s.closed)
    {
      list := [];
      var todo := sessions.Values;
      while todo != {}
        invariant todo <= sessions.Values
        invariant forall s | s in list :: s in sessions.Values && s !in todo && !s.closed
        invariant forall s | s in sessions.Values && s !in todo && !s.closed :: s in list
        invariant forall i, j | 0 <= i < j < |list| :: list[i] != list[j]
        decreases todo
      {
        var s :| s in todo;
        todo := todo - {s};
        if !s.closed {
          list := list + [s];
        }
      }
    }
  }

  /** The world a session had before it joins does not matter. */
  lemma JoinSetsWorld(ix: Index, moved: Index, s: Session, w: nat)
    requires HandlesAgree(ix) && moved == ix.(cached := if s in ix.cached then ix.cached[s := w] else ix.cached)
    ensures Joined(moved, s, w) == Joined(ix, s, w) && HandlesAgree(moved)
  {
    assert moved.cached.Keys == ix.cached.Keys;
    assert WithoutHandle(moved, s.handle)[s := w] == WithoutHandle(ix, s.handle)[s := w];
  }

  ghost function HandleHolder(sessions: map<nat, Session>, h: nat): set<Session> {
    if h in sessions then {sessions[h]} else {}
  }

  lemma ValuesAdded(sessions: map<nat, Session>, s: Session)
    requires Keyed(sessions, sessions.Values, Any, HandleOf)
    ensures sessions[s.handle := s].Values == sessions.Values - HandleHolder(sessions, s.handle) + {s}
  {
    var more := sessions[s.handle := s];
    assert more[s.handle] == s;
    forall t | t in sessions.Values && t !in HandleHolder(sessions, s.handle)
      ensures t in more.Values
    {
      assert sessions[HandleOf(t)] == t;
      assert more[t.handle] == t;
    }
  }

  lemma ValuesDropped(sessions: map<nat, Session>, s: Session)
    requires Keyed(sessions, sessions.Values, Any, HandleOf)
    ensures (sessions - {s.handle}).Values == sessions.Values - HandleHolder(sessions, s.handle)
  {
    forall t | t in sessions.Values && t !in HandleHolder(sessions, s.handle)
      ensures t in (sessions - {s.handle}).Values
    {
      assert sessions[HandleOf(t)] == t;
      assert (sessions - {s.handle})[t.handle] == t;
    }
  }

  method Listed(bucket: set<Session>) returns (list: seq<Session>)
    ensures Enumerates(list, bucket)
  {
    list := [];
    var todo := bucket;
    while todo != {}
      invariant todo <= bucket
      invariant Enumerates(list, bucket - todo)
      decreases todo
    {
      var s :| s in todo;
      todo := todo - {s};
      list := list + [s];
    }
  }
}
