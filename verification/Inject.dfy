/** Dependency injection into pooled system instances: what injection writes into each field, when it
    fails, why the component masks make component lookups safe, and that nothing of an earlier use of
    the instance remains visible. */
module Injection {
  import opened Basics
  import opened Bitmasks
  import opened Access
  import opened SystemMetas

  /** Pointers; 0 is nil. */
  type Ptr = nat

  type SessionId = nat

  // ---------- what injection reads ----------

  /** The memory injection looks at. A missing key reads as nil, the empty ID or the empty set. */
  datatype World = World(
    components: map<(SessionId, ComponentID), Ptr>,
    closed: set<SessionId>,
    target: map<(Ptr, nat), SessionId>,         // the Relation at an offset of a component
    targets: map<(Ptr, nat), set<SessionId>>,   // the RelationSet at an offset of a component
    id: map<(Ptr, nat), string>,                // the Peer or Shared at an offset of a component
    ids: map<(Ptr, nat), seq<string>>,          // the PeerSet or SharedSet at an offset of a component
    manager: Ptr,
    resources: map<GoType, Ptr>,
    peers: map<(string, GoType), Ptr>,
    shared: map<(string, GoType), Ptr>)

  function ComponentOf(w: World, s: SessionId, id: ComponentID): Ptr {
    if (s, id) in w.components then w.components[(s, id)] else 0
  }

  function TargetSet(w: World, p: Ptr, offset: nat): set<SessionId> {
    if (p, offset) in w.targets then w.targets[(p, offset)] else {}
  }

  function IdAt(w: World, p: Ptr, offset: nat): string {
    if (p, offset) in w.id then w.id[(p, offset)] else ""
  }

  function IdsAt(w: World, p: Ptr, offset: nat): seq<string> {
    if (p, offset) in w.ids then w.ids[(p, offset)] else []
  }

  /** Peer or shared resolution of one ID. */
  function Resolve(w: World, kind: FieldKind, id: string, t: GoType): Ptr {
    var table := if kind == KindPeer || kind == KindPeerSlice then w.peers else w.shared;
    if id != "" && (id, t) in table then table[(id, t)] else 0
  }

  /** The component a relation leads to, or nil: no target, a closed target, or no such component on it. */
  function Related(w: World, last: Ptr, f: FieldMeta): Ptr {
    if last == 0 || (last, f.offset) !in w.target || w.target[(last, f.offset)] in w.closed then 0
    else ComponentOf(w, w.target[(last, f.offset)], f.componentID)
  }

  /** The value a peer or shared field resolves to, or nil. */
  function Referred(w: World, last: Ptr, f: FieldMeta): Ptr {
    if last == 0 then 0 else Resolve(w, f.kind, IdAt(w, last, f.offset), f.componentType)
  }

  function NonNil(ptrs: seq<Ptr>): seq<Ptr> {
    if ptrs == [] then [] else NonNil(ptrs[..|ptrs| - 1]) + if ptrs[|ptrs| - 1] != 0 then [ptrs[|ptrs| - 1]] else []
  }

  function ResolveAll(w: World, kind: FieldKind, ids: seq<string>, t: GoType): seq<Ptr> {
    seq(|ids|, i requires 0 <= i < |ids| => Resolve(w, kind, ids[i], t))
  }

  function ReferredAll(w: World, last: Ptr, f: FieldMeta): seq<Ptr> {
    if last == 0 then [] else NonNil(ResolveAll(w, f.kind, IdsAt(w, last, f.offset), f.componentType))
  }

  /** The components of a list of sessions, the missing ones left out. */
  function ComponentsOf(w: World, sessions: seq<SessionId>, id: ComponentID): seq<Ptr> {
    NonNil(seq(|sessions|, i requires 0 <= i < |sessions| => ComponentOf(w, sessions[i], id)))
  }

  function OpenTargets(w: World, p: Ptr, offset: nat): set<SessionId> {
    TargetSet(w, p, offset) - w.closed
  }

  // ---------- the instance ----------

  /** A field of a system instance. A slice owns a backing array of which the first `len` entries show. */
  datatype Slot =
    | PtrSlot(p: Ptr)
    | SliceSlot(backing: seq<Ptr>, len: nat)
    | PayloadSlot(bytes: seq<nat>)
    | PhantomSlot

  /** What a system can see of a field. */
  datatype View = ViewPtr(p: Ptr) | ViewSlice(ptrs: seq<Ptr>) | ViewPayload(bytes: seq<nat>) | ViewNothing

  predicate IsSliceKind(k: FieldKind) {
    k == KindRelationSlice || k == KindPeerSlice || k == KindSharedSlice
  }

  predicate SlotFits(f: FieldMeta, slot: Slot) {
    var k := f.kind;
    if IsSliceKind(k) then slot.SliceSlot? && slot.len <= |slot.backing|
    else if k == KindPayload then slot.PayloadSlot? && |slot.bytes| == f.size
    else if k == KindPhantomWith || k == KindPhantomWithout then slot.PhantomSlot?
    else slot.PtrSlot?
  }

  function ViewOf(slot: Slot): View
    requires slot.SliceSlot? ==> slot.len <= |slot.backing|
  {
    match slot
    case PtrSlot(p) => ViewPtr(p)
    case SliceSlot(backing, len) => ViewSlice(backing[..len])
    case PayloadSlot(bytes) => ViewPayload(bytes)
    case PhantomSlot => ViewNothing
  }

  function Zeros(n: nat): seq<nat> {
    seq(n, i => 0)
  }

  /** What a field shows after zeroing. */
  predicate Blank(v: View) {
    match v
    case ViewPtr(p) => p == 0
    case ViewSlice(ptrs) => ptrs == []
    case ViewPayload(bytes) => bytes == Zeros(|bytes|)
    case ViewNothing => true
  }

  // ---------- what a field should receive ----------

  /** The session a field reads from; 0 when there is none. */
  function SessionFor(sessions: seq<SessionId>, f: FieldMeta): SessionId {
    if f.window < |sessions| then sessions[f.window] else 0
  }

  /** The last component injected before field `i` in the same window; nil when there is none. */
  ghost function LastComponent(w: World, sessions: seq<SessionId>, fields: seq<FieldMeta>, i: nat): Ptr
    requires i < |fields|
  {
    if fields[i].window != WindowBefore(fields, i) || i == 0 then 0
    else LastAfter(w, sessions, fields, i)
  }

  /** The component pointer the loop carries after the first `i` fields. */
  ghost function LastAfter(w: World, sessions: seq<SessionId>, fields: seq<FieldMeta>, i: nat): Ptr
    requires i <= |fields|
    decreases i, 1
  {
    if i == 0 then 0
    else if fields[i - 1].kind == KindComponent then ComponentOf(w, SessionFor(sessions, fields[i - 1]), fields[i - 1].componentID)
    else if fields[i - 1].window != WindowBefore(fields, i - 1) then 0
    else LastAfter(w, sessions, fields, i - 1)
  }

  ghost function WindowBefore(fields: seq<FieldMeta>, i: nat): nat
    requires i <= |fields|
  {
    if i == 0 then 0 else fields[i - 1].window
  }

  /** Injection does not fail at field `f`, given the session and the last component there. */
  predicate FieldOk(w: World, s: SessionId, last: Ptr, f: FieldMeta) {
    match f.kind
    case KindManager => w.manager != 0
    case KindResource => w.manager != 0 && f.componentType in w.resources && w.resources[f.componentType] != 0
    case KindComponent => f.optional || ComponentOf(w, s, f.componentID) != 0
    case KindRelation => f.optional || Related(w, last, f) != 0
    case KindPeer => f.optional || Referred(w, last, f) != 0
    case KindShared => f.optional || Referred(w, last, f) != 0
    case _ => true
  }

  /** What field `f` shows after injection. Nothing here depends on the instance. */
  ghost predicate Fills(w: World, s: SessionId, last: Ptr, f: FieldMeta, v: View) {
    match f.kind
    case KindSession => v == ViewPtr(s)
    case KindManager => v == ViewPtr(w.manager)
    case KindResource => f.componentType in w.resources && v == ViewPtr(w.resources[f.componentType])
    case KindComponent => v == ViewPtr(ComponentOf(w, s, f.componentID))
    case KindRelation => v == ViewPtr(Related(w, last, f))
    case KindPeer => v == ViewPtr(Referred(w, last, f))
    case KindShared => v == ViewPtr(Referred(w, last, f))
    case KindPeerSlice => v == ViewSlice(ReferredAll(w, last, f))
    case KindSharedSlice => v == ViewSlice(ReferredAll(w, last, f))
    case KindRelationSlice =>
      if last == 0 then v == ViewSlice([])
      else exists order :: Enumerates(order, OpenTargets(w, last, f.offset)) && v == ViewSlice(ComponentsOf(w, order, f.componentID))
    case KindPayload => v == ViewPayload(Zeros(f.size))
    case KindPhantomWith => v == ViewNothing
    case KindPhantomWithout => v == ViewNothing
  }

  ghost predicate OkAt(w: World, sessions: seq<SessionId>, fields: seq<FieldMeta>, i: nat)
    requires i < |fields|
  {
    var f := fields[i];
    (f.window == 0 || f.window < |sessions|) && FieldOk(w, SessionFor(sessions, f), LastComponent(w, sessions, fields, i), f)
  }

  ghost predicate FillsAt(w: World, sessions: seq<SessionId>, fields: seq<FieldMeta>, i: nat, v: View)
    requires i < |fields|
  {
    var f := fields[i];
    Fills(w, SessionFor(sessions, f), LastComponent(w, sessions, fields, i), f, v)
  }

  /** None of the first `n` fields fails. */
  ghost predicate AllOk(w: World, sessions: seq<SessionId>, fields: seq<FieldMeta>, n: nat)
    requires n <= |fields|
  {
    n == 0 || (AllOk(w, sessions, fields, n - 1) && OkAt(w, sessions, fields, n - 1))
  }

  ghost function Views(slots: seq<Slot>): seq<View> {
    seq(|slots|, i requires 0 <= i < |slots| =>
      if slots[i].SliceSlot? && slots[i].len > |slots[i].backing| then ViewNothing else ViewOf(slots[i]))
  }

  /** The first `n` fields show what they should. */
  ghost predicate AllFilled(w: World, sessions: seq<SessionId>, fields: seq<FieldMeta>, views: seq<View>, n: nat)
    requires n <= |fields| && n <= |views|
  {
    n == 0 || (AllFilled(w, sessions, fields, views, n - 1) && FillsAt(w, sessions, fields, n - 1, views[n - 1]))
  }

  lemma {:induction false} FilledFrame(w: World, sessions: seq<SessionId>, fields: seq<FieldMeta>,
                                      views: seq<View>, after: seq<View>, n: nat)
    requires n <= |fields| && n <= |views| && n <= |after| && views[..n] == after[..n]
    requires AllFilled(w, sessions, fields, views, n)
    ensures AllFilled(w, sessions, fields, after, n)
  {
    if n > 0 {
      assert views[..n][..n - 1] == views[..n - 1] && after[..n][..n - 1] == after[..n - 1];
      assert views[n - 1] == views[..n][n - 1] == after[..n][n - 1];
      FilledFrame(w, sessions, fields, views, after, n - 1);
    }
  }

  lemma {:induction false} OkUpTo(w: World, sessions: seq<SessionId>, fields: seq<FieldMeta>, n: nat, i: nat)
    requires i < n <= |fields|
    ensures AllOk(w, sessions, fields, n) ==> OkAt(w, sessions, fields, i)
  {
    if i < n - 1 {
      OkUpTo(w, sessions, fields, n - 1, i);
    }
  }

  lemma {:induction false} OkAll(w: World, sessions: seq<SessionId>, fields: seq<FieldMeta>, n: nat)
    requires n <= |fields| && forall i: nat | i < n :: OkAt(w, sessions, fields, i)
    ensures AllOk(w, sessions, fields, n)
  {
    if n > 0 {
      OkAll(w, sessions, fields, n - 1);
    }
  }

  lemma {:induction false} FilledUpTo(w: World, sessions: seq<SessionId>, fields: seq<FieldMeta>, views: seq<View>, n: nat, i: nat)
    requires i < n <= |fields| && n <= |views| && AllFilled(w, sessions, fields, views, n)
    ensures FillsAt(w, sessions, fields, i, views[i])
  {
    if i < n - 1 {
      FilledUpTo(w, sessions, fields, views, n - 1, i);
    }
  }

  class Instance {
    var slots: seq<Slot>

    constructor (slots: seq<Slot>)
      ensures this.slots == slots
    {
      this.slots := slots;
    }

    predicate Fits(fields: seq<FieldMeta>)
      reads this
    {
      |slots| == |fields| && forall i | 0 <= i < |fields| :: SlotFits(fields[i], slots[i])
    }

    method SetFieldPtr(i: nat, p: Ptr)
      requires i < |slots|
      modifies this
      ensures slots == old(slots)[i := PtrSlot(p)]
    {
      slots := slots[i := PtrSlot(p)];
    }

    /** Hides the contents of a slice; the backing array stays. */
    method ClearSlice(i: nat)
      requires i < |slots| && slots[i].SliceSlot?
      modifies this
      ensures slots == old(slots)[i := old(slots[i]).(len := 0)]
    {
      slots := slots[i := slots[i].(len := 0)];
    }

    /** Shows exactly `ptrs`, reusing the backing array when it is large enough. */
    method SetSliceFromPtrs(i: nat, ptrs: seq<Ptr>)
      requires i < |slots| && slots[i].SliceSlot? && slots[i].len <= |slots[i].backing|
      modifies this
      ensures |slots| == old(|slots|) && forall j | 0 <= j < |slots| && j != i :: slots[j] == old(slots[j])
      ensures slots[i].SliceSlot? && slots[i].len <= |slots[i].backing|
      ensures ViewOf(slots[i]) == ViewSlice(ptrs)
      ensures |slots[i].backing| >= old(|slots[i].backing|)
    {
      var dst := slots[i];
      if |ptrs| == 0 {
        slots := slots[i := dst.(len := 0)];
        return;
      }
      if |dst.backing| >= |ptrs| {
        slots := slots[i := SliceSlot(ptrs + dst.backing[|ptrs|..], |ptrs|)];
        return;
      }
      slots := slots[i := SliceSlot(ptrs, |ptrs|)];
    }

    method ZeroField(i: nat)
      requires i < |slots| && slots[i].PayloadSlot?
      modifies this
      ensures slots == old(slots)[i := PayloadSlot(Zeros(|old(slots[i]).bytes|))]
    {
      slots := slots[i := PayloadSlot(Zeros(|slots[i].bytes|))];
    }

    /** Blanks every field, whatever state the instance is in. */
    method ZeroSystem(fields: seq<FieldMeta>)
      requires Fits(fields)
      modifies this
      ensures Fits(fields)
      ensures forall i | 0 <= i < |slots| :: Blank(ViewOf(slots[i]))
    {
      for i := 0 to |fields|
        invariant Fits(fields)
        invariant forall j | 0 <= j < i :: Blank(ViewOf(slots[j]))
      {
        var kind := fields[i].kind;
        if IsSliceKind(kind) {
          ClearSlice(i);
        } else if kind == KindPayload {
          ZeroField(i);
        } else if kind != KindPhantomWith && kind != KindPhantomWithout {
          SetFieldPtr(i, 0);
        }
      }
    }

    /** getRelationSetTargets: the targets that are not closed, in whatever order the map yields them. */
    static method ListTargets(w: World, p: Ptr, offset: nat) returns (order: seq<SessionId>)
      ensures Enumerates(order, OpenTargets(w, p, offset))
    {
      order := [];
      var todo := TargetSet(w, p, offset);
      while todo != {}
        invariant todo <= TargetSet(w, p, offset)
        invariant Enumerates(order, OpenTargets(w, p, offset) - todo)
        decreases todo
      {
        var s :| s in todo;
        todo := todo - {s};
        if s !in w.closed {
          order := order + [s];
        }
      }
    }

    /** collectNonNilPtrs and the loop of collectComponentPtrs. */
    static method CollectNonNil(ptrs: seq<Ptr>) returns (r: seq<Ptr>)
      ensures r == NonNil(ptrs)
    {
      r := [];
      for i := 0 to |ptrs|
        invariant r == NonNil(ptrs[..i])
      {
        assert ptrs[..i + 1][..i] == ptrs[..i];
        if ptrs[i] != 0 {
          r := r + [ptrs[i]];
        }
      }
      assert ptrs[..|ptrs|] == ptrs;
    }

    /** Fills one field; fails when something required is missing. */
    method InjectField(i: nat, w: World, s: SessionId, last: Ptr, f: FieldMeta) returns (ok: bool)
      requires i < |slots| && SlotFits(f, slots[i])
      modifies this
      ensures |slots| == old(|slots|) && forall j | 0 <= j < |slots| && j != i :: slots[j] == old(slots[j])
      ensures SlotFits(f, slots[i])
      ensures ok <==> FieldOk(w, s, last, f)
      ensures ok ==> Fills(w, s, last, f, ViewOf(slots[i]))
    {
      match f.kind
      case KindSession =>
        SetFieldPtr(i, s);
        return true;
      case KindManager =>
        if w.manager == 0 { return false; }
        SetFieldPtr(i, w.manager);
        return true;
      case KindComponent =>
        var ptr := ComponentOf(w, s, f.componentID);
        if ptr == 0 && !f.optional { return false; }
        SetFieldPtr(i, ptr);
        return true;
      case KindRelation =>
        var ptr := Related(w, last, f);
        if ptr == 0 && !f.optional { return false; }
        SetFieldPtr(i, ptr);
        return true;
      case KindRelationSlice =>
        InjectRelations(i, w, last, f);
        return true;
      case KindResource =>
        if w.manager == 0 || f.componentType !in w.resources || w.resources[f.componentType] == 0 { return false; }
        SetFieldPtr(i, w.resources[f.componentType]);
        return true;
      case KindPhantomWith =>
        return true;
      case KindPhantomWithout =>
        return true;
      case KindPayload =>
        ZeroField(i);
        return true;
      case KindPeer =>
        ok := InjectReference(i, w, last, f);
      case KindShared =>
        ok := InjectReference(i, w, last, f);
      case KindPeerSlice =>
        InjectReferences(i, w, last, f);
        return true;
      case KindSharedSlice =>
        InjectReferences(i, w, last, f);
        return true;
    }

    /** The components of the open targets of a relation set. */
    method InjectRelations(i: nat, w: World, last: Ptr, f: FieldMeta)
      requires i < |slots| && slots[i].SliceSlot? && slots[i].len <= |slots[i].backing| && f.kind == KindRelationSlice
      modifies this
      ensures |slots| == old(|slots|) && forall j | 0 <= j < |slots| && j != i :: slots[j] == old(slots[j])
      ensures slots[i].SliceSlot? && slots[i].len <= |slots[i].backing|
      ensures Fills(w, 0, last, f, ViewOf(slots[i]))
    {
      if last == 0 {
        ClearSlice(i);
        return;
      }
      var order := ListTargets(w, last, f.offset);
      var ptrs := CollectNonNil(seq(|order|, k requires 0 <= k < |order| => ComponentOf(w, order[k], f.componentID)));
      assert ptrs == ComponentsOf(w, order, f.componentID);
      SetSliceFromPtrs(i, ptrs);
    }

    /** A single peer or shared field. */
    method InjectReference(i: nat, w: World, last: Ptr, f: FieldMeta) returns (ok: bool)
      requires i < |slots|
      modifies this
      ensures ok <==> f.optional || Referred(w, last, f) != 0
      ensures slots == if ok then old(slots)[i := PtrSlot(Referred(w, last, f))] else old(slots)
    {
      if last == 0 {
        if !f.optional { return false; }
        SetFieldPtr(i, 0);
        return true;
      }
      var id := IdAt(w, last, f.offset);
      if id == "" {
        if !f.optional { return false; }
        SetFieldPtr(i, 0);
        return true;
      }
      var ptr := Resolve(w, f.kind, id, f.componentType);
      if ptr == 0 && !f.optional { return false; }
      SetFieldPtr(i, ptr);
      return true;
    }

    /** A slice of peers or shared entities. */
    method InjectReferences(i: nat, w: World, last: Ptr, f: FieldMeta)
      requires i < |slots| && slots[i].SliceSlot? && slots[i].len <= |slots[i].backing|
      modifies this
      ensures |slots| == old(|slots|) && forall j | 0 <= j < |slots| && j != i :: slots[j] == old(slots[j])
      ensures slots[i].SliceSlot? && slots[i].len <= |slots[i].backing|
      ensures ViewOf(slots[i]) == ViewSlice(ReferredAll(w, last, f))
    {
      if last == 0 {
        ClearSlice(i);
        return;
      }
      var ids := IdsAt(w, last, f.offset);
      if |ids| == 0 {
        ClearSlice(i);
        return;
      }
      var ptrs := CollectNonNil(ResolveAll(w, f.kind, ids, f.componentType));
      SetSliceFromPtrs(i, ptrs);
    }

    /** One iteration: fills field `i` and keeps the fields before it. */
    method InjectAt(i: nat, w: World, sessions: seq<SessionId>, fields: seq<FieldMeta>, s: SessionId, last: Ptr) returns (ok: bool)
      requires Fits(fields) && i < |fields|
      requires fields[i].window == 0 || fields[i].window < |sessions|
      requires s == SessionFor(sessions, fields[i]) && last == LastComponent(w, sessions, fields, i)
      requires AllFilled(w, sessions, fields, Views(slots), i)
      modifies this
      ensures Fits(fields)
      ensures ok <==> OkAt(w, sessions, fields, i)
      ensures ok ==> AllFilled(w, sessions, fields, Views(slots), i + 1)
    {
      ghost var before := Views(slots);
      ok := InjectField(i, w, s, last, fields[i]);
      forall j | 0 <= j < |fields| && j != i
        ensures Views(slots)[j] == before[j]
      {
      }
      assert before[..i] == Views(slots)[..i];
      FilledFrame(w, sessions, fields, before, Views(slots), i);
    }

    /** What the loop carries before field `i`: the current window, its session, and the last component of it. */
    static ghost predicate Carrying(w: World, sessions: seq<SessionId>, fields: seq<FieldMeta>, i: nat,
                                    window: nat, session: SessionId, last: Ptr)
      requires i <= |fields|
    {
      && window == WindowBefore(fields, i) && (window == 0 || window < |sessions|)
      && session == (if window < |sessions| then sessions[window] else 0)
      && last == LastAfter(w, sessions, fields, i)
    }

    /** Moving to the window of field `i`, where there is one. */
    static lemma EntersWindow(w: World, sessions: seq<SessionId>, fields: seq<FieldMeta>, i: nat,
                              window: nat, session: SessionId, last: Ptr)
      requires i < |fields| && Carrying(w, sessions, fields, i, window, session, last)
      ensures fields[i].window == window ==>
                session == SessionFor(sessions, fields[i]) && last == LastComponent(w, sessions, fields, i)
      ensures fields[i].window != window && fields[i].window < |sessions| ==>
                sessions[fields[i].window] == SessionFor(sessions, fields[i]) && 0 == LastComponent(w, sessions, fields, i)
      ensures fields[i].window != window && fields[i].window >= |sessions| ==> fields[i].window != 0 || sessions == []
    {
    }

    /** Passing field `i`. */
    static lemma LeavesField(w: World, sessions: seq<SessionId>, fields: seq<FieldMeta>, i: nat, session: SessionId, last: Ptr)
      requires i < |fields| && (fields[i].window == 0 || fields[i].window < |sessions|)
      requires session == SessionFor(sessions, fields[i]) && last == LastComponent(w, sessions, fields, i)
      ensures Carrying(w, sessions, fields, i + 1, fields[i].window, session,
                       if fields[i].kind == KindComponent then ComponentOf(w, session, fields[i].componentID) else last)
    {
    }

    /** The first `i` fields have been injected. */
    ghost predicate Underway(w: World, sessions: seq<SessionId>, fields: seq<FieldMeta>, i: nat,
                             window: nat, session: SessionId, last: Ptr)
      reads this
      requires i <= |fields|
    {
      && Fits(fields)
      && Carrying(w, sessions, fields, i, window, session, last)
      && AllOk(w, sessions, fields, i) && AllFilled(w, sessions, fields, Views(slots), i)
    }

    /** The body of the loop over fields. */
    method Advance(i: nat, w: World, sessions: seq<SessionId>, fields: seq<FieldMeta>,
                   window: nat, session: SessionId, lastComponent: Ptr)
        returns (ok: bool, currentWindow: nat, currentSession: SessionId, last: Ptr)
      requires i < |fields| && Underway(w, sessions, fields, i, window, session, lastComponent)
      modifies this
      ensures Fits(fields)
      ensures if ok then Underway(w, sessions, fields, i + 1, currentWindow, currentSession, last)
              else !AllOk(w, sessions, fields, |fields|)
    {
      OkUpTo(w, sessions, fields, |fields|, i);
      currentWindow, currentSession, last := window, session, lastComponent;
      var f := fields[i];
      EntersWindow(w, sessions, fields, i, currentWindow, currentSession, last);
      if f.window != currentWindow {
        if f.window < |sessions| {
          currentSession := sessions[f.window];
          currentWindow := f.window;
          last := 0;
        } else {
          return false, currentWindow, currentSession, last;
        }
      }
      LeavesField(w, sessions, fields, i, currentSession, last);
      ok := InjectAt(i, w, sessions, fields, currentSession, last);
      if ok && f.kind == KindComponent {
        last := ComponentOf(w, currentSession, f.componentID);
      }
    }

    /** Injects all fields in order. It succeeds exactly when no field fails, and then every field shows
        what it should, whatever the instance held before. */
    method InjectSystem(sessions: seq<SessionId>, meta: SystemMeta, w: World) returns (ok: bool)
      requires Fits(meta.fields)
      requires meta.isGlobal ==> forall f | f in meta.fields :: IsGlobalKind(f.kind)
      modifies this
      ensures Fits(meta.fields)
      ensures ok <==> (|sessions| > 0 || meta.isGlobal) && AllOk(w, sessions, meta.fields, |meta.fields|)
      ensures ok ==> AllFilled(w, sessions, meta.fields, Views(slots), |meta.fields|)
    {
      if |sessions| == 0 && !meta.isGlobal {
        return false;
      }
      var fields := meta.fields;
      var currentSession := if |sessions| > 0 then sessions[0] else 0;
      var currentWindow := 0;
      var last: Ptr := 0;
      for i := 0 to |fields|
        invariant Underway(w, sessions, fields, i, currentWindow, currentSession, last)
      {
        ok, currentWindow, currentSession, last := Advance(i, w, sessions, fields, currentWindow, currentSession, last);
        if !ok {
          return;
        }
      }
      return true;
    }
  }

  // ---------- nothing of an earlier use remains ----------

  lemma {:induction false} NonNilCounts(ptrs: seq<Ptr>)
    ensures multiset(NonNil(ptrs)) == multiset(ptrs)[0 := 0]
  {
    if ptrs != [] {
      NonNilCounts(ptrs[..|ptrs| - 1]);
      assert ptrs == ptrs[..|ptrs| - 1] + [ptrs[|ptrs| - 1]];
    }
  }

  ghost function Pointers(w: World, order: seq<SessionId>, id: ComponentID): seq<Ptr> {
    seq(|order|, i requires 0 <= i < |order| => ComponentOf(w, order[i], id))
  }

  ghost function Cut<T>(s: seq<T>, p: nat): seq<T>
    requires p < |s|
  {
    s[..p] + s[p + 1..]
  }

  lemma CutEnumerates(order: seq<SessionId>, s: set<SessionId>, p: nat)
    requires Enumerates(order, s) && p < |order|
    ensures Enumerates(Cut(order, p), s - {order[p]})
  {
    var rest := Cut(order, p);
    forall x | x in order && x != order[p] ensures x in rest {
      var k :| 0 <= k < |order| && order[k] == x;
      assert rest[if k < p then k else k - 1] == x;
    }
  }

  lemma CutPointers(w: World, order: seq<SessionId>, p: nat, id: ComponentID)
    requires p < |order|
    ensures multiset(Pointers(w, order, id)) == multiset(Pointers(w, Cut(order, p), id)) + multiset{ComponentOf(w, order[p], id)}
  {
    var all := Pointers(w, order, id);
    assert Pointers(w, Cut(order, p), id) == all[..p] + all[p + 1..];
    assert all == all[..p] + [all[p]] + all[p + 1..];
  }

  /** Two enumerations of one set of sessions collect the same pointers, equally often. */
  lemma {:induction false} SamePointers(w: World, a: seq<SessionId>, b: seq<SessionId>, s: set<SessionId>, id: ComponentID)
    requires Enumerates(a, s) && Enumerates(b, s)
    ensures multiset(Pointers(w, a, id)) == multiset(Pointers(w, b, id))
    decreases |a|
  {
    assert |b| > 0 ==> b[0] in b;
    if a != [] {
      assert a[0] in a;
      var p :| 0 <= p < |b| && b[p] == a[0];
      CutEnumerates(a, s, 0);
      CutEnumerates(b, s, p);
      CutPointers(w, a, 0, id);
      CutPointers(w, b, p, id);
      SamePointers(w, Cut(a, 0), Cut(b, p), s - {a[0]}, id);
    }
  }

  /** Equal, relation slices up to order. */
  ghost predicate SameView(k: FieldKind, v: View, u: View) {
    v == u || (k == KindRelationSlice && v.ViewSlice? && u.ViewSlice? && multiset(v.ptrs) == multiset(u.ptrs))
  }

  lemma FillsDetermines(w: World, s: SessionId, last: Ptr, f: FieldMeta, v: View, u: View)
    requires Fills(w, s, last, f, v) && Fills(w, s, last, f, u)
    ensures SameView(f.kind, v, u)
  {
    if f.kind == KindRelationSlice && last != 0 {
      var targets := OpenTargets(w, last, f.offset);
      var a :| Enumerates(a, targets) && v == ViewSlice(ComponentsOf(w, a, f.componentID));
      var b :| Enumerates(b, targets) && u == ViewSlice(ComponentsOf(w, b, f.componentID));
      SamePointers(w, a, b, targets, f.componentID);
      NonNilCounts(Pointers(w, a, f.componentID));
      NonNilCounts(Pointers(w, b, f.componentID));
    }
  }

  /** After two successful injections from the same memory, two instances show the same in every field,
      whatever each of them held before: the views in InjectSystem's contract are determined by the memory,
      the sessions and the metadata. */
  lemma NoLeak(w: World, sessions: seq<SessionId>, fields: seq<FieldMeta>, views: seq<View>, others: seq<View>, i: nat)
    requires |views| == |others| == |fields| && i < |fields|
    requires AllFilled(w, sessions, fields, views, |fields|) && AllFilled(w, sessions, fields, others, |fields|)
    ensures SameView(fields[i].kind, views[i], others[i])
  {
    FilledUpTo(w, sessions, fields, views, |fields|, i);
    FilledUpTo(w, sessions, fields, others, |fields|, i);
    FillsDetermines(w, SessionFor(sessions, fields[i]), LastComponent(w, sessions, fields, i), fields[i], views[i], others[i]);
  }

  // ---------- what the fields show, read off the memory ----------

  /** The values a table has for the IDs, in the order of the IDs; empty and unknown IDs and nil values are left out. */
  ghost function Entries(table: map<(string, GoType), Ptr>, ids: seq<string>, t: GoType): seq<Ptr> {
    if ids == [] then [] else
    var id := ids[|ids| - 1];
    Entries(table, ids[..|ids| - 1], t) +
    if id != "" && (id, t) in table && table[(id, t)] != 0 then [table[(id, t)]] else []
  }

  lemma {:induction false} ResolvedEntries(w: World, kind: FieldKind, ids: seq<string>, t: GoType)
    ensures kind == KindPeerSlice ==> NonNil(ResolveAll(w, kind, ids, t)) == Entries(w.peers, ids, t)
    ensures kind == KindSharedSlice ==> NonNil(ResolveAll(w, kind, ids, t)) == Entries(w.shared, ids, t)
  {
    if ids != [] {
      var front := ids[..|ids| - 1];
      ResolvedEntries(w, kind, front, t);
      assert ResolveAll(w, kind, ids, t)[..|ids| - 1] == ResolveAll(w, kind, front, t);
    }
  }

  /** A single peer or shared field shows what its table has for the ID that the carried component holds, or nil; a
      required one fails without it. */
  lemma ReferenceShows(w: World, s: SessionId, last: Ptr, f: FieldMeta, v: View)
    requires (f.kind == KindPeer || f.kind == KindShared) && Fills(w, s, last, f, v)
    ensures var table := if f.kind == KindPeer then w.peers else w.shared;
            var held := last != 0 && (last, f.offset) in w.id && w.id[(last, f.offset)] != "";
            && (held && (w.id[(last, f.offset)], f.componentType) in table ==>
                  v == ViewPtr(table[(w.id[(last, f.offset)], f.componentType)]))
            && (!held || (w.id[(last, f.offset)], f.componentType) !in table ==> v == ViewPtr(0))
            && (FieldOk(w, s, last, f) <==> f.optional || v != ViewPtr(0))
  {}

  lemma ReferencesShow(w: World, s: SessionId, last: Ptr, f: FieldMeta, v: View)
    requires (f.kind == KindPeerSlice || f.kind == KindSharedSlice) && Fills(w, s, last, f, v)
    ensures var table := if f.kind == KindPeerSlice then w.peers else w.shared;
            && (last != 0 && (last, f.offset) in w.ids ==>
                  v == ViewSlice(Entries(table, w.ids[(last, f.offset)], f.componentType)))
            && (last == 0 || (last, f.offset) !in w.ids ==> v == ViewSlice([]))
            && FieldOk(w, s, last, f)
  {
    if last != 0 {
      ResolvedEntries(w, f.kind, IdsAt(w, last, f.offset), f.componentType);
    }
  }

  /** A relation field shows the component of its target when the target is open, and nil otherwise. */
  lemma RelationShows(w: World, s: SessionId, last: Ptr, f: FieldMeta, v: View)
    requires f.kind == KindRelation && Fills(w, s, last, f, v)
    ensures var open := last != 0 && (last, f.offset) in w.target && w.target[(last, f.offset)] !in w.closed;
            && (open && (w.target[(last, f.offset)], f.componentID) in w.components ==>
                  v == ViewPtr(w.components[(w.target[(last, f.offset)], f.componentID)]))
            && (!open || (w.target[(last, f.offset)], f.componentID) !in w.components ==> v == ViewPtr(0))
            && (FieldOk(w, s, last, f) <==> f.optional || v != ViewPtr(0))
  {}

  /** The open sessions of a relation set that have the component. */
  ghost function Carriers(w: World, last: Ptr, f: FieldMeta): set<SessionId> {
    if (last, f.offset) !in w.targets then {}
    else set t | t in w.targets[(last, f.offset)] && t !in w.closed && (t, f.componentID) in w.components
                 && w.components[(t, f.componentID)] != 0
  }

  /** The component of each carrier, once per carrier, in some order. */
  ghost predicate ListsCarriers(w: World, carriers: seq<SessionId>, f: FieldMeta, ptrs: seq<Ptr>) {
    && |ptrs| == |carriers|
    && forall k | 0 <= k < |ptrs| ::
         (carriers[k], f.componentID) in w.components && ptrs[k] == w.components[(carriers[k], f.componentID)]
  }

  lemma ComponentsOneMore(w: World, order: seq<SessionId>, id: ComponentID)
    requires order != []
    ensures var t := order[|order| - 1];
            ComponentsOf(w, order, id) == ComponentsOf(w, order[..|order| - 1], id) +
                                          if ComponentOf(w, t, id) != 0 then [ComponentOf(w, t, id)] else []
  {
    var front := order[..|order| - 1];
    assert Pointers(w, order, id)[..|order| - 1] == Pointers(w, front, id);
  }

  lemma {:induction false} CarriersOf(w: World, order: seq<SessionId>, f: FieldMeta) returns (carriers: seq<SessionId>)
    requires Distinct(order)
    ensures Distinct(carriers) && ListsCarriers(w, carriers, f, ComponentsOf(w, order, f.componentID))
    ensures forall t | t in carriers :: t in order && ComponentOf(w, t, f.componentID) != 0
    ensures forall t | t in order && ComponentOf(w, t, f.componentID) != 0 :: t in carriers
  {
    if order == [] {
      carriers := [];
    } else {
      var front, t := order[..|order| - 1], order[|order| - 1];
      assert order == front + [t] && t !in front;
      carriers := CarriersOf(w, front, f);
      ComponentsOneMore(w, order, f.componentID);
      if ComponentOf(w, t, f.componentID) != 0 {
        assert t !in carriers;
        carriers := carriers + [t];
      }
    }
  }

  /** A relation slice shows the component of every open target that has it, once per target. */
  lemma RelationsShow(w: World, s: SessionId, last: Ptr, f: FieldMeta, v: View) returns (carriers: seq<SessionId>)
    requires f.kind == KindRelationSlice && Fills(w, s, last, f, v)
    ensures v.ViewSlice? && FieldOk(w, s, last, f)
    ensures last == 0 ==> v.ptrs == []
    ensures last != 0 ==> Enumerates(carriers, Carriers(w, last, f)) && ListsCarriers(w, carriers, f, v.ptrs)
  {
    if last == 0 {
      carriers := [];
    } else {
      var order :| Enumerates(order, OpenTargets(w, last, f.offset)) && v == ViewSlice(ComponentsOf(w, order, f.componentID));
      carriers := CarriersOf(w, order, f);
    }
  }

  /** The other kinds: the session of the field, the manager, a component of that session, a resource, zeroes. */
  lemma PlainFieldShows(w: World, s: SessionId, last: Ptr, f: FieldMeta, v: View)
    requires Fills(w, s, last, f, v) && FieldOk(w, s, last, f)
    ensures f.kind == KindSession ==> v == ViewPtr(s)
    ensures f.kind == KindManager ==> v == ViewPtr(w.manager) && w.manager != 0
    ensures f.kind == KindComponent ==>
              && (if (s, f.componentID) in w.components then v == ViewPtr(w.components[(s, f.componentID)]) else v == ViewPtr(0))
              && (!f.optional ==> v != ViewPtr(0))
    ensures f.kind == KindResource ==>
              f.componentType in w.resources && v == ViewPtr(w.resources[f.componentType]) && v != ViewPtr(0)
    ensures f.kind == KindPayload ==> v.ViewPayload? && |v.bytes| == f.size && forall k | 0 <= k < f.size :: v.bytes[k] == 0
  {}

  /** After a successful injection every field shows what its kind says, for the session of its window and the component
      carried to it. */
  lemma InjectedFieldShows(w: World, sessions: seq<SessionId>, fields: seq<FieldMeta>, views: seq<View>, i: nat)
    requires |views| == |fields| && i < |fields|
    requires AllOk(w, sessions, fields, |fields|) && AllFilled(w, sessions, fields, views, |fields|)
    ensures fields[i].window == 0 || fields[i].window < |sessions|
    ensures fields[i].window < |sessions| ==> SessionFor(sessions, fields[i]) == sessions[fields[i].window]
    ensures var s, last := SessionFor(sessions, fields[i]), LastComponent(w, sessions, fields, i);
            Fills(w, s, last, fields[i], views[i]) && FieldOk(w, s, last, fields[i])
  {
    OkUpTo(w, sessions, fields, |fields|, i);
    FilledUpTo(w, sessions, fields, views, |fields|, i);
  }

  // ---------- masks ----------

  predicate Passes(mask: Bitmask, require: Bitmask, exclude: Bitmask) {
    ContainsAll(mask, require) && !ContainsAny(mask, exclude)
  }

  /** The check before a task runs: per window for multi-session systems, otherwise the first session only. */
  ghost predicate MasksPass(meta: SystemMeta, masks: seq<Bitmask>) {
    if meta.isMultiSession then
      forall i | 0 <= i < |masks| && i < |meta.windows| ::
        Passes(masks[i], meta.windows[i].requireMask, meta.windows[i].excludeMask)
    else |masks| > 0 ==> Passes(masks[0], meta.requireMask, meta.excludeMask)
  }

  method CheckMasks(meta: SystemMeta, masks: seq<Bitmask>) returns (ok: bool)
    ensures ok <==> MasksPass(meta, masks)
  {
    if meta.isMultiSession {
      for i := 0 to |masks|
        invariant forall j | 0 <= j < i && j < |meta.windows| ::
                    Passes(masks[j], meta.windows[j].requireMask, meta.windows[j].excludeMask)
      {
        if i < |meta.windows| {
          var window := meta.windows[i];
          if !ContainsAll(masks[i], window.requireMask) || ContainsAny(masks[i], window.excludeMask) {
            return false;
          }
        }
      }
    } else if |masks| > 0 {
      if !Passes(masks[0], meta.requireMask, meta.excludeMask) {
        return false;
      }
    }
    return true;
  }

  /** The mask of a session says exactly which components it has. */
  ghost predicate MaskAgrees(w: World, s: SessionId, mask: Bitmask) {
    forall id: ComponentID :: id in Ids(mask) <==> ComponentOf(w, s, id) != 0
  }

  /** Sessions about to run a system: none is nil, their masks are right and have passed the check. */
  ghost predicate Admitted(meta: SystemMeta, w: World, sessions: seq<SessionId>, masks: seq<Bitmask>) {
    && |masks| == |sessions| && 0 !in sessions
    && (forall i | 0 <= i < |sessions| :: MaskAgrees(w, sessions[i], masks[i]))
    && MasksPass(meta, masks)
  }

  predicate HasComponent(w: World, s: SessionId, id: ComponentID) {
    (s, id) in w.components && w.components[(s, id)] != 0
  }

  /** The session has every component that the fields from `lo` to `hi` ask for, and none that they ask against. */
  ghost predicate Meets(decls: seq<FieldDecl>, types: Types, lo: nat, hi: nat, w: World, s: SessionId)
    requires hi <= |decls|
  {
    forall i: nat, t | lo <= i < hi ::
      && (AsksFor(decls[i], t) ==> HasComponent(w, s, types.id(t)))
      && (AsksAgainst(decls[i], t) ==> !HasComponent(w, s, types.id(t)))
  }

  lemma PassesIff(mask: Bitmask, require: Bitmask, exclude: Bitmask)
    ensures Passes(mask, require, exclude) <==>
            forall id: ComponentID :: (id in Ids(require) ==> id in Ids(mask)) && (id in Ids(exclude) ==> id !in Ids(mask))
  {
    ContainsAllIsSubset(mask, require);
    ContainsAnyIsOverlap(mask, exclude);
    forall id: ComponentID
      ensures id in Ids(mask) && id in Ids(exclude) <==> id in Ids(mask) * Ids(exclude)
    {}
    if Ids(mask) * Ids(exclude) != {} {
      var id: ComponentID :| id in Ids(mask) * Ids(exclude);
      assert id in Ids(exclude) && id in Ids(mask);
    }
  }

  /** Passing a pair of masks that say what some fields ask for is meeting the fields. */
  lemma PassingIsMeeting(decls: seq<FieldDecl>, types: Types, lo: nat, hi: nat, w: World, s: SessionId,
                         mask: Bitmask, require: Bitmask, exclude: Bitmask)
    requires hi <= |decls| && MaskAgrees(w, s, mask)
    requires forall id: ComponentID :: id in Ids(require) <==> SomeAsksFor(decls, types, lo, hi, id)
    requires forall id: ComponentID :: id in Ids(exclude) <==> SomeAsksAgainst(decls, types, lo, hi, id)
    ensures Passes(mask, require, exclude) <==> Meets(decls, types, lo, hi, w, s)
  {
    PassesIff(mask, require, exclude);
    if Passes(mask, require, exclude) {
      forall i: nat, t | lo <= i < hi
        ensures AsksFor(decls[i], t) ==> HasComponent(w, s, types.id(t))
        ensures AsksAgainst(decls[i], t) ==> !HasComponent(w, s, types.id(t))
      {
        assert AsksFor(decls[i], t) ==> SomeAsksFor(decls, types, lo, hi, types.id(t));
        assert AsksAgainst(decls[i], t) ==> SomeAsksAgainst(decls, types, lo, hi, types.id(t));
      }
    }
  }

  /** The mask check, with masks that tell the truth, is the question whether the sessions meet the fields: with masks
      per window, each session those of its window; otherwise the first session all of them. */
  lemma MaskCheckIff(decls: seq<FieldDecl>, types: Types, meta: SystemMeta, w: World,
                     sessions: seq<SessionId>, masks: seq<Bitmask>)
    requires Analyzed(decls, types, meta) && |masks| == |sessions|
    requires forall i | 0 <= i < |sessions| :: MaskAgrees(w, sessions[i], masks[i])
    ensures forall k: nat | k < |meta.windows| :: meta.windows[k].end <= |decls|
    ensures MasksPass(meta, masks) <==>
            if meta.isMultiSession then
              forall k: nat | k < |sessions| && k < |meta.windows| ::
                Meets(decls, types, meta.windows[k].start, meta.windows[k].end, w, sessions[k])
            else |sessions| > 0 ==> Meets(decls, types, 0, |decls|, w, sessions[0])
  {
    forall k: nat | k < |meta.windows|
      ensures meta.windows[k].end <= |decls|
      ensures k < |sessions| ==>
                (Passes(masks[k], meta.windows[k].requireMask, meta.windows[k].excludeMask) <==>
                 Meets(decls, types, meta.windows[k].start, meta.windows[k].end, w, sessions[k]))
    {
      assert WindowFits(decls, types, meta.windows, |decls|, k);
      if k < |sessions| {
        WindowPassing(decls, types, meta, w, sessions[k], masks[k], k);
      }
    }
    if |sessions| > 0 {
      SystemPassing(decls, types, meta, w, sessions[0], masks[0]);
    }
  }

  lemma WindowPassing(decls: seq<FieldDecl>, types: Types, meta: SystemMeta, w: World, s: SessionId, mask: Bitmask, k: nat)
    requires Analyzed(decls, types, meta) && k < |meta.windows| && MaskAgrees(w, s, mask)
    ensures meta.windows[k].end <= |decls|
    ensures Passes(mask, meta.windows[k].requireMask, meta.windows[k].excludeMask) <==>
            Meets(decls, types, meta.windows[k].start, meta.windows[k].end, w, s)
  {
    assert WindowFits(decls, types, meta.windows, |decls|, k);
    forall id: ComponentID { WindowMasks(decls, types, meta, k, id); }
    PassingIsMeeting(decls, types, meta.windows[k].start, meta.windows[k].end, w, s, mask,
                     meta.windows[k].requireMask, meta.windows[k].excludeMask);
  }

  lemma SystemPassing(decls: seq<FieldDecl>, types: Types, meta: SystemMeta, w: World, s: SessionId, mask: Bitmask)
    requires Analyzed(decls, types, meta) && MaskAgrees(w, s, mask)
    ensures Passes(mask, meta.requireMask, meta.excludeMask) <==> Meets(decls, types, 0, |decls|, w, s)
  {
    forall id: ComponentID { SystemMasks(decls, types, meta, id); }
    PassingIsMeeting(decls, types, 0, |decls|, w, s, mask, meta.requireMask, meta.excludeMask);
  }

  lemma {:induction false} SessionCountGrows(decls: seq<FieldDecl>, a: nat, b: nat)
    requires a <= b <= |decls|
    ensures SessionCount(decls, a) <= SessionCount(decls, b)
  {
    if a < b {
      SessionCountGrows(decls, a, b - 1);
    }
  }

  /** Window `k` has started by field `i` exactly when more than `k` session fields have been seen. */
  lemma StartedIffCounted(decls: seq<FieldDecl>, types: Types, windows: seq<WindowMeta>, k: nat, i: nat)
    requires WindowsTile(decls, types, windows, |decls|) && k < |windows| && i < |decls|
    ensures windows[k].start <= i <==> k < SessionCount(decls, i + 1)
  {
    assert WindowFits(decls, types, windows, |decls|, k);
    if windows[k].start <= i {
      SessionCountGrows(decls, windows[k].start + 1, i + 1);
    } else {
      SessionCountGrows(decls, i + 1, windows[k].start);
    }
  }

  /** A field at or after the first session field lies in the window it is numbered with. */
  lemma FieldInWindow(decls: seq<FieldDecl>, types: Types, meta: SystemMeta, i: nat)
    requires Analyzed(decls, types, meta) && i < |decls| && meta.windows != [] && meta.windows[0].start <= i
    ensures WindowOf(decls, i) < |meta.windows|
    ensures meta.windows[WindowOf(decls, i)].start <= i < EndOf(meta.windows, |decls|, WindowOf(decls, i))
  {
    var k := WindowOf(decls, i);
    StartedIffCounted(decls, types, meta.windows, 0, i);
    SessionCountGrows(decls, i + 1, |decls|);
    StartedIffCounted(decls, types, meta.windows, k, i);
    if k + 1 < |meta.windows| {
      StartedIffCounted(decls, types, meta.windows, k + 1, i);
    }
  }

  /** The mask check covers field `i`: always when it uses the mask of the whole system, and with masks per window
      exactly for the fields that do not precede the first session field, or whose component the first window asks
      for anyway. Without any window nothing is covered. */
  ghost predicate Covered(decls: seq<FieldDecl>, types: Types, meta: SystemMeta, i: nat)
    requires i < |decls|
  {
    meta.isMultiSession ==>
      && meta.windows != []
      && (i >= meta.windows[0].start || types.id(TypeOf(decls[i])) in Ids(meta.windows[0].requireMask))
  }

  lemma RequiredMember(decls: seq<FieldDecl>, types: Types, lo: nat, hi: nat, i: nat)
    requires lo <= i < hi <= |decls| && Requires(decls[i])
    ensures types.id(TypeOf(decls[i])) in RequiredIn(decls, types, lo, hi)
  {
  }

  lemma EarlyFieldWindow(decls: seq<FieldDecl>, types: Types, meta: SystemMeta, i: nat)
    requires Analyzed(decls, types, meta) && i < |decls| && meta.windows != [] && i < meta.windows[0].start
    ensures WindowOf(decls, i) == 0
  {
    assert WindowFits(decls, types, meta.windows, |decls|, 0);
    SessionCountGrows(decls, i + 1, meta.windows[0].start);
  }

  /** The masks are strong enough for injection: an admitted session has every required component whose
      field the check covers. */
  lemma AdmittedHasComponent(decls: seq<FieldDecl>, types: Types, meta: SystemMeta, w: World,
                             sessions: seq<SessionId>, masks: seq<Bitmask>, i: nat)
    requires Analyzed(decls, types, meta) && Admitted(meta, w, sessions, masks)
    requires i < |decls| && meta.fields[i].kind == KindComponent && !meta.fields[i].optional
    requires meta.fields[i].window < |sessions| && Covered(decls, types, meta, i)
    ensures ComponentOf(w, SessionFor(sessions, meta.fields[i]), meta.fields[i].componentID) != 0
  {
    var n := |decls|;
    var id := types.id(TypeOf(decls[i]));
    assert FieldFits(decls, types, meta.fields[i], i);
    var k := meta.fields[i].window;
    if meta.isMultiSession {
      if i >= meta.windows[0].start {
        FieldInWindow(decls, types, meta, i);
        assert WindowFits(decls, types, meta.windows, n, k);
        RequiredMember(decls, types, meta.windows[k].start, EndOf(meta.windows, n, k), i);
      } else {
        EarlyFieldWindow(decls, types, meta, i);
      }
      ContainsAllIsSubset(masks[k], meta.windows[k].requireMask);
    } else {
      assert k == 0 by { SessionCountGrows(decls, i + 1, n); }
      RequiredMember(decls, types, 0, n, i);
      ContainsAllIsSubset(masks[0], meta.requireMask);
    }
    assert id in Ids(masks[k]);
    assert MaskAgrees(w, sessions[k], masks[k]);
  }

  ghost predicate RequiredComponent(decls: seq<FieldDecl>, i: nat)
    requires i < |decls|
  {
    KindOf(decls[i]) == KindComponent && !decls[i].tag.optional
  }

  /** Enough sessions, the right ones, and every required component covered by the check: then injection
      succeeds exactly when no manager, resource, relation, peer or shared field fails. */
  lemma OnlyTargetsCanFail(decls: seq<FieldDecl>, types: Types, meta: SystemMeta, w: World,
                           sessions: seq<SessionId>, masks: seq<Bitmask>)
    requires Analyzed(decls, types, meta) && Admitted(meta, w, sessions, masks)
    requires forall i: nat | i < |decls| :: meta.fields[i].window < |sessions|
    requires forall i: nat | i < |decls| && RequiredComponent(decls, i) :: Covered(decls, types, meta, i)
    ensures AllOk(w, sessions, meta.fields, |decls|) <==>
            forall i: nat | i < |decls| && KindOf(decls[i]) != KindComponent :: OkAt(w, sessions, meta.fields, i)
  {
    forall i: nat | i < |decls|
      ensures AllOk(w, sessions, meta.fields, |decls|) ==> OkAt(w, sessions, meta.fields, i)
      ensures KindOf(decls[i]) == KindComponent ==> OkAt(w, sessions, meta.fields, i)
    {
      OkUpTo(w, sessions, meta.fields, |decls|, i);
      assert FieldFits(decls, types, meta.fields[i], i);
      if RequiredComponent(decls, i) {
        AdmittedHasComponent(decls, types, meta, w, sessions, masks, i);
      }
    }
    if forall i: nat | i < |decls| :: OkAt(w, sessions, meta.fields, i) {
      OkAll(w, sessions, meta.fields, |decls|);
    }
  }

  /** What session `s` of sessions 1, 2, .. has: exactly what its window requires. */
  ghost function MinimalMask(meta: SystemMeta, s: SessionId): Bitmask {
    if 0 < s <= |meta.windows| then meta.windows[s - 1].requireMask else Empty()
  }

  ghost function Minimal(meta: SystemMeta, n: nat): World {
    World(map s: SessionId, id: ComponentID | 0 <= s <= n && id in Ids(MinimalMask(meta, s)) :: (s, id) := 1,
          {}, map[], map[], map[], map[], 0, map[], map[], map[])
  }

  /** A window that requires and excludes one component admits nobody; windows beyond the sessions are not checked. */
  ghost predicate Contradictory(meta: SystemMeta, n: nat) {
    exists k: nat :: k < |meta.windows| && k < n && Ids(meta.windows[k].requireMask) * Ids(meta.windows[k].excludeMask) != {}
  }

  /** A required component that the check does not cover can be missing: any number of different sessions, each with
      exactly what its window asks for, are admitted without it. */
  lemma UncoveredCanBeMissing(decls: seq<FieldDecl>, types: Types, meta: SystemMeta, i: nat, n: nat)
      returns (w: World, sessions: seq<SessionId>, masks: seq<Bitmask>)
    requires Analyzed(decls, types, meta) && !Contradictory(meta, n) && n >= 1
    requires i < |decls| && RequiredComponent(decls, i) && !Covered(decls, types, meta, i)
    ensures |sessions| == n && Distinct(sessions) && Admitted(meta, w, sessions, masks)
    ensures ComponentOf(w, SessionFor(sessions, meta.fields[i]), meta.fields[i].componentID) == 0
  {
    w := Minimal(meta, n);
    sessions, masks := MinimalAdmitted(meta, n);
    FirstWindow(decls, types, meta, i);
    MinimalAgrees(meta, n, 1);
    EmptyHasNone();
  }

  lemma MinimalAdmitted(meta: SystemMeta, n: nat) returns (sessions: seq<SessionId>, masks: seq<Bitmask>)
    requires meta.isMultiSession && !Contradictory(meta, n)
    ensures |sessions| == n && Distinct(sessions) && Admitted(meta, Minimal(meta, n), sessions, masks)
    ensures forall k | 0 <= k < n :: sessions[k] == k + 1
  {
    sessions := seq(n, k => k + 1);
    masks := seq(n, k requires 0 <= k < n => MinimalMask(meta, k + 1));
    forall k: nat | k < n
      ensures MaskAgrees(Minimal(meta, n), sessions[k], masks[k])
    {
      MinimalAgrees(meta, n, k + 1);
    }
    MinimalPasses(meta, masks);
  }

  lemma MinimalAgrees(meta: SystemMeta, n: nat, s: SessionId)
    requires s <= n
    ensures MaskAgrees(Minimal(meta, n), s, MinimalMask(meta, s))
  {}

  lemma MinimalPasses(meta: SystemMeta, masks: seq<Bitmask>)
    requires meta.isMultiSession && !Contradictory(meta, |masks|)
    requires forall k: nat | k < |masks| :: masks[k] == MinimalMask(meta, k + 1)
    ensures MasksPass(meta, masks)
  {
    forall k: nat | k < |meta.windows| && k < |masks|
      ensures Passes(masks[k], meta.windows[k].requireMask, meta.windows[k].excludeMask)
    {
      ContainsAllIsSubset(masks[k], meta.windows[k].requireMask);
      ContainsAnyIsOverlap(masks[k], meta.windows[k].excludeMask);
    }
  }

  /** An uncovered field is numbered with the first window. */
  lemma FirstWindow(decls: seq<FieldDecl>, types: Types, meta: SystemMeta, i: nat)
    requires Analyzed(decls, types, meta) && i < |decls| && RequiredComponent(decls, i) && !Covered(decls, types, meta, i)
    ensures meta.fields[i].window == 0 && meta.fields[i].componentID == types.id(TypeOf(decls[i]))
    ensures meta.windows != [] ==> meta.fields[i].componentID !in Ids(meta.windows[0].requireMask)
  {
    assert FieldFits(decls, types, meta.fields[i], i);
    if meta.windows == [] {
      SessionCountGrows(decls, i + 1, |decls|);
    } else {
      EarlyFieldWindow(decls, types, meta, i);
    }
  }

  lemma ContradictionAdmitsNobody(meta: SystemMeta, w: World, sessions: seq<SessionId>, masks: seq<Bitmask>)
    requires Contradictory(meta, |sessions|) && meta.isMultiSession
    ensures !Admitted(meta, w, sessions, masks)
  {
    var k: nat :| k < |meta.windows| && k < |sessions| && Ids(meta.windows[k].requireMask) * Ids(meta.windows[k].excludeMask) != {};
    if k < |masks| {
      ContainsAllIsSubset(masks[k], meta.windows[k].requireMask);
      ContainsAnyIsOverlap(masks[k], meta.windows[k].excludeMask);
      var id :| id in Ids(meta.windows[k].requireMask) * Ids(meta.windows[k].excludeMask);
      assert id in Ids(masks[k]) ==> id in Ids(masks[k]) * Ids(meta.windows[k].excludeMask);
    }
  }

  /** Whether the mask check guarantees a required component, for any number of sessions that includes the field's own
      and whatever the memory: exactly for covered fields, unless the check lets nobody through. With fewer sessions
      injection fails at the field. */
  lemma CoverageIsExact(decls: seq<FieldDecl>, types: Types, meta: SystemMeta, i: nat, n: nat)
    requires Analyzed(decls, types, meta)
    requires i < |decls| && RequiredComponent(decls, i) && meta.fields[i].window < n
    ensures Covered(decls, types, meta, i) || (meta.isMultiSession && Contradictory(meta, n)) <==>
            forall w: World, sessions: seq<SessionId>, masks: seq<Bitmask>
              | |sessions| == n && Distinct(sessions) && Admitted(meta, w, sessions, masks) ::
              ComponentOf(w, SessionFor(sessions, meta.fields[i]), meta.fields[i].componentID) != 0
  {
    assert FieldFits(decls, types, meta.fields[i], i);
    if Covered(decls, types, meta, i) {
      forall w: World, sessions: seq<SessionId>, masks: seq<Bitmask>
        | |sessions| == n && Admitted(meta, w, sessions, masks)
        ensures ComponentOf(w, SessionFor(sessions, meta.fields[i]), meta.fields[i].componentID) != 0
      {
        AdmittedHasComponent(decls, types, meta, w, sessions, masks, i);
      }
    } else if Contradictory(meta, n) {
      forall w: World, sessions: seq<SessionId>, masks: seq<Bitmask> | |sessions| == n
        ensures !Admitted(meta, w, sessions, masks)
      {
        ContradictionAdmitsNobody(meta, w, sessions, masks);
      }
    } else {
      var w, sessions, masks := UncoveredCanBeMissing(decls, types, meta, i, n);
    }
  }

  // ---------- following a link ----------

  lemma {:induction false} CarriedAfter(decls: seq<FieldDecl>, types: Types, fields: seq<FieldMeta>, w: World,
                                        sessions: seq<SessionId>, i: nat)
    requires FieldsFit(decls, types, fields) && i <= |fields| && LastAfter(w, sessions, fields, i) != 0
    ensures var j := SourceBefore(decls, i);
            && j.Some? && fields[j.value].window == WindowBefore(fields, i)
            && LastAfter(w, sessions, fields, i) ==
               ComponentOf(w, SessionFor(sessions, fields[j.value]), types.id(TypeOf(decls[j.value])))
  {
    var m := i - 1;
    assert FieldFits(decls, types, fields[m], m);
    if KindOf(decls[m]) == KindComponent {
      assert SourceBefore(decls, i) == Some(m);
    } else {
      assert SourceBefore(decls, i) == SourceBefore(decls, m);
      CarriedAfter(decls, types, fields, w, sessions, m);
    }
  }

  /** Conversely, when the last component field is in the window reached, its component is carried. */
  lemma {:induction false} SourceIsCarried(decls: seq<FieldDecl>, types: Types, fields: seq<FieldMeta>, w: World,
                                           sessions: seq<SessionId>, i: nat)
    requires FieldsFit(decls, types, fields) && i <= |fields| && SourceBefore(decls, i).Some?
    requires fields[SourceBefore(decls, i).value].window == WindowBefore(fields, i)
    ensures var j := SourceBefore(decls, i).value;
            LastAfter(w, sessions, fields, i) == ComponentOf(w, SessionFor(sessions, fields[j]), types.id(TypeOf(decls[j])))
  {
    var m := i - 1;
    assert FieldFits(decls, types, fields[m], m);
    if KindOf(decls[m]) != KindComponent {
      var j := SourceBefore(decls, m).value;
      assert FieldFits(decls, types, fields[j], j) && FieldFits(decls, types, fields[m - 1], m - 1);
      SessionCountGrows(decls, j + 1, m);
      SessionCountGrows(decls, m, m + 1);
      SourceIsCarried(decls, types, fields, w, sessions, m);
    }
  }

  lemma WindowsOnlyGrow(decls: seq<FieldDecl>, a: nat, b: nat)
    requires a <= b < |decls|
    ensures WindowOf(decls, a) <= WindowOf(decls, b)
  {
    SessionCountGrows(decls, a + 1, b + 1);
  }

  lemma SameWindowThroughout(decls: seq<FieldDecl>, types: Types, fields: seq<FieldMeta>, j: nat, i: nat)
    requires FieldsFit(decls, types, fields) && j < i < |fields| && fields[j].window == fields[i].window
    ensures WindowBefore(fields, i) == fields[i].window
  {
    var m := i - 1;
    assert FieldFits(decls, types, fields[j], j) && FieldFits(decls, types, fields[i], i) && FieldFits(decls, types, fields[m], m);
    WindowsOnlyGrow(decls, j, m);
    WindowsOnlyGrow(decls, m, i);
  }

  /** What is carried to a field: the component of the last component field before it, if that is in the same window,
      and nil otherwise. */
  lemma CarriedIff(decls: seq<FieldDecl>, types: Types, fields: seq<FieldMeta>, w: World, sessions: seq<SessionId>, i: nat)
    requires FieldsFit(decls, types, fields) && i < |fields|
    ensures var j := SourceBefore(decls, i);
            LastComponent(w, sessions, fields, i) ==
            if j.Some? && fields[j.value].window == fields[i].window
            then ComponentOf(w, SessionFor(sessions, fields[i]), types.id(TypeOf(decls[j.value]))) else 0
  {
    var j := SourceBefore(decls, i);
    if j.Some? && fields[j.value].window == fields[i].window {
      SameWindowThroughout(decls, types, fields, j.value, i);
      SourceIsCarried(decls, types, fields, w, sessions, i);
    } else if LastComponent(w, sessions, fields, i) != 0 {
      CarriedAfter(decls, types, fields, w, sessions, i);
    }
  }

  /** The component pointer carried to a relation, peer or shared field, when there is one, is the component of the
      field that analysis took the layout from, on the same session. */
  lemma CarriedFromSource(decls: seq<FieldDecl>, types: Types, meta: SystemMeta, w: World,
                          sessions: seq<SessionId>, i: nat)
    requires Analyzed(decls, types, meta) && i < |decls| && LastComponent(w, sessions, meta.fields, i) != 0
    ensures var j := SourceBefore(decls, i);
            && j.Some? && meta.fields[j.value].window == meta.fields[i].window
            && LastComponent(w, sessions, meta.fields, i) ==
               ComponentOf(w, SessionFor(sessions, meta.fields[i]), types.id(TypeOf(decls[j.value])))
            && SourceParts(decls, types, i) == types.layout(TypeOf(decls[j.value]))
  {
    CarriedAfter(decls, types, meta.fields, w, sessions, i);
  }
}
