/** Analysis of a system declaration: injection metadata per field, component masks for the
    whole system and per session window, and the access lists for scheduling. */
module SystemMetas {
  import opened Basics
  import opened Bitmasks
  import opened Access

  /** A field of a component struct, as far as relation, peer and shared resolution search for it. */
  datatype Part =
    | RelationTo(target: GoType) | RelationSetTo(target: GoType)
    | PeerTo(target: GoType) | PeerSetTo(target: GoType)
    | SharedTo(target: GoType) | SharedSetTo(target: GoType)
    | Data

  /** What analysis knows about the types: their component IDs and the layout of their structs. */
  datatype Types = Types(id: GoType -> ComponentID, layout: GoType -> seq<Part>)

  datatype FieldMeta = FieldMeta(
    slot: nat,                  // position of the field in the system struct
    size: nat,
    kind: FieldKind,
    componentID: ComponentID,
    componentType: GoType,
    optional: bool,
    window: nat,                // which session the field belongs to
    offset: nat)                // position of the relation, peer or shared field in the source component

  datatype WindowMeta = WindowMeta(start: nat, end: nat, requireMask: Bitmask, excludeMask: Bitmask)

  datatype SystemMeta = SystemMeta(
    fields: seq<FieldMeta>,
    windows: seq<WindowMeta>,
    requireMask: Bitmask,
    excludeMask: Bitmask,
    isMultiSession: bool,
    isGlobal: bool,
    access: AccessMeta)

  // ---------- what the metadata should be ----------

  ghost function SessionCount(decls: seq<FieldDecl>, n: nat): nat
    requires n <= |decls|
  {
    if n == 0 then 0 else SessionCount(decls, n - 1) + if KindOf(decls[n - 1]) == KindSession then 1 else 0
  }

  /** The session a field belongs to: the last session field at or before it, or the first session. */
  ghost function WindowOf(decls: seq<FieldDecl>, i: nat): nat
    requires i < |decls|
  {
    var c := SessionCount(decls, i + 1);
    if c == 0 then 0 else c - 1
  }

  predicate Requires(d: FieldDecl) {
    KindOf(d) == KindPhantomWith || (KindOf(d) == KindComponent && !d.tag.optional)
  }

  predicate Excludes(d: FieldDecl) {
    KindOf(d) == KindPhantomWithout
  }

  ghost function RequiredIn(decls: seq<FieldDecl>, types: Types, lo: nat, hi: nat): set<ComponentID>
    requires hi <= |decls|
  {
    set i: nat | lo <= i < hi && Requires(decls[i]) :: types.id(TypeOf(decls[i]))
  }

  ghost function ExcludedIn(decls: seq<FieldDecl>, types: Types, lo: nat, hi: nat): set<ComponentID>
    requires hi <= |decls|
  {
    set i: nat | lo <= i < hi && Excludes(decls[i]) :: types.id(TypeOf(decls[i]))
  }

  /** A system is global when no field ties it to a session. */
  predicate IsGlobalKind(k: FieldKind) {
    k == KindManager || k == KindResource || k == KindPayload
  }

  ghost predicate AllGlobal(decls: seq<FieldDecl>) {
    forall d | d in decls :: IsGlobalKind(KindOf(d))
  }

  lemma GlobalOneMore(decls: seq<FieldDecl>, d: FieldDecl)
    ensures AllGlobal(decls + [d]) <==> AllGlobal(decls) && IsGlobalKind(KindOf(d))
  {
    assert forall e :: e in decls + [d] <==> e in decls || e == d;
  }

  /** The last component field before field `i`, across windows. */
  ghost function SourceBefore(decls: seq<FieldDecl>, i: nat): (j: Option<nat>)
    requires i <= |decls|
    ensures j.Some? ==> j.value < i && KindOf(decls[j.value]) == KindComponent
  {
    if i == 0 then None else if KindOf(decls[i - 1]) == KindComponent then Some(i - 1) else SourceBefore(decls, i - 1)
  }

  /** The parts of the component that a relation, peer or shared field is looked for in. */
  ghost function SourceParts(decls: seq<FieldDecl>, types: Types, i: nat): seq<Part>
    requires i <= |decls|
  {
    var j := SourceBefore(decls, i);
    if j.Some? then types.layout(TypeOf(decls[j.value])) else []
  }

  ghost function PartOffset(decls: seq<FieldDecl>, types: Types, i: nat): nat
    requires i < |decls|
  {
    FindPart(SourceParts(decls, types, i), KindOf(decls[i]), TypeOf(decls[i]))
  }

  /** Some part of the source component resolves the field. */
  ghost predicate Linked(decls: seq<FieldDecl>, types: Types, i: nat)
    requires i < |decls|
  {
    exists part | part in SourceParts(decls, types, i) :: Resolves(part, KindOf(decls[i]), TypeOf(decls[i]))
  }

  /** Which part a field is looked for: a relation for a relation, a set for a slice, and so on, to the field's type. */
  lemma ResolvesIff(p: Part, kind: FieldKind, t: GoType)
    ensures Resolves(p, kind, t) <==>
            || (kind == KindRelation && p == RelationTo(t)) || (kind == KindRelationSlice && p == RelationSetTo(t))
            || (kind == KindPeer && p == PeerTo(t)) || (kind == KindPeerSlice && p == PeerSetTo(t))
            || (kind == KindShared && p == SharedTo(t)) || (kind == KindSharedSlice && p == SharedSetTo(t))
  {}

  /** The recorded offset is that of a part that resolves the field, the first one, exactly when there is one.
      Otherwise it is 0, whatever is there. */
  lemma LinkedIff(decls: seq<FieldDecl>, types: Types, meta: SystemMeta, i: nat)
    requires Analyzed(decls, types, meta) && i < |decls|
    ensures var parts, o := SourceParts(decls, types, i), meta.fields[i].offset;
            && (Linked(decls, types, i) <==> o < |parts| && Resolves(parts[o], KindOf(decls[i]), TypeOf(decls[i])))
            && (Linked(decls, types, i) ==> forall k | 0 <= k < o :: !Resolves(parts[k], KindOf(decls[i]), TypeOf(decls[i])))
            && (!Linked(decls, types, i) ==> o == 0)
  {
    var parts, kind, t := SourceParts(decls, types, i), KindOf(decls[i]), TypeOf(decls[i]);
    assert FieldFits(decls, types, meta.fields[i], i);
    if Linked(decls, types, i) {
      var k :| 0 <= k < |parts| && Resolves(parts[k], kind, t);
    } else {
      NoPartFound(parts, kind, t, 0);
    }
  }

  lemma {:induction false} NoPartFound(parts: seq<Part>, kind: FieldKind, target: GoType, j: nat)
    requires j <= |parts| && forall part | part in parts :: !Resolves(part, kind, target)
    ensures FindPartFrom(parts, kind, target, j) == 0
    decreases |parts| - j
  {
    if j < |parts| {
      NoPartFound(parts, kind, target, j + 1);
    }
  }

  ghost predicate FieldsFit(decls: seq<FieldDecl>, types: Types, fields: seq<FieldMeta>) {
    && |fields| <= |decls|
    && (forall i: nat | i < |fields| :: FieldFits(decls, types, fields[i], i))
  }

  ghost predicate FieldFits(decls: seq<FieldDecl>, types: Types, f: FieldMeta, i: nat)
    requires i < |decls|
  {
    var d := decls[i];
    && f.slot == i && f.size == d.size && f.kind == KindOf(d) && f.componentType == TypeOf(d)
    && f.optional == d.tag.optional && f.window == WindowOf(decls, i)
    && (TouchesComponent(d) || Requires(d) || Excludes(d) ==> f.componentID == types.id(TypeOf(d)))
    && f.offset == PartOffset(decls, types, i)
  }

  /** The windows tile the fields from the first session field up to `n`, one per session field, and
      each carries exactly the masks of its own fields. */
  ghost predicate WindowsTile(decls: seq<FieldDecl>, types: Types, windows: seq<WindowMeta>, n: nat)
    requires n <= |decls|
  {
    && |windows| == SessionCount(decls, n)
    && (forall w: nat | w < |windows| :: WindowFits(decls, types, windows, n, w))
  }

  /** Where window `w` ends when the first `n` fields have been seen. */
  ghost function EndOf(windows: seq<WindowMeta>, n: nat, w: nat): nat
    requires w < |windows|
  {
    if w + 1 < |windows| then windows[w + 1].start else n
  }

  ghost predicate WindowFits(decls: seq<FieldDecl>, types: Types, windows: seq<WindowMeta>, n: nat, w: nat)
    requires n <= |decls| && w < |windows|
  {
    var end := EndOf(windows, n, w);
    && windows[w].start < end <= n
    && KindOf(decls[windows[w].start]) == KindSession
    && SessionCount(decls, windows[w].start) == w
    && (w + 1 < |windows| ==> windows[w].end == end)
    && Ids(windows[w].requireMask) == RequiredIn(decls, types, windows[w].start, end)
    && Ids(windows[w].excludeMask) == ExcludedIn(decls, types, windows[w].start, end)
  }

  /** What analysis establishes. Scheduling an unregistered task for two sessions raises the multi-session flag
      afterwards, whatever the windows. */
  ghost predicate Analyzed(decls: seq<FieldDecl>, types: Types, meta: SystemMeta) {
    var n := |decls|;
    && |meta.fields| == n && FieldsFit(decls, types, meta.fields)
    && Ids(meta.requireMask) == RequiredIn(decls, types, 0, n)
    && Ids(meta.excludeMask) == ExcludedIn(decls, types, 0, n)
    && WindowsTile(decls, types, meta.windows, n)
    && (meta.windows != [] ==> meta.windows[|meta.windows| - 1].end == n)
    && (|meta.windows| > 1 ==> meta.isMultiSession)
    && (meta.isGlobal <==> AllGlobal(decls))
    && Records(meta.access, decls)
  }

  /** What Schedule2 does to the metadata of a task type nobody registered. */
  lemma RaisedIsAnalyzed(decls: seq<FieldDecl>, types: Types, meta: SystemMeta)
    requires Analyzed(decls, types, meta)
    ensures Analyzed(decls, types, meta.(isMultiSession := true))
  {}

  /** The position of the first part that resolves a field of this kind; 0 when there is none. */
  function FindPart(parts: seq<Part>, kind: FieldKind, target: GoType): nat {
    FindPartFrom(parts, kind, target, 0)
  }

  function FindPartFrom(parts: seq<Part>, kind: FieldKind, target: GoType, j: nat): (r: nat)
    requires j <= |parts|
    ensures r < |parts| || r == 0
    ensures (exists k :: j <= k < |parts| && Resolves(parts[k], kind, target)) ==>
              j <= r < |parts| && Resolves(parts[r], kind, target) && forall k :: j <= k < r ==> !Resolves(parts[k], kind, target)
    decreases |parts| - j
  {
    if j == |parts| then 0
    else if Resolves(parts[j], kind, target) then j
    else FindPartFrom(parts, kind, target, j + 1)
  }

  predicate Resolves(p: Part, kind: FieldKind, target: GoType) {
    match kind
    case KindRelation => p == RelationTo(target)
    case KindRelationSlice => p == RelationSetTo(target)
    case KindPeer => p == PeerTo(target)
    case KindPeerSlice => p == PeerSetTo(target)
    case KindShared => p == SharedTo(target)
    case KindSharedSlice => p == SharedSetTo(target)
    case _ => false
  }

  // ---------- what the masks mean ----------

  /** The declaration asks for the component with the type: a With of it, or an untagged pointer to it that is not
      optional. */
  predicate AsksFor(d: FieldDecl, t: GoType) {
    d.ty == With(t) || (Ordinary(d) && HasRole(d, Untagged) && !d.tag.optional && d.ty == Ptr(t) && t.Struct?)
  }

  predicate AsksAgainst(d: FieldDecl, t: GoType) {
    d.ty == Without(t)
  }

  ghost predicate SomeAsksFor(decls: seq<FieldDecl>, types: Types, lo: nat, hi: nat, id: ComponentID)
    requires hi <= |decls|
  {
    exists i: nat, t | lo <= i < hi :: AsksFor(decls[i], t) && types.id(t) == id
  }

  ghost predicate SomeAsksAgainst(decls: seq<FieldDecl>, types: Types, lo: nat, hi: nat, id: ComponentID)
    requires hi <= |decls|
  {
    exists i: nat, t | lo <= i < hi :: AsksAgainst(decls[i], t) && types.id(t) == id
  }

  lemma AskingIsRequiring(d: FieldDecl, t: GoType)
    ensures AsksFor(d, t) <==> Requires(d) && TypeOf(d) == t
    ensures AsksAgainst(d, t) <==> Excludes(d) && TypeOf(d) == t
  {}

  lemma MasksAsk(decls: seq<FieldDecl>, types: Types, lo: nat, hi: nat, id: ComponentID)
    requires hi <= |decls|
    ensures id in RequiredIn(decls, types, lo, hi) <==> SomeAsksFor(decls, types, lo, hi, id)
    ensures id in ExcludedIn(decls, types, lo, hi) <==> SomeAsksAgainst(decls, types, lo, hi, id)
  {
    forall i: nat, t | lo <= i < hi { AskingIsRequiring(decls[i], t); }
    if id in RequiredIn(decls, types, lo, hi) {
      var i: nat :| lo <= i < hi && Requires(decls[i]) && types.id(TypeOf(decls[i])) == id;
      assert AsksFor(decls[i], TypeOf(decls[i]));
    }
    if id in ExcludedIn(decls, types, lo, hi) {
      var i: nat :| lo <= i < hi && Excludes(decls[i]) && types.id(TypeOf(decls[i])) == id;
      assert AsksAgainst(decls[i], TypeOf(decls[i]));
    }
  }

  /** The masks of an analysed system: an ID is required exactly when some field is a With of its component or a
      pointer to it that is neither tagged nor optional, and excluded exactly when some field is a Without of it. */
  lemma SystemMasks(decls: seq<FieldDecl>, types: Types, meta: SystemMeta, id: ComponentID)
    requires Analyzed(decls, types, meta)
    ensures id in Ids(meta.requireMask) <==> SomeAsksFor(decls, types, 0, |decls|, id)
    ensures id in Ids(meta.excludeMask) <==> SomeAsksAgainst(decls, types, 0, |decls|, id)
  {
    MasksAsk(decls, types, 0, |decls|, id);
  }

  /** The same for each window and the fields from its session field to its end. */
  lemma WindowMasks(decls: seq<FieldDecl>, types: Types, meta: SystemMeta, k: nat, id: ComponentID)
    requires Analyzed(decls, types, meta) && k < |meta.windows|
    ensures meta.windows[k].start < meta.windows[k].end <= |decls|
    ensures id in Ids(meta.windows[k].requireMask) <==>
            SomeAsksFor(decls, types, meta.windows[k].start, meta.windows[k].end, id)
    ensures id in Ids(meta.windows[k].excludeMask) <==>
            SomeAsksAgainst(decls, types, meta.windows[k].start, meta.windows[k].end, id)
  {
    assert WindowFits(decls, types, meta.windows, |decls|, k);
    MasksAsk(decls, types, meta.windows[k].start, meta.windows[k].end, id);
  }

  lemma {:induction false} SessionsOnlyGrow(decls: seq<FieldDecl>, a: nat, b: nat)
    requires a <= b <= |decls|
    ensures SessionCount(decls, a) <= SessionCount(decls, b)
  {
    if a < b {
      SessionsOnlyGrow(decls, a, b - 1);
    }
  }

  lemma SessionFieldStarts(decls: seq<FieldDecl>, types: Types, windows: seq<WindowMeta>, i: nat)
    requires WindowsTile(decls, types, windows, |decls|) && i < |decls| && KindOf(decls[i]) == KindSession
    ensures SessionCount(decls, i) < |windows| && windows[SessionCount(decls, i)].start == i
  {
    var k := SessionCount(decls, i);
    SessionsOnlyGrow(decls, i + 1, |decls|);
    assert WindowFits(decls, types, windows, |decls|, k);
    var j := windows[k].start;
    if j < i {
      SessionsOnlyGrow(decls, j + 1, i);
    } else if i < j {
      SessionsOnlyGrow(decls, i + 1, j);
    }
  }

  /** Windows begin exactly at the fields that are pointers to a session. */
  lemma WindowsStart(decls: seq<FieldDecl>, types: Types, meta: SystemMeta, i: nat)
    requires Analyzed(decls, types, meta) && i < |decls|
    ensures decls[i].ty == Ptr(SessionStruct) <==> exists k: nat :: k < |meta.windows| && meta.windows[k].start == i
  {
    if decls[i].ty == Ptr(SessionStruct) {
      SessionFieldStarts(decls, types, meta.windows, i);
    }
    if k: nat :| k < |meta.windows| && meta.windows[k].start == i {
      assert WindowFits(decls, types, meta.windows, |decls|, k);
      KindIff(decls[i]);
    }
  }

  /** They begin in order, and each ends where the next begins or with the last field. */
  lemma WindowsEnd(decls: seq<FieldDecl>, types: Types, meta: SystemMeta, k: nat)
    requires Analyzed(decls, types, meta) && k < |meta.windows|
    ensures meta.windows[k].start < meta.windows[k].end
    ensures meta.windows[k].end == if k + 1 < |meta.windows| then meta.windows[k + 1].start else |decls|
  {
    assert WindowFits(decls, types, meta.windows, |decls|, k);
  }

  /** A system is global exactly when every field is the manager, a resource, or plain data. */
  lemma GlobalIff(decls: seq<FieldDecl>, types: Types, meta: SystemMeta)
    requires Analyzed(decls, types, meta)
    ensures meta.isGlobal <==> forall d | d in decls ::
              || d.ty == Ptr(ManagerStruct)
              || (Ordinary(d) && (HasRole(d, ResourceRole) || (HasRole(d, Untagged) && !(d.ty.Ptr? && d.ty.elem.Struct?))))
  {
    forall d { KindIff(d); }
  }

  /** The access lists: a type is written or read exactly when some field accesses it, with or without mut. */
  lemma AccessLists(decls: seq<FieldDecl>, types: Types, meta: SystemMeta, t: GoType)
    requires Analyzed(decls, types, meta)
    ensures t in meta.access.writeTypes <==> exists d | d in decls :: AccessesComponent(d, t) && d.tag.mutable
    ensures t in meta.access.readTypes <==> exists d | d in decls :: AccessesComponent(d, t) && !d.tag.mutable
    ensures t in meta.access.resWriteTypes <==> exists d | d in decls :: AccessesResource(d, t) && d.tag.mutable
    ensures t in meta.access.resReadTypes <==> exists d | d in decls :: AccessesResource(d, t) && !d.tag.mutable
  {
    forall d { AccessIff(d, t); }
  }

  // ---------- one field at a time ----------

  /** Starts a window at field `i`, ending the one before it there. */
  function OpenWindow(windows: seq<WindowMeta>, i: nat): seq<WindowMeta> {
    var last := |windows| - 1;
    var closed := if windows != [] then windows[last := windows[last].(end := i)] else windows;
    closed + [WindowMeta(i, 0, Empty(), Empty())]
  }

  /** Adds the masks of a field to the current window, if there is one. */
  function GrowWindow(windows: seq<WindowMeta>, d: FieldDecl, id: ComponentID): seq<WindowMeta> {
    if windows == [] then windows
    else
      var last := |windows| - 1;
      var w := windows[last];
      windows[last := w.(requireMask := if Requires(d) then Set(w.requireMask, id) else w.requireMask,
                         excludeMask := if Excludes(d) then Set(w.excludeMask, id) else w.excludeMask)]
  }

  function CloseLast(windows: seq<WindowMeta>, n: nat): seq<WindowMeta> {
    if windows == [] then windows
    else windows[|windows| - 1 := windows[|windows| - 1].(end := n)]
  }

  lemma OneMoreField(decls: seq<FieldDecl>, types: Types, lo: nat, i: nat)
    requires lo <= i < |decls|
    ensures RequiredIn(decls, types, lo, i + 1) ==
            RequiredIn(decls, types, lo, i) + if Requires(decls[i]) then {types.id(TypeOf(decls[i]))} else {}
    ensures ExcludedIn(decls, types, lo, i + 1) ==
            ExcludedIn(decls, types, lo, i) + if Excludes(decls[i]) then {types.id(TypeOf(decls[i]))} else {}
  {
  }

  lemma WindowOpened(decls: seq<FieldDecl>, types: Types, windows: seq<WindowMeta>, i: nat)
    requires i < |decls| && WindowsTile(decls, types, windows, i) && KindOf(decls[i]) == KindSession
    ensures WindowsTile(decls, types, OpenWindow(windows, i), i + 1)
  {
    var wider := OpenWindow(windows, i);
    EmptyHasNone();
    assert RequiredIn(decls, types, i, i + 1) == {} && ExcludedIn(decls, types, i, i + 1) == {};
    var m := i + 1;
    forall w: nat | w < |wider|
      ensures WindowFits(decls, types, wider, m, w)
    {
      if w < |windows| { assert WindowFits(decls, types, windows, i, w); }
    }
  }

  lemma WindowGrown(decls: seq<FieldDecl>, types: Types, windows: seq<WindowMeta>, i: nat)
    requires i < |decls| && WindowsTile(decls, types, windows, i) && KindOf(decls[i]) != KindSession
    ensures WindowsTile(decls, types, GrowWindow(windows, decls[i], types.id(TypeOf(decls[i]))), i + 1)
  {
    var id := types.id(TypeOf(decls[i]));
    var grown := GrowWindow(windows, decls[i], id);
    var m := i + 1;
    forall w: nat | w < |grown|
      ensures WindowFits(decls, types, grown, m, w)
    {
      assert WindowFits(decls, types, windows, i, w);
      if w == |windows| - 1 {
        SetAddsOne(windows[w].requireMask, id);
        SetAddsOne(windows[w].excludeMask, id);
        OneMoreField(decls, types, windows[w].start, i);
      }
    }
  }

  lemma WindowsClosed(decls: seq<FieldDecl>, types: Types, windows: seq<WindowMeta>, n: nat)
    requires n <= |decls| && WindowsTile(decls, types, windows, n)
    ensures WindowsTile(decls, types, CloseLast(windows, n), n)
    ensures windows != [] ==> CloseLast(windows, n)[|windows| - 1].end == n
  {
    forall w: nat | w < |windows|
      ensures WindowFits(decls, types, CloseLast(windows, n), n, w)
    {
      assert WindowFits(decls, types, windows, n, w);
    }
  }

  lemma DeclaresOneMore(decls: seq<FieldDecl>, d: FieldDecl, t: GoType, mutable: bool)
    ensures DeclaresComponent(decls + [d], t, mutable) <==>
            DeclaresComponent(decls, t, mutable) || (TouchesComponent(d) && d.tag.mutable == mutable && TypeOf(d) == t)
    ensures DeclaresResource(decls + [d], t, mutable) <==>
            DeclaresResource(decls, t, mutable) || (TouchesResource(d) && d.tag.mutable == mutable && TypeOf(d) == t)
  {
    if DeclaresComponent(decls, t, mutable) {
      var e :| e in decls && TouchesComponent(e) && e.tag.mutable == mutable && TypeOf(e) == t;
      assert e in decls + [d];
    }
    if DeclaresResource(decls, t, mutable) {
      var e :| e in decls && TouchesResource(e) && e.tag.mutable == mutable && TypeOf(e) == t;
      assert e in decls + [d];
    }
    assert d in decls + [d];
  }

  /** The four access lists while fields are being read. */
  datatype Lists = Lists(readTypes: seq<GoType>, writeTypes: seq<GoType>, resReadTypes: seq<GoType>, resWriteTypes: seq<GoType>)

  ghost predicate ListsRecord(l: Lists, decls: seq<FieldDecl>) {
    && (forall t :: t in l.writeTypes <==> DeclaresComponent(decls, t, true))
    && (forall t :: t in l.readTypes <==> DeclaresComponent(decls, t, false))
    && (forall t :: t in l.resWriteTypes <==> DeclaresResource(decls, t, true))
    && (forall t :: t in l.resReadTypes <==> DeclaresResource(decls, t, false))
  }

  function AddAccess(l: Lists, d: FieldDecl): Lists {
    var t := TypeOf(d);
    if TouchesResource(d) then
      if d.tag.mutable then l.(resWriteTypes := l.resWriteTypes + [t]) else l.(resReadTypes := l.resReadTypes + [t])
    else if TouchesComponent(d) then
      if d.tag.mutable then l.(writeTypes := l.writeTypes + [t]) else l.(readTypes := l.readTypes + [t])
    else l
  }

  lemma AccessAdded(l: Lists, decls: seq<FieldDecl>, d: FieldDecl)
    requires ListsRecord(l, decls)
    ensures ListsRecord(AddAccess(l, d), decls + [d])
  {
    forall t, mutable: bool {
      DeclaresOneMore(decls, d, t, mutable);
    }
  }

  // ---------- the analysis ----------

  /** The variables of the analysis loop. */
  datatype Progress = Progress(
    fields: seq<FieldMeta>,
    windows: seq<WindowMeta>,
    requireMask: Bitmask,
    excludeMask: Bitmask,
    lists: Lists,
    currentWindow: nat,
    sessionCount: nat,
    lastComponent: Option<GoType>,
    isLocal: bool)

  /** One iteration: what field `d` adds. */
  function AddField(p: Progress, d: FieldDecl, types: Types): Progress {
    var kind, t := KindOf(d), TypeOf(d);
    var id := types.id(t);
    var isSession := kind == KindSession;
    var window := if isSession && p.sessionCount > 0 then p.currentWindow + 1 else p.currentWindow;
    var offset := if p.lastComponent.Some? then FindPart(types.layout(p.lastComponent.value), kind, t) else 0;
    Progress(
      p.fields + [FieldMeta(|p.fields|, d.size, kind, id, t, d.tag.optional, window, offset)],
      if isSession then OpenWindow(p.windows, |p.fields|) else GrowWindow(p.windows, d, id),
      if Requires(d) then Set(p.requireMask, id) else p.requireMask,
      if Excludes(d) then Set(p.excludeMask, id) else p.excludeMask,
      AddAccess(p.lists, d),
      window,
      if isSession then p.sessionCount + 1 else p.sessionCount,
      if kind == KindComponent then Some(t) else p.lastComponent,
      p.isLocal || !IsGlobalKind(kind))
  }

  ghost function SourceType(decls: seq<FieldDecl>, i: nat): Option<GoType>
    requires i <= |decls|
  {
    var j := SourceBefore(decls, i);
    if j.Some? then Some(TypeOf(decls[j.value])) else None
  }

  ghost predicate Counted(decls: seq<FieldDecl>, p: Progress, i: nat)
    requires i <= |decls|
  {
    && |p.fields| == i
    && p.sessionCount == SessionCount(decls, i)
    && p.currentWindow == (if p.sessionCount == 0 then 0 else p.sessionCount - 1)
    && p.lastComponent == SourceType(decls, i)
  }

  ghost predicate MasksFit(decls: seq<FieldDecl>, types: Types, p: Progress, i: nat)
    requires i <= |decls|
  {
    Ids(p.requireMask) == RequiredIn(decls, types, 0, i) && Ids(p.excludeMask) == ExcludedIn(decls, types, 0, i)
  }

  ghost predicate ProgressFits(decls: seq<FieldDecl>, types: Types, p: Progress, i: nat)
    requires i <= |decls|
  {
    && Counted(decls, p, i)
    && FieldsFit(decls, types, p.fields)
    && MasksFit(decls, types, p, i)
    && WindowsTile(decls, types, p.windows, i)
    && ListsRecord(p.lists, decls[..i])
    && (p.isLocal <==> !AllGlobal(decls[..i]))
  }

  lemma MasksAdded(decls: seq<FieldDecl>, types: Types, p: Progress, i: nat)
    requires i < |decls| && MasksFit(decls, types, p, i)
    ensures MasksFit(decls, types, AddField(p, decls[i], types), i + 1)
  {
    var id := types.id(TypeOf(decls[i]));
    SetAddsOne(p.requireMask, id);
    SetAddsOne(p.excludeMask, id);
    OneMoreField(decls, types, 0, i);
  }

  lemma FieldAdded(decls: seq<FieldDecl>, types: Types, p: Progress, i: nat)
    requires i < |decls| && Counted(decls, p, i) && FieldsFit(decls, types, p.fields)
    ensures Counted(decls, AddField(p, decls[i], types), i + 1)
    ensures FieldsFit(decls, types, AddField(p, decls[i], types).fields)
  {
    var fields := AddField(p, decls[i], types).fields;
    assert FieldFits(decls, types, fields[i], i);
  }

  lemma WindowAdded(decls: seq<FieldDecl>, types: Types, p: Progress, i: nat)
    requires i < |decls| && |p.fields| == i && WindowsTile(decls, types, p.windows, i)
    ensures WindowsTile(decls, types, AddField(p, decls[i], types).windows, i + 1)
  {
    if KindOf(decls[i]) == KindSession {
      WindowOpened(decls, types, p.windows, i);
    } else {
      WindowGrown(decls, types, p.windows, i);
    }
  }

  lemma ProgressAdded(decls: seq<FieldDecl>, types: Types, p: Progress, i: nat)
    requires i < |decls| && ProgressFits(decls, types, p, i)
    ensures ProgressFits(decls, types, AddField(p, decls[i], types), i + 1)
  {
    FieldAdded(decls, types, p, i);
    MasksAdded(decls, types, p, i);
    WindowAdded(decls, types, p, i);
    AccessAdded(p.lists, decls[..i], decls[i]);
    GlobalOneMore(decls[..i], decls[i]);
    assert decls[..i + 1] == decls[..i] + [decls[i]];
  }

  method AnalyzeSystem(decls: seq<FieldDecl>, types: Types) returns (meta: SystemMeta)
    ensures Analyzed(decls, types, meta)
    ensures meta.isMultiSession <==> |meta.windows| > 1
    ensures fresh(meta.access) && meta.access.CachesAgree()
  {
    var p := Progress([], [], Empty(), Empty(), Lists([], [], [], []), 0, 0, None, false);
    EmptyHasNone();
    for i := 0 to |decls|
      invariant ProgressFits(decls, types, p, i)
    {
      ProgressAdded(decls, types, p, i);
      p := AddField(p, decls[i], types);
    }
    assert decls[..|decls|] == decls;
    WindowsClosed(decls, types, p.windows, |decls|);
    var windows := CloseLast(p.windows, |decls|);
    var access := new AccessMeta(p.lists.readTypes, p.lists.writeTypes, p.lists.resReadTypes, p.lists.resWriteTypes);
    access.PrepareSets();
    meta := SystemMeta(p.fields, windows, p.requireMask, p.excludeMask, |windows| > 1, !p.isLocal, access);
  }
}
