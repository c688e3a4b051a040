/** Field declarations of systems and what they access; conflict detection between access lists. */
module Access {
  import opened Basics

  /** Go types, as far as system analysis looks at them. */
  datatype GoType =
    | SessionStruct
    | ManagerStruct
    | Struct(name: string)
    | Basic(name: string)
    | Ptr(elem: GoType)
    | Slice(elem: GoType)
    | With(comp: GoType)
    | Without(comp: GoType)

  datatype Tag = Tag(mutable: bool, optional: bool, relation: bool, resource: bool, peer: bool, shared: bool)

  /** One declared field of a system struct, with the size of its type in bytes. */
  datatype FieldDecl = FieldDecl(ty: GoType, tag: Tag, size: nat)

  datatype FieldKind =
    | KindSession | KindManager | KindComponent | KindRelation | KindRelationSlice | KindResource
    | KindPhantomWith | KindPhantomWithout | KindPayload | KindPeer | KindPeerSlice | KindShared | KindSharedSlice

  /** How a declared field is classified: the first test that applies wins. */
  function KindOf(d: FieldDecl): FieldKind {
    if d.ty == Ptr(SessionStruct) then KindSession
    else if d.ty == Ptr(ManagerStruct) then KindManager
    else if d.ty.With? then KindPhantomWith
    else if d.ty.Without? then KindPhantomWithout
    else if d.tag.resource then KindResource
    else if d.tag.peer then if d.ty.Slice? then KindPeerSlice else KindPeer
    else if d.tag.shared then if d.ty.Slice? then KindSharedSlice else KindShared
    else if d.tag.relation then if d.ty.Slice? then KindRelationSlice else KindRelation
    else if d.ty.Ptr? && d.ty.elem.Struct? then KindComponent
    else KindPayload
  }

  function Deref(t: GoType): GoType {
    if t.Ptr? then t.elem else t
  }

  /** None of the types that decide the kind by themselves. */
  predicate Ordinary(d: FieldDecl) {
    d.ty != Ptr(SessionStruct) && d.ty != Ptr(ManagerStruct) && !d.ty.With? && !d.ty.Without?
  }

  /** The tag that decides the kind: resource before peer, peer before shared, shared before relation. */
  datatype Role = Untagged | ResourceRole | PeerRole | SharedRole | RelationRole

  predicate HasRole(d: FieldDecl, role: Role) {
    && (role == ResourceRole ==> d.tag.resource)
    && (role == PeerRole ==> !d.tag.resource && d.tag.peer)
    && (role == SharedRole ==> !d.tag.resource && !d.tag.peer && d.tag.shared)
    && (role == RelationRole ==> !d.tag.resource && !d.tag.peer && !d.tag.shared && d.tag.relation)
    && (role == Untagged ==> !d.tag.resource && !d.tag.peer && !d.tag.shared && !d.tag.relation)
  }

  /** Each kind, as a condition on the declared type and tags. */
  lemma KindIff(d: FieldDecl)
    ensures KindOf(d) == KindSession <==> d.ty == Ptr(SessionStruct)
    ensures KindOf(d) == KindManager <==> d.ty == Ptr(ManagerStruct)
    ensures KindOf(d) == KindPhantomWith <==> d.ty.With?
    ensures KindOf(d) == KindPhantomWithout <==> d.ty.Without?
    ensures KindOf(d) == KindResource <==> Ordinary(d) && HasRole(d, ResourceRole)
    ensures KindOf(d) == KindPeer <==> Ordinary(d) && HasRole(d, PeerRole) && !d.ty.Slice?
    ensures KindOf(d) == KindPeerSlice <==> Ordinary(d) && HasRole(d, PeerRole) && d.ty.Slice?
    ensures KindOf(d) == KindShared <==> Ordinary(d) && HasRole(d, SharedRole) && !d.ty.Slice?
    ensures KindOf(d) == KindSharedSlice <==> Ordinary(d) && HasRole(d, SharedRole) && d.ty.Slice?
    ensures KindOf(d) == KindRelation <==> Ordinary(d) && HasRole(d, RelationRole) && !d.ty.Slice?
    ensures KindOf(d) == KindRelationSlice <==> Ordinary(d) && HasRole(d, RelationRole) && d.ty.Slice?
    ensures KindOf(d) == KindComponent <==> Ordinary(d) && HasRole(d, Untagged) && d.ty.Ptr? && d.ty.elem.Struct?
    ensures KindOf(d) == KindPayload <==> Ordinary(d) && HasRole(d, Untagged) && !(d.ty.Ptr? && d.ty.elem.Struct?)
  {}

  /** The type behind each declaration: a phantom's argument, otherwise what is left when a slice, where the role
      allows one, and then a pointer are taken off. */
  lemma TypeIff(d: FieldDecl, t: GoType)
    ensures d.ty == With(t) || d.ty == Without(t) ==> TypeOf(d) == t
    ensures KindOf(d) == KindComponent ==> (TypeOf(d) == t <==> d.ty == Ptr(t))
    ensures KindOf(d) == KindResource ==> (TypeOf(d) == t <==> d.ty == Ptr(t) || (d.ty == t && !t.Ptr?))
    ensures KindOf(d) == KindPeer || KindOf(d) == KindShared || KindOf(d) == KindRelation ==>
              (TypeOf(d) == t <==> d.ty == Ptr(t) || (d.ty == t && !t.Ptr?))
    ensures KindOf(d) == KindPeerSlice || KindOf(d) == KindSharedSlice || KindOf(d) == KindRelationSlice ==>
              (TypeOf(d) == t <==> d.ty == Slice(Ptr(t)) || (d.ty == Slice(t) && !t.Ptr?))
  {}

  /** A declared access to components of type `t`, of the system's own sessions or of related ones. */
  predicate AccessesComponent(d: FieldDecl, t: GoType) {
    && Ordinary(d)
    && ((HasRole(d, Untagged) && d.ty == Ptr(t) && t.Struct?)
        || (HasRole(d, RelationRole) && (d.ty == Ptr(t) || d.ty == Slice(Ptr(t))))
        || (HasRole(d, RelationRole) && !t.Ptr? && (d.ty == Slice(t) || (d.ty == t && !t.Slice?))))
  }

  predicate AccessesResource(d: FieldDecl, t: GoType) {
    Ordinary(d) && HasRole(d, ResourceRole) && (d.ty == Ptr(t) || (d.ty == t && !t.Ptr?))
  }

  /** What is recorded as access, as a condition on types and tags. */
  lemma AccessIff(d: FieldDecl, t: GoType)
    ensures TouchesComponent(d) && TypeOf(d) == t <==> AccessesComponent(d, t)
    ensures TouchesResource(d) && TypeOf(d) == t <==> AccessesResource(d, t)
  {}

  /** The type a field is about: the component, the resource, or the target behind a slice and a pointer. */
  function TypeOf(d: FieldDecl): GoType {
    match KindOf(d)
    case KindPhantomWith => d.ty.comp
    case KindPhantomWithout => d.ty.comp
    case KindResource => Deref(d.ty)
    case KindComponent => d.ty.elem
    case KindPayload => d.ty
    case KindSession => d.ty
    case KindManager => d.ty
    case _ => if d.ty.Slice? then Deref(d.ty.elem) else Deref(d.ty)
  }

  /** A field through which a system reaches a component of its own or of a related session. */
  predicate TouchesComponent(d: FieldDecl) {
    var k := KindOf(d);
    k == KindComponent || k == KindRelation || k == KindRelationSlice
  }

  predicate TouchesResource(d: FieldDecl) {
    KindOf(d) == KindResource
  }

  // ---------- declared access ----------

  ghost predicate DeclaresComponent(decls: seq<FieldDecl>, t: GoType, mutable: bool) {
    exists d | d in decls :: TouchesComponent(d) && d.tag.mutable == mutable && TypeOf(d) == t
  }

  ghost predicate DeclaresResource(decls: seq<FieldDecl>, t: GoType, mutable: bool) {
    exists d | d in decls :: TouchesResource(d) && d.tag.mutable == mutable && TypeOf(d) == t
  }

  /** What a system reads and writes. The lists are filled by analysis; the sets are caches of them. */
  class AccessMeta {
    const readTypes: seq<GoType>
    const writeTypes: seq<GoType>
    const resReadTypes: seq<GoType>
    const resWriteTypes: seq<GoType>
    var readsSet: Option<set<GoType>>
    var writesSet: Option<set<GoType>>
    var resReadsSet: Option<set<GoType>>
    var resWritesSet: Option<set<GoType>>

    constructor (readTypes: seq<GoType>, writeTypes: seq<GoType>, resReadTypes: seq<GoType>, resWriteTypes: seq<GoType>)
      ensures this.readTypes == readTypes && this.writeTypes == writeTypes
      ensures this.resReadTypes == resReadTypes && this.resWriteTypes == resWriteTypes
      ensures CachesAgree()
    {
      this.readTypes, this.writeTypes, this.resReadTypes, this.resWriteTypes := readTypes, writeTypes, resReadTypes, resWriteTypes;
      readsSet, writesSet, resReadsSet, resWritesSet := None, None, None, None;
    }

    /** Every cache is absent or holds exactly the elements of its list. */
    ghost predicate CachesAgree()
      reads this
    {
      && Caches(readsSet, readTypes) && Caches(writesSet, writeTypes)
      && Caches(resReadsSet, resReadTypes) && Caches(resWritesSet, resWriteTypes)
    }

    method PrepareSets()
      modifies this
      ensures CachesAgree()
      ensures readsSet.Some? <==> readTypes != []
      ensures writesSet.Some? <==> writeTypes != []
      ensures resReadsSet.Some? <==> resReadTypes != []
      ensures resWritesSet.Some? <==> resWriteTypes != []
    {
      readsSet := BuildSet(readTypes);
      writesSet := BuildSet(writeTypes);
      resReadsSet := BuildSet(resReadTypes);
      resWritesSet := BuildSet(resWriteTypes);
    }

    /** The runtime's conflict test, against the caches where they exist and the lists where not. */
    method Conflicts(other: AccessMeta) returns (conflict: bool)
      requires other.CachesAgree()
      ensures conflict <==> Conflict(this, other)
    {
      conflict := Meets(writeTypes, other.readsSet, other.readTypes);
      if conflict { return; }
      conflict := Meets(writeTypes, other.writesSet, other.writeTypes);
      if conflict { return; }
      conflict := Meets(readTypes, other.writesSet, other.writeTypes);
      if conflict { return; }
      conflict := Meets(resWriteTypes, other.resReadsSet, other.resReadTypes);
      if conflict { return; }
      conflict := Meets(resWriteTypes, other.resWritesSet, other.resWriteTypes);
      if conflict { return; }
      conflict := Meets(resReadTypes, other.resWritesSet, other.resWriteTypes);
    }
  }

  ghost predicate Caches(cache: Option<set<GoType>>, list: seq<GoType>) {
    cache.Some? ==> cache.value == set t | t in list
  }

  method BuildSet(src: seq<GoType>) returns (m: Option<set<GoType>>)
    ensures Caches(m, src)
    ensures m.Some? <==> src != []
  {
    if |src| == 0 {
      return None;
    }
    var s: set<GoType> := {};
    for i := 0 to |src|
      invariant s == set t | t in src[..i]
    {
      s := s + {src[i]};
      assert src[..i + 1] == src[..i] + [src[i]];
    }
    assert src[..|src|] == src;
    return Some(s);
  }

  /** Whether some element of `mine` is in `theirs`, looked up in the cache when there is one. */
  method Meets(mine: seq<GoType>, cache: Option<set<GoType>>, theirs: seq<GoType>) returns (found: bool)
    requires Caches(cache, theirs)
    ensures found <==> Overlap(mine, theirs)
  {
    for i := 0 to |mine|
      invariant !Overlap(mine[..i], theirs)
    {
      if (if cache.Some? then mine[i] in cache.value else mine[i] in theirs) {
        return true;
      }
      assert mine[..i + 1] == mine[..i] + [mine[i]];
    }
    assert mine[..|mine|] == mine;
    return false;
  }

  ghost predicate Overlap(a: seq<GoType>, b: seq<GoType>) {
    exists t | t in a :: t in b
  }

  /** Two systems conflict when one writes what the other touches, among components or among resources. */
  ghost predicate Conflict(a: AccessMeta, b: AccessMeta) {
    || Overlap(a.writeTypes, b.writeTypes) || Overlap(a.writeTypes, b.readTypes) || Overlap(a.readTypes, b.writeTypes)
    || Overlap(a.resWriteTypes, b.resWriteTypes) || Overlap(a.resWriteTypes, b.resReadTypes) || Overlap(a.resReadTypes, b.resWriteTypes)
  }

  lemma ConflictIsSymmetric(a: AccessMeta, b: AccessMeta)
    ensures Conflict(a, b) <==> Conflict(b, a)
  {
    OverlapIsSymmetric(a.writeTypes, b.writeTypes);
    OverlapIsSymmetric(a.writeTypes, b.readTypes);
    OverlapIsSymmetric(a.readTypes, b.writeTypes);
    OverlapIsSymmetric(a.resWriteTypes, b.resWriteTypes);
    OverlapIsSymmetric(a.resWriteTypes, b.resReadTypes);
    OverlapIsSymmetric(a.resReadTypes, b.resWriteTypes);
  }

  lemma OverlapIsSymmetric(a: seq<GoType>, b: seq<GoType>)
    ensures Overlap(a, b) <==> Overlap(b, a)
  {
  }

  /** The lists hold exactly the declared component, relation and resource accesses. */
  ghost predicate Records(a: AccessMeta, decls: seq<FieldDecl>) {
    && (forall t :: t in a.writeTypes <==> DeclaresComponent(decls, t, true))
    && (forall t :: t in a.readTypes <==> DeclaresComponent(decls, t, false))
    && (forall t :: t in a.resWriteTypes <==> DeclaresResource(decls, t, true))
    && (forall t :: t in a.resReadTypes <==> DeclaresResource(decls, t, false))
  }

  /** One side may write a type that the other side touches at all. */
  ghost predicate Races(d: seq<FieldDecl>, e: seq<FieldDecl>) {
    || (exists t :: DeclaresComponent(d, t, true) && (DeclaresComponent(e, t, true) || DeclaresComponent(e, t, false)))
    || (exists t :: DeclaresResource(d, t, true) && (DeclaresResource(e, t, true) || DeclaresResource(e, t, false)))
  }

  /** Once analysis has recorded the declarations, the conflict test decides declared races exactly. */
  lemma ConflictIffRaces(a: AccessMeta, b: AccessMeta, d: seq<FieldDecl>, e: seq<FieldDecl>)
    requires Records(a, d) && Records(b, e)
    ensures Conflict(a, b) <==> Races(d, e) || Races(e, d)
  {
    if t :| DeclaresComponent(d, t, true) && (DeclaresComponent(e, t, true) || DeclaresComponent(e, t, false)) {
      assert t in a.writeTypes && (t in b.writeTypes || t in b.readTypes);
    }
    if t :| DeclaresResource(d, t, true) && (DeclaresResource(e, t, true) || DeclaresResource(e, t, false)) {
      assert t in a.resWriteTypes && (t in b.resWriteTypes || t in b.resReadTypes);
    }
    if t :| DeclaresComponent(e, t, true) && (DeclaresComponent(d, t, true) || DeclaresComponent(d, t, false)) {
      assert t in b.writeTypes && (t in a.writeTypes || t in a.readTypes);
    }
    if t :| DeclaresResource(e, t, true) && (DeclaresResource(d, t, true) || DeclaresResource(d, t, false)) {
      assert t in b.resWriteTypes && (t in a.resWriteTypes || t in a.resReadTypes);
    }
  }

  predicate ReachesFar(d: FieldDecl) {
    KindOf(d) == KindPeer || KindOf(d) == KindPeerSlice || KindOf(d) == KindShared || KindOf(d) == KindSharedSlice
  }

  lemma DeclaresNoMore(d: seq<FieldDecl>, f: FieldDecl, t: GoType, mutable: bool)
    requires ReachesFar(f)
    ensures DeclaresComponent(d + [f], t, mutable) <==> DeclaresComponent(d, t, mutable)
    ensures DeclaresResource(d + [f], t, mutable) <==> DeclaresResource(d, t, mutable)
  {
    assert forall e | e in d :: e in d + [f];
  }

  /** Peer and shared fields, mutable or not, are outside the access lists: declaring one more changes no
      conflict with any system. */
  lemma PeerFieldsAreUnseen(a: AccessMeta, more: AccessMeta, b: AccessMeta, d: seq<FieldDecl>, f: FieldDecl)
    requires Records(a, d) && Records(more, d + [f]) && ReachesFar(f)
    ensures Conflict(more, b) <==> Conflict(a, b)
  {
    forall t, mutable { DeclaresNoMore(d, f, t, mutable); }
    SameOverlaps(a.readTypes, more.readTypes, b);
    SameOverlaps(a.writeTypes, more.writeTypes, b);
    SameOverlaps(a.resReadTypes, more.resReadTypes, b);
    SameOverlaps(a.resWriteTypes, more.resWriteTypes, b);
  }

  lemma SameOverlaps(a: seq<GoType>, more: seq<GoType>, b: AccessMeta)
    requires forall t :: t in a <==> t in more
    ensures Overlap(a, b.writeTypes) <==> Overlap(more, b.writeTypes)
    ensures Overlap(a, b.readTypes) <==> Overlap(more, b.readTypes)
    ensures Overlap(a, b.resWriteTypes) <==> Overlap(more, b.resWriteTypes)
    ensures Overlap(a, b.resReadTypes) <==> Overlap(more, b.resReadTypes)
  {
  }

  /** So a system that may write a component and one that reaches that component's type through a mutable
      peer field never conflict over it. */
  lemma PeerRaceIsUnseen(a: AccessMeta, b: AccessMeta, t: string)
    requires Records(a, [FieldDecl(Ptr(Struct(t)), Tag(true, false, false, false, false, false), 8)])
    requires Records(b, [FieldDecl(Ptr(Struct(t)), Tag(true, false, false, false, true, false), 8)])
    ensures !Conflict(a, b)
  {
    var d := FieldDecl(Ptr(Struct(t)), Tag(true, false, false, false, false, false), 8);
    var e := FieldDecl(Ptr(Struct(t)), Tag(true, false, false, false, true, false), 8);
    ConflictIffRaces(a, b, [d], [e]);
    assert KindOf(e) == KindPeer;
  }

  // ---------- races on memory ----------

  /** What a field gives access to: components of a type, the resource of a type, shared data of a type. A peer
      field reaches the component of a local player. */
  datatype Cell = NoCell | ComponentCell(t: GoType) | ResourceCell(t: GoType) | SharedCell(t: GoType)

  function CellOf(d: FieldDecl): Cell {
    match KindOf(d)
    case KindComponent => ComponentCell(TypeOf(d))
    case KindRelation => ComponentCell(TypeOf(d))
    case KindRelationSlice => ComponentCell(TypeOf(d))
    case KindPeer => ComponentCell(TypeOf(d))
    case KindPeerSlice => ComponentCell(TypeOf(d))
    case KindResource => ResourceCell(TypeOf(d))
    case KindShared => SharedCell(TypeOf(d))
    case KindSharedSlice => SharedCell(TypeOf(d))
    case _ => NoCell
  }

  /** Two fields may give two running systems the same memory, and one of them may write it. A component field
      stays with the sessions of the world the system runs in; every other field may lead anywhere. */
  predicate Meet(f: FieldDecl, g: FieldDecl, sameWorld: bool) {
    && CellOf(f) == CellOf(g) != NoCell && (f.tag.mutable || g.tag.mutable)
    && (sameWorld || KindOf(f) != KindComponent || KindOf(g) != KindComponent)
  }

  ghost predicate MayRace(d: seq<FieldDecl>, e: seq<FieldDecl>, sameWorld: bool) {
    exists f, g | f in d && g in e :: Meet(f, g, sameWorld)
  }

  /** Of components: those of a session's own and those reached through relations and peers. */
  predicate ReachesComponent(d: FieldDecl) {
    TouchesComponent(d) || KindOf(d) == KindPeer || KindOf(d) == KindPeerSlice
  }

  /** When two fields may meet: one is mutable, both lead to the same type of component, resource or shared data, and in
      different worlds not both to components of the system's own sessions. */
  lemma MeetIff(f: FieldDecl, g: FieldDecl, sameWorld: bool)
    ensures Meet(f, g, sameWorld) <==>
            && (f.tag.mutable || g.tag.mutable) && TypeOf(f) == TypeOf(g)
            && (|| (ReachesComponent(f) && ReachesComponent(g) && (sameWorld || !(KindOf(f) == KindOf(g) == KindComponent)))
                || (TouchesResource(f) && TouchesResource(g))
                || (KindOf(f) in {KindShared, KindSharedSlice} && KindOf(g) in {KindShared, KindSharedSlice}))
  {}

  /** A race that needs no peer or shared field. */
  ghost predicate NearRace(d: seq<FieldDecl>, e: seq<FieldDecl>) {
    exists f, g | f in d && g in e :: Meet(f, g, true) && !ReachesFar(f) && !ReachesFar(g)
  }

  /** A race through a peer or shared field on one side at least. */
  ghost predicate FarRace(d: seq<FieldDecl>, e: seq<FieldDecl>) {
    exists f, g | f in d && g in e :: Meet(f, g, true) && (ReachesFar(f) || ReachesFar(g))
  }

  lemma MayRaceIsSymmetric(d: seq<FieldDecl>, e: seq<FieldDecl>, sameWorld: bool)
    requires MayRace(d, e, sameWorld)
    ensures MayRace(e, d, sameWorld)
  {
    var f, g :| f in d && g in e && Meet(f, g, sameWorld);
    assert Meet(g, f, sameWorld);
  }

  lemma NearMeeting(f: FieldDecl, g: FieldDecl)
    requires !ReachesFar(f) && !ReachesFar(g)
    ensures Meet(f, g, true) <==>
            && TypeOf(f) == TypeOf(g) && (f.tag.mutable || g.tag.mutable)
            && ((TouchesComponent(f) && TouchesComponent(g)) || (TouchesResource(f) && TouchesResource(g)))
  {}

  lemma RacesAreNear(d: seq<FieldDecl>, e: seq<FieldDecl>)
    ensures Races(d, e) ==> NearRace(d, e)
    ensures Races(d, e) ==> NearRace(e, d)
  {
    if t, m: bool :| DeclaresComponent(d, t, true) && DeclaresComponent(e, t, m) {
      var f :| f in d && TouchesComponent(f) && f.tag.mutable && TypeOf(f) == t;
      var g :| g in e && TouchesComponent(g) && g.tag.mutable == m && TypeOf(g) == t;
      NearMeeting(f, g);
      NearMeeting(g, f);
    }
    if t, m: bool :| DeclaresResource(d, t, true) && DeclaresResource(e, t, m) {
      var f :| f in d && TouchesResource(f) && f.tag.mutable && TypeOf(f) == t;
      var g :| g in e && TouchesResource(g) && g.tag.mutable == m && TypeOf(g) == t;
      NearMeeting(f, g);
      NearMeeting(g, f);
    }
  }

  /** The conflict test decides exactly the races that need no peer or shared field. */
  lemma ConflictIffNearRace(a: AccessMeta, b: AccessMeta, d: seq<FieldDecl>, e: seq<FieldDecl>)
    requires Records(a, d) && Records(b, e)
    ensures Conflict(a, b) <==> NearRace(d, e)
  {
    ConflictIffRaces(a, b, d, e);
    RacesAreNear(d, e);
    RacesAreNear(e, d);
    if f, g :| f in d && g in e && Meet(f, g, true) && !ReachesFar(f) && !ReachesFar(g) {
      NearMeeting(f, g);
      assert TouchesComponent(f) ==> DeclaresComponent(d, TypeOf(f), f.tag.mutable) && DeclaresComponent(e, TypeOf(f), g.tag.mutable);
      assert TouchesResource(f) ==> DeclaresResource(d, TypeOf(f), f.tag.mutable) && DeclaresResource(e, TypeOf(f), g.tag.mutable);
    }
  }

  /** Two systems of one world may race undetected exactly when they race through a peer or shared field and in no
      other way. */
  lemma UndetectedIff(a: AccessMeta, b: AccessMeta, d: seq<FieldDecl>, e: seq<FieldDecl>)
    requires Records(a, d) && Records(b, e)
    ensures MayRace(d, e, true) && !Conflict(a, b) <==> FarRace(d, e) && !NearRace(d, e)
  {
    ConflictIffNearRace(a, b, d, e);
    assert MayRace(d, e, true) <==> NearRace(d, e) || FarRace(d, e);
  }
}
