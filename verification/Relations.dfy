/** References between sessions, and their clean-up when a session goes away. */
module Relations {
  import opened Basics
  class Session {
    // Identity, fixed at creation. Handles and UUIDs are numbers here.
    const handle: nat
    const uuid: nat
    const name: string
    const xuid: string
    const isFake: bool
    const fakeID: string

    var closed: bool
    var world: nat                          // cached world; 0 is nil
    const components: array<Component?>

    constructor (handle: nat, uuid: nat, name: string, xuid: string, isFake: bool, fakeID: string)
      ensures this.handle == handle && this.uuid == uuid && this.name == name
      ensures this.xuid == xuid && this.isFake == isFake && this.fakeID == fakeID
      ensures !closed && world == 0 && fresh(components)
      ensures components.Length == MAX_COMPONENTS && forall id | 0 <= id < MAX_COMPONENTS :: components[id] == null
    {
      this.handle, this.uuid, this.name, this.xuid := handle, uuid, name, xuid;
      this.isFake, this.fakeID := isFake, fakeID;
      closed, world := false, 0;
      components := new Component?[MAX_COMPONENTS](_ => null);
    }

    /** The loop over all component slots. */
    method ClearRelationsTo(target: Session, types: seq<bool>)
      requires components.Length == |types| == MAX_COMPONENTS
      modifies RelsIn(components[..], types)`target, SetsIn(components[..], types)`targets
      ensures forall r | r in RelsIn(components[..], types) :: r.target == Dropped(old(r.target), target)
      ensures forall s | s in SetsIn(components[..], types) :: s.targets == old(s.targets) - {target}
    {
      ghost var table := components[..];
      ghost var rels, sets := RelsIn(table, types), SetsIn(table, types);
      ghost var wasRel := map r | r in rels :: r.target;
      ghost var wasSet := map s | s in sets :: s.targets;
      for id := 0 to MAX_COMPONENTS
        invariant ClearedSoFar(rels, RelsIn(table[..id], types), wasRel, target)
        invariant TrimmedSoFar(sets, SetsIn(table[..id], types), wasSet, target)
        modifies rels`target, sets`targets
      {
        OneMoreSlot(table, types, id);
        ClearSlot(components[id], types[id], target, rels, sets,
                  RelsIn(table[..id], types), SetsIn(table[..id], types), wasRel, wasSet);
      }
      assert table[..MAX_COMPONENTS] == table;
    }
  }

  /** One round of that loop. */
  method ClearSlot(component: Component?, hasType: bool, target: Session, ghost rels: set<Relation>, ghost sets: set<RelationSet>,
                   ghost doneRels: set<Relation>, ghost doneSets: set<RelationSet>,
                   ghost wasRel: map<Relation, Session?>, ghost wasSet: map<RelationSet, set<Session>>)
    requires RelsOf(SlotFields(component, hasType)) <= rels && SetsOf(SlotFields(component, hasType)) <= sets
    requires ClearedSoFar(rels, doneRels, wasRel, target) && TrimmedSoFar(sets, doneSets, wasSet, target)
    modifies rels`target, sets`targets
    ensures ClearedSoFar(rels, doneRels + RelsOf(SlotFields(component, hasType)), wasRel, target)
    ensures TrimmedSoFar(sets, doneSets + SetsOf(SlotFields(component, hasType)), wasSet, target)
  {
    if component != null && hasType {
      component.ClearRelationsTo(target);
    }
  }

  datatype Resolved = Resolved(session: Session, component: Component)

  class Relation {
    var target: Session?

    method Set(target: Session?)
      modifies this
      ensures this.target == target
    {
      this.target := target;
    }

    /** A closed target is forgotten on the way. */
    method Get() returns (s: Session?)
      modifies this
      ensures s == target == if old(target) == null || old(target).closed then null else old(target)
    {
      if target == null {
        return null;
      }
      if target.closed {
        target := null;
        return null;
      }
      return target;
    }

    method Resolve(id: nat) returns (s: Session?, component: Component?, ok: bool)
      requires id < MAX_COMPONENTS
      requires target != null ==> target.components.Length == MAX_COMPONENTS
      modifies this
      ensures s == target == if old(target) == null || old(target).closed then null else old(target)
      ensures component == if s == null then null else s.components[id]
      ensures ok <==> component != null
    {
      s := Get();
      if s == null {
        return null, null, false;
      }
      component := s.components[id];
      return s, component, component != null;
    }
  }

  class RelationSet {
    var targets: set<Session>

    method Add(target: Session?)
      modifies this
      ensures targets == if target == null then old(targets) else old(targets) + {target}
    {
      if target == null {
        return;
      }
      targets := targets + {target};
    }

    method Remove(target: Session?)
      modifies this
      ensures targets == if target == null then old(targets) else old(targets) - {target}
    {
      if target == null {
        return;
      }
      targets := targets - {target};
    }

    /** The open targets, each once in some order. Closed ones are gone from the set when the call returns. */
    method All() returns (list: seq<Session>)
      modifies this
      ensures Enumerates(list, old(OpenTargets()))
      ensures targets == old(OpenTargets())
    {
      list := [];
      var todo := targets;
      var hasClosed := false;
      while todo != {}
        invariant todo <= targets
        invariant forall t | t in list :: t in targets && t !in todo && !t.closed
        invariant forall t | t in targets && t !in todo && !t.closed :: t in list
        invariant forall i, j | 0 <= i < j < |list| :: list[i] != list[j]
        invariant hasClosed <==> exists t | t in targets - todo :: t.closed
        decreases todo
      {
        var t :| t in todo;
        todo := todo - {t};
        if t.closed {
          hasClosed := true;
        } else {
          list := list + [t];
        }
      }
      if hasClosed {
        CleanupClosed();
      }
    }

    method CleanupClosed()
      modifies this
      ensures targets == old(OpenTargets())
    {
      var todo := targets;
      while todo != {}
        invariant todo <= old(targets)
        invariant targets == set t | t in old(targets) && (t in todo || !t.closed)
        decreases todo
      {
        var t :| t in todo;
        todo := todo - {t};
        if t.closed {
          targets := targets - {t};
        }
      }
    }

    /** The open targets that carry the component; the set is cleaned as by All. */
    method Resolve(id: nat) returns (list: seq<Resolved>)
      requires id < MAX_COMPONENTS
      requires forall t | t in targets :: t.components.Length == MAX_COMPONENTS
      modifies this
      ensures forall e | e in list :: e.session in old(OpenTargets()) && e.component == e.session.components[id]
      ensures forall t | t in old(OpenTargets()) && t.components[id] != null :: Resolved(t, t.components[id]) in list
      ensures forall i, j | 0 <= i < j < |list| :: list[i].session != list[j].session
      ensures targets == old(OpenTargets())
    {
      list := [];
      var todo := targets;
      var hasClosed := false;
      while todo != {}
        invariant todo <= targets
        invariant forall e | e in list :: e.session in targets && e.session !in todo && !e.session.closed
        invariant forall e | e in list :: e.component == e.session.components[id]
        invariant forall t | t in targets && t !in todo && !t.closed && t.components[id] != null ::
                    Resolved(t, t.components[id]) in list
        invariant forall i, j | 0 <= i < j < |list| :: list[i].session != list[j].session
        invariant hasClosed <==> exists t | t in targets - todo :: t.closed
        decreases todo
      {
        var t :| t in todo;
        todo := todo - {t};
        if t.closed {
          hasClosed := true;
        } else {
          var c := t.components[id];
          if c != null {
            assert forall e | e in list :: e.session != t;
            list := list + [Resolved(t, c)];
          }
        }
      }
      if hasClosed {
        CleanupClosed();
      }
    }

    ghost function OpenTargets(): set<Session>
      reads this, targets
    {
      set t | t in targets && !t.closed
    }
  }

  /** A top-level field of a component struct. A nested struct is looked at from outside only. */
  datatype Field = Rel(rel: Relation) | RelSet(targets: RelationSet) | Nested(inner: seq<Field>) | Plain

  class Component {
    const isStruct: bool
    const fields: seq<Field>

    /** The loop over one component's fields. */
    method ClearRelationsTo(target: Session)
      modifies RelsOf(Visible(this))`target, SetsOf(Visible(this))`targets
      ensures forall r | r in RelsOf(Visible(this)) :: r.target == Dropped(old(r.target), target)
      ensures forall s | s in SetsOf(Visible(this)) :: s.targets == old(s.targets) - {target}
    {
      if !isStruct {
        return;
      }
      for i := 0 to |fields|
        invariant forall r | r in RelsOf(fields) ::
                    r.target == if r in RelsOf(fields[..i]) then Dropped(old(r.target), target) else old(r.target)
        invariant forall s | s in SetsOf(fields) ::
                    s.targets == if s in SetsOf(fields[..i]) then old(s.targets) - {target} else old(s.targets)
      {
        var field := fields[i];
        assert fields[..i + 1] == fields[..i] + [field];
        match field
        case Rel(rel) =>
          if rel.target == target {
            rel.target := null;
          }
        case RelSet(targets) =>
          targets.targets := targets.targets - {target};
        case Nested(_) =>
        case Plain =>
      }
      assert fields[..|fields|] == fields;
    }
  }

  // ---------- what is reached ----------

  function Dropped(s: Session?, target: Session): (r: Session?)
    ensures r != target
  {
    if s == target then null else s
  }

  /** The fields the clean-up looks at. */
  ghost function Visible(c: Component): seq<Field> {
    if c.isStruct then c.fields else []
  }

  ghost function RelsOf(fields: seq<Field>): set<Relation> {
    set f | f in fields && f.Rel? :: f.rel
  }

  ghost function SetsOf(fields: seq<Field>): set<RelationSet> {
    set f | f in fields && f.RelSet? :: f.targets
  }

  /** The fields looked at in one component slot: none when it is empty or its type is not known. */
  ghost function SlotFields(component: Component?, hasType: bool): seq<Field> {
    if component != null && hasType then Visible(component) else []
  }

  ghost function RelsIn(table: seq<Component?>, types: seq<bool>): set<Relation>
    requires |table| <= |types|
  {
    set id, f | 0 <= id < |table| && table[id] != null && types[id] && table[id].isStruct
                && f in table[id].fields && f.Rel? :: f.rel
  }

  ghost function SetsIn(table: seq<Component?>, types: seq<bool>): set<RelationSet>
    requires |table| <= |types|
  {
    set id, f | 0 <= id < |table| && table[id] != null && types[id] && table[id].isStruct
                && f in table[id].fields && f.RelSet? :: f.targets
  }

  lemma OneMoreSlot(table: seq<Component?>, types: seq<bool>, id: nat)
    requires id < |table| == |types|
    ensures RelsIn(table[..id + 1], types) == RelsIn(table[..id], types) + RelsOf(SlotFields(table[id], types[id]))
    ensures SetsIn(table[..id + 1], types) == SetsIn(table[..id], types) + SetsOf(SlotFields(table[id], types[id]))
    ensures RelsOf(SlotFields(table[id], types[id])) <= RelsIn(table, types)
    ensures SetsOf(SlotFields(table[id], types[id])) <= SetsIn(table, types)
  {
    assert table[..id + 1] == table[..id] + [table[id]];
  }

  ghost predicate SizedTables(tables: seq<seq<Component?>>, types: seq<bool>) {
    |types| == MAX_COMPONENTS && forall i | 0 <= i < |tables| :: |tables[i]| == MAX_COMPONENTS
  }

  /** `tables` are the component tables of the sessions. */
  ghost predicate AreTables(sessions: seq<Session>, tables: seq<seq<Component?>>)
    reads set s | s in sessions :: s.components
  {
    |tables| == |sessions| && forall i | 0 <= i < |sessions| :: sessions[i].components[..] == tables[i]
  }

  ghost function AllRels(tables: seq<seq<Component?>>, types: seq<bool>): set<Relation>
    requires SizedTables(tables, types)
  {
    set i, id, f | 0 <= i < |tables| && 0 <= id < |tables[i]| && tables[i][id] != null && types[id]
                   && tables[i][id].isStruct && f in tables[i][id].fields && f.Rel? :: f.rel
  }

  ghost function AllSets(tables: seq<seq<Component?>>, types: seq<bool>): set<RelationSet>
    requires SizedTables(tables, types)
  {
    set i, id, f | 0 <= i < |tables| && 0 <= id < |tables[i]| && tables[i][id] != null && types[id]
                   && tables[i][id].isStruct && f in tables[i][id].fields && f.RelSet? :: f.targets
  }

  lemma OneMoreTable(tables: seq<seq<Component?>>, types: seq<bool>, k: nat)
    requires SizedTables(tables, types) && k < |tables|
    ensures AllRels(tables[..k + 1], types) == AllRels(tables[..k], types) + RelsIn(tables[k], types)
    ensures AllSets(tables[..k + 1], types) == AllSets(tables[..k], types) + SetsIn(tables[k], types)
    ensures RelsIn(tables[k], types) <= AllRels(tables, types) && SetsIn(tables[k], types) <= AllSets(tables, types)
  {
    assert tables[..k + 1] == tables[..k] + [tables[k]];
  }

  /** The loop over a snapshot of the registered sessions. */
  method ClearAllRelationsTo(sessions: seq<Session>, types: seq<bool>, target: Session, ghost tables: seq<seq<Component?>>)
    requires SizedTables(tables, types) && AreTables(sessions, tables)
    modifies AllRels(tables, types)`target, AllSets(tables, types)`targets
    ensures forall r | r in AllRels(tables, types) :: r.target == Dropped(old(r.target), target)
    ensures forall s | s in AllSets(tables, types) :: s.targets == old(s.targets) - {target}
  {
    ghost var wasRel := map r | r in AllRels(tables, types) :: r.target;
    ghost var wasSet := map s | s in AllSets(tables, types) :: s.targets;
    NothingCleared(tables, types, wasRel, wasSet, target);
    ClearEach(sessions, types, target, tables, wasRel, wasSet);
    AllCleared(tables, types, wasRel, wasSet, target);
  }

  method ClearEach(sessions: seq<Session>, types: seq<bool>, target: Session, ghost tables: seq<seq<Component?>>,
                   ghost wasRel: map<Relation, Session?>, ghost wasSet: map<RelationSet, set<Session>>)
    requires SizedTables(tables, types) && AreTables(sessions, tables)
    requires ClearedUpTo(tables, types, 0, wasRel, wasSet, target)
    modifies AllRels(tables, types)`target, AllSets(tables, types)`targets
    ensures ClearedUpTo(tables, types, |tables|, wasRel, wasSet, target)
  {
    for k := 0 to |sessions|
      invariant AreTables(sessions, tables)
      invariant ClearedUpTo(tables, types, k, wasRel, wasSet, target)
      modifies AllRels(tables, types)`target, AllSets(tables, types)`targets
    {
      ClearNext(sessions, k, types, target, tables, wasRel, wasSet);
    }
  }

  lemma NothingCleared(tables: seq<seq<Component?>>, types: seq<bool>,
                       wasRel: map<Relation, Session?>, wasSet: map<RelationSet, set<Session>>, target: Session)
    requires SizedTables(tables, types)
    requires forall r | r in AllRels(tables, types) :: r in wasRel && wasRel[r] == r.target
    requires forall s | s in AllSets(tables, types) :: s in wasSet && wasSet[s] == s.targets
    ensures ClearedUpTo(tables, types, 0, wasRel, wasSet, target)
  {}

  lemma AllCleared(tables: seq<seq<Component?>>, types: seq<bool>,
                   wasRel: map<Relation, Session?>, wasSet: map<RelationSet, set<Session>>, target: Session)
    requires SizedTables(tables, types)
    requires ClearedUpTo(tables, types, |tables|, wasRel, wasSet, target)
    ensures forall r | r in AllRels(tables, types) :: r in wasRel && r.target == Dropped(wasRel[r], target)
    ensures forall s | s in AllSets(tables, types) :: s in wasSet && s.targets == wasSet[s] - {target}
  {
    assert tables[..|tables|] == tables;
  }

  /** The first `k` tables are cleared of the target and everything else is as it was. */
  ghost predicate ClearedUpTo(tables: seq<seq<Component?>>, types: seq<bool>, k: nat,
                              wasRel: map<Relation, Session?>, wasSet: map<RelationSet, set<Session>>, target: Session)
    requires SizedTables(tables, types) && k <= |tables|
    reads AllRels(tables, types), AllSets(tables, types)
  {
    && ClearedSoFar(AllRels(tables, types), AllRels(tables[..k], types), wasRel, target)
    && TrimmedSoFar(AllSets(tables, types), AllSets(tables[..k], types), wasSet, target)
  }

  /** One round of that loop. */
  method ClearNext(sessions: seq<Session>, k: nat, types: seq<bool>, target: Session, ghost tables: seq<seq<Component?>>,
                   ghost wasRel: map<Relation, Session?>, ghost wasSet: map<RelationSet, set<Session>>)
    requires SizedTables(tables, types) && AreTables(sessions, tables) && k < |sessions|
    requires ClearedUpTo(tables, types, k, wasRel, wasSet, target)
    modifies AllRels(tables, types)`target, AllSets(tables, types)`targets
    ensures AreTables(sessions, tables)
    ensures ClearedUpTo(tables, types, k + 1, wasRel, wasSet, target)
  {
    OneMoreTable(tables, types, k);
    assert sessions[k].components[..] == tables[k];
    sessions[k].ClearRelationsTo(target, types);
  }

  /** Those in `done` are cleared of the target; the others are as they were. */
  ghost predicate ClearedSoFar(rels: set<Relation>, done: set<Relation>, was: map<Relation, Session?>, target: Session)
    reads rels
  {
    forall r | r in rels :: r in was && r.target == if r in done then Dropped(was[r], target) else was[r]
  }

  ghost predicate TrimmedSoFar(sets: set<RelationSet>, done: set<RelationSet>, was: map<RelationSet, set<Session>>,
                               target: Session)
    reads sets
  {
    forall s | s in sets :: s in was && s.targets == if s in done then was[s] - {target} else was[s]
  }

  // ---------- what is promised ----------

  /** A top-level field refers to the session. */
  ghost predicate Refers(f: Field, target: Session)
    reads if f.Rel? then {f.rel} else {}, if f.RelSet? then {f.targets} else {}
  {
    (f.Rel? && f.rel.target == target) || (f.RelSet? && target in f.targets.targets)
  }

  /** Nothing is forgotten about anybody else, and nothing is remembered of the session: said of one field of one
      component, for the reader of that field. */
  twostate lemma FieldAfterClearing(tables: seq<seq<Component?>>, types: seq<bool>, target: Session,
                                    i: nat, id: nat, f: Field, other: Session)
    requires SizedTables(tables, types) && i < |tables| && id < MAX_COMPONENTS
    requires tables[i][id] != null && types[id] && tables[i][id].isStruct && f in tables[i][id].fields
    requires forall r | r in AllRels(tables, types) :: r.target == Dropped(old(r.target), target)
    requires forall s | s in AllSets(tables, types) :: s.targets == old(s.targets) - {target}
    ensures !Refers(f, target)
    ensures other != target ==> (Refers(f, other) <==> old(Refers(f, other)))
  {
    assert f.Rel? ==> f.rel in AllRels(tables, types);
    assert f.RelSet? ==> f.targets in AllSets(tables, types);
  }
}
