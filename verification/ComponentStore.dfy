/** A session's component table, its 256-bit mask, and temporary components with expiration times. */
module ComponentStores {
  import opened Basics
  import opened Bitmasks

  /** A component type's ID; 255 is never handed out. */
  type Slot = id: nat | id < MAX_COMPONENTS

  /** A component value behind a pointer. */
  class Component {
    var data: int

    constructor (data: int)
      ensures this.data == data
    {
      this.data := data;
    }
  }

  class Session {
    const components: array<Component?>
    var mask: Bitmask
    var expirations: map<Slot, int>
    var closed: bool

    constructor ()
      ensures Valid() && Present() == {} && Ids(mask) == {} && expirations == map[] && !closed
      ensures fresh(components)
    {
      components := new Component?[MAX_COMPONENTS](i => null);
      mask, expirations, closed := Empty(), map[], false;
      new;
      EmptyHasNone();
    }

    /** The IDs whose table entry is not nil. */
    ghost function Present(): set<ComponentID>
      reads this, components
      requires components.Length == MAX_COMPONENTS
    {
      set id: ComponentID | 0 <= id < MAX_COMPONENTS && components[id] != null
    }

    predicate Sized() {
      components.Length == MAX_COMPONENTS
    }

    /** The mask says exactly which table entries are not nil. */
    ghost predicate Valid()
      reads this, components
    {
      Sized() && Ids(mask) == Present()
    }

    predicate Has(id: Slot)
      reads this, components
      requires Valid()
      ensures Has(id) <==> components[id] != null
    {
      HasIsMember(mask, id);
      Bitmasks.Has(mask, id)
    }

    function Get(id: Slot): (c: Component?)
      reads this, components
      requires Sized()
      ensures Valid() ==> (c != null <==> Has(id))
    {
      components[id]
    }

    /** A present component is updated in place, so that pointers handed out earlier see the new value. */
    method Add(id: Slot, component: Component)
      requires Sized()
      modifies this`mask, components, if components[id] != null then {components[id]} else {}
      ensures old(Valid()) ==> Valid()
      ensures components[..] == if old(components[id]) != null then old(components[..]) else old(components[..])[id := component]
      ensures Ids(mask) == old(Ids(mask)) + if old(components[id]) != null then {} else {id}
      ensures components[id].data == old(component.data)
    {
      var oldPtr := components[id];
      if oldPtr != null {
        oldPtr.data := component.data;
        return;
      }
      components[id] := component;
      SetAddsOne(mask, id);
      mask := Set(mask, id);
      assert Present() == old(Present()) + {id};
    }

    method AddUntil(id: Slot, component: Component, expireAt: int)
      requires Sized()
      modifies this`mask, this`expirations, components, if components[id] != null then {components[id]} else {}
      ensures old(Valid()) ==> Valid()
      ensures components[..] == if old(components[id]) != null then old(components[..]) else old(components[..])[id := component]
      ensures Ids(mask) == old(Ids(mask)) + if old(components[id]) != null then {} else {id}
      ensures components[id].data == old(component.data)
      ensures expirations == old(expirations)[id := expireAt]
    {
      Add(id, component);
      expirations := expirations[id := expireAt];
    }

    /** Returns the present component, or stores the default. Storing nil sets the mask bit all the same,
        so the mask stays right exactly when something was present or the default is not nil. */
    method GetOrAdd(id: Slot, defaultVal: Component?) returns (c: Component?)
      requires Sized()
      modifies this`mask, components
      ensures old(Valid()) ==> (Valid() <==> old(components[id]) != null || defaultVal != null)
      ensures c == if old(components[id]) != null then old(components[id]) else defaultVal
      ensures components[..] == old(components[..])[id := c]
      ensures Ids(mask) == old(Ids(mask)) + if old(components[id]) != null then {} else {id}
    {
      var ptr := components[id];
      if ptr != null {
        return ptr;
      }
      components[id] := defaultVal;
      SetAddsOne(mask, id);
      mask := Set(mask, id);
      assert Present() == old(Present()) + if defaultVal != null then {id} else {};
      assert id in Ids(mask) && id !in old(Present());
      return defaultVal;
    }

    /** Clears the table entry and the bit; an expiration time for the ID stays behind. */
    method Remove(id: Slot)
      requires Sized()
      modifies this`mask, components
      ensures old(Valid()) ==> Valid()
      ensures components[..] == old(components[..])[id := null]
      ensures Ids(mask) == old(Ids(mask)) - if old(components[id]) == null then {} else {id}
    {
      var ptr := components[id];
      if ptr == null {
        return;
      }
      components[id] := null;
      ClearRemovesOne(mask, id);
      mask := Clear(mask, id);
      assert Present() == old(Present()) - {id};
    }

    /** Removes every component whose time has come, and its entry; leaves everything else alone. */
    method ProcessExpirations(now: int)
      requires Sized()
      modifies this`mask, this`expirations, components
      ensures old(Valid()) ==> Valid()
      ensures expirations == map id | id in old(expirations) && old(expirations)[id] > now :: old(expirations)[id]
      ensures forall id: Slot :: components[id] ==
                if id in old(expirations) && old(expirations)[id] <= now then null else old(components[id])
      ensures forall id: Slot :: id in Ids(mask) <==>
                id in old(Ids(mask)) && !(id in old(expirations) && old(expirations)[id] <= now && old(components[id]) != null)
    {
      var expired := Collect(now);
      ghost var start, bits, rest := components[..], Ids(mask), expirations;
      for i := 0 to |expired|
        invariant (old(Valid()) ==> Valid()) && expirations == rest
        invariant forall id: Slot :: components[id] == if id in expired[..i] then null else start[id]
        invariant forall id: Slot :: id in Ids(mask) <==> id in bits && !(id in expired[..i] && start[id] != null)
      {
        Remove(expired[i]);
        assert expired[..i + 1] == expired[..i] + [expired[i]];
      }
      assert expired[..|expired|] == expired;
    }

    /** Takes the due entries out of the expiration map, in any order. */
    method Collect(now: int) returns (expired: seq<Slot>)
      modifies this`expirations
      ensures expirations == map id | id in old(expirations) && old(expirations)[id] > now :: old(expirations)[id]
      ensures forall id: Slot :: id in expired <==> id in old(expirations) && old(expirations)[id] <= now
      ensures Distinct(expired)
    {
      expired := [];
      var todo := expirations.Keys;
      while todo != {}
        invariant todo <= old(expirations).Keys
        invariant forall id: Slot :: id in expired <==> id in old(expirations).Keys - todo && old(expirations)[id] <= now
        invariant Distinct(expired)
        invariant expirations == map id | id in old(expirations) && (id in todo || old(expirations)[id] > now) :: old(expirations)[id]
        decreases todo
      {
        var id :| id in todo;
        todo := todo - {id};
        if now >= expirations[id] {
          expired := expired + [id];
          expirations := expirations - {id};
        }
      }
    }

    /** Closing empties the table and the mask, once. */
    method Close()
      requires Sized()
      modifies this`mask, this`closed, components
      ensures closed && (old(Valid()) ==> Valid())
      ensures old(closed) ==> components[..] == old(components[..]) && mask == old(mask)
      ensures !old(closed) ==> Present() == {} && Ids(mask) == {}
    {
      if closed {
        return;
      }
      closed := true;
      for id := 0 to components.Length
        invariant closed && forall k | 0 <= k < id :: components[k] == null
      {
        components[id] := null;
      }
      mask := Empty();
      EmptyHasNone();
    }

    /** The system filter: every required component is present and no excluded one is. */
    method CanRun(requireMask: Bitmask, excludeMask: Bitmask) returns (ok: bool)
      requires Valid()
      ensures ok <==> Ids(requireMask) <= Present() && Present() * Ids(excludeMask) == {}
    {
      ContainsAllIsSubset(mask, requireMask);
      ContainsAnyIsOverlap(mask, excludeMask);
      if !ContainsAll(mask, requireMask) {
        return false;
      }
      if ContainsAny(mask, excludeMask) {
        return false;
      }
      return true;
    }
  }

  // ---------- whole scripts, one slot at a time ----------

  /** Everything that touches the store, with the data of the component given; GetOrAdd may be given nil. */
  datatype Event =
    | Add(id: Slot, data: int)
    | AddUntil(id: Slot, data: int, expireAt: int)
    | GetOrAdd(id: Slot, def: Option<int>)
    | Remove(id: Slot)
    | Tick(now: int)
    | Close

  /** One slot: what is stored, its mask bit, its expiration time, and whether the session is closed. */
  datatype Cell = Cell(value: Option<int>, bit: bool, expiry: Option<int>, closed: bool)

  function Stored(c: Cell, data: int): Cell {
    c.(value := Some(data), bit := c.bit || c.value.None?)
  }

  function Emptied(c: Cell): Cell {
    if c.value.None? then c else c.(value := None, bit := false)
  }

  function Next(c: Cell, e: Event, id: Slot): Cell {
    match e
    case Add(i, data) => if i == id then Stored(c, data) else c
    case AddUntil(i, data, at) => if i == id then Stored(c, data).(expiry := Some(at)) else c
    case GetOrAdd(i, def) => if i == id && c.value.None? then c.(value := def, bit := true) else c
    case Remove(i) => if i == id then Emptied(c) else c
    case Tick(now) => if c.expiry.Some? && c.expiry.value <= now then Emptied(c).(expiry := None) else c
    case Close => if c.closed then c else c.(value := None, bit := false, closed := true)
  }

  ghost function CellAfter(script: seq<Event>, id: Slot): Cell {
    if script == [] then Cell(None, false, None, false)
    else Next(CellAfter(script[..|script| - 1], id), script[|script| - 1], id)
  }

  ghost function CellIn(s: Session, id: Slot): Cell
    requires s.Sized()
    reads s, s.components, s.components[id]
  {
    Cell(if s.components[id] == null then None else Some(s.components[id].data), id in Ids(s.mask),
         if id in s.expirations then Some(s.expirations[id]) else None, s.closed)
  }

  /** No component is in two slots. */
  ghost predicate Apart(s: Session)
    reads s, s.components
  {
    s.Sized() && forall i: Slot, j: Slot :: i != j && s.components[i] != null ==> s.components[i] != s.components[j]
  }

  /** One event, done by the session's methods on a new component, moves every slot as the slot's own rule says. */
  method Perform(s: Session, e: Event)
    requires Apart(s)
    modifies s, s.components, set k: Slot | s.components[k] != null :: s.components[k]
    ensures Apart(s)
    ensures forall id: Slot :: CellIn(s, id) == Next(old(CellIn(s, id)), e, id)
    ensures forall id: Slot :: s.components[id] == old(s.components[id]) || s.components[id] == null || fresh(s.components[id])
  {
    match e
    case Add(_, _) => Put(s, e);
    case AddUntil(_, _, _) => Put(s, e);
    case GetOrAdd(_, _) => PutDefault(s, e);
    case Remove(id) => s.Remove(id);
    case Tick(now) => s.ProcessExpirations(now);
    case Close =>
      s.Close();
      assert forall id: Slot :: !old(s.closed) && s.components[id] != null ==> id in s.Present();
  }

  method PutDefault(s: Session, e: Event)
    requires Apart(s) && e.GetOrAdd?
    modifies s, s.components, set k: Slot | s.components[k] != null :: s.components[k]
    ensures Apart(s)
    ensures forall id: Slot :: CellIn(s, id) == Next(old(CellIn(s, id)), e, id)
    ensures forall id: Slot :: s.components[id] == old(s.components[id]) || s.components[id] == null || fresh(s.components[id])
  {
    var c: Component? := null;
    if e.def.Some? {
      c := new Component(e.def.value);
    }
    var _ := s.GetOrAdd(e.id, c);
  }

  method Put(s: Session, e: Event)
    requires Apart(s) && (e.Add? || e.AddUntil?)
    modifies s, s.components, set k: Slot | s.components[k] != null :: s.components[k]
    ensures Apart(s)
    ensures forall id: Slot :: CellIn(s, id) == Next(old(CellIn(s, id)), e, id)
    ensures forall id: Slot :: s.components[id] == old(s.components[id]) || s.components[id] == null || fresh(s.components[id])
  {
    var c := new Component(e.data);
    if e.Add? {
      s.Add(e.id, c);
    } else {
      s.AddUntil(e.id, c, e.expireAt);
    }
  }

  /** Over any script from an empty session, every slot is as its own rule says. */
  method RunScript(script: seq<Event>) returns (s: Session)
    ensures s.Sized() && forall id: Slot :: CellIn(s, id) == CellAfter(script, id)
  {
    s := new Session();
    ghost var empty := s.Present();
    assert forall id: Slot :: s.components[id] != null ==> id in empty;
    for i := 0 to |script|
      invariant fresh(s) && fresh(s.components) && Apart(s)
      invariant forall id: Slot :: s.components[id] != null ==> fresh(s.components[id])
      invariant forall id: Slot :: CellIn(s, id) == CellAfter(script[..i], id)
    {
      assert script[..i + 1][..i] == script[..i];
      Perform(s, script[i]);
    }
    assert script[..|script|] == script;
  }

  // ---------- when a tick removes what is stored ----------

  /** Event `i` is the last AddUntil for the slot, with time `t`, and no tick since has reached that time. */
  ghost predicate Armed(script: seq<Event>, id: Slot, i: nat, t: int) {
    && i < |script| && script[i].AddUntil? && script[i].id == id && script[i].expireAt == t
    && forall j | i < j < |script| ::
         !(script[j].AddUntil? && script[j].id == id) && !(script[j].Tick? && script[j].now >= t)
  }

  lemma {:induction false} ExpiryIff(script: seq<Event>, id: Slot, t: int)
    ensures CellAfter(script, id).expiry == Some(t) <==> exists i: nat :: Armed(script, id, i, t)
  {
    if script != [] {
      var k := |script| - 1;
      var front, e := script[..k], script[k];
      ExpiryIff(front, id, t);
      if e.AddUntil? && e.id == id {
        assert Armed(script, id, k, t) <==> e.expireAt == t;
        assert forall i: nat | i < k :: !Armed(script, id, i, t);
      } else {
        assert !Armed(script, id, k, t);
        assert forall i: nat | i < k :: Armed(script, id, i, t) <==> Armed(front, id, i, t) && !(e.Tick? && e.now >= t);
      }
    }
  }

  /** Whatever was stored last, by whatever means, survives a tick exactly when the last AddUntil for the slot that
      no tick has answered yet, if there is one, has a later time. Neither removing the temporary component nor
      replacing it in place answers it. */
  lemma SurvivesIff(script: seq<Event>, id: Slot, now: int)
    requires CellAfter(script, id).value.Some?
    ensures var after := CellAfter(script + [Tick(now)], id).value;
            && (after == CellAfter(script, id).value <==> !exists i: nat, t: int :: t <= now && Armed(script, id, i, t))
            && (after == CellAfter(script, id).value || after == None)
  {
    assert (script + [Tick(now)])[..|script|] == script;
    var expiry := CellAfter(script, id).expiry;
    if expiry.Some? {
      ExpiryIff(script, id, expiry.value);
    }
    if i: nat, t: int :| t <= now && Armed(script, id, i, t) {
      ExpiryIff(script, id, t);
    }
  }

  /** Two ways to lose a component added for good: after the temporary one was removed, and in its place. */
  lemma StaleExpirations(id: Slot, temporary: int, permanent: int, t: int)
    ensures CellAfter([AddUntil(id, temporary, t), Remove(id), Add(id, permanent), Tick(t)], id).value == None
    ensures CellAfter([AddUntil(id, temporary, t), Add(id, permanent), Tick(t)], id).value == None
  {
    var removed := [AddUntil(id, temporary, t), Remove(id), Add(id, permanent)];
    var replaced := [AddUntil(id, temporary, t), Add(id, permanent)];
    assert removed[..2] == [AddUntil(id, temporary, t), Remove(id)] && removed[..2][..1] == [AddUntil(id, temporary, t)];
    assert replaced[..1] == [AddUntil(id, temporary, t)] && [AddUntil(id, temporary, t)][..0] == [];
    assert Armed(removed, id, 0, t) && Armed(replaced, id, 0, t);
    SurvivesIff(removed, id, t);
    SurvivesIff(replaced, id, t);
    assert removed + [Tick(t)] == [AddUntil(id, temporary, t), Remove(id), Add(id, permanent), Tick(t)];
    assert replaced + [Tick(t)] == [AddUntil(id, temporary, t), Add(id, permanent), Tick(t)];
  }

  // ---------- what is stored ----------

  /** Event `i` puts the data into the slot. */
  ghost predicate Stores(script: seq<Event>, id: Slot, i: nat, data: int) {
    && i < |script|
    && (|| script[i] == Add(id, data)
        || (script[i].AddUntil? && script[i].id == id && script[i].data == data)
        || (script[i] == GetOrAdd(id, Some(data)) && CellAfter(script[..i], id).value.None?))
  }

  /** Event `j` changes what is in a filled slot: other data, a removal, a tick at or after the time the slot is armed
      for, or the first close. */
  ghost predicate Disturbs(script: seq<Event>, id: Slot, j: nat)
    requires j < |script|
  {
    || (script[j].Add? && script[j].id == id)
    || (script[j].AddUntil? && script[j].id == id)
    || script[j] == Remove(id)
    || (script[j].Tick? && exists i: nat, t: int :: t <= script[j].now && Armed(script[..j], id, i, t))
    || (script[j].Close? && !ClosedBefore(script, j))
  }

  ghost predicate StoredLast(script: seq<Event>, id: Slot, i: nat, data: int) {
    Stores(script, id, i, data) && forall j | i < j < |script| :: !Disturbs(script, id, j)
  }

  lemma StoredLastStep(script: seq<Event>, id: Slot, data: int)
    requires script != []
    ensures var k := |script| - 1;
            (exists i: nat :: StoredLast(script, id, i, data)) <==>
              Stores(script, id, k, data)
              || ((exists i: nat :: StoredLast(script[..k], id, i, data)) && !Disturbs(script, id, k))
  {
    var k := |script| - 1;
    var front := script[..k];
    forall i: nat | i < k
      ensures StoredLast(script, id, i, data) <==> StoredLast(front, id, i, data) && !Disturbs(script, id, k)
    {
      assert front[..i] == script[..i];
      forall j | i < j < k
        ensures Disturbs(front, id, j) <==> Disturbs(script, id, j)
      {
        assert front[..j] == script[..j];
        assert ClosedBefore(front, j) <==> ClosedBefore(script, j);
      }
    }
    assert Stores(script, id, k, data) ==> StoredLast(script, id, k, data);
  }

  /** Over any script a slot holds the data that was put in last, unless it was removed, expired or closed away since. */
  lemma {:induction false} HoldsIff(script: seq<Event>, id: Slot, data: int)
    ensures CellAfter(script, id).value == Some(data) <==> exists i: nat :: StoredLast(script, id, i, data)
  {
    if script != [] {
      var k := |script| - 1;
      var front := script[..k];
      HoldsIff(front, id, data);
      StoredLastStep(script, id, data);
      ClosedIff(front, id);
      assert ClosedBefore(front, k) <==> ClosedBefore(script, k);
      if script[k].Tick? {
        TickDisturbs(front, id, script[k].now);
      }
    }
  }

  /** Over any script, what Get returns is what was put in last. */
  method GetAfter(script: seq<Event>, id: Slot) returns (c: Component?)
    ensures c != null ==> exists i: nat :: StoredLast(script, id, i, c.data)
    ensures c == null ==> !exists i: nat, data: int :: StoredLast(script, id, i, data)
  {
    var s := RunScript(script);
    c := s.Get(id);
    assert CellIn(s, id) == CellAfter(script, id);
    if c != null {
      HoldsIff(script, id, c.data);
    } else if i: nat, data: int :| StoredLast(script, id, i, data) {
      HoldsIff(script, id, data);
    }
  }

  lemma TickDisturbs(script: seq<Event>, id: Slot, now: int)
    ensures (exists i: nat, t: int :: t <= now && Armed(script, id, i, t)) <==>
            CellAfter(script, id).expiry.Some? && CellAfter(script, id).expiry.value <= now
  {
    var expiry := CellAfter(script, id).expiry;
    if expiry.Some? {
      ExpiryIff(script, id, expiry.value);
    }
    if i: nat, t: int :| t <= now && Armed(script, id, i, t) {
      ExpiryIff(script, id, t);
    }
  }

  // ---------- when the mask is wrong ----------

  /** The event puts something into the slot, or is the close that empties the session. */
  ghost predicate Mends(script: seq<Event>, id: Slot, j: nat)
    requires j < |script|
  {
    || (script[j].Add? && script[j].id == id)
    || (script[j].AddUntil? && script[j].id == id)
    || (script[j].GetOrAdd? && script[j].id == id && script[j].def.Some?)
    || (script[j].Close? && !ClosedBefore(script, j))
  }

  ghost predicate ClosedBefore(script: seq<Event>, j: nat)
    requires j <= |script|
  {
    exists k | 0 <= k < j :: script[k].Close?
  }

  /** Event `i` is a GetOrAdd of nil on the empty slot, and nothing has mended it since. */
  ghost predicate NilStored(script: seq<Event>, id: Slot, i: nat) {
    && i < |script| && script[i] == GetOrAdd(id, None) && CellAfter(script[..i], id).value.None?
    && forall j | i < j < |script| :: !Mends(script, id, j)
  }

  lemma {:induction false} ClosedIff(script: seq<Event>, id: Slot)
    ensures CellAfter(script, id).closed <==> ClosedBefore(script, |script|)
  {
    if script != [] {
      var k := |script| - 1;
      ClosedIff(script[..k], id);
      assert ClosedBefore(script[..k], k) <==> ClosedBefore(script, k);
      assert ClosedBefore(script, k + 1) <==> ClosedBefore(script, k) || script[k].Close?;
    }
  }

  lemma NilStoredStep(script: seq<Event>, id: Slot)
    requires script != []
    ensures var k := |script| - 1;
            (exists i: nat :: NilStored(script, id, i)) <==>
              || (script[k] == GetOrAdd(id, None) && CellAfter(script[..k], id).value.None?)
              || ((exists i: nat :: NilStored(script[..k], id, i)) && !Mends(script, id, k))
  {
    var k := |script| - 1;
    var front := script[..k];
    forall i: nat | i < k
      ensures NilStored(script, id, i) <==> NilStored(front, id, i) && !Mends(script, id, k)
    {
      assert front[..i] == script[..i];
      forall j | i < j < k
        ensures Mends(front, id, j) <==> Mends(script, id, j)
      {
        assert ClosedBefore(front, j) <==> ClosedBefore(script, j);
      }
    }
    assert NilStored(script, id, k) <==> script[k] == GetOrAdd(id, None) && CellAfter(front, id).value.None?;
  }

  /** The mask bit of a slot differs from the table exactly when the default of a GetOrAdd on the empty slot was nil
      and nothing has been stored there since, nor the session closed; and then the bit is the one that is set. */
  lemma {:induction false} MaskWrongIff(script: seq<Event>, id: Slot)
    ensures var c := CellAfter(script, id);
            && (c.bit != c.value.Some? <==> exists i: nat :: NilStored(script, id, i))
            && (c.value.Some? ==> c.bit)
  {
    if script != [] {
      var k := |script| - 1;
      MaskWrongIff(script[..k], id);
      NilStoredStep(script, id);
      ClosedIff(script[..k], id);
      assert ClosedBefore(script[..k], k) <==> ClosedBefore(script, k);
    }
  }
}
