/**
  The registry of wgpu-core/src/registry.rs: an id allocator under one lock and a table
  under another. `prepare`, `assign` and the two halves of `remove` are separate atomic
  steps, which any number of threads may interleave.
*/
module Registry {
  import opened Integers
  import opened Wrappers
  import opened RawIds
  import opened Identity
  import opened Storage

  /** The shared state, with the ids that are not in one place only: `futures` are prepared but not
      assigned (a `FutureId` may also be dropped, which leaves its id here), `live` are registered with
      their values, `leaving` have been removed from the table but not yet freed. `faulted` records that
      an insertion met an occupied element or a removal panicked. */
  datatype State<T> = State(
    ids: History, table: seq<Element<T>>, futures: set<Id>, live: map<Id, T>, leaving: set<Id>, faulted: bool)

  /** `Vacate` and `Free` are the two halves of `remove`. */
  datatype Action<T> = Prepare | Assign(id: Id, value: T) | Vacate(id: Id) | Free(id: Id)

  function Initial<T>(): State<T> {
    State(NO_HISTORY, [], {}, map[], {}, false)
  }

  /** Clients assign a future once, and remove an id only while it is registered. */
  predicate Enabled<T>(s: State<T>, a: Action<T>) {
    match a
    case Prepare => true
    case Assign(id, _) => id in s.futures
    case Vacate(id) => id in s.live
    case Free(id) => id in s.leaving && Allowed(s.ids, Release(id))
  }

  function Apply<T>(s: State<T>, a: Action<T>): State<T>
    requires Enabled(s, a)
  {
    match a
    case Prepare =>
      s.(ids := Do(s.ids, Alloc), futures := s.futures + {Allocate(s.ids.v).1})
    case Assign(id, value) =>
      var (table', found) := Inserted(s.table, id, value);
      s.(table := table', futures := s.futures - {id}, live := s.live[id := value],
         faulted := s.faulted || !found.WasVacant?)
    case Vacate(id) =>
      var (table', r) := Removed(s.table, id);
      s.(table := table', live := s.live - {id}, leaving := s.leaving + {id}, faulted := s.faulted || r.Err?)
    case Free(id) =>
      s.(ids := Do(s.ids, Release(id)), leaving := s.leaving - {id})
  }

  /** The state after a run from `s`, if every action was enabled when it happened. */
  function Run<T>(s: State<T>, actions: seq<Action<T>>): Option<State<T>> {
    if actions == [] then Some(s)
    else
      match Run(s, actions[..|actions| - 1])
      case None => None
      case Some(s1) => if Enabled(s1, actions[|actions| - 1]) then Some(Apply(s1, actions[|actions| - 1])) else None
  }

  /** No allocation of the run was made with all 2^32 indices outstanding. */
  predicate NeverExhausted<T>(s: State<T>, actions: seq<Action<T>>)
    requires Run(s, actions).Some?
  {
    actions == [] ||
    var init, a := actions[..|actions| - 1], actions[|actions| - 1];
    NeverExhausted(s, init) && (a.Prepare? ==> !Exhausted(Run(s, init).value.ids.v))
  }

  /** Nor did one take up an index whose epochs had come round. */
  predicate NeverRepeats<T>(s: State<T>, actions: seq<Action<T>>)
    requires Run(s, actions).Some?
  {
    actions == [] ||
    var init, a := actions[..|actions| - 1], actions[|actions| - 1];
    NeverRepeats(s, init) && (a.Prepare? ==> !Repeats(Run(s, init).value.ids.v))
  }

  ghost predicate IdsPartitioned<T>(s: State<T>) {
    && s.ids.owned == s.futures + s.live.Keys + s.leaving
    && s.futures !! s.live.Keys !! s.leaving
  }

  /** An id resolves exactly if it is live, and then to its value. */
  ghost predicate Faithful<T>(s: State<T>, id: Id) {
    if id in s.live then Lookup(s.table, id) == Ok(s.live[id]) else Lookup(s.table, id).Err?
  }

  ghost predicate TableMatches<T>(s: State<T>) {
    && |s.table| <= |s.ids.turns|
    && forall id :: Faithful(s, id)
  }

  ghost predicate Inv<T>(s: State<T>) {
    Apart(s.ids) && IdsPartitioned(s) && TableMatches(s) && !s.faulted
  }

  lemma InvIsFaithful<T>(s: State<T>, id: Id)
    requires Inv(s)
    ensures Faithful(s, id)
  {
  }

  /** No other outstanding id has the index of an outstanding id. */
  lemma IndicesDiffer<T>(s: State<T>, id: Id, other: Id)
    requires Inv(s) && id in s.ids.owned && other in s.ids.owned && id != other
    ensures id.index != other.index
  {
  }

  /** The id stored in the element of an id, or that id itself if the element is vacant. */
  function StoredAt<T>(s: State<T>, id: Id): Id {
    if id.index < |s.table| && s.table[id.index].Occupied? then Id(id.index, s.table[id.index].epoch) else id
  }

  /** The element of an id that is held is vacant unless that id is live. */
  lemma OnlyLiveIsOccupied<T>(s: State<T>, id: Id)
    requires Inv(s) && (id in s.ids.owned || id in s.ids.v.free) && id !in s.live
    ensures id.index >= |s.table| || s.table[id.index].Vacant?
  {
    hide CountsOk;
    var stored := StoredAt(s, id);
    assert Faithful(s, stored);
    assert stored in s.live ==> stored in s.ids.owned;
  }

  lemma FutureIsVacant<T>(s: State<T>, id: Id)
    requires Inv(s) && id in s.futures
    ensures id.index < |s.ids.turns|
    ensures id.index >= |s.table| || s.table[id.index].Vacant?
  {
    OnlyLiveIsOccupied(s, id);
  }

  lemma AssignKeepsTable<T>(s: State<T>, id: Id, value: T)
    requires Inv(s) && Enabled(s, Assign(id, value))
    ensures TableMatches(Apply(s, Assign(id, value))) && !Apply(s, Assign(id, value)).faulted
  {
    hide HeldApart, CountsOk, Lookup;
    FutureIsVacant(s, id);
    var s' := Apply(s, Assign(id, value));
    forall x: Id
      ensures Faithful(s', x)
    {
      assert Faithful(s, x);
      LookupAfterInsert(s.table, id, value, x);
      if x in s.live {
        IndicesDiffer(s, id, x);
      }
    }
  }

  lemma VacateKeepsTable<T>(s: State<T>, id: Id)
    requires Inv(s) && Enabled(s, Vacate(id))
    ensures TableMatches(Apply(s, Vacate(id))) && !Apply(s, Vacate(id)).faulted
  {
    hide HeldApart, CountsOk, Lookup;
    var s' := Apply(s, Vacate(id));
    assert Faithful(s, id);
    forall x: Id
      ensures Faithful(s', x)
    {
      assert Faithful(s, x);
      LookupAfterRemove(s.table, id, x);
      if x in s.live && x != id {
        IndicesDiffer(s, id, x);
      }
    }
    LookupAfterRemove(s.table, id, id);
  }

  lemma SameTableStaysFaithful<T>(s: State<T>, s': State<T>)
    requires TableMatches(s) && s'.table == s.table && s'.live == s.live && |s'.ids.turns| >= |s.ids.turns|
    ensures TableMatches(s')
  {
    forall x: Id
      ensures Faithful(s', x)
    {
      assert Faithful(s, x);
    }
  }

  lemma StepKeepsPartition<T>(s: State<T>, a: Action<T>)
    requires IdsPartitioned(s) && Enabled(s, a)
    requires a.Prepare? ==> Allocate(s.ids.v).1 !in s.ids.owned
    ensures IdsPartitioned(Apply(s, a))
  {
    match a
    case Prepare =>
    case Assign(id, value) => assert (s.live[id := value]).Keys == s.live.Keys + {id};
    case Vacate(id) => assert (s.live - {id}).Keys == s.live.Keys - {id};
    case Free(id) =>
  }

  lemma PrepareKeepsInv<T>(s: State<T>)
    requires Inv(s) && !Exhausted(s.ids.v)
    ensures Inv(Apply(s, Prepare))
  {
    hide HeldApart, CountsOk, Faithful;
    AllocEffect(s.ids, Allocate(s.ids.v).1);
    IndexIsFree(s.ids, Allocate(s.ids.v).1);
    DoKeepsApart(s.ids, Alloc);
    StepKeepsPartition(s, Prepare);
    SameTableStaysFaithful(s, Apply(s, Prepare));
  }

  lemma MoveKeepsInv<T>(s: State<T>, a: Action<T>)
    requires Inv(s) && Enabled(s, a) && (a.Assign? || a.Vacate?)
    ensures Inv(Apply(s, a))
  {
    StepKeepsPartition(s, a);
    match a
    case Assign(id, value) => AssignKeepsTable(s, id, value);
    case Vacate(id) => VacateKeepsTable(s, id);
  }

  lemma FreeKeepsInv<T>(s: State<T>, id: Id)
    requires Inv(s) && Enabled(s, Free(id))
    ensures Inv(Apply(s, Free(id)))
  {
    DoKeepsApart(s.ids, Release(id));
    StepKeepsPartition(s, Free(id));
    SameTableStaysFaithful(s, Apply(s, Free(id)));
  }

  /** Every step keeps the invariant, an allocation if and only if the indices are not exhausted. */
  lemma StepKeepsInv<T>(s: State<T>, a: Action<T>)
    requires Inv(s) && Enabled(s, a)
    ensures Inv(Apply(s, a)) <==> (a.Prepare? ==> !Exhausted(s.ids.v))
  {
    hide HeldApart, CountsOk, IdsPartitioned, TableMatches, Exhausted;
    match a
    case Prepare =>
      DoKeepsApart(s.ids, Alloc);
      if !Exhausted(s.ids.v) {
        PrepareKeepsInv(s);
      }
    case Free(id) => FreeKeepsInv(s, id);
    case _ => MoveKeepsInv(s, a);
  }

  lemma {:induction false} RunKeepsInv<T>(s: State<T>, actions: seq<Action<T>>)
    requires Inv(s)
    requires Run(s, actions).Some? && NeverExhausted(s, actions)
    ensures Inv(Run(s, actions).value)
  {
    hide Inv, Enabled, Exhausted;
    if actions == [] {
    } else {
      var init := actions[..|actions| - 1];
      RunKeepsInv(s, init);
      StepKeepsInv(Run(s, init).value, actions[|actions| - 1]);
    }
  }

  /** The allocator sees the registry's allocations and releases, and nothing else. */
  lemma StepOfIds<T>(s: State<T>, a: Action<T>)
    requires Enabled(s, a)
    ensures Apply(s, a).ids ==
            match a
            case Prepare => Do(s.ids, Alloc)
            case Free(id) => Do(s.ids, Release(id))
            case _ => s.ids
  {
  }

  lemma {:induction false} RunKeepsTracked<T>(s: State<T>, actions: seq<Action<T>>)
    requires Apart(s.ids) && Tracked(s.ids)
    requires Run(s, actions).Some? && NeverRepeats(s, actions)
    ensures Apart(Run(s, actions).value.ids) && Tracked(Run(s, actions).value.ids) && NeverExhausted(s, actions)
  {
    hide Apart, Tracked, Enabled, Apply, Do;
    if actions == [] {
    } else {
      var init, a := actions[..|actions| - 1], actions[|actions| - 1];
      RunKeepsTracked(s, init);
      var s1 := Run(s, init).value;
      StepOfIds(s1, a);
      match a
      case Prepare => DoKeepsTracked(s1.ids, Alloc);
      case Free(id) => FreeIsAllowed(s1, id); DoKeepsTracked(s1.ids, Release(id));
      case _ =>
    }
  }

  lemma FreeIsAllowed<T>(s: State<T>, id: Id)
    requires Enabled(s, Free(id))
    ensures Allowed(s.ids, Release(id))
  {
  }

  lemma InitialInv<T>()
    ensures Inv(Initial<T>())
  {
    var s := Initial<T>();
    forall id
      ensures Faithful(s, id)
    {
    }
  }

  /** A state reached by some run that never exhausts the indices. */
  ghost predicate Reached<T>(actions: seq<Action<T>>, s: State<T>) {
    Run(Initial(), actions) == Some(s) && NeverExhausted(Initial(), actions)
  }

  /** With at most 2^32 allocations the indices are never exhausted, and no id is repeated. */
  lemma {:induction false} FewAllocationsNeverRepeat<T>(actions: seq<Action<T>>, s: State<T>)
    requires Run(Initial(), actions) == Some(s) && |s.ids.issued| <= U32_MODULUS
    ensures Reached(actions, s) && NeverRepeats(Initial(), actions)
  {
    hide Apart, Tracked, Enabled, Repeats, Exhausted;
    if actions == [] {
    } else {
      var init, a := actions[..|actions| - 1], actions[|actions| - 1];
      var s1 := Run(Initial<T>(), init).value;
      IssuedGrows(s1, a);
      FewAllocationsNeverRepeat(init, s1);
      NothingIsTracked<T>();
      RunKeepsTracked(Initial<T>(), init);
      if a.Prepare? {
        TooFewToRepeat(s1.ids);
      }
      RunKeepsTracked(Initial<T>(), actions);
    }
  }

  lemma NothingIsTracked<T>()
    ensures Apart(Initial<T>().ids) && Tracked(Initial<T>().ids)
  {
  }

  lemma IssuedGrows<T>(s: State<T>, a: Action<T>)
    requires Enabled(s, a)
    ensures Apply(s, a).ids.issued == if a.Prepare? then s.ids.issued + [Allocate(s.ids.v).1] else s.ids.issued
  {
  }

  lemma ReachedInv<T>(actions: seq<Action<T>>, s: State<T>)
    requires Reached(actions, s)
    ensures Inv(s)
  {
    InitialInv<T>();
    RunKeepsInv(Initial(), actions);
  }

  /** Safety of the two-lock protocol: an index on the free list is vacant in the table, outstanding ids have
      distinct indices, and so no insertion ever met an occupied element and no removal ever panicked. */
  lemma FreeIndicesAreVacant<T>(actions: seq<Action<T>>, s: State<T>)
    requires Reached(actions, s)
    ensures forall id | id in s.ids.v.free :: id.index >= |s.table| || s.table[id.index].Vacant?
    ensures DistinctIndices(s.ids.owned) && s.ids.owned == s.futures + s.live.Keys + s.leaving
    ensures !s.faulted
  {
    ReachedInv(actions, s);
    forall id | id in s.ids.v.free
      ensures id.index >= |s.table| || s.table[id.index].Vacant?
    {
      assert id !in s.ids.owned;
      OnlyLiveIsOccupied(s, id);
    }
  }

  /** Refinement: to its users the registry is the partial map `live`, on every id whatsoever. */
  lemma RegistryRefinesMap<T>(actions: seq<Action<T>>, s: State<T>, id: Id)
    requires Reached(actions, s)
    ensures if id in s.live then Lookup(s.table, id) == Ok(s.live[id]) else Lookup(s.table, id).Err?
  {
    ReachedInv(actions, s);
    assert Faithful(s, id);
  }

  lemma LeavingCanBeFreed<T>(s: State<T>, id: Id)
    requires Inv(s)
    ensures id in s.leaving ==> Allowed(s.ids, Release(id))
  {
    hide HeldApart, TableMatches;
    if id in s.leaving {
      assert id in s.ids.owned;
      assert s.ids.owned != {};
    }
  }

  /** Nothing that its users may do fails: in every reachable state an id can be prepared, assigned while it is a
      future, vacated while it is live, and then freed. The allocator's count never falls short. */
  lemma StepsAreEnabled<T>(actions: seq<Action<T>>, s: State<T>, id: Id, value: T)
    requires Reached(actions, s)
    ensures Enabled(s, Prepare)
    ensures Enabled(s, Assign(id, value)) <==> id in s.futures
    ensures Enabled(s, Vacate(id)) <==> id in s.live
    ensures Enabled(s, Free(id)) <==> id in s.leaving
  {
    ReachedInv(actions, s);
    hide Reached, Inv;
    LeavingCanBeFreed(s, id);
  }

  /** A registered id keeps resolving to the value assigned to it for as long as nobody removes it. */
  lemma {:induction false} ResolvesUntilRemoved<T>(past: seq<Action<T>>, s: State<T>, id: Id, more: seq<Action<T>>)
    requires Reached(past, s) && id in s.live && Vacate(id) !in more
    requires Run(s, more).Some? && NeverExhausted(s, more)
    ensures var s' := Run(s, more).value;
            id in s'.live && s'.live[id] == s.live[id] && Lookup(s'.table, id) == Ok(s.live[id])
  {
    hide HeldApart, CountsOk, Lookup, TableMatches;
    ReachedInv(past, s);
    if more == [] {
    } else {
      var init, a := more[..|more| - 1], more[|more| - 1];
      ResolvesUntilRemoved(past, s, id, init);
      RunKeepsInv(s, init);
      var s1 := Run(s, init).value;
      assert a.Assign? ==> a.id != id;
    }
    RunKeepsInv(s, more);
    InvIsFaithful(Run(s, more).value, id);
  }

  /** An id that is neither registered nor about to be resolves again only if it is issued again. */
  lemma {:induction false} ResolvesAgainOnlyIfIssuedAgain<T>(
      past: seq<Action<T>>, s: State<T>, id: Id, more: seq<Action<T>>)
    requires Reached(past, s) && id !in s.futures && id !in s.live
    requires Run(s, more).Some? && NeverExhausted(s, more)
    ensures var s' := Run(s, more).value;
            && s.ids.issued <= s'.ids.issued
            && (id !in s'.ids.issued[|s.ids.issued|..] ==>
                  id !in s'.futures && id !in s'.live && Lookup(s'.table, id).Err?)
  {
    hide HeldApart, CountsOk, Lookup, TableMatches, Exhausted, Do, Allocate;
    ReachedInv(past, s);
    if more == [] {
    } else {
      var init, a := more[..|more| - 1], more[|more| - 1];
      ResolvesAgainOnlyIfIssuedAgain(past, s, id, init);
      var s1, n := Run(s, init).value, |s.ids.issued|;
      IssuedGrows(s1, a);
      if a.Prepare? {
        assert (s1.ids.issued + [Allocate(s1.ids.v).1])[n..] == s1.ids.issued[n..] + [Allocate(s1.ids.v).1];
      }
    }
    RunKeepsInv(s, more);
    InvIsFaithful(Run(s, more).value, id);
  }

  /** An id that has been issued and removed never resolves again, even after its index is reused, as long as no
      allocation takes up an index whose epochs have come round. */
  lemma RemovedNeverResolvesAgain<T>(past: seq<Action<T>>, s: State<T>, id: Id, more: seq<Action<T>>)
    requires Run(Initial(), past) == Some(s) && NeverRepeats(Initial(), past)
    requires id in s.ids.issued && id !in s.futures && id !in s.live
    requires Run(s, more).Some? && NeverRepeats(s, more)
    ensures var s' := Run(s, more).value;
            id in s'.ids.issued && id !in s'.futures && id !in s'.live && Lookup(s'.table, id).Err?
  {
    hide Apart, Tracked, Lookup, Run;
    NothingIsTracked<T>();
    RunKeepsTracked(Initial<T>(), past);
    RunKeepsTracked(s, more);
    ResolvesAgainOnlyIfIssuedAgain(past, s, id, more);
    NewOnesAreNew(Run(s, more).value.ids, |s.ids.issued|, id);
  }

  lemma NewOnesAreNew(h: History, n: nat, id: Id)
    requires Tracked(h) && n <= |h.issued| && id in h.issued[..n]
    ensures id in h.issued && id !in h.issued[n..]
  {
    hide HeldNewest, IssuedOk;
    var i :| 0 <= i < n && h.issued[i] == id;
    forall j | n <= j < |h.issued|
      ensures h.issued[j] != id
    {
      assert h.issued[j].index == h.issued[i].index ==> Rank(h.issued[i].epoch) < Rank(h.issued[j].epoch);
    }
  }

  lemma OccupiedIdsAreLive<T>(s: State<T>)
    requires TableMatches(s) && |s.table| <= U32_MODULUS
    ensures OccupiedIds(s.table) == s.live.Keys
  {
    forall id
      ensures id in OccupiedIds(s.table) <==> id in s.live.Keys
    {
      OccupiedIdsAreTheResolvable(s.table, id);
      assert Faithful(s, id);
    }
  }

  lemma PartitionCounts<T>(s: State<T>)
    requires IdsPartitioned(s)
    ensures |s.ids.owned| == |s.futures| + |s.live.Keys| + |s.leaving|
  {
    assert |s.futures + s.live.Keys| == |s.futures| + |s.live.Keys|;
  }

  /** In every reachable state the ids allocated exceed the values kept by exactly the
      unassigned futures and the removals that have not yet freed their id. */
  lemma ReportAccounts<T>(actions: seq<Action<T>>, s: State<T>)
    requires Reached(actions, s)
    ensures s.ids.v.count == CountOccupied(s.table) + |s.futures| + |s.leaving|
    ensures CountOccupied(s.table) == |s.live|
  {
    ReachedInv(actions, s);
    CountOccupiedIsCardinality(s.table);
    OccupiedIdsAreLive(s);
    PartitionCounts(s);
  }

  /** Why the order inside `remove` matters: had the id been freed before the element was vacated, a second
      thread could be handed the index, overwrite the first value, and make the first removal panic. */
  lemma FreeingFirstLosesAValue<T>(v: T, w: T)
    ensures var (v1, a) := Allocate(NO_VALUES);
            var (table1, _) := Inserted([], a, v);
            var v2 := ReleaseId(v1, a);
            var (v3, b) := Allocate(v2);
            var (table2, found) := Inserted(table1, b, w);
            found.OverwroteOtherEpoch? && Removed(table2, a) == ([Vacant], Err(EpochMismatch))
  {
    var (v1, a) := Allocate(NO_VALUES);
    var (table1, _) := Inserted([], a, v);
    assert table1 == [Occupied(v, 1)];
    var (v3, b) := Allocate(ReleaseId(v1, a));
    assert b == Id(0, 2);
    var (table2, _) := Inserted(table1, b, w);
    assert table2 == [Occupied(w, 2)];
    assert Removed(table2, a).0 == [Vacant];
  }

  // ----- The registry as the source's object

  datatype Report = Report(numAllocated: nat, numKeptFromUser: nat, numReleasedFromUser: nat)

  class Registry<T> {
    const identity: IdentityValues
    const storage: Storage<T>

    constructor ()
      ensures fresh(identity) && fresh(storage)
      ensures identity.State() == NO_VALUES && storage.elements == []
    {
      identity := new IdentityValues();
      storage := new Storage<T>();
    }

    method Prepare() returns (id: Id)
      requires !identity.idSource.External?
      modifies identity
      ensures (identity.State(), id) == Allocate(old(identity.State()))
    {
      id := identity.Alloc();
    }

    method Assign(id: Id, value: T) returns (found: Found)
      modifies storage
      ensures (storage.elements, found) == Inserted(old(storage.elements), id, value)
    {
      found := storage.Insert(id, value);
    }

    /** A panic of the table leaves the id allocated. */
    method Remove(id: Id) returns (r: Result<T, Panic>)
      requires identity.count > 0
      modifies storage, identity
      ensures (storage.elements, r) == Removed(old(storage.elements), id)
      ensures identity.State() == if r.Ok? then ReleaseId(old(identity.State()), id) else old(identity.State())
    {
      r := storage.Remove(id);
      if r.Ok? {
        identity.Release(id);
      }
    }

    /** Runs with the table locked throughout, so it sees one state of both halves. */
    method GenerateReport() returns (report: Report)
      ensures report.numAllocated == identity.count
      ensures report.numKeptFromUser == CountOccupied(storage.elements)
      ensures report.numKeptFromUser + report.numReleasedFromUser == |storage.elements|
    {
      var kept, released := 0, 0;
      for i := 0 to |storage.elements|
        invariant kept == CountOccupied(storage.elements[..i]) && kept + released == i
      {
        assert storage.elements[..i + 1][..i] == storage.elements[..i];
        if storage.elements[i].Occupied? {
          kept := kept + 1;
        } else {
          released := released + 1;
        }
      }
      assert storage.elements[..|storage.elements|] == storage.elements;
      report := Report(identity.count, kept, released);
    }
  }
}
