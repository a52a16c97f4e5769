/**
  The free-list allocator `IdentityValues` of wgpu-core/src/identity.rs, and its histories.
*/
module Identity {
  import opened Integers
  import opened Wrappers
  import opened RawIds

  // ----- The allocator

  datatype IdSource = External | Allocated | NoSource

  /** The fields of `IdentityValues`. */
  datatype Values = Values(free: seq<Id>, nextIndex: U32, count: nat, source: IdSource)

  const NO_VALUES := Values([], 0, 0, NoSource)

  /** `alloc`; 32-bit additions wrap around. */
  function Allocate(v: Values): (r: (Values, Id)) {
    var n := |v.free|;
    if n > 0 then
      var entry := v.free[n - 1];
      (Values(v.free[..n - 1], v.nextIndex, v.count + 1, Allocated), Id(entry.index, (entry.epoch + 1) % U32_MODULUS))
    else
      (Values([], (v.nextIndex + 1) % U32_MODULUS, v.count + 1, Allocated), Id(v.nextIndex, 1))
  }

  /** `release` of an id that is counted. */
  function ReleaseId(v: Values, id: Id): Values
    requires v.count > 0
  {
    v.(free := if v.source.Allocated? then v.free + [id] else v.free, count := v.count - 1)
  }

  /** `mark_as_used`. */
  function MarkId(v: Values): Values {
    v.(count := v.count + 1, source := External)
  }

  class IdentityValues {
    var free: seq<Id>
    var nextIndex: U32
    var count: nat
    var idSource: IdSource

    constructor ()
      ensures State() == NO_VALUES
    {
      free, nextIndex, count, idSource := [], 0, 0, NoSource;
    }

    function State(): Values
      reads this
    {
      Values(free, nextIndex, count, idSource)
    }

    /** Panics, hence the precondition, if ids were provided externally before. */
    method Alloc() returns (id: Id)
      requires !idSource.External?
      modifies this
      ensures (State(), id) == Allocate(old(State()))
    {
      idSource := Allocated;
      count := count + 1;
      if |free| > 0 {
        var entry := free[|free| - 1];
        free := free[..|free| - 1];
        id := Id(entry.index, (entry.epoch + 1) % U32_MODULUS);
      } else {
        var index := nextIndex;
        nextIndex := (nextIndex + 1) % U32_MODULUS;
        id := Id(index, 1);
      }
    }

    /** Panics, hence the precondition, if ids were allocated here before. */
    method MarkAsUsed(id: Id) returns (r: Id)
      requires !idSource.Allocated?
      modifies this
      ensures r == id && State() == MarkId(old(State()))
    {
      idSource := External;
      count := count + 1;
      r := id;
    }

    method Release(id: Id)
      requires count > 0
      modifies this
      ensures State() == ReleaseId(old(State()), id)
    {
      if idSource.Allocated? {
        free := free + [id];
      }
      count := count - 1;
    }
  }

  // ----- Histories of external ids

  datatype ExternalOp = Mark(id: Id) | Unmark(id: Id)

  /** The allocator's values, and the external ids marked and not yet released. */
  function RunExternal(ops: seq<ExternalOp>): Option<(Values, multiset<Id>)> {
    if ops == [] then Some((NO_VALUES, multiset{}))
    else
      match RunExternal(ops[..|ops| - 1])
      case None => None
      case Some((v, used)) =>
        match ops[|ops| - 1]
        case Mark(id) => Some((MarkId(v), used + multiset{id}))
        case Unmark(id) => if id in used && v.count > 0 then Some((ReleaseId(v, id), used - multiset{id})) else None
  }

  /** For external ids the allocator only counts: the count is the number of ids marked and not yet released, no index
      is taken and none kept for reuse, and mixing in allocated ids stays forbidden. */
  lemma {:induction false} ExternalIdsAreCounted(ops: seq<ExternalOp>)
    requires RunExternal(ops).Some?
    ensures var (v, used) := RunExternal(ops).value;
            && v.count == |used|
            && v.free == [] && v.nextIndex == 0
            && v.source == (if ops == [] then NoSource else External)
  {
    if ops == [] {
    } else {
      ExternalIdsAreCounted(ops[..|ops| - 1]);
    }
  }

  // ----- Histories of allocations and releases
  // ----- Histories of allocations and releases

  datatype Op = Alloc | Release(id: Id)

  /** An allocator with its history: the ids now outstanding, every id ever issued in order,
      and how often each index has been issued. */
  datatype History = History(v: Values, owned: set<Id>, issued: seq<Id>, turns: seq<nat>)

  const NO_HISTORY := History(NO_VALUES, {}, [], [])

  predicate Allowed(h: History, op: Op) {
    op.Release? ==> op.id in h.owned && h.v.count > 0
  }

  function Do(h: History, op: Op): History
    requires Allowed(h, op)
  {
    match op
    case Alloc =>
      var (v, id) := Allocate(h.v);
      History(v, h.owned + {id}, h.issued + [id],
              if id.index < |h.turns| then h.turns[id.index := h.turns[id.index] + 1] else h.turns + [1])
    case Release(id) =>
      h.(v := ReleaseId(h.v, id), owned := h.owned - {id})
  }

  function Run(ops: seq<Op>): Option<History> {
    if ops == [] then Some(NO_HISTORY)
    else
      match Run(ops[..|ops| - 1])
      case None => None
      case Some(h) => if Allowed(h, ops[|ops| - 1]) then Some(Do(h, ops[|ops| - 1])) else None
  }

  // ----- The index of an allocation

  ghost predicate DistinctIndices(ids: set<Id>) {
    forall a, b | a in ids && b in ids :: a.index == b.index ==> a == b
  }

  /** No two of the ids held, by the user or on the free list, share an index. */
  ghost predicate HeldApart(h: History) {
    && DistinctIndices(h.owned)
    && (forall a, b | a in h.owned && b in h.v.free :: a.index != b.index)
    && (forall i, j | 0 <= i < j < |h.v.free| :: h.v.free[i].index != h.v.free[j].index)
    && (forall id | id in h.owned :: id.index < |h.turns|)
    && (forall id | id in h.v.free :: id.index < |h.turns|)
  }

  /** Every index issued so far is held. */
  predicate CountsOk(h: History) {
    && |h.turns| <= U32_MODULUS && h.v.nextIndex == |h.turns| % U32_MODULUS
    && (h.v.source.Allocated? || (h.v.source.NoSource? && h.issued == [] && h.turns == []))
    && h.v.count == |h.owned|
    && |h.owned| + |h.v.free| == |h.turns| <= |h.issued|
  }

  ghost predicate Apart(h: History) {
    HeldApart(h) && CountsOk(h)
  }

  /** The free list is empty and `next_index` has come back to zero: all 2^32 indices are outstanding. */
  predicate Exhausted(v: Values) {
    v.free == [] && v.nextIndex == 0 && v.count > 0
  }

  /** Another id with the index of the next allocation is outstanding. */
  ghost predicate Collides(h: History) {
    exists id :: id in h.owned && id.index == Allocate(h.v).1.index
  }

  lemma AllocEffect(h: History, id: Id)
    requires Apart(h) && !Exhausted(h.v) && id == Allocate(h.v).1
    ensures if h.v.free == [] then id.index == |h.turns| && id.epoch == 1
            else
              var top := h.v.free[|h.v.free| - 1];
              id.index == top.index < |h.turns| && id.epoch == (top.epoch + 1) % U32_MODULUS
    ensures var h' := Do(h, Alloc);
            && h'.turns == (if h.v.free == [] then h.turns + [1] else h.turns[id.index := h.turns[id.index] + 1])
            && h'.owned == h.owned + {id} && h'.issued == h.issued + [id]
            && h'.v.free == (if h.v.free == [] then [] else h.v.free[..|h.v.free| - 1])
  {
    if h.v.free != [] {
      assert h.v.free[|h.v.free| - 1] in h.v.free;
    }
  }

  /** The index of an allocation is that of no id held, but for the entry it takes from the free list. */
  lemma IndexIsFree(h: History, id: Id)
    requires Apart(h) && !Exhausted(h.v) && id == Allocate(h.v).1
    ensures forall x | x in h.owned :: x.index != id.index
    ensures forall x | x in Do(h, Alloc).v.free :: x.index != id.index
  {
    AllocEffect(h, id);
    hide Do, Allocate, Exhausted;
    if h.v.free != [] {
      var n := |h.v.free| - 1;
      assert h.v.free[n] in h.v.free;
      forall x | x in h.v.free[..n]
        ensures x.index != id.index
      {
        var i :| 0 <= i < n && h.v.free[i] == x;
      }
    }
  }

  lemma AllocKeepsCounts(h: History)
    requires Apart(h) && !Exhausted(h.v)
    ensures CountsOk(Do(h, Alloc))
  {
    var id := Allocate(h.v).1;
    AllocEffect(h, id);
    IndexIsFree(h, id);
    hide HeldApart;
    assert id !in h.owned;
  }

  lemma AllocKeepsHeldApart(h: History)
    requires Apart(h) && !Exhausted(h.v)
    ensures HeldApart(Do(h, Alloc))
  {
    var h', id := Do(h, Alloc), Allocate(h.v).1;
    AllocEffect(h, id);
    IndexIsFree(h, id);
    hide Do, Allocate, Exhausted, CountsOk;
    assert forall x | x in h'.v.free :: x in h.v.free;
  }

  lemma AllocKeepsApart(h: History)
    requires Apart(h) && !Exhausted(h.v)
    ensures Apart(Do(h, Alloc))
  {
    hide HeldApart, CountsOk;
    AllocKeepsCounts(h);
    AllocKeepsHeldApart(h);
  }

  lemma ReleaseKeepsApart(h: History, id: Id)
    requires Apart(h) && Allowed(h, Release(id))
    ensures Apart(Do(h, Release(id)))
  {
    var h' := Do(h, Release(id));
    assert h'.v.free == h.v.free + [id];
    assert forall x | x in h'.v.free :: x == id || x in h.v.free;
  }

  /** An operation keeps the ids held apart, an allocation if and only if the indices are not exhausted. */
  lemma DoKeepsApart(h: History, op: Op)
    requires Apart(h) && Allowed(h, op)
    ensures Apart(Do(h, op)) <==> (op.Alloc? ==> !Exhausted(h.v))
  {
    match op
    case Alloc =>
      if Exhausted(h.v) {
        assert Do(h, Alloc).v.nextIndex == 1;
      } else {
        AllocKeepsApart(h);
      }
    case Release(id) => ReleaseKeepsApart(h, id);
  }

  /** There are no more ids with distinct indices than indices. */
  lemma {:induction false} Pigeonhole(ids: set<Id>, low: nat, high: nat)
    requires low <= high && DistinctIndices(ids) && forall id | id in ids :: low <= id.index < high
    ensures |ids| <= high - low
    decreases high
  {
    if low == high {
      assert ids == {};
    } else if id :| id in ids && id.index == high - 1 {
      Pigeonhole(ids - {id}, low, high - 1);
    } else {
      Pigeonhole(ids, low, high - 1);
    }
  }

  lemma CollidesIffExhausted(h: History)
    requires Apart(h)
    ensures Collides(h) <==> Exhausted(h.v)
  {
    if Exhausted(h.v) {
      assert Allocate(h.v).1 == Id(0, 1);
      if forall id | id in h.owned :: id.index != 0 {
        Pigeonhole(h.owned, 1, U32_MODULUS);
      }
    } else {
      IndexIsFree(h, Allocate(h.v).1);
    }
  }

  predicate NeverExhausted(ops: seq<Op>)
    requires Run(ops).Some?
  {
    ops == [] ||
    var init, op := ops[..|ops| - 1], ops[|ops| - 1];
    NeverExhausted(init) && (op.Alloc? ==> !Exhausted(Run(init).value.v))
  }

  /** No allocation handed out the index of an outstanding id. */
  ghost predicate NeverCollides(ops: seq<Op>)
    requires Run(ops).Some?
  {
    ops == [] ||
    var init, op := ops[..|ops| - 1], ops[|ops| - 1];
    NeverCollides(init) && (op.Alloc? ==> !Collides(Run(init).value))
  }

  lemma {:induction false} RunKeepsApart(ops: seq<Op>)
    requires Run(ops).Some? && NeverExhausted(ops)
    ensures Apart(Run(ops).value)
  {
    if ops == [] {
    } else {
      var init, op := ops[..|ops| - 1], ops[|ops| - 1];
      RunKeepsApart(init);
      hide Apart, Do, Exhausted;
      DoKeepsApart(Run(init).value, op);
    }
  }

  /** The promise of distinct indices, exactly: over a history of any length no allocation hands out the index of an
      outstanding id if and only if none is made with all 2^32 indices outstanding. Outstanding ids then have
      distinct indices, and their number is the count. */
  lemma {:induction false} IndicesAreDistinctIffNeverExhausted(ops: seq<Op>)
    requires Run(ops).Some?
    ensures NeverCollides(ops) <==> NeverExhausted(ops)
    ensures NeverExhausted(ops) ==>
              var h := Run(ops).value;
              DistinctIndices(h.owned) && h.v.count == |h.owned| == |h.turns| - |h.v.free|
  {
    if ops == [] {
    } else {
      hide Do, Exhausted, Collides, HeldApart;
      var init := ops[..|ops| - 1];
      IndicesAreDistinctIffNeverExhausted(init);
      if NeverExhausted(init) {
        RunKeepsApart(init);
        CollidesIffExhausted(Run(init).value);
      }
    }
    if NeverExhausted(ops) {
      RunKeepsApart(ops);
    }
  }

  /** An id can be released if and only if it is outstanding: the count never falls short. */
  lemma ReleaseIsAllowed(ops: seq<Op>, id: Id)
    requires Run(ops).Some? && NeverExhausted(ops)
    ensures Allowed(Run(ops).value, Alloc)
    ensures Allowed(Run(ops).value, Release(id)) <==> id in Run(ops).value.owned
  {
    hide HeldApart, Run, NeverExhausted;
    RunKeepsApart(ops);
    assert id in Run(ops).value.owned ==> |Run(ops).value.owned| > 0;
  }

  // ----- The epoch of an allocation

  /** The place of an epoch among those issued for one index, from 1 on: the epoch zero comes last. */
  function Rank(epoch: U32): nat {
    if epoch == 0 then U32_MODULUS else epoch
  }

  /** The last id issued for its index. */
  predicate Newest(h: History, id: Id) {
    id.index < |h.turns| && Rank(id.epoch) == h.turns[id.index]
  }

  /** Every id held is the last one of its index. */
  ghost predicate HeldNewest(h: History) {
    && (forall id | id in h.owned :: Newest(h, id))
    && (forall id | id in h.v.free :: Newest(h, id))
  }

  /** The id is not above the last one of its index. */
  predicate UpToNewest(h: History, id: Id) {
    id.index < |h.turns| && Rank(id.epoch) <= h.turns[id.index]
  }

  /** The ids issued for an index have exactly the epochs up to its last one. */
  ghost predicate IssuedOk(h: History) {
    && (forall i | 0 <= i < |h.turns| :: 1 <= h.turns[i] <= |h.issued|)
    && (forall id: Id :: id in h.issued <==> UpToNewest(h, id))
  }

  ghost predicate RanksIncrease(issued: seq<Id>) {
    forall i, j | 0 <= i < j < |issued| && issued[i].index == issued[j].index ::
      Rank(issued[i].epoch) < Rank(issued[j].epoch)
  }

  ghost predicate Tracked(h: History) {
    HeldNewest(h) && IssuedOk(h) && RanksIncrease(h.issued)
  }

  /** The epoch of the entry to be taken from the free list has come back to zero, or the indices are exhausted. */
  predicate Repeats(v: Values) {
    if v.free == [] then Exhausted(v) else v.free[|v.free| - 1].epoch == 0
  }

  lemma TopIsNewest(h: History)
    requires Tracked(h) && h.v.free != []
    ensures Newest(h, h.v.free[|h.v.free| - 1])
  {
  }

  lemma EpochIsNext(h: History, id: Id)
    requires Apart(h) && Tracked(h) && !Repeats(h.v) && id == Allocate(h.v).1
    ensures Rank(id.epoch) == if h.v.free == [] then 1 else h.turns[h.v.free[|h.v.free| - 1].index] + 1
    ensures h.v.free != [] ==> h.v.free[|h.v.free| - 1].index < |h.turns|
    ensures !Exhausted(h.v) && Newest(Do(h, Alloc), id)
  {
    hide Apart, Tracked, Do, Allocate;
    AllocEffect(h, id);
    if h.v.free != [] {
      TopIsNewest(h);
    }
  }

  /** The exact condition for one allocation: its id was issued before if and only if it repeats. */
  lemma SeenBeforeIffRepeats(h: History)
    requires Apart(h) && Tracked(h)
    ensures Allocate(h.v).1 in h.issued <==> Repeats(h.v)
  {
    var id := Allocate(h.v).1;
    if Repeats(h.v) {
      if h.v.free != [] {
        assert Newest(h, h.v.free[|h.v.free| - 1]);
      }
      assert id.epoch == 1 && id.index < |h.turns|;
    } else {
      EpochIsNext(h, id);
      AllocEffect(h, id);
    }
  }

  lemma AllocKeepsNewest(h: History)
    requires Apart(h) && Tracked(h) && !Repeats(h.v)
    ensures HeldNewest(Do(h, Alloc))
  {
    var h', id := Do(h, Alloc), Allocate(h.v).1;
    EpochIsNext(h, id);
    AllocEffect(h, id);
    IndexIsFree(h, id);
    hide Do, Allocate, Exhausted, Repeats, IssuedOk, RanksIncrease, CountsOk, Rank;
    forall x | x in h'.owned
      ensures Newest(h', x)
    {
      assert x != id ==> Newest(h, x);
    }
    forall x | x in h'.v.free
      ensures Newest(h', x)
    {
      assert x in h.v.free && Newest(h, x);
    }
  }

  lemma IssuedGrows(h: History, op: Op)
    requires Allowed(h, op)
    ensures Do(h, op).issued == if op.Alloc? then h.issued + [Allocate(h.v).1] else h.issued
  {
  }

  /** How often the index of the fresh id had been issued before. */
  lemma TurnsAfter(h: History, id: Id)
    requires Apart(h) && Tracked(h) && !Repeats(h.v) && id == Allocate(h.v).1
    ensures var turns, turns' := h.turns, Do(h, Alloc).turns;
            && id.index <= |turns| && |turns'| == |turns| + (if id.index == |turns| then 1 else 0)
            && turns'[id.index] == Rank(id.epoch) == (if id.index == |turns| then 1 else turns[id.index] + 1)
            && forall i | 0 <= i < |turns| && i != id.index :: turns'[i] == turns[i]
  {
    EpochIsNext(h, id);
    AllocEffect(h, id);
  }

  lemma UpToNewestAfter(h: History, id: Id, x: Id)
    requires Apart(h) && Tracked(h) && !Repeats(h.v) && id == Allocate(h.v).1
    ensures UpToNewest(Do(h, Alloc), x) <==> UpToNewest(h, x) || x == id
  {
    TurnsAfter(h, id);
    hide Do, Allocate, Apart, Tracked, Repeats;
  }

  lemma AllocKeepsTurns(h: History)
    requires Apart(h) && Tracked(h) && !Repeats(h.v)
    ensures var h' := Do(h, Alloc);
            forall i | 0 <= i < |h'.turns| :: 1 <= h'.turns[i] <= |h'.issued|
  {
    var h', id := Do(h, Alloc), Allocate(h.v).1;
    TurnsAfter(h, id);
    IssuedGrows(h, Alloc);
    assert |h'.issued| == |h.issued| + 1;
    hide Do, Allocate, Apart, Repeats, HeldNewest, RanksIncrease, UpToNewest, Rank;
    forall i | 0 <= i < |h'.turns|
      ensures 1 <= h'.turns[i] <= |h'.issued|
    {
      assert i != id.index ==> h'.turns[i] == h.turns[i];
    }
  }

  lemma AllocKeepsIssued(h: History)
    requires Apart(h) && Tracked(h) && !Repeats(h.v)
    ensures IssuedOk(Do(h, Alloc))
  {
    var h', id := Do(h, Alloc), Allocate(h.v).1;
    AllocKeepsTurns(h);
    IssuedGrows(h, Alloc);
    hide Do, Allocate, Apart, Repeats, HeldNewest, RanksIncrease, UpToNewest;
    forall x: Id
      ensures x in h'.issued <==> UpToNewest(h', x)
    {
      UpToNewestAfter(h, id, x);
      assert x in h'.issued <==> x in h.issued || x == id;
    }
  }

  lemma AllocKeepsIncrease(h: History)
    requires Apart(h) && Tracked(h) && !Repeats(h.v)
    ensures RanksIncrease(Do(h, Alloc).issued)
  {
    var id := Allocate(h.v).1;
    EpochIsNext(h, id);
    AllocEffect(h, id);
    hide Do, Allocate, Exhausted, Repeats, HeldNewest, HeldApart, CountsOk;
    forall i | 0 <= i < |h.issued| && h.issued[i].index == id.index
      ensures Rank(h.issued[i].epoch) < Rank(id.epoch)
    {
      assert h.issued[i] in h.issued;
    }
  }

  lemma SameIssuedOk(h: History, h': History)
    requires IssuedOk(h) && h'.issued == h.issued && h'.turns == h.turns
    ensures IssuedOk(h')
  {
    assert forall id :: UpToNewest(h', id) <==> UpToNewest(h, id);
  }

  lemma ReleaseKeepsTracked(h: History, id: Id)
    requires Apart(h) && Tracked(h) && Allowed(h, Release(id))
    ensures Tracked(Do(h, Release(id)))
  {
    var h' := Do(h, Release(id));
    assert h'.issued == h.issued && h'.turns == h.turns && h'.owned <= h.owned;
    assert h'.v.free == h.v.free + [id];
    hide Apart, Do, IssuedOk, RanksIncrease;
    SameIssuedOk(h, h');
    forall x | x in h'.v.free || x in h'.owned
      ensures Newest(h', x)
    {
      assert x == id || x in h.v.free || x in h.owned;
      assert Newest(h, x);
    }
  }

  /** An operation keeps track of the ids, unless it is an allocation that repeats. */
  lemma DoKeepsTracked(h: History, op: Op)
    requires Apart(h) && Tracked(h) && Allowed(h, op)
    requires op.Alloc? ==> !Repeats(h.v)
    ensures Apart(Do(h, op)) && Tracked(Do(h, op))
  {
    hide HeldApart, CountsOk, HeldNewest, IssuedOk, RanksIncrease;
    DoKeepsApart(h, op);
    match op
    case Alloc =>
      AllocKeepsNewest(h);
      AllocKeepsIssued(h);
      AllocKeepsIncrease(h);
    case Release(id) => ReleaseKeepsTracked(h, id);
  }

  /** With fewer than 2^32 allocations before it, an allocation does not repeat. */
  lemma TooFewToRepeat(h: History)
    requires Apart(h) && Tracked(h) && |h.issued| < U32_MODULUS
    ensures !Repeats(h.v)
  {
    if h.v.free != [] {
      TopIsNewest(h);
    }
  }

  predicate NeverRepeats(ops: seq<Op>)
    requires Run(ops).Some?
  {
    ops == [] ||
    var init, op := ops[..|ops| - 1], ops[|ops| - 1];
    NeverRepeats(init) && (op.Alloc? ==> !Repeats(Run(init).value.v))
  }

  lemma {:induction false} RunKeepsTracked(ops: seq<Op>)
    requires Run(ops).Some? && NeverRepeats(ops)
    ensures Apart(Run(ops).value) && Tracked(Run(ops).value) && NeverExhausted(ops)
  {
    if ops == [] {
    } else {
      var init, op := ops[..|ops| - 1], ops[|ops| - 1];
      RunKeepsTracked(init);
      hide Apart, Tracked, Do;
      DoKeepsTracked(Run(init).value, op);
    }
  }

  predicate AllDifferent(issued: seq<Id>) {
    forall i, j | 0 <= i < j < |issued| :: issued[i] != issued[j]
  }

  lemma DifferentIffNewIsNew(issued: seq<Id>, id: Id)
    ensures AllDifferent(issued + [id]) <==> AllDifferent(issued) && id !in issued
  {
    var longer := issued + [id];
    assert forall i | 0 <= i < |issued| :: longer[i] == issued[i];
    assert longer[|issued|] == id;
    if i :| 0 <= i < |issued| && issued[i] == id {
      assert longer[i] == longer[|issued|];
    }
  }

  /** The promise of never-before-seen ids, exactly: over a history of any length no id is issued twice if and only if
      no allocation takes an entry with epoch zero, or an index with all of them outstanding. */
  lemma {:induction false} IdsAreFreshIffNeverRepeats(ops: seq<Op>)
    requires Run(ops).Some?
    ensures AllDifferent(Run(ops).value.issued) <==> NeverRepeats(ops)
  {
    hide Apart, Tracked, Do, Allocate, Repeats, AllDifferent, Allowed;
    if ops == [] {
      NoneIssued();
    } else {
      var init, op := ops[..|ops| - 1], ops[|ops| - 1];
      IdsAreFreshIffNeverRepeats(init);
      var h := Run(init).value;
      IssuedGrows(h, op);
      if op.Alloc? {
        DifferentIffNewIsNew(h.issued, Allocate(h.v).1);
        if NeverRepeats(init) {
          RunKeepsTracked(init);
          SeenBeforeIffRepeats(h);
        }
      }
    }
  }

  lemma NoneIssued()
    ensures AllDifferent(NO_HISTORY.issued)
  {
  }

  // ----- Histories without wrap-around

  /** Whether the addition that the next allocation makes stays within 32 bits: that of the epoch on top of the
      free list or, if the list is empty, that of `next_index`. */
  predicate Fits(v: Values) {
    if v.free == [] then v.nextIndex < U32_MODULUS - 1 else v.free[|v.free| - 1].epoch < U32_MODULUS - 1
  }

  /** Nothing has wrapped around so far. */
  predicate Small(h: History) {
    |h.turns| < U32_MODULUS && forall i | 0 <= i < |h.turns| :: h.turns[i] < U32_MODULUS
  }

  ghost predicate Inv(h: History) {
    Apart(h) && Tracked(h) && Small(h)
  }

  lemma SmallDoesNotRepeat(h: History)
    requires Inv(h)
    ensures !Repeats(h.v)
  {
    if h.v.free != [] {
      assert Newest(h, h.v.free[|h.v.free| - 1]);
    }
  }

  lemma FittingAllocation(h: History)
    requires Inv(h) && Fits(h.v)
    ensures var (v, id) := Allocate(h.v);
            if h.v.free == [] then id == Id(h.v.nextIndex, 1) && v.nextIndex == h.v.nextIndex + 1
            else id.index < |h.turns| && id.epoch == h.turns[id.index] + 1 && v.nextIndex == h.v.nextIndex
                 && id.index == h.v.free[|h.v.free| - 1].index
  {
    if h.v.free != [] {
      SmallDoesNotRepeat(h);
      TopIsNewest(h);
    }
    hide Inv;
  }

  /** While nothing has wrapped, an allocation yields an id never issued before, and one epoch above the last of its
      index if its addition fits. */
  lemma AllocationIsFresh(h: History)
    requires Inv(h)
    ensures var (v, id) := Allocate(h.v);
            && id !in h.issued && (forall x | x in h.owned :: x.index != id.index)
            && (Fits(h.v) ==>
                  if h.v.free == [] then id == Id(h.v.nextIndex, 1) && v.nextIndex == h.v.nextIndex + 1
                  else id.index < |h.turns| && id.epoch == h.turns[id.index] + 1 && v.nextIndex == h.v.nextIndex
                       && id.index == h.v.free[|h.v.free| - 1].index)
  {
    SmallDoesNotRepeat(h);
    if Fits(h.v) {
      FittingAllocation(h);
    }
    SeenBeforeIffRepeats(h);
    EpochIsNext(h, Allocate(h.v).1);
    hide Apart, Tracked, Small, Do, Repeats, Exhausted, Allocate, Fits;
    IndexIsFree(h, Allocate(h.v).1);
  }

  lemma SmallIffItFits(h: History)
    requires Inv(h)
    ensures Small(Do(h, Alloc)) <==> Fits(h.v)
  {
    SmallDoesNotRepeat(h);
    TurnsAfter(h, Allocate(h.v).1);
    EpochIsNext(h, Allocate(h.v).1);
    AllocEffect(h, Allocate(h.v).1);
    if h.v.free == [] {
      assert |h.turns| == h.v.nextIndex;
    } else {
      TopIsNewest(h);
    }
    hide HeldApart, CountsOk, Tracked, Do, Repeats, Exhausted, Allocate;
  }

  /** An allocation after which still nothing has wrapped is one whose addition fits. */
  lemma AllocKeepsInvIffItFits(h: History)
    requires Inv(h)
    ensures Inv(Do(h, Alloc)) <==> Fits(h.v)
  {
    SmallDoesNotRepeat(h);
    hide HeldApart, Tracked, Repeats;
    DoKeepsTracked(h, Alloc);
    SmallIffItFits(h);
  }

  lemma DoKeepsInv(h: History, op: Op)
    requires Inv(h) && Allowed(h, op)
    requires op.Alloc? ==> Fits(h.v)
    ensures Inv(Do(h, op))
  {
    match op
    case Alloc => AllocKeepsInvIffItFits(h);
    case Release(id) => DoKeepsTracked(h, op);
  }

  /** What an addition that does not fit leads to: an epoch wraps to zero, which no id has, or `next_index` wraps to
      zero, and the allocation after this one repeats the first id of all. */
  lemma OtherwiseWraps(h: History)
    requires Inv(h) && !Fits(h.v)
    ensures var (v, id) := Allocate(h.v);
            if h.v.free == [] then Allocate(v).1 == Id(0, 1) && Id(0, 1) in h.issued else id.epoch == 0
  {
    if h.v.free == [] {
      assert UpToNewest(h, Id(0, 1));
    }
  }

  /** Every addition of the history stayed within 32 bits. */
  predicate NeverWraps(ops: seq<Op>)
    requires Run(ops).Some?
  {
    ops == [] ||
    var init, op := ops[..|ops| - 1], ops[|ops| - 1];
    NeverWraps(init) && (op.Alloc? ==> Fits(Run(init).value.v))
  }

  lemma {:induction false} RunKeepsInv(ops: seq<Op>)
    requires Run(ops).Some? && NeverWraps(ops)
    ensures Inv(Run(ops).value) && NeverRepeats(ops)
  {
    if ops == [] {
    } else {
      var init, op := ops[..|ops| - 1], ops[|ops| - 1];
      RunKeepsInv(init);
      hide Inv, Do, Fits;
      SmallDoesNotRepeat(Run(init).value);
      DoKeepsInv(Run(init).value, op);
    }
  }

  /** With fewer than 2^32 - 1 allocations before it, an allocation fits. */
  lemma FewAllocationsFit(h: History)
    requires Inv(h) && |h.issued| < U32_MODULUS - 1
    ensures Fits(h.v)
  {
    if h.v.free != [] {
      assert Newest(h, h.v.free[|h.v.free| - 1]);
    }
  }

  /** No addition wraps during the first 2^32 - 1 allocations. */
  lemma {:induction false} FewAllocationsNeverWrap(ops: seq<Op>)
    requires Run(ops).Some? && |Run(ops).value.issued| < U32_MODULUS
    ensures NeverWraps(ops)
  {
    if ops == [] {
    } else {
      var init, op := ops[..|ops| - 1], ops[|ops| - 1];
      var h := Run(init).value;
      IssuedGrows(h, op);
      hide Inv, Do, Fits;
      FewAllocationsNeverWrap(init);
      RunKeepsInv(init);
      if op.Alloc? {
        FewAllocationsFit(h);
      }
    }
  }

  /** The greatest number of ids outstanding at once in the course of a history. */
  function HighWater(ops: seq<Op>): nat
    requires Run(ops).Some?
  {
    var now := |Run(ops).value.owned|;
    if ops == [] then now
    else
      var before := HighWater(ops[..|ops| - 1]);
      if now > before then now else before
  }

  lemma {:induction false} TurnsAreHighWater(ops: seq<Op>)
    requires Run(ops).Some? && NeverExhausted(ops)
    ensures |Run(ops).value.turns| == HighWater(ops)
  {
    if ops == [] {
    } else {
      var init, op := ops[..|ops| - 1], ops[|ops| - 1];
      var h := Run(init).value;
      TurnsAreHighWater(init);
      RunKeepsApart(init);
      RunKeepsApart(ops);
      if op.Alloc? {
        AllocEffect(h, Allocate(h.v).1);
      }
    }
  }

  /** `next_index` is the high-water mark of occupancy, in 32 bits; without wrap-around it is exactly that. */
  lemma NextIndexIsHighWater(ops: seq<Op>)
    requires Run(ops).Some? && NeverExhausted(ops)
    ensures Run(ops).value.v.nextIndex == HighWater(ops) % U32_MODULUS
    ensures NeverWraps(ops) ==> Run(ops).value.v.nextIndex == HighWater(ops)
  {
    hide HeldApart, Tracked, Run, HighWater, NeverWraps, NeverExhausted;
    TurnsAreHighWater(ops);
    RunKeepsApart(ops);
    if NeverWraps(ops) {
      RunKeepsInv(ops);
    }
  }

  /** What the invariant says of the ids. */
  lemma IdsWithoutWrap(h: History)
    requires Inv(h)
    ensures forall i, j | 0 <= i < j < |h.issued| && h.issued[i].index == h.issued[j].index ::
              h.issued[i].epoch < h.issued[j].epoch
    ensures forall id | id in h.issued :: id.epoch >= 1
  {
    hide Apart, HeldNewest;
    forall id | id in h.issued
      ensures id.epoch >= 1
    {
      assert UpToNewest(h, id);
    }
    assert forall i | 0 <= i < |h.issued| :: h.issued[i] in h.issued;
  }

  /** And of the allocator's numbers. */
  lemma NumbersWithoutWrap(h: History)
    requires Inv(h)
    ensures DistinctIndices(h.owned) && forall id | id in h.owned :: id.index < h.v.nextIndex
    ensures h.v.count == |h.owned| == h.v.nextIndex - |h.v.free|
    ensures h.v.nextIndex <= |h.issued| && forall id | id in h.v.free :: id.epoch <= |h.issued|
  {
    hide RanksIncrease;
    assert h.v.nextIndex == |h.turns|;
    forall id | id in h.v.free
      ensures id.epoch <= |h.issued|
    {
      assert Newest(h, id);
    }
  }

  /** While no addition wraps, and so for at most 2^32 - 1 allocations in any case, no id is issued twice, the epochs
      issued for one index strictly increase from 1, outstanding ids have distinct indices below `next_index`,
      and the count is `next_index` less the length of the free list. */
  lemma IdsAreNeverReused(ops: seq<Op>)
    requires Run(ops).Some? && (NeverWraps(ops) || |Run(ops).value.issued| < U32_MODULUS)
    ensures var h := Run(ops).value;
            && AllDifferent(h.issued)
            && (forall i, j | 0 <= i < j < |h.issued| && h.issued[i].index == h.issued[j].index ::
                  h.issued[i].epoch < h.issued[j].epoch)
            && (forall id | id in h.issued :: id.epoch >= 1 && ZipOf(id) != 0)
            && DistinctIndices(h.owned)
            && (forall id | id in h.owned :: id.index < h.v.nextIndex)
            && h.v.count == |h.owned| == h.v.nextIndex - |h.v.free|
  {
    hide ZipOf, AllDifferent, Inv, Run, DistinctIndices;
    if !NeverWraps(ops) {
      FewAllocationsNeverWrap(ops);
    }
    RunKeepsInv(ops);
    IdsAreFreshIffNeverRepeats(ops);
    var h := Run(ops).value;
    IdsWithoutWrap(h);
    NumbersWithoutWrap(h);
    forall id | id in h.issued
      ensures ZipOf(id) != 0
    {
      ZipOfId(id);
    }
  }

  /** Neither 32-bit addition of `alloc` overflows during the first 2^32 - 1 allocations. */
  lemma AllocationsDoNotOverflow(ops: seq<Op>)
    requires Run(ops).Some? && |Run(ops).value.issued| < U32_MODULUS - 1
    ensures var v := Run(ops).value.v;
            && v.nextIndex + 1 < U32_MODULUS
            && forall id | id in v.free :: id.epoch + 1 < U32_MODULUS
  {
    hide Inv, Run;
    FewAllocationsNeverWrap(ops);
    RunKeepsInv(ops);
    NumbersWithoutWrap(Run(ops).value);
  }

  /** An id with epoch zero has been issued, or there were 2^32 ids outstanding at once. */
  ghost predicate WrapShows(ops: seq<Op>)
    requires Run(ops).Some?
  {
    (exists id :: id in Run(ops).value.issued && id.epoch == 0) || HighWater(ops) >= U32_MODULUS
  }

  lemma FirstWrapShows(h: History)
    requires Inv(h) && !Fits(h.v)
    ensures var h' := Do(h, Alloc);
            (exists id :: id in h'.issued && id.epoch == 0) || |h'.owned| == U32_MODULUS
  {
    SmallDoesNotRepeat(h);
    var id := Allocate(h.v).1;
    AllocEffect(h, id);
    if h.v.free == [] {
      AllocKeepsApart(h);
    } else {
      OtherwiseWraps(h);
      assert id in Do(h, Alloc).issued;
    }
  }

  lemma {:induction false} WrappingShows(ops: seq<Op>)
    requires Run(ops).Some? && !NeverWraps(ops)
    ensures WrapShows(ops)
  {
    if ops == [] {
    } else {
      var init, op := ops[..|ops| - 1], ops[|ops| - 1];
      var h := Run(init).value;
      IssuedGrows(h, op);
      hide Inv, Fits, Do, Allocate, Allowed;
      if NeverWraps(init) {
        RunKeepsInv(init);
        FirstWrapShows(h);
      } else {
        WrappingShows(init);
        if id :| id in h.issued && id.epoch == 0 {
          assert id in Run(ops).value.issued;
        }
      }
    }
  }

  /** The promises of the packing and of the high-water mark, exactly: over a history of any length every epoch issued
      is at least 1 and `next_index` is the high-water mark if and only if no addition wraps. */
  lemma EpochsAndMarkAreTrueIffNeverWraps(ops: seq<Op>)
    requires Run(ops).Some?
    ensures (forall id | id in Run(ops).value.issued :: id.epoch >= 1)
            && Run(ops).value.v.nextIndex == HighWater(ops)
            <==> NeverWraps(ops)
  {
    hide Inv, Run;
    if NeverWraps(ops) {
      IdsAreNeverReused(ops);
      RunKeepsInv(ops);
      RunKeepsTracked(ops);
      NextIndexIsHighWater(ops);
    } else {
      WrappingShows(ops);
    }
  }

  /** `zip` refuses the id of an allocation if and only if that takes index 0 with its greatest epoch from the
      free list. */
  lemma ZipRefusesIff(v: Values)
    ensures ZipOf(Allocate(v).1) == 0 <==> v.free != [] && v.free[|v.free| - 1] == Id(0, U32_MODULUS - 1)
  {
    hide ZipOf;
    ZipOfId(Allocate(v).1);
  }

  // ----- The conditions are met

  /** How many ids are kept outstanding meanwhile, which is also the index that turns. */
  function Kept(keep: bool): nat {
    if keep then 1 else 0
  }

  function TurnId(keep: bool, n: nat): Id {
    Id(Kept(keep), n % U32_MODULUS)
  }

  /** Allocate and release in turn `n` times, with one other id outstanding all the time if `keep`. */
  function Cycle(keep: bool, n: nat): seq<Op> {
    if n == 0 then if keep then [Alloc] else []
    else Cycle(keep, n - 1) + [Alloc] + [Release(TurnId(keep, n))]
  }

  lemma RunOneMore(ops: seq<Op>, op: Op)
    requires Run(ops).Some? && Allowed(Run(ops).value, op)
    ensures Run(ops + [op]) == Some(Do(Run(ops).value, op))
  {
    assert (ops + [op])[..|ops|] == ops;
  }

  function KeptIds(keep: bool): set<Id> {
    if keep then {Id(0, 1)} else {}
  }

  /** The state that `Cycle` reaches. */
  predicate Cycled(h: History, keep: bool, n: nat) {
    && h.v.free == (if n == 0 then [] else [TurnId(keep, n)])
    && h.v.nextIndex == Kept(keep) + (if n == 0 then 0 else 1)
    && h.v.count == Kept(keep) && (n > 0 || keep ==> h.v.source.Allocated?)
    && h.owned == KeptIds(keep) && |h.issued| == n + Kept(keep)
    && (n > 0 ==> TurnId(keep, 1) in h.issued) && (keep ==> Id(0, 0) !in h.issued)
  }

  /** The state half-way through a turn. */
  predicate HoldsTurnId(h: History, keep: bool, n: nat) {
    && h.v == Values([], Kept(keep) + 1, Kept(keep) + 1, Allocated)
    && h.owned == KeptIds(keep) + {TurnId(keep, n)} && |h.issued| == n + Kept(keep)
    && TurnId(keep, 1) in h.issued && (keep ==> Id(0, 0) !in h.issued)
  }

  lemma CycleAllocates(h: History, keep: bool, n: nat)
    requires n > 0 && Cycled(h, keep, n - 1)
    ensures HoldsTurnId(Do(h, Alloc), keep, n)
  {
    assert Allocate(h.v).1 == TurnId(keep, n);
    assert TurnId(keep, n) in Do(h, Alloc).issued;
  }

  lemma CycleReleases(h: History, keep: bool, n: nat)
    requires n > 0 && HoldsTurnId(h, keep, n)
    ensures Allowed(h, Release(TurnId(keep, n))) && Cycled(Do(h, Release(TurnId(keep, n))), keep, n)
  {
    var h2 := Do(h, Release(TurnId(keep, n)));
    assert h2.v.free == [TurnId(keep, n)] && h2.owned == KeptIds(keep);
  }

  lemma CycleTurn(ops: seq<Op>, keep: bool, n: nat)
    requires n > 0 && Run(ops).Some? && Cycled(Run(ops).value, keep, n - 1)
    ensures var turned := Run(ops + [Alloc] + [Release(TurnId(keep, n))]);
            turned.Some? && Cycled(turned.value, keep, n)
  {
    hide Run, Do, Cycled, HoldsTurnId, TurnId;
    var h := Run(ops).value;
    CycleAllocates(h, keep, n);
    RunOneMore(ops, Alloc);
    hide Allowed;
    CycleReleases(Do(h, Alloc), keep, n);
    RunOneMore(ops + [Alloc], Release(TurnId(keep, n)));
  }

  lemma CycleStarts(keep: bool)
    ensures Run(Cycle(keep, 0)).Some? && Cycled(Run(Cycle(keep, 0)).value, keep, 0)
  {
    if keep {
      FirstAllocation();
      RunOneMore([], Alloc);
      assert [] + [Alloc] == [Alloc];
      hide Run, Do;
    }
  }

  lemma FirstAllocation()
    ensures Do(NO_HISTORY, Alloc) == History(Values([], 1, 1, Allocated), {Id(0, 1)}, [Id(0, 1)], [1])
  {
    assert {} + {Id(0, 1)} == {Id(0, 1)};
  }

  lemma {:induction false} CycleReaches(keep: bool, n: nat)
    ensures Run(Cycle(keep, n)).Some? && Cycled(Run(Cycle(keep, n)).value, keep, n)
  {
    hide Run, Cycled, TurnId;
    if n == 0 {
      CycleStarts(keep);
    } else {
      CycleReaches(keep, n - 1);
      CycleTurn(Cycle(keep, n - 1), keep, n);
    }
  }

  /** A history of 2^32 - 1 allocations, with one id outstanding at a time, after which the next one
      wraps to the id that `zip` refuses. */
  lemma TheNextAllocationWraps()
    ensures var r := Run(Cycle(false, U32_MODULUS - 1));
            && r.Some? && |r.value.issued| == U32_MODULUS - 1
            && !Fits(r.value.v)
            && Allocate(r.value.v).1 == Id(0, 0)
            && ZipOf(Id(0, 0)) == 0
  {
    hide Run, Cycle, ZipOf;
    CycleReaches(false, U32_MODULUS - 1);
    ZipOfId(Id(0, 0));
  }

  /** A history of 2^32 + 1 allocations, with at most two ids outstanding at a time and none that `zip` refuses, after
      which the next one repeats an id: with index 0 kept outstanding, the epochs of index 1 come round. */
  lemma TheNextAllocationRepeats()
    ensures var r := Run(Cycle(true, U32_MODULUS));
            && r.Some? && |r.value.issued| == U32_MODULUS + 1
            && Repeats(r.value.v)
            && Allocate(r.value.v).1 == Id(1, 1)
            && Id(1, 1) in r.value.issued && Id(0, 0) !in r.value.issued
  {
    hide Run, Cycle;
    CycleReaches(true, U32_MODULUS);
  }
}
