/**
  The deduplicating resource pool of wgpu-core/src/pool.rs as an interleaved protocol.

  Every action below is one atomic region of the source: a map operation under the
  pool's mutex, one transition of a once-cell, or one change of a strong count.
  Calls to `get_or_init`, the constructors they run, clones and drops of handles, and
  the `remove` that the resource's own `Drop` performs may interleave in any order.
  Cells, resources and calls are named by their position in the sequences of a `State`,
  so a name is never reused.
*/
module ResourcePool {
  import opened Wrappers

  type CellId = nat
  type ResId = nat
  type CallId = nat

  /** What a once-cell holds. `Full` holds a weak reference, which may be dangling. */
  datatype Content = Empty | Initializing(call: CallId) | Full(res: ResId)

  /** A once-cell, together with the key it was inserted under. */
  datatype Cell<K> = Cell(key: K, content: Content)

  /** A resource: `handles` counts the strong references of clients; while `building`,
      the constructor's own strong reference keeps it alive as well. `removed` records that
      its `Drop` has called `remove`. */
  datatype Resource<K> = Resource(key: K, cell: CellId, builder: CallId, building: bool, handles: nat, removed: bool)
  {
    predicate Live() {
      building || handles > 0
    }

    predicate RemovalPending() {
      !Live() && !removed
    }
  }

  /** Where a call of `get_or_init` stands. */
  datatype Pc =
    | AtEntry                                  // about to lock the map
    | AtCell(cell: CellId)                     // holds a clone of the cell, about to initialise or read it
    | Constructing(cell: CellId)               // runs its constructor inside the cell's initialiser
    | Built(cell: CellId, res: ResId)          // the constructor succeeded, the cell is not yet set
    | Upgrading(cell: CellId, res: ResId)      // read a weak reference, about to upgrade it
    | Returned(result: Option<ResId>)          // `Some` for `Ok`, `None` for the constructor's error
    | Panicked                                 // an `unwrap` met `None`

  /** A call: `key` and `hasConstructor` are the options consumed with `take`,
      `runs` counts how often the constructor was started. */
  datatype Call<K> = Call(arg: K, key: Option<K>, hasConstructor: bool, runs: nat, pc: Pc)

  datatype State<K> = State(
    slots: map<K, CellId>, cells: seq<Cell<K>>, resources: seq<Resource<K>>, calls: seq<Call<K>>)

  datatype Action<K> =
    | Start(k: K)
    | Enter(t: CallId)
    | BeginInit(t: CallId)
    | ReadCell(t: CallId)
    | ConstructorOk(t: CallId)
    | ConstructorErr(t: CallId)
    | Publish(t: CallId)
    | Upgrade(t: CallId)
    | CloneHandle(r: ResId)
    | DropHandle(r: ResId)
    | Remove(r: ResId)

  function Initial<K>(): State<K> {
    State(map[], [], [], [])
  }

  predicate AtSomeCell<K>(s: State<K>, t: CallId) {
    t < |s.calls| && s.calls[t].pc.AtCell? && s.calls[t].pc.cell < |s.cells|
  }

  /** When an action may happen. A call at a cell that another call initialises is blocked. */
  predicate Enabled<K(==)>(s: State<K>, a: Action<K>) {
    match a
    case Start(_) => true
    case Enter(t) => t < |s.calls| && s.calls[t].pc.AtEntry?
    case BeginInit(t) => AtSomeCell(s, t) && s.cells[s.calls[t].pc.cell].content.Empty?
    case ReadCell(t) => AtSomeCell(s, t) && s.cells[s.calls[t].pc.cell].content.Full?
    case ConstructorOk(t) => t < |s.calls| && s.calls[t].pc.Constructing?
    case ConstructorErr(t) => t < |s.calls| && s.calls[t].pc.Constructing? && s.calls[t].pc.cell < |s.cells|
    case Publish(t) =>
      t < |s.calls| && s.calls[t].pc.Built? && s.calls[t].pc.cell < |s.cells| && s.calls[t].pc.res < |s.resources|
    case Upgrade(t) => t < |s.calls| && s.calls[t].pc.Upgrading? && s.calls[t].pc.res < |s.resources|
    case CloneHandle(r) => r < |s.resources| && s.resources[r].handles > 0
    case DropHandle(r) => r < |s.resources| && s.resources[r].handles > 0
    case Remove(r) => r < |s.resources| && s.resources[r].RemovalPending()
  }

  function WithPc<K>(s: State<K>, t: CallId, pc: Pc): State<K>
    requires t < |s.calls|
  {
    s.(calls := s.calls[t := s.calls[t].(pc := pc)])
  }

  function WithContent<K>(s: State<K>, c: CellId, content: Content): State<K>
    requires c < |s.cells|
  {
    s.(cells := s.cells[c := s.cells[c].(content := content)])
  }

  function WithResource<K>(s: State<K>, r: ResId, res: Resource<K>): State<K>
    requires r < |s.resources|
  {
    s.(resources := s.resources[r := res])
  }

  /** The map lookup-or-insert of one trip round the loop, under the mutex. */
  function EnterStep<K(==)>(s: State<K>, t: CallId): State<K>
    requires Enabled(s, Enter(t))
  {
    match s.calls[t].key
    case None => WithPc(s, t, Panicked)
    case Some(k) =>
      if k in s.slots then WithPc(s, t, AtCell(s.slots[k]))
      else
        var c := |s.cells|;
        WithPc(s.(slots := s.slots[k := c], cells := s.cells + [Cell(k, Empty)]), t, AtCell(c))
  }

  /** The initialiser's first line: take the constructor and the key, and start the constructor. */
  function BeginInitStep<K(==)>(s: State<K>, t: CallId): State<K>
    requires Enabled(s, BeginInit(t))
  {
    var call := s.calls[t];
    var c := call.pc.cell;
    if !call.hasConstructor || call.key.None? then WithPc(s, t, Panicked)
    else
      WithContent(s, c, Initializing(t)).(
        calls := s.calls[
          t := call.(key := None, hasConstructor := false, runs := call.runs + 1, pc := Constructing(c))])
  }

  function Apply<K(==)>(s: State<K>, a: Action<K>): State<K>
    requires Enabled(s, a)
  {
    match a
    case Start(k) => s.(calls := s.calls + [Call(k, Some(k), true, 0, AtEntry)])
    case Enter(t) => EnterStep(s, t)
    case BeginInit(t) => BeginInitStep(s, t)
    case ReadCell(t) =>
      var c := s.calls[t].pc.cell;
      WithPc(s, t, Upgrading(c, s.cells[c].content.res))
    case ConstructorOk(t) =>
      var c := s.calls[t].pc.cell;
      var r := |s.resources|;
      WithPc(s.(resources := s.resources + [Resource(s.calls[t].arg, c, t, true, 0, false)]), t, Built(c, r))
    case ConstructorErr(t) =>
      WithPc(WithContent(s, s.calls[t].pc.cell, Empty), t, Returned(None))
    case Publish(t) =>
      var c, r := s.calls[t].pc.cell, s.calls[t].pc.res;
      var s1 := WithContent(s, c, Full(r));
      var s2 := WithResource(s1, r, s.resources[r].(building := false, handles := s.resources[r].handles + 1));
      WithPc(s2, t, Returned(Some(r)))
    case Upgrade(t) =>
      var r := s.calls[t].pc.res;
      if s.resources[r].Live() then
        WithPc(WithResource(s, r, s.resources[r].(handles := s.resources[r].handles + 1)), t, Returned(Some(r)))
      else
        WithPc(s, t, AtEntry)
    case CloneHandle(r) => WithResource(s, r, s.resources[r].(handles := s.resources[r].handles + 1))
    case DropHandle(r) => WithResource(s, r, s.resources[r].(handles := s.resources[r].handles - 1))
    case Remove(r) =>
      WithResource(s, r, s.resources[r].(removed := true)).(slots := s.slots - {s.resources[r].key})
  }

  /** The state after a run, if every action of the run was enabled when it happened. */
  function Run<K(==)>(actions: seq<Action<K>>): Option<State<K>> {
    if actions == [] then Some(Initial())
    else
      match Run(actions[..|actions| - 1])
      case None => None
      case Some(s) =>
        var a := actions[|actions| - 1];
        if Enabled(s, a) then Some(Apply(s, a)) else None
  }

  // ----- The inductive invariant

  predicate Linked<K(==)>(s: State<K>, c: CellId)
    requires c < |s.cells|
  {
    s.cells[c].key in s.slots && s.slots[s.cells[c].key] == c
  }

  /** A cell that is still needed: uninitialised, being initialised, or holding a resource
      that is live or dead but not yet removed. */
  predicate InUse<K>(s: State<K>, c: CellId)
    requires c < |s.cells|
  {
    var content := s.cells[c].content;
    content.Full? ==> content.res < |s.resources| && !s.resources[content.res].removed
  }

  ghost predicate SlotsOk<K>(s: State<K>) {
    && (forall k <- s.slots :: s.slots[k] < |s.cells| && s.cells[s.slots[k]].key == k)
    && (forall c: CellId :: c < |s.cells| ==> (InUse(s, c) <==> Linked(s, c)))
  }

  ghost predicate CellOk<K>(s: State<K>, c: CellId)
    requires c < |s.cells|
  {
    match s.cells[c].content
    case Empty => true
    case Initializing(t) =>
      t < |s.calls| && (s.calls[t].pc == Constructing(c) || (s.calls[t].pc.Built? && s.calls[t].pc.cell == c))
    case Full(r) =>
      r < |s.resources| && s.resources[r].cell == c && s.resources[r].key == s.cells[c].key && !s.resources[r].building
  }

  ghost predicate ResourceOk<K>(s: State<K>, r: ResId)
    requires r < |s.resources|
  {
    var res := s.resources[r];
    && res.cell < |s.cells|
    && res.key == s.cells[res.cell].key
    && (res.building ==> res.builder < |s.calls| && s.calls[res.builder].pc == Built(res.cell, r) && !res.removed)
    && (!res.building ==> s.cells[res.cell].content == Full(r))
    && (res.removed ==> !res.Live())
  }

  ghost predicate CallOk<K>(s: State<K>, t: CallId)
    requires t < |s.calls|
  {
    var call := s.calls[t];
    && (call.pc.AtEntry? || call.pc.AtCell? || call.pc.Upgrading? ==>
          call.key == Some(call.arg) && call.hasConstructor && call.runs == 0)
    && call.runs <= 1
    && (call.pc.Constructing? || call.pc.Built? || call.pc == Returned(None) ==> call.runs == 1)
    && match call.pc
       case AtEntry => true
       case AtCell(c) => c < |s.cells| && s.cells[c].key == call.arg
       case Constructing(c) => c < |s.cells| && s.cells[c].key == call.arg && s.cells[c].content == Initializing(t)
       case Built(c, r) =>
         && c < |s.cells| && s.cells[c].key == call.arg && s.cells[c].content == Initializing(t)
         && r < |s.resources| && s.resources[r].building && s.resources[r].builder == t && s.resources[r].cell == c
         && s.resources[r].handles == 0
       case Upgrading(c, r) =>
         c < |s.cells| && s.cells[c].key == call.arg && s.cells[c].content == Full(r) && r < |s.resources|
       case Returned(result) =>
         result.Some? ==> result.value < |s.resources| && s.resources[result.value].key == call.arg
       case Panicked => false
  }

  ghost predicate Inv<K>(s: State<K>) {
    && SlotsOk(s)
    && (forall c: CellId :: c < |s.cells| ==> CellOk(s, c))
    && (forall r: ResId :: r < |s.resources| ==> ResourceOk(s, r))
    && (forall t: CallId :: t < |s.calls| ==> CallOk(s, t))
  }

  /** The call an action belongs to. */
  function Actor<K>(a: Action<K>): Option<CallId> {
    match a
    case Enter(t) => Some(t)
    case BeginInit(t) => Some(t)
    case ReadCell(t) => Some(t)
    case ConstructorOk(t) => Some(t)
    case ConstructorErr(t) => Some(t)
    case Publish(t) => Some(t)
    case Upgrade(t) => Some(t)
    case _ => None
  }

  lemma EnterKeepsSlots<K>(s: State<K>, t: CallId)
    requires SlotsOk(s) && Enabled(s, Enter(t))
    requires forall c: CellId :: c < |s.cells| ==> CellOk(s, c)
    ensures SlotsOk(Apply(s, Enter(t)))
  {
    var s' := Apply(s, Enter(t));
    forall c: CellId | c < |s'.cells|
      ensures InUse(s', c) <==> Linked(s', c)
    {
      if c < |s.cells| {
        assert InUse(s, c) <==> Linked(s, c);
      }
    }
  }

  /** The key of a resource pending removal is linked to its own cell, and that alone is unlinked. */
  lemma RemoveKeepsSlots<K>(s: State<K>, r: ResId)
    requires Inv(s) && Enabled(s, Remove(r))
    ensures SlotsOk(Apply(s, Remove(r)))
  {
    hide CallOk;
    var s' := Apply(s, Remove(r));
    assert ResourceOk(s, r);
    assert InUse(s, s.resources[r].cell) && Linked(s, s.resources[r].cell);
    forall c: CellId | c < |s'.cells|
      ensures InUse(s', c) <==> Linked(s', c)
    {
      assert CellOk(s, c);
      assert InUse(s, c) <==> Linked(s, c);
    }
  }

  /** The other actions leave the map alone, and every cell as much in use as it was. */
  lemma OthersKeepUse<K>(s: State<K>, a: Action<K>, c: CellId)
    requires Inv(s) && Enabled(s, a) && !a.Enter? && !a.Remove? && c < |s.cells|
    ensures var s' := Apply(s, a);
            && s'.slots == s.slots && |s'.cells| == |s.cells|
            && s'.cells[c].key == s.cells[c].key && (InUse(s', c) <==> InUse(s, c))
  {
    hide SlotsOk;
    assert CellOk(s, c);
    if Actor(a).Some? {
      assert CallOk(s, Actor(a).value);
      assert a.Publish? ==> ResourceOk(s, s.calls[a.t].pc.res);
    }
  }

  lemma StepKeepsSlots<K>(s: State<K>, a: Action<K>)
    requires Inv(s) && Enabled(s, a)
    ensures SlotsOk(Apply(s, a))
  {
    match a
    case Enter(t) => EnterKeepsSlots(s, t);
    case Remove(r) => RemoveKeepsSlots(s, r);
    case _ =>
      var s' := Apply(s, a);
      assert s'.slots == s.slots && |s'.cells| == |s.cells|;
      forall c: CellId | c < |s.cells|
        ensures s'.cells[c].key == s.cells[c].key && (InUse(s', c) <==> Linked(s', c))
      {
        OthersKeepUse(s, a, c);
        assert InUse(s, c) <==> Linked(s, c);
      }
  }

  lemma StepKeepsCells<K>(s: State<K>, a: Action<K>)
    requires Inv(s) && Enabled(s, a)
    ensures forall c: CellId :: c < |Apply(s, a).cells| ==> CellOk(Apply(s, a), c)
  {
    var s' := Apply(s, a);
    assert Actor(a).Some? ==> CallOk(s, Actor(a).value);
    assert a.Publish? ==> ResourceOk(s, s.calls[a.t].pc.res);
    forall c: CellId | c < |s'.cells|
      ensures CellOk(s', c)
    {
      if c < |s.cells| {
        assert CellOk(s, c);
      }
    }
  }

  lemma StepKeepsResources<K>(s: State<K>, a: Action<K>)
    requires Inv(s) && Enabled(s, a)
    ensures forall r: ResId :: r < |Apply(s, a).resources| ==> ResourceOk(Apply(s, a), r)
  {
    var s' := Apply(s, a);
    assert Actor(a).Some? ==> CallOk(s, Actor(a).value);
    forall r: ResId | r < |s'.resources|
      ensures ResourceOk(s', r)
    {
      if r < |s.resources| {
        assert ResourceOk(s, r);
        assert s.resources[r].building ==> CallOk(s, s.resources[r].builder);
      }
    }
  }

  /** The call that acts stays consistent. */
  lemma StepKeepsActor<K>(s: State<K>, a: Action<K>, t: CallId)
    requires Inv(s) && Enabled(s, a) && Actor(a) == Some(t)
    ensures CallOk(Apply(s, a), t)
  {
    assert CallOk(s, t);
    match a
    case ReadCell(_) => assert CellOk(s, s.calls[t].pc.cell);
    case Upgrade(_) => assert CellOk(s, s.calls[t].pc.cell);
    case Publish(_) => assert ResourceOk(s, s.calls[t].pc.res);
    case _ =>
  }

  /** A call that does not act stays consistent. */
  lemma StepKeepsOther<K>(s: State<K>, a: Action<K>, t: CallId)
    requires Inv(s) && Enabled(s, a) && Actor(a) != Some(t) && t < |s.calls|
    ensures CallOk(Apply(s, a), t)
  {
    assert CallOk(s, t);
    assert Actor(a).Some? ==> CallOk(s, Actor(a).value);
    var call := s.calls[t];
    assert Apply(s, a).calls[t] == call;
    if call.pc.Upgrading? {
      assert CellOk(s, call.pc.cell);
    }
    if a.Upgrade? {
      assert CellOk(s, s.calls[a.t].pc.cell);
    }
  }

  lemma StepKeepsInv<K>(s: State<K>, a: Action<K>)
    requires Inv(s) && Enabled(s, a)
    ensures Inv(Apply(s, a))
  {
    StepKeepsSlots(s, a);
    StepKeepsCells(s, a);
    StepKeepsResources(s, a);
    forall t: CallId | t < |Apply(s, a).calls|
      ensures CallOk(Apply(s, a), t)
    {
      if Actor(a) == Some(t) {
        StepKeepsActor(s, a, t);
      } else if t < |s.calls| {
        StepKeepsOther(s, a, t);
      }
    }
  }

  // ----- Safety over whole runs

  lemma {:induction false} RunKeepsInv<K>(actions: seq<Action<K>>)
    ensures Run(actions).Some? ==> Inv(Run(actions).value)
  {
    if actions == [] {
    } else {
      var init := actions[..|actions| - 1];
      RunKeepsInv(init);
      if Run(actions).Some? {
        StepKeepsInv(Run(init).value, actions[|actions| - 1]);
      }
    }
  }

  /** The pool's promise: whatever has happened, two live resources never share a key. This includes
      a resource that was only just constructed and is not yet visible to any other call. */
  lemma AtMostOneLivePerKey<K>(actions: seq<Action<K>>, r1: ResId, r2: ResId)
    requires Run(actions).Some?
    requires var rs := Run(actions).value.resources;
             r1 < |rs| && r2 < |rs| && rs[r1].Live() && rs[r2].Live() && rs[r1].key == rs[r2].key
    ensures r1 == r2
  {
    RunKeepsInv(actions);
    var s := Run(actions).value;
    LiveIsLinked(s, r1);
    LiveIsLinked(s, r2);
  }

  lemma LiveIsLinked<K>(s: State<K>, r: ResId)
    requires Inv(s) && r < |s.resources| && s.resources[r].Live()
    ensures var c := s.resources[r].cell;
            && c < |s.cells|
            && Linked(s, c)
            && s.cells[c].key == s.resources[r].key
            && match s.cells[c].content
               case Full(x) => x == r
               case Initializing(t) => t < |s.calls| && s.calls[t].pc == Built(c, r)
               case Empty => false
  {
    var c := s.resources[r].cell;
    assert ResourceOk(s, r);
    if s.resources[r].building {
      assert CallOk(s, s.resources[r].builder);
    }
    assert InUse(s, c);
  }

  /** Every call that returned `Ok` holds a resource of its own key, and two calls for one key that both
      still have a live result have the same one: the deduplication callers rely on. */
  lemma ResultsAreShared<K>(actions: seq<Action<K>>, t: CallId, u: CallId)
    requires Run(actions).Some?
    requires var s := Run(actions).value;
             && t < |s.calls| && u < |s.calls| && s.calls[t].arg == s.calls[u].arg
             && s.calls[t].pc.Returned? && s.calls[t].pc.result.Some?
             && s.calls[u].pc.Returned? && s.calls[u].pc.result.Some?
    ensures var s := Run(actions).value;
            var r1, r2 := s.calls[t].pc.result.value, s.calls[u].pc.result.value;
            && r1 < |s.resources| && r2 < |s.resources|
            && s.resources[r1].key == s.resources[r2].key == s.calls[t].arg
            && (s.resources[r1].Live() && s.resources[r2].Live() ==> r1 == r2)
  {
    RunKeepsInv(actions);
    var s := Run(actions).value;
    assert CallOk(s, t) && CallOk(s, u);
    var r1, r2 := s.calls[t].pc.result.value, s.calls[u].pc.result.value;
    if s.resources[r1].Live() && s.resources[r2].Live() {
      AtMostOneLivePerKey(actions, r1, r2);
    }
  }

  /** `remove` unlinks the cell of the dead resource that called it and no other cell:
      in particular never an empty cell, nor one being initialised, nor one holding a live resource. */
  lemma RemoveUnlinksOnlyItsOwnCell<K>(actions: seq<Action<K>>, r: ResId, c: CellId)
    requires Run(actions).Some? && Enabled(Run(actions).value, Remove(r))
    requires c < |Run(actions).value.cells|
    ensures var s := Run(actions).value;
            var s' := Apply(s, Remove(r));
            && (Linked(s, c) && !Linked(s', c) <==> c == s.resources[r].cell)
            && (c == s.resources[r].cell ==> s.cells[c].content == Full(r) && !s.resources[r].Live())
  {
    RunKeepsInv(actions);
    var s := Run(actions).value;
    var own := s.resources[r].cell;
    assert ResourceOk(s, r) && InUse(s, own) && Linked(s, own);
  }

  /** No `unwrap` of a call ever meets `None`, on any trip round the loop,
      and no call starts its constructor twice. */
  lemma UnwrapsSucceedAndConstructorRunsOnce<K>(actions: seq<Action<K>>, t: CallId)
    requires Run(actions).Some? && t < |Run(actions).value.calls|
    ensures var call := Run(actions).value.calls[t];
            && !call.pc.Panicked?
            && call.runs <= 1
            && (call.pc.Returned? && call.pc.result.None? ==> call.runs == 1)
  {
    RunKeepsInv(actions);
    assert CallOk(Run(actions).value, t);
  }

  lemma RunOneMore<K>(actions: seq<Action<K>>, a: Action<K>)
    requires Run(actions).Some? && Enabled(Run(actions).value, a)
    ensures Run(actions + [a]) == Some(Apply(Run(actions).value, a))
  {
    assert (actions + [a])[..|actions|] == actions;
  }

  /** A failed constructor leaves its empty cell in the map; so an occupied entry need
      not belong to a live or dying resource. */
  lemma FailureLeavesAnEmptyCell<K>(k: K)
    ensures Run([] + [Start(k)] + [Enter(0)] + [BeginInit(0)] + [ConstructorErr(0)]) ==
            Some(State(map[k := 0], [Cell(k, Empty)], [], [Call(k, None, false, 1, Returned(None))]))
  {
    var none: seq<Action<K>> := [];
    var started := State(map[], [], [], [Call(k, Some(k), true, 0, AtEntry)]);
    var entered := State(map[k := 0], [Cell(k, Empty)], [], [Call(k, Some(k), true, 0, AtCell(0))]);
    var constructing := State(map[k := 0], [Cell(k, Initializing(0))], [], [Call(k, None, false, 1, Constructing(0))]);
    var failed := State(map[k := 0], [Cell(k, Empty)], [], [Call(k, None, false, 1, Returned(None))]);
    RunOneMore(none, Start(k));
    assert Apply(Initial<K>(), Start(k)) == started;
    RunOneMore(none + [Start(k)], Enter(0));
    assert Apply(started, Enter(0)) == entered;
    RunOneMore(none + [Start(k)] + [Enter(0)], BeginInit(0));
    assert Apply(entered, BeginInit(0)) == constructing;
    RunOneMore(none + [Start(k)] + [Enter(0)] + [BeginInit(0)], ConstructorErr(0));
    assert Apply(constructing, ConstructorErr(0)) == failed;
  }

  // ----- Nobody gets stuck

  /** In every reachable state each call that has not returned can take its next action, except at a cell that
      another call initialises; and handles can be cloned and dropped as long as there are any, and a dead resource
      removed once. */
  lemma NobodyGetsStuck<K>(actions: seq<Action<K>>, t: CallId, ok: bool, r: ResId)
    requires Run(actions).Some?
    ensures var s := Run(actions).value;
            && (t < |s.calls| && !s.calls[t].pc.Returned? ==>
                  if OwnAction(s, t, ok).Some? then Enabled(s, OwnAction(s, t, ok).value)
                  else s.calls[t].pc.AtCell? && s.calls[t].pc.cell < |s.cells|
                       && s.cells[s.calls[t].pc.cell].content.Initializing?)
            && (r < |s.resources| ==>
                  && (Enabled(s, CloneHandle(r)) <==> s.resources[r].handles > 0)
                  && (Enabled(s, DropHandle(r)) <==> s.resources[r].handles > 0)
                  && (Enabled(s, Remove(r)) <==>
                        !s.resources[r].building && s.resources[r].handles == 0 && !s.resources[r].removed))
  {
    RunKeepsInv(actions);
    var s := Run(actions).value;
    if t < |s.calls| {
      assert CallOk(s, t);
    }
  }

  // ----- Strong references

  /** How many calls have returned a resource. */
  function Returns<K>(calls: seq<Call<K>>, r: ResId): nat {
    if calls == [] then 0
    else Returns(calls[..|calls| - 1], r) + (if calls[|calls| - 1].pc == Returned(Some(r)) then 1 else 0)
  }

  /** How often an action was taken. */
  function Times<K(==)>(actions: seq<Action<K>>, a: Action<K>): nat {
    multiset(actions)[a]
  }

  lemma TimesAfter<K>(actions: seq<Action<K>>, a: Action<K>, x: Action<K>)
    ensures Times(actions + [a], x) == Times(actions, x) + (if a == x then 1 else 0)
  {
  }

  lemma {:induction false} ReturnsAfterUpdate<K>(calls: seq<Call<K>>, t: CallId, call: Call<K>, r: ResId)
    requires t < |calls|
    ensures Returns(calls[t := call], r) + (if calls[t].pc == Returned(Some(r)) then 1 else 0) ==
            Returns(calls, r) + (if call.pc == Returned(Some(r)) then 1 else 0)
  {
    var n := |calls| - 1;
    if t == n {
      assert calls[t := call][..n] == calls[..n];
    } else {
      ReturnsAfterUpdate(calls[..n], t, call, r);
      assert calls[t := call][..n] == calls[..n][t := call];
    }
  }

  /** The number of strong references to a resource; none before it exists. */
  function Handles<K>(s: State<K>, r: ResId): nat {
    if r < |s.resources| then s.resources[r].handles else 0
  }

  /** The call that an action makes return, with what it returns. */
  function Outcome<K>(s: State<K>, a: Action<K>): Option<Option<ResId>>
    requires Enabled(s, a)
  {
    match a
    case Publish(t) => Some(Some(s.calls[t].pc.res))
    case Upgrade(t) => if s.resources[s.calls[t].pc.res].Live() then Some(Some(s.calls[t].pc.res)) else None
    case ConstructorErr(_) => Some(None)
    case _ => None
  }

  /** A call that returns a resource adds a strong reference, a clone adds one, a drop takes one away. */
  lemma HandlesAfter<K>(s: State<K>, a: Action<K>, r: ResId)
    requires Inv(s) && Enabled(s, a)
    ensures Handles(Apply(s, a), r) + (if a == DropHandle(r) then 1 else 0) ==
            Handles(s, r) + (if Outcome(s, a) == Some(Some(r)) || a == CloneHandle(r) then 1 else 0)
  {
    hide SlotsOk, CellOk, ResourceOk;
    if Actor(a).Some? {
      assert CallOk(s, Actor(a).value);
    }
  }

  lemma ReturnsAfter<K>(s: State<K>, a: Action<K>, r: ResId)
    requires Inv(s) && Enabled(s, a)
    ensures Returns(Apply(s, a).calls, r) ==
            Returns(s.calls, r) + (if Outcome(s, a) == Some(Some(r)) then 1 else 0)
  {
    var s' := Apply(s, a);
    match Actor(a)
    case Some(t) =>
      assert CallOk(s, t);
      assert s'.calls == s.calls[t := s'.calls[t]];
      assert Outcome(s, a).Some? ==> s'.calls[t].pc == Returned(Outcome(s, a).value);
      assert Outcome(s, a).None? ==> !s'.calls[t].pc.Returned?;
      hide Apply, Enabled, Inv, Outcome;
      ReturnsAfterUpdate(s.calls, t, s'.calls[t], r);
    case None =>
      if a.Start? {
        assert s'.calls[..|s.calls|] == s.calls;
      }
  }

  /** Conservation of strong references: in every interleaving a resource has one for each call that has returned it
      and for each clone, less one for each drop. */
  lemma {:induction false} HandlesAreAccountedFor<K>(actions: seq<Action<K>>, r: ResId)
    requires Run(actions).Some?
    ensures var s := Run(actions).value;
            Handles(s, r) + Times(actions, DropHandle(r)) == Returns(s.calls, r) + Times(actions, CloneHandle(r))
  {
    hide Inv, Enabled, Apply, Handles, Returns;
    if actions == [] {
      NothingReturned<K>(r);
    } else {
      var init, a := actions[..|actions| - 1], actions[|actions| - 1];
      assert actions == init + [a];
      HandlesAreAccountedFor(init, r);
      TimesAfter(init, a, DropHandle(r));
      TimesAfter(init, a, CloneHandle(r));
      hide Times;
      RunKeepsInv(init);
      HandlesAfter(Run(init).value, a, r);
      ReturnsAfter(Run(init).value, a, r);
    }
  }

  lemma NothingReturned<K>(r: ResId)
    ensures Handles(Initial<K>(), r) == 0 && Returns(Initial<K>().calls, r) == 0
  {
  }

  /** So a resource that was handed out more often than dropped is alive, and none that a call returned and nobody
      dropped is ever removed. */
  lemma HandedOutIsLive<K>(actions: seq<Action<K>>, r: ResId)
    requires Run(actions).Some?
    requires Returns(Run(actions).value.calls, r) + Times(actions, CloneHandle(r)) > Times(actions, DropHandle(r))
    ensures var s := Run(actions).value;
            r < |s.resources| && s.resources[r].Live() && !s.resources[r].removed && !Enabled(s, Remove(r))
  {
    hide SlotsOk, CellOk, CallOk, Apply, Run, Returns;
    HandlesAreAccountedFor(actions, r);
    RunKeepsInv(actions);
    assert ResourceOk(Run(actions).value, r);
  }

  /** A call returns an error if and only if its own constructor failed. */
  lemma {:induction false} ErrsIffItsConstructorFailed<K>(actions: seq<Action<K>>, t: CallId)
    requires Run(actions).Some? && t < |Run(actions).value.calls|
    ensures Run(actions).value.calls[t].pc == Returned(None) <==> ConstructorErr(t) in actions
  {
    hide Inv;
    if actions == [] {
    } else {
      var init, a := actions[..|actions| - 1], actions[|actions| - 1];
      assert actions == init + [a];
      var s := Run(init).value;
      RunKeepsInv(init);
      PcAfter(s, a, t);
      hide Apply, Enabled;
      if t < |s.calls| {
        ErrsIffItsConstructorFailed(init, t);
      } else {
        NotYetFailed(init, t);
      }
    }
  }

  /** Only a failing constructor makes a call return an error, and a call that has returned does nothing more. */
  lemma PcAfter<K>(s: State<K>, a: Action<K>, t: CallId)
    requires Enabled(s, a) && t < |Apply(s, a).calls|
    ensures t < |s.calls| ==>
              (Apply(s, a).calls[t].pc == Returned(None) <==> s.calls[t].pc == Returned(None) || a == ConstructorErr(t))
    ensures t >= |s.calls| ==> Apply(s, a).calls[t].pc != Returned(None) && a != ConstructorErr(t)
  {
  }

  lemma CallsGrow<K>(s: State<K>, a: Action<K>)
    requires Enabled(s, a)
    ensures |Apply(s, a).calls| >= |s.calls|
    ensures Actor(a).Some? ==> Actor(a).value < |s.calls|
  {
  }

  lemma {:induction false} NotYetFailed<K>(actions: seq<Action<K>>, t: CallId)
    requires Run(actions).Some? && t >= |Run(actions).value.calls|
    ensures ConstructorErr(t) !in actions
  {
    if actions == [] {
    } else {
      var init, a := actions[..|actions| - 1], actions[|actions| - 1];
      assert actions == init + [a];
      CallsGrow(Run(init).value, a);
      hide Apply, Enabled;
      NotYetFailed(init, t);
    }
  }

  // ----- Progress of a call that runs alone

  /** The next action of call `t` itself, if it has one; `ok` says how its constructor ends. */
  function OwnAction<K>(s: State<K>, t: CallId, ok: bool): Option<Action<K>>
    requires t < |s.calls|
  {
    match s.calls[t].pc
    case AtEntry => Some(Enter(t))
    case AtCell(c) =>
      if c >= |s.cells| then None
      else if s.cells[c].content.Empty? then Some(BeginInit(t))
      else if s.cells[c].content.Full? then Some(ReadCell(t))
      else None
    case Constructing(_) => Some(if ok then ConstructorOk(t) else ConstructorErr(t))
    case Built(_, _) => Some(Publish(t))
    case Upgrading(_, _) => Some(Upgrade(t))
    case Returned(_) => None
    case Panicked => None
  }

  /** The state after `n` actions of call `t`, or fewer if it returns or blocks first. */
  function Alone<K(==)>(s: State<K>, t: CallId, ok: bool, n: nat): (s': State<K>)
    requires t < |s.calls|
    ensures t < |s'.calls|
    decreases n
  {
    var a := OwnAction(s, t, ok);
    if n == 0 || a.None? || !Enabled(s, a.value) then s else Alone(Apply(s, a.value), t, ok, n - 1)
  }

  /** How many times call `t` locks the map within those `n` actions. */
  function Entries<K(==)>(s: State<K>, t: CallId, ok: bool, n: nat): nat
    requires t < |s.calls|
    decreases n
  {
    var a := OwnAction(s, t, ok);
    if n == 0 || a.None? || !Enabled(s, a.value) then 0
    else (if a.value.Enter? then 1 else 0) + Entries(Apply(s, a.value), t, ok, n - 1)
  }

  /** Neither a removal for this key is pending, nor is another call initialising a cell for it. */
  ghost predicate Unobstructed<K>(s: State<K>, t: CallId)
    requires t < |s.calls|
  {
    && (forall r: ResId ::
          r < |s.resources| && s.resources[r].key == s.calls[t].arg ==> !s.resources[r].RemovalPending())
    && (forall c: CellId :: c < |s.cells| && s.cells[c].key == s.calls[t].arg && s.cells[c].content.Initializing?
          ==> s.cells[c].content.call == t)
  }

  ghost predicate ReturnsAlone<K>(s: State<K>, t: CallId, ok: bool)
    requires t < |s.calls|
  {
    exists n: nat :: Alone(s, t, ok, n).calls[t].pc.Returned?
  }

  lemma AloneStep<K>(s: State<K>, t: CallId, ok: bool, n: nat)
    requires t < |s.calls| && n > 0
    requires OwnAction(s, t, ok).Some? && Enabled(s, OwnAction(s, t, ok).value)
    ensures var a := OwnAction(s, t, ok).value;
            && t < |Apply(s, a).calls|
            && Alone(s, t, ok, n) == Alone(Apply(s, a), t, ok, n - 1)
            && Entries(s, t, ok, n) == (if a.Enter? then 1 else 0) + Entries(Apply(s, a), t, ok, n - 1)
  {
  }

  lemma FromFullCell<K>(s: State<K>, t: CallId, ok: bool)
    requires Inv(s) && t < |s.calls| && s.calls[t].pc.AtCell? && s.calls[t].pc.cell < |s.cells|
    requires var content := s.cells[s.calls[t].pc.cell].content;
             content.Full? && content.res < |s.resources| && s.resources[content.res].Live()
    ensures Alone(s, t, ok, 3).calls[t].pc.Returned? && Entries(s, t, ok, 3) == 0
  {
    hide Inv;
    var s1 := Apply(s, ReadCell(t));
    assert Alone(s, t, ok, 3) == Alone(s1, t, ok, 2);
  }

  lemma FromEntry<K>(s: State<K>, t: CallId, ok: bool)
    requires Inv(s) && t < |s.calls| && s.calls[t].pc.AtEntry? && Unobstructed(s, t)
    ensures Alone(s, t, ok, 4).calls[t].pc.Returned? && Entries(s, t, ok, 4) == 1
  {
    assert CallOk(s, t);
    var k := s.calls[t].arg;
    var s1 := Apply(s, Enter(t));
    StepKeepsInv(s, Enter(t));
    assert CallOk(s1, t);
    var c := s1.calls[t].pc.cell;
    assert CellOk(s1, c);
    if s1.cells[c].content.Full? {
      assert InUse(s1, c) <==> Linked(s1, c);
      assert ResourceOk(s, s1.cells[c].content.res);
      FromFullCell(s1, t, ok);
    } else {
      assert c < |s.cells| ==> CellOk(s, c);
      FromEmptyCell(s1, t, ok);
    }
    AloneStep(s, t, ok, 4);
  }

  lemma FromEmptyCell<K>(s: State<K>, t: CallId, ok: bool)
    requires Inv(s) && t < |s.calls| && s.calls[t].pc.AtCell?
    requires s.calls[t].pc.cell < |s.cells| && s.cells[s.calls[t].pc.cell].content.Empty?
    ensures Alone(s, t, ok, 3).calls[t].pc.Returned? && Entries(s, t, ok, 3) == 0
  {
    assert CallOk(s, t);
    var s1 := Apply(s, BeginInit(t));
    var s2 := Apply(s1, if ok then ConstructorOk(t) else ConstructorErr(t));
    assert Alone(s, t, ok, 3) == Alone(s2, t, ok, 1);
  }

  lemma FromUpgrading<K>(s: State<K>, t: CallId, ok: bool)
    requires Inv(s) && t < |s.calls| && s.calls[t].pc.Upgrading? && Unobstructed(s, t)
    ensures Alone(s, t, ok, 5).calls[t].pc.Returned? && Entries(s, t, ok, 5) <= 1
  {
    assert CallOk(s, t);
    var s1 := Apply(s, Upgrade(t));
    StepKeepsInv(s, Upgrade(t));
    if s1.calls[t].pc.AtEntry? {
      assert Unobstructed(s1, t);
      FromEntry(s1, t, ok);
    }
    assert Alone(s, t, ok, 5) == Alone(s1, t, ok, 4);
  }

  /** From any reachable state in which nothing obstructs its key, a call that then runs alone, wherever it
      stands, returns after at most six of its own actions, entering the map at most once more: it finishes
      within the trip it is on and at most one further trip round the loop. */
  lemma ReturnsWithinTwoTrips<K>(actions: seq<Action<K>>, t: CallId, ok: bool)
    requires Run(actions).Some?
    requires t < |Run(actions).value.calls| && Unobstructed(Run(actions).value, t)
    ensures Alone(Run(actions).value, t, ok, 6).calls[t].pc.Returned?
    ensures Entries(Run(actions).value, t, ok, 6) <= 1
  {
    hide Alone, Entries, SlotsOk, ResourceOk, CellOk;
    RunKeepsInv(actions);
    var s := Run(actions).value;
    assert CallOk(s, t);
    match s.calls[t].pc
    case AtEntry =>
      FromEntry(s, t, ok);
      AloneIsStable(s, t, ok, 4, 6);
    case Upgrading(_, _) =>
      FromUpgrading(s, t, ok);
      AloneIsStable(s, t, ok, 5, 6);
    case AtCell(c) =>
      FromCell(s, t, ok);
    case _ =>
      PastTheCell(s, t, ok);
  }

  lemma FromCell<K>(s: State<K>, t: CallId, ok: bool)
    requires Inv(s) && t < |s.calls| && s.calls[t].pc.AtCell? && Unobstructed(s, t)
    ensures Alone(s, t, ok, 6).calls[t].pc.Returned? && Entries(s, t, ok, 6) <= 1
  {
    assert CallOk(s, t);
    var c := s.calls[t].pc.cell;
    assert CellOk(s, c);
    if s.cells[c].content.Full? {
      var s1 := Apply(s, ReadCell(t));
      StepKeepsInv(s, ReadCell(t));
      FromUpgrading(s1, t, ok);
      assert Alone(s, t, ok, 6) == Alone(s1, t, ok, 5);
    } else {
      FromEmptyCell(s, t, ok);
      AloneIsStable(s, t, ok, 3, 6);
    }
  }

  lemma FromBuilt<K>(s: State<K>, t: CallId, ok: bool, n: nat)
    requires t < |s.calls| && s.calls[t].pc.Built? && Enabled(s, Publish(t)) && n > 0
    ensures Alone(s, t, ok, n).calls[t].pc.Returned? && Entries(s, t, ok, n) == 0
  {
    AloneStep(s, t, ok, n);
  }

  lemma PastTheCell<K>(s: State<K>, t: CallId, ok: bool)
    requires Inv(s) && t < |s.calls| && (s.calls[t].pc.Constructing? || s.calls[t].pc.Built? || s.calls[t].pc.Returned?)
    ensures Alone(s, t, ok, 6).calls[t].pc.Returned? && Entries(s, t, ok, 6) == 0
  {
    assert CallOk(s, t);
    hide Inv;
    if s.calls[t].pc.Constructing? {
      AloneStep(s, t, ok, 6);
      if ok {
        FromBuilt(Apply(s, ConstructorOk(t)), t, ok, 5);
      }
    } else if s.calls[t].pc.Built? {
      FromBuilt(s, t, ok, 6);
    }
  }

  lemma {:induction false} AloneIsStable<K>(s: State<K>, t: CallId, ok: bool, n: nat, m: nat)
    requires t < |s.calls| && n <= m && Alone(s, t, ok, n).calls[t].pc.Returned?
    ensures Alone(s, t, ok, m) == Alone(s, t, ok, n) && Entries(s, t, ok, m) == Entries(s, t, ok, n)
    decreases n
  {
    var a := OwnAction(s, t, ok);
    if n > 0 && a.Some? && Enabled(s, a.value) {
      hide Alone, Entries, OwnAction, Enabled, Apply;
      AloneStep(s, t, ok, n);
      AloneStep(s, t, ok, m);
      AloneIsStable(Apply(s, a.value), t, ok, n - 1, m - 1);
    }
  }

  /** The exact condition: a call about to enter the map returns when it runs alone if and only if no removal
      for its key is pending and no other call is initialising its cell. With a removal pending it spins. */
  lemma ReturnsAloneIffUnobstructed<K>(actions: seq<Action<K>>, t: CallId, ok: bool)
    requires Run(actions).Some?
    requires t < |Run(actions).value.calls| && Run(actions).value.calls[t].pc.AtEntry?
    ensures ReturnsAlone(Run(actions).value, t, ok) <==> Unobstructed(Run(actions).value, t)
  {
    RunKeepsInv(actions);
    var s := Run(actions).value;
    assert CallOk(s, t);
    if Unobstructed(s, t) {
      FromEntry(s, t, ok);
    } else if r: ResId :| r < |s.resources| && s.resources[r].key == s.calls[t].arg && s.resources[r].RemovalPending() {
      forall n: nat
        ensures !Alone(s, t, ok, n).calls[t].pc.Returned?
      {
        SpinsWhileRemovalPending(s, t, ok, r, n);
      }
    } else {
      var c: CellId :| c < |s.cells| && s.cells[c].key == s.calls[t].arg && s.cells[c].content.Initializing?
                       && s.cells[c].content.call != t;
      forall n: nat
        ensures !Alone(s, t, ok, n).calls[t].pc.Returned?
      {
        BlocksAtForeignInitialiser(s, t, ok, c, n);
      }
    }
  }

  /** One turn of the loop with a removal pending: look the cell up, read it, fail to upgrade, and be where one was. */
  lemma SpinTurn<K>(s: State<K>, t: CallId, ok: bool, r: ResId)
    requires Inv(s) && t < |s.calls| && s.calls[t].pc.AtEntry?
    requires r < |s.resources| && s.resources[r].key == s.calls[t].arg && s.resources[r].RemovalPending()
    ensures var c := s.resources[r].cell;
            var s1, s2 := WithPc(s, t, AtCell(c)), WithPc(s, t, Upgrading(c, r));
            && OwnAction(s, t, ok) == Some(Enter(t)) && Enabled(s, Enter(t)) && Apply(s, Enter(t)) == s1
            && OwnAction(s1, t, ok) == Some(ReadCell(t)) && Enabled(s1, ReadCell(t)) && Apply(s1, ReadCell(t)) == s2
            && OwnAction(s2, t, ok) == Some(Upgrade(t)) && Enabled(s2, Upgrade(t)) && Apply(s2, Upgrade(t)) == s
  {
    assert CallOk(s, t) && ResourceOk(s, r);
    var c := s.resources[r].cell;
    assert InUse(s, c) && Linked(s, c);
    hide Inv;
    assert WithPc(s, t, AtEntry).calls == s.calls;
  }

  lemma {:induction false} SpinsWhileRemovalPending<K>(s: State<K>, t: CallId, ok: bool, r: ResId, n: nat)
    requires Inv(s) && t < |s.calls| && s.calls[t].pc.AtEntry?
    requires r < |s.resources| && s.resources[r].key == s.calls[t].arg && s.resources[r].RemovalPending()
    ensures !Alone(s, t, ok, n).calls[t].pc.Returned?
  {
    SpinTurn(s, t, ok, r);
    var c := s.resources[r].cell;
    var s1, s2 := WithPc(s, t, AtCell(c)), WithPc(s, t, Upgrading(c, r));
    hide Inv, Enabled, Apply, OwnAction;
    if n > 0 {
      AloneStep(s, t, ok, n);
      if n > 1 {
        AloneStep(s1, t, ok, n - 1);
        if n > 2 {
          AloneStep(s2, t, ok, n - 2);
          SpinsWhileRemovalPending(s, t, ok, r, n - 3);
        }
      }
    }
  }

  lemma BlocksAtForeignInitialiser<K>(s: State<K>, t: CallId, ok: bool, c: CellId, n: nat)
    requires Inv(s) && t < |s.calls| && s.calls[t].pc.AtEntry?
    requires c < |s.cells| && s.cells[c].key == s.calls[t].arg && s.cells[c].content.Initializing?
    ensures !Alone(s, t, ok, n).calls[t].pc.Returned?
  {
    assert CallOk(s, t);
    assert InUse(s, c) && Linked(s, c);
    if n == 0 {
    } else {
      assert Alone(s, t, ok, n) == Alone(Apply(s, Enter(t)), t, ok, n - 1);
    }
  }
}
