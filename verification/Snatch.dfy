/**
  The device-wide snatch lock of wgpu-core/src/snatch.rs, and the guards of
  wgpu-core/src/as_hal.rs that forget their read guard and unlock the lock by force later.

  The lock is a counter of readers and a writer flag; nothing in it says who holds it. Guards,
  forgotten guards and cells are named by their position in the sequences of a `State`.
*/
module Snatch {
  import opened Wrappers

  type Thread = nat
  type GuardId = nat
  type CellId = nat

  /** A pin is what a `SnatchableResourceGuard` points to: the value seen in a cell when it was made. */
  datatype GuardState<T> = Reading | Writing | Forgotten(pin: Option<(CellId, T)>) | Released

  datatype Guard<T> = Guard(thread: Thread, state: GuardState<T>)
  {
    predicate Reader() {
      state.Reading? || state.Forgotten?
    }

    predicate Outstanding() {
      !state.Released?
    }

    predicate Pins(c: CellId) {
      state.Forgotten? && state.pin.Some? && state.pin.value.0 == c
    }
  }

  /** A `Snatchable` inside a reference-counted resource: what it was created with, what it holds now,
      and the references that clients hold. */
  datatype Cell<T> = Cell(initial: Option<T>, value: Option<T>, clients: nat)

  /** `traceOn` says whether the build has the lock trace, as debug builds with `std` do; `traced` are the
      threads whose thread-local trace is set. `departed` logs every value that left a cell, over `snatch`
      and `take` together. */
  datatype State<T> = State(
    traceOn: bool, readers: nat, writer: bool, guards: seq<Guard<T>>, cells: seq<Cell<T>>, traced: set<Thread>,
    departed: seq<(CellId, T)>)

  datatype Action<T> =
    | New(initial: Option<T>)
    | CloneRef(c: CellId)
    | DropRef(c: CellId)
    | Read(t: Thread)
    | Write(t: Thread)
    | Refused(t: Thread)                       // the trace panics in `read` or `write`, having cleared itself
    | DropGuard(g: GuardId)
    | Forget(g: GuardId)
    | Pin(g: GuardId, c: CellId)               // `SnatchableResourceGuard::new`, after its `read`
    | ForceUnlock(g: GuardId, at: Thread)      // of a forgotten guard, by any thread: a `SnatchableResourceGuard`
                                               // can be sent to another one and dropped there
    | SnatchValue(g: GuardId, c: CellId)
    | Take(c: CellId)                          // by the `Drop` of the resource

  function Initial<T>(traceOn: bool): State<T> {
    State(traceOn, 0, false, [], [], {}, [])
  }

  /** The lock's own rule for admitting readers and writers. */
  predicate Admits<T>(s: State<T>, a: Action<T>) {
    match a
    case Read(_) => !s.writer
    case Write(_) => !s.writer && s.readers == 0
    case _ => true
  }

  /** Whether `LockTrace::enter` panics instead of letting the thread go on to the lock. */
  predicate TracePanics<T>(s: State<T>, t: Thread) {
    s.traceOn && t in s.traced
  }

  /** Rust's ownership rules, the trace, and the lock decide when an action may happen. A cell can be taken
      from without a guard only when no reference to its resource is left. */
  predicate Enabled<T>(s: State<T>, a: Action<T>) {
    && Admits(s, a)
    && match a
       case New(_) => true
       case CloneRef(c) => c < |s.cells| && s.cells[c].clients > 0
       case DropRef(c) => c < |s.cells| && s.cells[c].clients > 0
       case Read(t) => !TracePanics(s, t)
       case Write(t) => !TracePanics(s, t)
       case Refused(t) => TracePanics(s, t)
       case DropGuard(g) =>
         g < |s.guards| && ((s.guards[g].state.Reading? && s.readers > 0) || s.guards[g].state.Writing?)
       case Forget(g) => g < |s.guards| && s.guards[g].state.Reading?
       case Pin(g, c) =>
         && g < |s.guards| && s.guards[g].state.Reading?
         && c < |s.cells| && s.cells[c].clients > 0 && s.cells[c].value.Some?
       case ForceUnlock(g, _) => g < |s.guards| && s.guards[g].state.Forgotten? && s.readers > 0
       case SnatchValue(g, c) => g < |s.guards| && s.guards[g].state.Writing? && c < |s.cells| && s.cells[c].clients > 0
       case Take(c) =>
         c < |s.cells| && s.cells[c].clients == 0 && forall g | 0 <= g < |s.guards| :: !s.guards[g].Pins(c)
  }

  function WithGuard<T>(s: State<T>, g: GuardId, state: GuardState<T>): State<T>
    requires g < |s.guards|
  {
    s.(guards := s.guards[g := s.guards[g].(state := state)])
  }

  /** `LockTrace::enter` by a thread that it does not refuse. */
  function Traced<T>(s: State<T>, t: Thread): set<Thread> {
    if s.traceOn then s.traced + {t} else s.traced
  }

  /** `Option::take` on a cell's value. */
  function TakeValue<T>(s: State<T>, c: CellId): State<T>
    requires c < |s.cells|
  {
    match s.cells[c].value
    case None => s
    case Some(v) => s.(cells := s.cells[c := s.cells[c].(value := None)], departed := s.departed + [(c, v)])
  }

  function Apply<T>(s: State<T>, a: Action<T>): State<T>
    requires Enabled(s, a)
  {
    match a
    case New(initial) => s.(cells := s.cells + [Cell(initial, initial, 1)])
    case CloneRef(c) => s.(cells := s.cells[c := s.cells[c].(clients := s.cells[c].clients + 1)])
    case DropRef(c) => s.(cells := s.cells[c := s.cells[c].(clients := s.cells[c].clients - 1)])
    case Read(t) =>
      s.(readers := s.readers + 1, guards := s.guards + [Guard(t, Reading)], traced := Traced(s, t))
    case Write(t) =>
      s.(writer := true, guards := s.guards + [Guard(t, Writing)], traced := Traced(s, t))
    case Refused(t) => s.(traced := s.traced - {t})
    case DropGuard(g) =>
      var s1 := WithGuard(s, g, Released).(traced := s.traced - {s.guards[g].thread});
      if s.guards[g].state.Reading? then s1.(readers := s.readers - 1) else s1.(writer := false)
    case Forget(g) => WithGuard(s, g, Forgotten(None))
    case Pin(g, c) => WithGuard(s, g, Forgotten(Some((c, s.cells[c].value.value))))
    case ForceUnlock(g, at) =>
      WithGuard(s, g, Released).(readers := s.readers - 1, traced := s.traced - {at})
    case SnatchValue(_, c) => TakeValue(s, c)
    case Take(c) => TakeValue(s, c)
  }

  function Run<T>(s: State<T>, actions: seq<Action<T>>): Option<State<T>> {
    if actions == [] then Some(s)
    else
      match Run(s, actions[..|actions| - 1])
      case None => None
      case Some(s1) => if Enabled(s1, actions[|actions| - 1]) then Some(Apply(s1, actions[|actions| - 1])) else None
  }

  // ----- Invariant

  function ReaderGuards<T>(s: State<T>): set<GuardId> {
    set g: GuardId | g < |s.guards| && s.guards[g].Reader()
  }

  predicate IsWriting<T>(s: State<T>, g: GuardId) {
    g < |s.guards| && s.guards[g].state.Writing?
  }

  /** The guard is outstanding and belongs to the thread. */
  predicate Holds<T>(s: State<T>, t: Thread, g: GuardId) {
    g < |s.guards| && s.guards[g].thread == t && s.guards[g].Outstanding()
  }

  /** The lock's counter and flag say how many guards there are, forgotten ones included. */
  ghost predicate LockOk<T>(s: State<T>) {
    && s.readers == |ReaderGuards(s)|
    && (s.writer ==> s.readers == 0)
  }

  ghost predicate WriterOk<T>(s: State<T>) {
    && (s.writer <==> exists g :: IsWriting(s, g))
    && (forall g, h :: IsWriting(s, g) && IsWriting(s, h) ==> g == h)
  }

  ghost predicate PinsOk<T>(s: State<T>) {
    forall g: GuardId | g < |s.guards| && s.guards[g].state.Forgotten? && s.guards[g].state.pin.Some? ::
      var (c, v) := s.guards[g].state.pin.value;
      c < |s.cells| && s.cells[c].value == Some(v)
  }

  /** How often a value left cell `c`. */
  function Departures<T>(log: seq<(CellId, T)>, c: CellId): nat {
    if log == [] then 0 else Departures(log[..|log| - 1], c) + (if log[|log| - 1].0 == c then 1 else 0)
  }

  /** Conservation: a cell still holds what it was created with, or that has left it, once. */
  ghost predicate CellOk<T>(s: State<T>, c: CellId)
    requires c < |s.cells|
  {
    && (s.cells[c].value == s.cells[c].initial || s.cells[c].value.None?)
    && Departures(s.departed, c) == (if s.cells[c].value == s.cells[c].initial then 0 else 1)
  }

  ghost predicate CellsOk<T>(s: State<T>) {
    && (forall c: CellId | c < |s.cells| :: CellOk(s, c))
    && (forall i | 0 <= i < |s.departed| ::
          s.departed[i].0 < |s.cells| && s.cells[s.departed[i].0].initial == Some(s.departed[i].1))
  }

  ghost predicate Inv<T>(s: State<T>) {
    LockOk(s) && WriterOk(s) && PinsOk(s) && CellsOk(s)
  }

  /** Whether an action can change which guards are outstanding, or how. */
  predicate ChangesGuards<T>(a: Action<T>) {
    a.Read? || a.Write? || a.DropGuard? || a.Forget? || a.Pin? || a.ForceUnlock?
  }

  lemma OtherActionsKeepGuards<T>(s: State<T>, a: Action<T>)
    requires Enabled(s, a) && !ChangesGuards(a)
    ensures var s' := Apply(s, a);
            s'.guards == s.guards && s'.readers == s.readers && s'.writer == s.writer
  {
  }

  lemma ReaderGuardsWith<T>(s: State<T>, g: GuardId, state: GuardState<T>)
    requires g < |s.guards|
    ensures ReaderGuards(WithGuard(s, g, state)) ==
            if state.Reading? || state.Forgotten? then ReaderGuards(s) + {g} else ReaderGuards(s) - {g}
  {
    var s' := WithGuard(s, g, state);
    forall h: GuardId
      ensures h in ReaderGuards(s') <==> if h == g then state.Reading? || state.Forgotten? else h in ReaderGuards(s)
    {
    }
  }

  lemma SameGuardsSameReaders<T>(s: State<T>, s': State<T>)
    requires s'.guards == s.guards
    ensures ReaderGuards(s') == ReaderGuards(s)
  {
  }

  lemma AppendKeepsLock<T>(s: State<T>, a: Action<T>)
    requires LockOk(s) && Enabled(s, a) && (a.Read? || a.Write?)
    ensures LockOk(Apply(s, a))
  {
    var s' := Apply(s, a);
    var added := if a.Read? then {|s.guards|} else {};
    forall h: GuardId
      ensures h in ReaderGuards(s') <==> h in ReaderGuards(s) || h in added
    {
    }
    assert ReaderGuards(s') == ReaderGuards(s) + added;
    assert |s.guards| !in ReaderGuards(s);
  }

  lemma ReleaseKeepsLock<T>(s: State<T>, a: Action<T>)
    requires LockOk(s) && Enabled(s, a) && (a.DropGuard? || a.ForceUnlock?)
    ensures LockOk(Apply(s, a))
  {
    var s', s1 := Apply(s, a), WithGuard(s, a.g, Released);
    ReaderGuardsWith(s, a.g, Released);
    SameGuardsSameReaders(s1, s');
    assert s.guards[a.g].Reader() <==> a.g in ReaderGuards(s);
  }

  lemma ForgetKeepsLock<T>(s: State<T>, a: Action<T>)
    requires LockOk(s) && Enabled(s, a) && (a.Forget? || a.Pin?)
    ensures LockOk(Apply(s, a))
  {
    var s' := Apply(s, a);
    ReaderGuardsWith(s, a.g, s'.guards[a.g].state);
    assert a.g in ReaderGuards(s);
    assert ReaderGuards(s) + {a.g} == ReaderGuards(s);
  }

  lemma StepKeepsLock<T>(s: State<T>, a: Action<T>)
    requires LockOk(s) && Enabled(s, a)
    ensures LockOk(Apply(s, a))
  {
    hide Enabled, ReaderGuards, Apply;
    if a.Read? || a.Write? {
      AppendKeepsLock(s, a);
    } else if a.DropGuard? || a.ForceUnlock? {
      ReleaseKeepsLock(s, a);
    } else if a.Forget? || a.Pin? {
      ForgetKeepsLock(s, a);
    } else {
      OtherActionsKeepGuards(s, a);
      SameGuardsSameReaders(s, Apply(s, a));
    }
  }

  /** Which guards write after an action: a new one, or those that did and are not dropped. */
  lemma WritersAfter<T>(s: State<T>, a: Action<T>, g: GuardId)
    requires Enabled(s, a)
    ensures IsWriting(Apply(s, a), g) <==> (IsWriting(s, g) && a != DropGuard(g)) || (a.Write? && g == |s.guards|)
  {
    if !ChangesGuards(a) {
      OtherActionsKeepGuards(s, a);
    }
  }

  /** The writer flag after an action. */
  lemma WriterFlagAfter<T>(s: State<T>, a: Action<T>)
    requires WriterOk(s) && Enabled(s, a)
    ensures Apply(s, a).writer <==> a.Write? || (s.writer && !(a.DropGuard? && IsWriting(s, a.g)))
  {
    if !ChangesGuards(a) {
      OtherActionsKeepGuards(s, a);
    }
  }

  lemma StepKeepsWriter<T>(s: State<T>, a: Action<T>)
    requires WriterOk(s) && Enabled(s, a)
    ensures WriterOk(Apply(s, a))
  {
    var s' := Apply(s, a);
    assert a.Write? ==> !s.writer;
    hide Enabled, Apply, IsWriting;
    WriterFlagAfter(s, a);
    forall g
      ensures IsWriting(s', g) <==> (IsWriting(s, g) && a != DropGuard(g)) || (a.Write? && g == |s.guards|)
    {
      WritersAfter(s, a, g);
    }
    if s'.writer {
      if a.Write? {
        assert IsWriting(s', |s.guards|);
      } else {
        var g :| IsWriting(s, g);
        assert IsWriting(s', g);
      }
    }
  }

  lemma ReadersExcludeWriting<T>(s: State<T>, g: GuardId, h: GuardId)
    requires LockOk(s) && WriterOk(s) && g < |s.guards| && s.guards[g].Reader()
    ensures !IsWriting(s, h)
  {
    assert g in ReaderGuards(s);
  }

  lemma StepKeepsPins<T>(s: State<T>, a: Action<T>)
    requires LockOk(s) && WriterOk(s) && PinsOk(s) && Enabled(s, a)
    ensures PinsOk(Apply(s, a))
  {
    var s' := Apply(s, a);
    forall g: GuardId | g < |s'.guards| && s'.guards[g].state.Forgotten? && s'.guards[g].state.pin.Some?
      ensures var (c, v) := s'.guards[g].state.pin.value;
              c < |s'.cells| && s'.cells[c].value == Some(v)
    {
      assert g < |s.guards|;
      var (c, v) := s'.guards[g].state.pin.value;
      match a
      case SnatchValue(h, _) => ReadersExcludeWriting(s, g, h);
      case Take(d) => assert s.guards[g].Pins(c);
      case _ =>
    }
  }

  lemma {:induction false} NoDeparturesBeyond<T>(log: seq<(CellId, T)>, c: CellId)
    requires forall i | 0 <= i < |log| :: log[i].0 < c
    ensures Departures(log, c) == 0
  {
    if log == [] {
    } else {
      NoDeparturesBeyond(log[..|log| - 1], c);
    }
  }

  /** Taking a value out of a cell is accounted for. */
  lemma TakeKeepsCells<T>(s: State<T>, d: CellId)
    requires CellsOk(s) && d < |s.cells|
    ensures CellsOk(TakeValue(s, d))
  {
    var s' := TakeValue(s, d);
    assert CellOk(s, d);
    forall c: CellId | c < |s'.cells|
      ensures CellOk(s', c)
    {
      assert CellOk(s, c);
      assert s'.departed == s.departed || s'.departed[..|s'.departed| - 1] == s.departed;
    }
  }

  lemma NewKeepsCells<T>(s: State<T>, initial: Option<T>)
    requires CellsOk(s)
    ensures CellsOk(Apply(s, New(initial)))
  {
    hide Departures;
    var s' := Apply(s, New(initial));
    NoDeparturesBeyond(s.departed, |s.cells|);
    forall c: CellId | c < |s'.cells|
      ensures CellOk(s', c)
    {
      assert c < |s.cells| ==> CellOk(s, c);
    }
  }

  /** All other actions change references and guards only. */
  lemma OtherActionsKeepCells<T>(s: State<T>, a: Action<T>)
    requires CellsOk(s) && Enabled(s, a) && !a.New? && !a.SnatchValue? && !a.Take?
    ensures CellsOk(Apply(s, a))
  {
    hide Departures, TakeValue;
    var s' := Apply(s, a);
    assert s'.departed == s.departed && |s'.cells| == |s.cells|;
    forall c: CellId | c < |s.cells|
      ensures CellOk(s', c) && s'.cells[c].initial == s.cells[c].initial
    {
      assert CellOk(s, c);
    }
  }

  lemma StepKeepsCells<T>(s: State<T>, a: Action<T>)
    requires CellsOk(s) && Enabled(s, a)
    ensures CellsOk(Apply(s, a))
  {
    hide TakeValue, CellsOk;
    match a
    case New(initial) => NewKeepsCells(s, initial);
    case SnatchValue(_, c) => TakeKeepsCells(s, c);
    case Take(c) => TakeKeepsCells(s, c);
    case _ => OtherActionsKeepCells(s, a);
  }

  lemma StepKeepsInv<T>(s: State<T>, a: Action<T>)
    requires Inv(s) && Enabled(s, a)
    ensures Inv(Apply(s, a))
  {
    StepKeepsLock(s, a);
    StepKeepsWriter(s, a);
    StepKeepsPins(s, a);
    StepKeepsCells(s, a);
  }

  lemma InitialInv<T>(traceOn: bool)
    ensures Inv(Initial<T>(traceOn))
  {
    assert ReaderGuards(Initial<T>(traceOn)) == {};
  }

  lemma {:induction false} RunKeepsInv<T>(s: State<T>, actions: seq<Action<T>>)
    requires Inv(s) && Run(s, actions).Some?
    ensures Inv(Run(s, actions).value)
  {
    if actions == [] {
    } else {
      var init := actions[..|actions| - 1];
      RunKeepsInv(s, init);
      StepKeepsInv(Run(s, init).value, actions[|actions| - 1]);
    }
  }

  // ----- Results over whole runs

  /** A read guard, forgotten ones included, excludes every write guard, and two write guards never coexist. */
  lemma ReadersExcludeWriters<T>(traceOn: bool, actions: seq<Action<T>>, g: GuardId, h: GuardId)
    requires Run(Initial(traceOn), actions).Some?
    requires g < |Run(Initial(traceOn), actions).value.guards| && IsWriting(Run(Initial(traceOn), actions).value, h)
    ensures Run(Initial(traceOn), actions).value.guards[g].Outstanding() <==> g == h
  {
    InitialInv<T>(traceOn);
    RunKeepsInv(Initial(traceOn), actions);
    var s := Run(Initial(traceOn), actions).value;
    assert s.guards[g].state.Writing? ==> IsWriting(s, g);
    if s.guards[g].Reader() {
      ReadersExcludeWriting(s, g, h);
    }
  }

  /** A read guard ends released or goes on reading, and excludes `snatch` while it lasts. */
  lemma ReadGuardStep<T>(s: State<T>, a: Action<T>, g: GuardId)
    requires LockOk(s) && WriterOk(s) && Enabled(s, a) && g < |s.guards|
    requires s.guards[g].Reader() || !s.guards[g].Outstanding()
    ensures g < |Apply(s, a).guards|
    ensures var before, after := s.guards[g], Apply(s, a).guards[g];
            && (after.Reader() || !after.Outstanding())
            && (after.Reader() ==> before.Reader() && !a.SnatchValue?)
  {
    hide ReaderGuards;
    if ChangesGuards(a) {
    } else {
      OtherActionsKeepGuards(s, a);
      if a.SnatchValue? && s.guards[g].Reader() {
        ReadersExcludeWriting(s, g, a.g);
      }
    }
  }

  /** While a read guard is outstanding, be it forgotten or not, nothing is snatched: of all runs that leave the
      guard outstanding, none contains a `snatch`. */
  lemma {:induction false} NothingSnatchedWhileReadGuardOutstanding<T>(
      traceOn: bool, past: seq<Action<T>>, s: State<T>, g: GuardId, more: seq<Action<T>>)
    requires Run(Initial(traceOn), past) == Some(s) && g < |s.guards| && s.guards[g].Reader()
    requires Run(s, more).Some?
    ensures g < |Run(s, more).value.guards|
    ensures Run(s, more).value.guards[g].Reader() ==> forall a | a in more :: !a.SnatchValue?
    ensures Run(s, more).value.guards[g].Reader() || !Run(s, more).value.guards[g].Outstanding()
  {
    hide Enabled, Apply, LockOk, WriterOk, PinsOk, CellsOk;
    InitialInv<T>(traceOn);
    RunKeepsInv(Initial(traceOn), past);
    if more == [] {
    } else {
      var init, a := more[..|more| - 1], more[|more| - 1];
      NothingSnatchedWhileReadGuardOutstanding(traceOn, past, s, g, init);
      RunKeepsInv(s, init);
      ReadGuardStep(Run(s, init).value, a, g);
      assert more == init + [a];
    }
  }

  /** The pointer of a `SnatchableResourceGuard` stays valid until the guard is dropped: in every reachable
      state the cell it pins still holds the value it pointed to. */
  lemma PinnedPointerStaysValid<T>(traceOn: bool, actions: seq<Action<T>>, g: GuardId)
    requires Run(Initial(traceOn), actions).Some?
    requires var guards := Run(Initial(traceOn), actions).value.guards;
             g < |guards| && guards[g].state.Forgotten? && guards[g].state.pin.Some?
    ensures var s := Run(Initial(traceOn), actions).value;
            var (c, v) := s.guards[g].state.pin.value;
            c < |s.cells| && s.cells[c].value == Some(v)
  {
    InitialInv<T>(traceOn);
    RunKeepsInv(Initial(traceOn), actions);
  }

  /** Conservation: what was stored in a cell is still in it and has not left, or has left it exactly once;
      nothing else ever leaves. */
  lemma ValueLeavesAtMostOnce<T>(traceOn: bool, actions: seq<Action<T>>, c: CellId)
    requires Run(Initial(traceOn), actions).Some? && c < |Run(Initial(traceOn), actions).value.cells|
    ensures var s := Run(Initial(traceOn), actions).value;
            && Departures(s.departed, c) <= 1
            && (Departures(s.departed, c) == 1 <==> s.cells[c].initial.Some? && s.cells[c].value.None?)
            && (Departures(s.departed, c) == 0 <==> s.cells[c].value == s.cells[c].initial)
            && forall i | 0 <= i < |s.departed| && s.departed[i].0 == c :: s.cells[c].initial == Some(s.departed[i].1)
  {
    InitialInv<T>(traceOn);
    RunKeepsInv(Initial(traceOn), actions);
    assert CellOk(Run(Initial(traceOn), actions).value, c);
  }

  /** The counter leaks nothing: it is zero exactly when no read guard is outstanding, forgotten ones included. */
  lemma CounterIsZeroIffNoReadGuard<T>(traceOn: bool, actions: seq<Action<T>>)
    requires Run(Initial(traceOn), actions).Some?
    ensures var s := Run(Initial(traceOn), actions).value;
            s.readers == 0 <==> forall g: GuardId | g < |s.guards| :: !s.guards[g].Reader()
  {
    InitialInv<T>(traceOn);
    RunKeepsInv(Initial(traceOn), actions);
    var s := Run(Initial(traceOn), actions).value;
    assert forall g: GuardId | g < |s.guards| :: s.guards[g].Reader() <==> g in ReaderGuards(s);
    assert s.readers == 0 <==> ReaderGuards(s) == {};
    if forall g: GuardId | g < |s.guards| :: !s.guards[g].Reader() {
      assert ReaderGuards(s) == {};
    }
  }

  /** The lock lets a thread in whenever it may, and only then: a reader if no write guard is outstanding, a writer
      if no guard is. Nothing that has been released keeps it shut. */
  lemma LockAdmitsExactly<T>(traceOn: bool, actions: seq<Action<T>>, t: Thread)
    requires Run(Initial(traceOn), actions).Some?
    ensures var s := Run(Initial(traceOn), actions).value;
            && (Enabled(s, Read(t)) <==> !TracePanics(s, t) && forall g :: !IsWriting(s, g))
            && (Enabled(s, Write(t)) <==>
                  !TracePanics(s, t) && forall g: GuardId | g < |s.guards| :: !s.guards[g].Outstanding())
  {
    InitialInv<T>(traceOn);
    RunKeepsInv(Initial(traceOn), actions);
    CounterIsZeroIffNoReadGuard(traceOn, actions);
    var s := Run(Initial(traceOn), actions).value;
    hide Run, LockOk, PinsOk, CellsOk, TracePanics;
    if g: GuardId :| g < |s.guards| && s.guards[g].Outstanding() {
      assert s.guards[g].Reader() || IsWriting(s, g);
    }
    assert forall g: GuardId :: IsWriting(s, g) ==> s.guards[g].Outstanding();
  }

  /** What `snatch` and `take` do: the cell is empty afterwards, what it held has left, and nothing else has changed. */
  lemma TakingEmptiesTheCell<T>(s: State<T>, a: Action<T>)
    requires Enabled(s, a) && (a.SnatchValue? || a.Take?)
    ensures var s' := Apply(s, a);
            && s'.cells == s.cells[a.c := Cell(s.cells[a.c].initial, None, s.cells[a.c].clients)]
            && s'.departed == (match s.cells[a.c].value case None => s.departed case Some(v) => s.departed + [(a.c, v)])
            && s' == s.(cells := s'.cells, departed := s'.departed)
  {
    if s.cells[a.c].value.None? {
      assert s.cells[a.c := Cell(s.cells[a.c].initial, None, s.cells[a.c].clients)] == s.cells;
    }
  }

  lemma StepKeepsEmpty<T>(s: State<T>, a: Action<T>, c: CellId)
    requires Enabled(s, a) && c < |s.cells| && s.cells[c].value.None?
    ensures c < |Apply(s, a).cells| && Apply(s, a).cells[c].value.None?
  {
  }

  /** What has been snatched is never seen again: a cell that is empty stays empty in every continuation. */
  lemma {:induction false} EmptyStaysEmpty<T>(s: State<T>, c: CellId, more: seq<Action<T>>)
    requires c < |s.cells| && s.cells[c].value.None? && Run(s, more).Some?
    ensures c < |Run(s, more).value.cells| && Run(s, more).value.cells[c].value.None?
  {
    hide Enabled, Apply;
    if more == [] {
    } else {
      var init := more[..|more| - 1];
      EmptyStaysEmpty(s, c, init);
      StepKeepsEmpty(Run(s, init).value, more[|more| - 1], c);
    }
  }

  /** How a guard ends: dropped while it reads or writes, or, once forgotten or pinning, unlocked by force. A guard
      made into a `SnatchableResourceGuard` pins the value that its cell holds. Every other action leaves it alone. */
  lemma GuardAfter<T>(s: State<T>, a: Action<T>, g: GuardId)
    requires Enabled(s, a) && g < |s.guards|
    ensures var before, s' := s.guards[g], Apply(s, a);
            && g < |s'.guards| && s'.guards[g].thread == before.thread
            && (s'.guards[g].state.Released? <==>
                  before.state.Released? || a == DropGuard(g) || (a.ForceUnlock? && a.g == g))
            && (a == Forget(g) ==> s'.guards[g].state == Forgotten(None))
            && (a.Pin? && a.g == g ==>
                  s.cells[a.c].value.Some? && s'.guards[g].state == Forgotten(Some((a.c, s.cells[a.c].value.value))))
            && (!s'.guards[g].state.Released? && a != Forget(g) && !(a.Pin? && a.g == g) ==> s'.guards[g] == before)
            && (a == DropGuard(g) ==> before.state.Reading? || before.state.Writing?)
            && (a.ForceUnlock? && a.g == g ==> before.state.Forgotten?)
  {
    if !ChangesGuards(a) {
      OtherActionsKeepGuards(s, a);
    }
  }

  /** What is created holds what it was created with, and nothing else creates or changes a cell's origin. */
  lemma CellsAfter<T>(s: State<T>, a: Action<T>, c: CellId)
    requires Enabled(s, a)
    ensures var s' := Apply(s, a);
            && |s'.cells| == |s.cells| + (if a.New? then 1 else 0)
            && (a.New? ==> s'.cells[|s.cells|].initial == s'.cells[|s.cells|].value == a.initial)
            && (c < |s.cells| ==> s'.cells[c].initial == s.cells[c].initial)
            && (c < |s.cells| && !a.SnatchValue? && !a.Take? ==> s'.cells[c].value == s.cells[c].value)
  {
  }

  /** A value leaves its cell only where nobody can be looking: under the one write guard, with no read guard
      outstanding, or when neither a reference to its resource nor a pin on it is left. */
  lemma EmptiedOnlyExclusively<T>(traceOn: bool, actions: seq<Action<T>>, a: Action<T>, c: CellId)
    requires Run(Initial(traceOn), actions).Some? && Enabled(Run(Initial(traceOn), actions).value, a)
    requires var s := Run(Initial(traceOn), actions).value;
             c < |s.cells| && s.cells[c].value.Some? && Apply(s, a).cells[c].value.None?
    ensures var s := Run(Initial(traceOn), actions).value;
            || (a.SnatchValue? && IsWriting(s, a.g) && forall g: GuardId | g < |s.guards| :: !s.guards[g].Reader())
            || (s.cells[c].clients == 0 && forall g: GuardId | g < |s.guards| :: !s.guards[g].Pins(c))
  {
    InitialInv<T>(traceOn);
    RunKeepsInv(Initial(traceOn), actions);
    var s := Run(Initial(traceOn), actions).value;
    hide Run, PinsOk, CellsOk;
    CellsAfter(s, a, c);
    match a
    case SnatchValue(w, d) =>
      forall g: GuardId | g < |s.guards|
        ensures !s.guards[g].Reader()
      {
        if s.guards[g].Reader() {
          ReadersExcludeWriting(s, g, w);
        }
      }
    case Take(d) =>
      if d != c {
        TakingEmptiesTheCell(s, a);
      }
    case _ =>
  }

  /** Guards can always be given up: in every reachable state one that reads or writes can be dropped, and one that was
      forgotten can be unlocked by force, on any thread. The reader count never falls short. */
  lemma GuardsCanBeGivenUp<T>(traceOn: bool, actions: seq<Action<T>>, g: GuardId, t: Thread)
    requires Run(Initial(traceOn), actions).Some?
    requires g < |Run(Initial(traceOn), actions).value.guards|
    ensures var s := Run(Initial(traceOn), actions).value;
            && (Enabled(s, DropGuard(g)) <==> s.guards[g].state.Reading? || s.guards[g].state.Writing?)
            && (Enabled(s, ForceUnlock(g, t)) <==> s.guards[g].state.Forgotten?)
            && (Enabled(s, Forget(g)) <==> s.guards[g].state.Reading?)
  {
    hide Run, Inv;
    CounterIsZeroIffNoReadGuard(traceOn, actions);
  }

  /** What can be done to a cell: whoever has a reference can clone or drop it, snatch its value under the write
      guard, and pin a value that is there under a read guard; its value can be taken once neither references nor
      pins are left. */
  lemma CellsCanBeUsed<T>(s: State<T>, g: GuardId, c: CellId)
    requires g < |s.guards| && c < |s.cells|
    ensures var referenced, value := s.cells[c].clients > 0, s.cells[c].value;
            && (referenced <==> Enabled(s, CloneRef(c))) && (referenced <==> Enabled(s, DropRef(c)))
            && (referenced && IsWriting(s, g) <==> Enabled(s, SnatchValue(g, c)))
            && (referenced && s.guards[g].state.Reading? && value.Some? <==> Enabled(s, Pin(g, c)))
            && (!referenced && (forall h: GuardId | h < |s.guards| :: !s.guards[h].Pins(c)) <==> Enabled(s, Take(c)))
  {
  }

  /** How often an action was taken. */
  function Times<T(==)>(actions: seq<Action<T>>, a: Action<T>): nat {
    multiset(actions)[a]
  }

  lemma TimesAfter<T>(actions: seq<Action<T>>, a: Action<T>, x: Action<T>)
    ensures Times(actions + [a], x) == Times(actions, x) + (if a == x then 1 else 0)
  {
  }

  /** The references to a cell's resource; none before it exists. */
  function Clients<T>(s: State<T>, c: CellId): nat {
    if c < |s.cells| then s.cells[c].clients else 0
  }

  lemma ClientsAfter<T>(s: State<T>, a: Action<T>, c: CellId)
    requires Enabled(s, a)
    ensures |Apply(s, a).cells| == |s.cells| + (if a.New? then 1 else 0)
    ensures Clients(Apply(s, a), c) + (if a == DropRef(c) then 1 else 0) ==
            Clients(s, c) + (if a == CloneRef(c) || (a.New? && c == |s.cells|) then 1 else 0)
  {
  }

  /** Conservation of references: a resource has one for its creation and one for each clone, less one for each drop. */
  lemma {:induction false} ClientsAreAccountedFor<T>(traceOn: bool, actions: seq<Action<T>>, c: CellId)
    requires Run(Initial(traceOn), actions).Some?
    ensures var s := Run(Initial(traceOn), actions).value;
            Clients(s, c) + Times(actions, DropRef(c)) ==
            (if c < |s.cells| then 1 else 0) + Times(actions, CloneRef(c))
  {
    hide Enabled, Apply, Clients;
    if actions == [] {
      NoCells<T>(traceOn, c);
    } else {
      var init, a := actions[..|actions| - 1], actions[|actions| - 1];
      assert actions == init + [a];
      ClientsAreAccountedFor(traceOn, init, c);
      TimesAfter(init, a, DropRef(c));
      TimesAfter(init, a, CloneRef(c));
      hide Times;
      ClientsAfter(Run(Initial(traceOn), init).value, a, c);
    }
  }

  lemma NoCells<T>(traceOn: bool, c: CellId)
    ensures Clients(Initial<T>(traceOn), c) == 0
  {
  }

  // ----- The recursion check

  /** A thread is traced exactly while it holds a guard, and it holds at most one. */
  ghost predicate TracesOk<T>(s: State<T>) {
    && (forall t, g :: Holds(s, t, g) ==> t in s.traced)
    && (forall t | t in s.traced :: exists g :: Holds(s, t, g))
    && (forall t, g, h :: Holds(s, t, g) && Holds(s, t, h) ==> g == h)
  }

  /** The check refuses exactly the threads that have an outstanding guard. */
  ghost predicate Exact<T>(s: State<T>) {
    forall t :: TracePanics(s, t) <==> exists g :: Holds(s, t, g)
  }

  /** The check has fired, or a lock is unlocked by force on another thread than the one that locked it. */
  predicate Disturbs<T>(s: State<T>, a: Action<T>) {
    a.Refused? || (a.ForceUnlock? && a.g < |s.guards| && a.at != s.guards[a.g].thread)
  }

  lemma QuietStepKeepsTraces<T>(s: State<T>, a: Action<T>)
    requires s.traceOn && TracesOk(s) && Enabled(s, a) && !Disturbs(s, a)
    ensures TracesOk(Apply(s, a))
  {
    var s' := Apply(s, a);
    forall t: Thread, g: GuardId | Holds(s', t, g)
      ensures t in s'.traced && (Holds(s, t, g) || ((a.Read? || a.Write?) && a.t == t && g == |s.guards|))
    {
      if g < |s.guards| {
        assert Holds(s, t, g);
        if a.DropGuard? || a.ForceUnlock? {
          assert Holds(s, s.guards[a.g].thread, a.g);
        }
      }
    }
    forall t | t in s'.traced
      ensures exists g :: Holds(s', t, g)
    {
      if (a.Read? || a.Write?) && a.t == t {
        assert Holds(s', t, |s.guards|);
      } else {
        var g :| Holds(s, t, g);
        assert Holds(s', t, g);
      }
    }
  }

  lemma DisturbedTraceIsInexact<T>(s: State<T>, a: Action<T>)
    requires s.traceOn && TracesOk(s) && Enabled(s, a) && Disturbs(s, a)
    ensures !Exact(Apply(s, a))
  {
    var s' := Apply(s, a);
    match a
    case Refused(t) =>
      var g :| Holds(s, t, g);
      assert Holds(s', t, g) && !TracePanics(s', t);
    case ForceUnlock(g, at) =>
      var t := s.guards[g].thread;
      assert Holds(s, t, g);
      forall h
        ensures !Holds(s', t, h)
      {
        assert Holds(s', t, h) ==> Holds(s, t, h);
      }
      assert TracePanics(s', t);
  }

  /** No action of the run disturbs the trace when it happens. */
  predicate Undisturbed<T>(s: State<T>, actions: seq<Action<T>>)
    requires Run(s, actions).Some?
  {
    actions == [] ||
    var init, a := actions[..|actions| - 1], actions[|actions| - 1];
    Undisturbed(s, init) && !Disturbs(Run(s, init).value, a)
  }

  /** The check is exact in every state of the run. */
  ghost predicate ExactThroughout<T>(s: State<T>, actions: seq<Action<T>>)
    requires Run(s, actions).Some?
  {
    Exact(Run(s, actions).value) && (actions == [] || ExactThroughout(s, actions[..|actions| - 1]))
  }

  lemma {:induction false} UndisturbedKeepsTraces<T>(actions: seq<Action<T>>)
    requires Run(Initial(true), actions).Some? && Undisturbed(Initial(true), actions)
    ensures Run(Initial(true), actions).value.traceOn && TracesOk(Run(Initial(true), actions).value)
  {
    if actions == [] {
    } else {
      var init, a := actions[..|actions| - 1], actions[|actions| - 1];
      UndisturbedKeepsTraces(init);
      QuietStepKeepsTraces(Run(Initial(true), init).value, a);
    }
  }

  /** In builds with the trace, the recursion check refuses a thread if and only if that thread has an
      outstanding guard, throughout a run, exactly when no action of the run disturbs the trace; a thread then
      has at most one guard. */
  lemma {:induction false} TraceIsExactIffUndisturbed<T>(actions: seq<Action<T>>)
    requires Run(Initial(true), actions).Some?
    ensures ExactThroughout(Initial(true), actions) <==> Undisturbed(Initial(true), actions)
    ensures Undisturbed(Initial(true), actions) ==>
              forall t, g, h ::
                Holds(Run(Initial(true), actions).value, t, g) && Holds(Run(Initial(true), actions).value, t, h) ==>
                  g == h
  {
    hide Enabled, Apply, Disturbs, Holds;
    if actions == [] {
      UndisturbedKeepsTraces(actions);
    } else {
      var init, a := actions[..|actions| - 1], actions[|actions| - 1];
      TraceIsExactIffUndisturbed(init);
      if Undisturbed(Initial(true), actions) {
        UndisturbedKeepsTraces(actions);
      } else if Undisturbed(Initial(true), init) {
        UndisturbedKeepsTraces(init);
        DisturbedTraceIsInexact(Run(Initial(true), init).value, a);
      }
    }
  }

  /** Without the trace nobody is ever refused. */
  lemma {:induction false} NobodyRefusedWithoutTrace<T>(actions: seq<Action<T>>, t: Thread)
    requires Run(Initial(false), actions).Some?
    ensures !Run(Initial(false), actions).value.traceOn
    ensures !TracePanics(Run(Initial(false), actions).value, t) && forall a | a in actions :: !a.Refused?
  {
    if actions == [] {
    } else {
      var init, a := actions[..|actions| - 1], actions[|actions| - 1];
      NobodyRefusedWithoutTrace(init, t);
      assert actions == init + [a];
    }
  }

  lemma {:induction false} RunConcat<T>(s: State<T>, first: seq<Action<T>>, s': State<T>, second: seq<Action<T>>)
    requires Run(s, first) == Some(s')
    ensures Run(s, first + second) == Run(s', second)
  {
    if second == [] {
      assert first + second == first;
    } else {
      var init := second[..|second| - 1];
      RunConcat(s, first, s', init);
      assert (first + second)[..|first + second| - 1] == first + init;
    }
  }

  lemma RunTwoSteps<T>(s: State<T>, a: Action<T>, s1: State<T>, b: Action<T>, s2: State<T>)
    requires Enabled(s, a) && Apply(s, a) == s1 && Enabled(s1, b) && Apply(s1, b) == s2
    ensures Run(s, [a, b]) == Some(s2)
  {
    assert [a][..0] == [] && [a, b][..1] == [a];
    assert Run(s, [a]) == Some(s1);
  }

  /** A resource guard dropped on another thread leaves the trace of its own thread set: that thread, which
      holds nothing, is refused the lock. */
  lemma MovedGuardLeavesItsTrace<T>(v: T)
    ensures var r := Run(Initial(true), [New(Some(v)), Read(0), Pin(0, 0), ForceUnlock(0, 1)]);
            && r.Some?
            && TracePanics(r.value, 0)
            && r.value.readers == 0
            && forall g :: !Holds(r.value, 0, g)
  {
    hide Run;
    var s0 := Initial<T>(true);
    var s1 := State(true, 0, false, [], [Cell(Some(v), Some(v), 1)], {}, []);
    var s2 := State(true, 1, false, [Guard(0, Reading)], s1.cells, {0}, []);
    var s3 := s2.(guards := [Guard(0, Forgotten(Some((0, v))))]);
    var s4 := s3.(readers := 0, guards := [Guard(0, Released)]);
    var a0, a1, a2, a3 := New(Some(v)), Read(0), Pin(0, 0), ForceUnlock(0, 1);
    assert Apply(s0, a0) == s1;
    assert Apply(s1, a1) == s2;
    assert Apply(s2, a2) == s3;
    assert Apply(s3, a3) == s4;
    RunTwoSteps(s0, a0, s1, a1, s2);
    RunTwoSteps(s2, a2, s3, a3, s4);
    RunConcat(s0, [a0, a1], s2, [a2, a3]);
    assert [a0, a1] + [a2, a3] == [a0, a1, a2, a3];
  }

  /** Without the trace a thread may hold two read guards at once. */
  lemma RecursiveReadWithoutTrace<T>()
    ensures var r := Run(Initial<T>(false), [Read(0), Read(0)]);
            r.Some? && Holds(r.value, 0, 0) && Holds(r.value, 0, 1)
  {
    var s0 := Initial<T>(false);
    var s1 := s0.(readers := 1, guards := [Guard(0, Reading)]);
    RunTwoSteps(s0, Read(0), s1, Read(0), s1.(readers := 2, guards := [Guard(0, Reading), Guard(0, Reading)]));
  }
}
