/**
  The `acquired_texture` slot of a surface: `get_current_texture`, `present` and `discard` of
  wgpu-core/src/present.rs and the reconfiguration of wgpu-core/src/device/resource.rs, with
  `Texture::destroy` and `Drop` of wgpu-core/src/resource.rs, which may take a texture's raw handle
  away in between.

  Raw surface textures are numbered in the order in which the driver handed them out. Textures are
  named by their position in `textures`, which holds the content of each texture's `Snatchable`.
*/
module Present {
  import opened Wrappers

  type Raw = nat
  type TextureId = nat

  datatype Inner = SurfaceTexture(raw: Raw) | Native

  /** What the driver answers to a request for a texture or for its presentation. */
  datatype Answer = Granted | Timeout | Occluded | Lost | Outdated | DeviceError | OtherError

  /** What a call returns: a status, an error, or nothing because it panicked. */
  datatype Outcome =
    | Status(answer: Answer)
    | NotConfigured
    | Device
    | AlreadyAcquired
    | TextureDestroyed
    | Invalid
    | PreviousOutputExists
    | Started                                 // the call goes on with a later region
    | Panicked

  /** `slot` is `None` while the surface has no presentation. `pending` are raw textures received from the driver by
      calls of `get_current_texture` that have not yet locked the slot again, and `configuring` counts the
      reconfigurations that have taken the presentation away and not yet finished. `presented` and `discarded` log the
      raw textures handed back to the driver, and `lost` those that were dropped instead. */
  datatype State = State(
    slot: Option<Option<TextureId>>, textures: seq<Option<Inner>>, acquired: nat, pending: set<Raw>, configuring: nat,
    presented: seq<Raw>, discarded: seq<Raw>, lost: seq<Raw>)

  const INITIAL := State(None, [], 0, {}, 0, [], [], [])

  /** Each is one region under the presentation lock, or one change of a texture. `valid` is whether the device passes
      its check, `queueAlive` whether the device's weak reference to its queue can be upgraded, `viewOk` whether the
      driver creates the view of a granted texture. */
  datatype Action =
    | BeginConfigure
    | EndConfigure(granted: bool)
    | CreateNative
    | Acquire(valid: bool, answer: Answer, viewOk: bool)
    | FinishAcquire(raw: Raw)
    | Present(valid: bool, queueAlive: bool, answer: Answer)
    | Discard(valid: bool)
    | TakeInner(t: TextureId)                 // `Texture::destroy`, or the drop of a texture

  predicate Enabled(s: State, a: Action) {
    match a
    case EndConfigure(_) => s.configuring > 0
    case FinishAcquire(raw) => raw in s.pending
    case TakeInner(t) => t < |s.textures|
    case _ => true
  }

  /** The first region of a reconfiguration takes the presentation away, and gives up if its slot was full. */
  function ConfigureBegun(s: State): (State, Outcome) {
    var s1 := s.(slot := None);
    if s.slot.Some? && s.slot.value.Some? then (s1, PreviousOutputExists)
    else (s1.(configuring := s.configuring + 1), Started)
  }

  /** The second one installs an empty slot, whatever it finds. */
  function ConfigureEnded(s: State, granted: bool): (State, Outcome)
    requires s.configuring > 0
  {
    var s1 := s.(configuring := s.configuring - 1);
    if granted then (s1.(slot := Some(None)), Status(Granted)) else (s1, Invalid)
  }

  /** A granted texture whose view cannot be created is lost. */
  function Acquired(s: State, valid: bool, answer: Answer, viewOk: bool): (State, Outcome) {
    if s.slot.None? then (s, NotConfigured)
    else if !valid then (s, Device)
    else
      match answer
      case Granted =>
        var s1 := s.(acquired := s.acquired + 1);
        if viewOk then (s1.(pending := s.pending + {s.acquired}), Started)
        else (s1.(lost := s.lost + [s.acquired]), Device)
      case DeviceError => (s, Device)
      case OtherError => (s, Status(Lost))
      case _ => (s, Status(answer))
  }

  /** With the slot already full the new texture is dropped, and its raw handle with it. */
  function AcquireFinished(s: State, raw: Raw): (State, Outcome) {
    var s1 := s.(pending := s.pending - {raw});
    match s.slot
    case None => (s1.(lost := s.lost + [raw]), Panicked)
    case Some(Some(_)) => (s1.(textures := s.textures + [None], lost := s.lost + [raw]), AlreadyAcquired)
    case Some(None) =>
      (s1.(textures := s.textures + [Some(SurfaceTexture(raw))], slot := Some(Some(|s.textures|))), Status(Granted))
  }

  /** The common part of `present` and `discard` on a configured surface: empty the slot, snatch the texture in it. */
  function TakenFromSlot(s: State): (State, Result<Raw, Outcome>)
    requires s.slot.Some?
  {
    var s1 := s.(slot := Some(None));
    if s.slot.value.None? then (s1, Err(AlreadyAcquired))
    else
      var t := s.slot.value.value;
      if t >= |s.textures| then (s1, Err(Panicked))
      else
        var s2 := s1.(textures := s.textures[t := None]);
        match s.textures[t]
        case None => (s2, Err(TextureDestroyed))
        case Some(SurfaceTexture(raw)) => (s2, Ok(raw))
        case Some(Native) => (s2, Err(Panicked))
  }

  /** What `present` makes of the driver's answer. */
  function Reported(answer: Answer): Outcome {
    match answer
    case DeviceError => Device
    case OtherError => Invalid
    case _ => Status(answer)
  }

  /** The upgrade of the queue comes before the slot is taken; the driver consumes the raw texture whatever
      it answers. */
  function Presented(s: State, valid: bool, queueAlive: bool, answer: Answer): (State, Outcome) {
    if s.slot.None? then (s, NotConfigured)
    else if !valid then (s, Device)
    else if !queueAlive then (s, Panicked)
    else
      var (s1, r) := TakenFromSlot(s);
      if r.Ok? then (s1.(presented := s.presented + [r.value]), Reported(answer)) else (s1, r.error)
  }

  function Discarded(s: State, valid: bool): (State, Outcome) {
    if s.slot.None? then (s, NotConfigured)
    else if !valid then (s, Device)
    else
      var (s1, r) := TakenFromSlot(s);
      if r.Ok? then (s1.(discarded := s.discarded + [r.value]), Status(Granted)) else (s1, r.error)
  }

  /** Destroying or dropping a surface texture drops its raw handle without handing it back. */
  function InnerTaken(s: State, t: TextureId): State
    requires t < |s.textures|
  {
    var s1 := s.(textures := s.textures[t := None]);
    match s.textures[t]
    case Some(SurfaceTexture(raw)) => s1.(lost := s.lost + [raw])
    case _ => s1
  }

  function Apply(s: State, a: Action): (State, Outcome)
    requires Enabled(s, a)
  {
    match a
    case BeginConfigure => ConfigureBegun(s)
    case EndConfigure(granted) => ConfigureEnded(s, granted)
    case CreateNative => (s.(textures := s.textures + [Some(Native)]), Status(Granted))
    case Acquire(valid, answer, viewOk) => Acquired(s, valid, answer, viewOk)
    case FinishAcquire(raw) => AcquireFinished(s, raw)
    case Present(valid, queueAlive, answer) => Presented(s, valid, queueAlive, answer)
    case Discard(valid) => Discarded(s, valid)
    case TakeInner(t) => (InnerTaken(s, t), Status(Granted))
  }

  function RunFrom(s: State, actions: seq<Action>): Option<State> {
    if actions == [] then Some(s)
    else
      match RunFrom(s, actions[..|actions| - 1])
      case None => None
      case Some(s1) => if Enabled(s1, actions[|actions| - 1]) then Some(Apply(s1, actions[|actions| - 1]).0) else None
  }

  function Run(actions: seq<Action>): Option<State> {
    RunFrom(INITIAL, actions)
  }

  /** How often a raw texture has been handed back to the driver. */
  function Returns(s: State, raw: Raw): nat {
    multiset(s.presented)[raw] + multiset(s.discarded)[raw]
  }

  predicate Holds(s: State, t: TextureId, raw: Raw) {
    t < |s.textures| && s.textures[t] == Some(SurfaceTexture(raw))
  }

  function Losses(s: State, raw: Raw): nat {
    multiset(s.lost)[raw]
  }

  ghost predicate Held(s: State, raw: Raw) {
    exists t: TextureId :: Holds(s, t, raw)
  }

  /** In how many places a raw texture is: on its way to the slot, in a texture, handed back, lost. */
  ghost function Places(s: State, raw: Raw): nat {
    (if raw in s.pending then 1 else 0) + (if Held(s, raw) then 1 else 0) + Returns(s, raw) + Losses(s, raw)
  }

  /** A raw texture that the driver has handed out is in exactly one place, and in one texture at most. */
  ghost predicate RawOk(s: State, raw: Raw) {
    && Places(s, raw) == (if raw < s.acquired then 1 else 0)
    && (forall t: TextureId, u: TextureId :: Holds(s, t, raw) && Holds(s, u, raw) ==> t == u)
  }

  predicate SlotOk(s: State) {
    s.slot.Some? && s.slot.value.Some? ==>
      s.slot.value.value < |s.textures| && s.textures[s.slot.value.value] != Some(Native)
  }

  ghost predicate Inv(s: State) {
    SlotOk(s) && forall raw: Raw :: RawOk(s, raw)
  }

  // ----- What one action does to one raw texture

  predicate Full(s: State) {
    s.slot.Some? && s.slot.value.Some?
  }

  /** A call of `present` or `discard` gets as far as taking the slot. */
  predicate ReachesSlot(s: State, a: Action) {
    && s.slot.Some?
    && ((a.Present? && a.valid && a.queueAlive) || (a.Discard? && a.valid))
  }

  /** The slot holds a texture with this raw handle, not destroyed in between. */
  predicate InSlot(s: State, raw: Raw) {
    s.slot.Some? && s.slot.value.Some? && Holds(s, s.slot.value.value, raw)
  }

  /** The driver hands out a raw texture, the next in number. */
  predicate HandsOut(s: State, a: Action) {
    a.Acquire? && s.slot.Some? && a.valid && a.answer.Granted?
  }

  /** A raw texture is lost when its view cannot be created, when it arrives at a slot that is missing or full, and
      when its texture is destroyed or dropped. */
  predicate Loses(s: State, a: Action, raw: Raw) {
    || (HandsOut(s, a) && raw == s.acquired && !a.viewOk)
    || (a == FinishAcquire(raw) && s.slot != Some(None))
    || (a.TakeInner? && Holds(s, a.t, raw))
  }

  lemma PendingAfter(s: State, a: Action, raw: Raw)
    requires Enabled(s, a)
    ensures var s' := Apply(s, a).0;
            && s'.acquired == s.acquired + (if HandsOut(s, a) then 1 else 0)
            && (raw in s'.pending <==>
                  (raw in s.pending && a != FinishAcquire(raw)) || (HandsOut(s, a) && raw == s.acquired && a.viewOk))
            && (a == FinishAcquire(raw) ==> raw in s.pending)
  {
  }

  /** The texture loses its raw handle. */
  predicate Emptied(s: State, a: Action, t: TextureId) {
    a == TakeInner(t) || (ReachesSlot(s, a) && s.slot.value == Some(t))
  }

  lemma HoldersAfter(s: State, a: Action, raw: Raw)
    requires SlotOk(s) && Enabled(s, a)
    ensures var s' := Apply(s, a).0;
            forall t: TextureId ::
              Holds(s', t, raw) <==>
                (Holds(s, t, raw) && !Emptied(s, a, t))
                || (a == FinishAcquire(raw) && s.slot == Some(None) && t == |s.textures|)
  {
  }

  lemma HeldAfter(s: State, a: Action, raw: Raw)
    requires SlotOk(s) && RawOk(s, raw) && Enabled(s, a)
    ensures var s' := Apply(s, a).0;
            && (Held(s', raw) <==>
                  (Held(s, raw) && !(a.TakeInner? && Holds(s, a.t, raw)) && !(ReachesSlot(s, a) && InSlot(s, raw)))
                  || (a == FinishAcquire(raw) && s.slot == Some(None)))
            && (forall t: TextureId, u: TextureId :: Holds(s', t, raw) && Holds(s', u, raw) ==> t == u)
  {
    var s' := Apply(s, a).0;
    HoldersAfter(s, a, raw);
    PendingAfter(s, a, raw);
    hide Apply, Holds, Returns, Losses;
    if t: TextureId :| Holds(s, t, raw) {
      assert Holds(s', t, raw) <==> !Emptied(s, a, t);
    }
    if a == FinishAcquire(raw) && s.slot == Some(None) {
      assert Holds(s', |s.textures|, raw);
    }
  }

  /** Textures are only added: one of another kind when it is created, one for each raw texture that arrives while
      the surface has a presentation. One of another kind keeps its content until it is destroyed or dropped. */
  lemma TexturesAfter(s: State, a: Action, t: TextureId)
    requires SlotOk(s) && Enabled(s, a)
    ensures var s' := Apply(s, a).0;
            && |s'.textures| == |s.textures| + (if a.CreateNative? || (a.FinishAcquire? && s.slot.Some?) then 1 else 0)
            && (t < |s'.textures| && s'.textures[t] == Some(Native) <==>
                  (t < |s.textures| && s.textures[t] == Some(Native) && a != TakeInner(t))
                  || (a.CreateNative? && t == |s.textures|))
  {
  }

  /** What `TakenFromSlot` takes is what was in the slot, and it logs nothing itself. */
  lemma TakingTheSlot(s: State, raw: Raw)
    requires SlotOk(s) && s.slot.Some?
    ensures var (s1, r) := TakenFromSlot(s);
            && s1.presented == s.presented && s1.discarded == s.discarded && s1.lost == s.lost
            && (r == Ok(raw) <==> InSlot(s, raw))
  {
  }

  /** Only `present` and `discard` hand a raw texture back, the one of the slot. */
  lemma ReturnsAfter(s: State, a: Action, raw: Raw)
    requires SlotOk(s) && Enabled(s, a)
    ensures Returns(Apply(s, a).0, raw) ==
            Returns(s, raw) + (if ReachesSlot(s, a) && InSlot(s, raw) then 1 else 0)
  {
    if ReachesSlot(s, a) {
      hide TakenFromSlot, InSlot;
      TakingTheSlot(s, raw);
    }
  }

  /** The log of lost raw textures after an action. */
  lemma LogAfter(s: State, a: Action)
    requires Enabled(s, a)
    ensures Apply(s, a).0.lost ==
            match a
            case Acquire(_, _, viewOk) => if HandsOut(s, a) && !viewOk then s.lost + [s.acquired] else s.lost
            case FinishAcquire(raw) => if s.slot != Some(None) then s.lost + [raw] else s.lost
            case TakeInner(t) =>
              (match s.textures[t] case Some(SurfaceTexture(raw)) => s.lost + [raw] case _ => s.lost)
            case _ => s.lost
  {
  }

  lemma LossesAfter(s: State, a: Action, raw: Raw)
    requires Enabled(s, a)
    ensures Losses(Apply(s, a).0, raw) == Losses(s, raw) + (if Loses(s, a, raw) then 1 else 0)
  {
    LogAfter(s, a);
    hide Apply;
  }

  lemma StepKeepsRaw(s: State, a: Action, raw: Raw)
    requires SlotOk(s) && RawOk(s, raw) && Enabled(s, a)
    ensures RawOk(Apply(s, a).0, raw)
  {
    hide Returns, Losses, Holds, Held, Apply, Enabled, SlotOk;
    HeldAfter(s, a, raw);
    ReturnsAfter(s, a, raw);
    LossesAfter(s, a, raw);
    PendingAfter(s, a, raw);
    HolderFacts(s, a, raw);
  }

  lemma HolderFacts(s: State, a: Action, raw: Raw)
    ensures InSlot(s, raw) || (a.TakeInner? && Holds(s, a.t, raw)) ==> Held(s, raw)
  {
  }

  lemma StepKeepsInv(s: State, a: Action)
    requires Inv(s) && Enabled(s, a)
    ensures Inv(Apply(s, a).0)
  {
    hide RawOk;
    forall raw: Raw
      ensures RawOk(Apply(s, a).0, raw)
    {
      assert RawOk(s, raw);
      StepKeepsRaw(s, a, raw);
    }
  }

  lemma {:induction false} RunFromKeepsInv(s: State, actions: seq<Action>)
    requires Inv(s) && RunFrom(s, actions).Some?
    ensures Inv(RunFrom(s, actions).value)
  {
    hide Inv, Enabled, Apply;
    if actions == [] {
    } else {
      var init := actions[..|actions| - 1];
      RunFromKeepsInv(s, init);
      StepKeepsInv(RunFrom(s, init).value, actions[|actions| - 1]);
    }
  }

  lemma RunKeepsInv(actions: seq<Action>)
    requires Run(actions).Some?
    ensures Inv(Run(actions).value)
  {
    RunFromKeepsInv(INITIAL, actions);
  }

  lemma RunOneMore(s0: State, actions: seq<Action>, s: State, a: Action, s': State)
    requires RunFrom(s0, actions) == Some(s) && Enabled(s, a) && Apply(s, a).0 == s'
    ensures RunFrom(s0, actions + [a]) == Some(s')
  {
    assert (actions + [a])[..|actions|] == actions;
  }

  // ----- Results over whole runs

  /** Conservation: each raw texture that the driver has handed out is in exactly one place, be that on its way to the
      slot, in one texture, handed back once, or lost once; one that it has not handed out is in none. */
  lemma EachRawTextureIsInOnePlace(actions: seq<Action>, raw: Raw)
    requires Run(actions).Some?
    ensures var s := Run(actions).value;
            && Places(s, raw) == (if raw < s.acquired then 1 else 0)
            && (forall t: TextureId, u: TextureId :: Holds(s, t, raw) && Holds(s, u, raw) ==> t == u)
  {
    RunKeepsInv(actions);
    assert RawOk(Run(actions).value, raw);
  }

  /** And it is lost in exactly the three ways of `Loses`. */
  lemma LostExactly(actions: seq<Action>, a: Action, raw: Raw)
    requires Run(actions).Some? && Enabled(Run(actions).value, a)
    ensures var s := Run(actions).value;
            Losses(Apply(s, a).0, raw) == Losses(s, raw) + (if Loses(s, a, raw) then 1 else 0)
  {
    hide Run, Apply, Losses, RawOk, Loses;
    RunKeepsInv(actions);
    LossesAfter(Run(actions).value, a, raw);
  }

  /** Each raw surface texture is presented or discarded at most once over all, only after the driver handed it
      out, and is then neither in a texture nor on its way to one. */
  lemma HandedBackAtMostOnce(actions: seq<Action>, raw: Raw)
    requires Run(actions).Some?
    ensures var s := Run(actions).value;
            && Returns(s, raw) <= 1
            && (Returns(s, raw) == 1 ==>
                  raw < s.acquired && raw !in s.pending && forall t: TextureId :: !Holds(s, t, raw))
  {
    EachRawTextureIsInOnePlace(actions, raw);
    var s := Run(actions).value;
    assert forall t: TextureId :: Holds(s, t, raw) ==> Held(s, raw);
  }

  /** The two ways to panic: a `get_current_texture` that finishes while the surface has no presentation, and a
      `present` on a configured surface whose valid device has lost its queue. */
  predicate MeetsNothing(s: State, a: Action) {
    || (a.FinishAcquire? && s.slot.None?)
    || (a.Present? && s.slot.Some? && a.valid && !a.queueAlive)
  }

  /** What a panic leaves. */
  function Abandoned(s: State, a: Action): State {
    if a.FinishAcquire? then s.(pending := s.pending - {a.raw}, lost := s.lost + [a.raw]) else s
  }

  lemma PanicsExactly(s: State, a: Action)
    requires SlotOk(s) && Enabled(s, a)
    ensures Apply(s, a).1 == Panicked <==> MeetsNothing(s, a)
    ensures MeetsNothing(s, a) ==>
              Apply(s, a).0 == Abandoned(s, a)
  {
  }

  /** In every reachable state the calls panic in exactly those two ways, so the `unreachable!()` arms are unreachable.
      The panic of `get_current_texture` loses its raw texture; that of `present` leaves slot and texture alone. */
  lemma PanicsExactlyWithoutPresentationOrQueue(actions: seq<Action>, a: Action)
    requires Run(actions).Some? && Enabled(Run(actions).value, a)
    ensures var s := Run(actions).value;
            && (Apply(s, a).1 == Panicked <==> MeetsNothing(s, a))
            && (MeetsNothing(s, a) ==> Apply(s, a).0 == Abandoned(s, a))
  {
    hide Run, RawOk, Apply, Enabled, MeetsNothing;
    RunKeepsInv(actions);
    PanicsExactly(Run(actions).value, a);
  }

  /** What becomes of slot and raw texture. A call that does not get as far as the slot changes nothing. One that does
      empties it, so that the next call finds nothing, and hands back the raw texture of the slot if that was not
      destroyed, whatever the driver answers; it succeeds if it handed one back and the driver did not fail. */
  lemma SlotIsTakenOnce(actions: seq<Action>, a: Action)
    requires Run(actions).Some? && (a.Present? || a.Discard?)
    ensures var s := Run(actions).value;
            var (s', outcome) := Apply(s, a);
            && (!ReachesSlot(s, a) ==> s' == s && !outcome.Status?)
            && (ReachesSlot(s, a) ==> s'.slot == Some(None) && Apply(s', a).1 == AlreadyAcquired)
            && (outcome.Status? <==>
                  ReachesSlot(s, a) && (exists raw :: InSlot(s, raw)) && (a.Present? ==> Reported(a.answer).Status?))
            && (forall raw: Raw ::
                  Returns(s', raw) == Returns(s, raw) + (if ReachesSlot(s, a) && InSlot(s, raw) then 1 else 0))
  {
    RunKeepsInv(actions);
    var s := Run(actions).value;
    SlotOutcome(s, a);
    forall raw: Raw
      ensures Returns(Apply(s, a).0, raw) ==
              Returns(s, raw) + (if ReachesSlot(s, a) && InSlot(s, raw) then 1 else 0)
    {
      ReturnsAfter(s, a, raw);
    }
  }

  lemma SlotOutcome(s: State, a: Action)
    requires SlotOk(s) && (a.Present? || a.Discard?)
    ensures var (s', outcome) := Apply(s, a);
            && (!ReachesSlot(s, a) ==> s' == s && !outcome.Status?)
            && (ReachesSlot(s, a) ==> s'.slot == Some(None) && Apply(s', a).1 == AlreadyAcquired)
            && (outcome.Status? <==>
                  ReachesSlot(s, a) && (exists raw :: InSlot(s, raw)) && (a.Present? ==> Reported(a.answer).Status?))
  {
    if ReachesSlot(s, a) {
      var r := TakenFromSlot(s).1;
      assert r.Ok? ==> InSlot(s, r.value);
    }
  }

  /** How often a raw texture occurs in a log. */
  function Logged(log: seq<Raw>, raw: Raw): nat {
    multiset(log)[raw]
  }

  lemma LogsAfter(s: State, a: Action, raw: Raw)
    requires SlotOk(s) && Enabled(s, a)
    ensures var s', handed := Apply(s, a).0, ReachesSlot(s, a) && InSlot(s, raw);
            && Logged(s'.presented, raw) == Logged(s.presented, raw) + (if a.Present? && handed then 1 else 0)
            && Logged(s'.discarded, raw) == Logged(s.discarded, raw) + (if a.Discard? && handed then 1 else 0)
  {
    if ReachesSlot(s, a) {
      hide TakenFromSlot, InSlot;
      TakingTheSlot(s, raw);
    }
  }

  lemma OtherActionsKeepLogs(s: State, a: Action)
    requires SlotOk(s) && Enabled(s, a)
    ensures var s' := Apply(s, a).0;
            && (!a.Present? || !ReachesSlot(s, a) ==> s'.presented == s.presented)
            && (!a.Discard? || !ReachesSlot(s, a) ==> s'.discarded == s.discarded)
  {
    if ReachesSlot(s, a) {
      hide TakenFromSlot;
      TakingTheSlot(s, 0);
    }
  }

  /** In every reachable state it is `present` that presents and `discard` that discards: each adds the raw texture
      of the slot to its own log, and to no other, exactly if it reaches it; every other action leaves both logs
      alone. */
  lemma PresentPresentsAndDiscardDiscards(actions: seq<Action>, a: Action, raw: Raw)
    requires Run(actions).Some? && Enabled(Run(actions).value, a)
    ensures var s := Run(actions).value;
            var s', handed := Apply(s, a).0, ReachesSlot(s, a) && InSlot(s, raw);
            && Logged(s'.presented, raw) == Logged(s.presented, raw) + (if a.Present? && handed then 1 else 0)
            && Logged(s'.discarded, raw) == Logged(s.discarded, raw) + (if a.Discard? && handed then 1 else 0)
            && (!a.Present? || !ReachesSlot(s, a) ==> s'.presented == s.presented)
            && (!a.Discard? || !ReachesSlot(s, a) ==> s'.discarded == s.discarded)
  {
    hide Run, Apply, RawOk, Logged, ReachesSlot, InSlot, Enabled;
    RunKeepsInv(actions);
    LogsAfter(Run(actions).value, a, raw);
    OtherActionsKeepLogs(Run(actions).value, a);
  }

  /** The call hands the raw texture of the slot back. */
  ghost predicate HandsBack(s: State, a: Action) {
    ReachesSlot(s, a) && exists raw :: InSlot(s, raw)
  }

  lemma HandingBackAnswers(s: State, a: Action)
    requires SlotOk(s) && (a.Present? || a.Discard?)
    ensures var outcome := Apply(s, a).1;
            && (outcome == NotConfigured <==> s.slot.None?)
            && (outcome == Panicked <==> MeetsNothing(s, a))
            && (outcome == AlreadyAcquired <==> ReachesSlot(s, a) && s.slot == Some(None))
            && (outcome == TextureDestroyed <==> ReachesSlot(s, a) && Full(s) && !HandsBack(s, a))
            && (outcome == Device <==>
                  (s.slot.Some? && !a.valid) || (HandsBack(s, a) && a.Present? && a.answer.DeviceError?))
            && (outcome == Invalid <==> HandsBack(s, a) && a.Present? && a.answer.OtherError?)
            && (forall answer :: outcome == Status(answer) <==>
                  HandsBack(s, a) && !answer.DeviceError? && !answer.OtherError?
                  && answer == (if a.Present? then a.answer else Granted))
  {
    if ReachesSlot(s, a) {
      var r := TakenFromSlot(s).1;
      assert r.Ok? ==> InSlot(s, r.value);
    }
  }

  /** In every reachable state each answer of `present` and `discard` has exactly one reason. */
  lemma AnswersOfPresentAndDiscard(actions: seq<Action>, a: Action)
    requires Run(actions).Some? && (a.Present? || a.Discard?)
    ensures var s := Run(actions).value;
            var outcome := Apply(s, a).1;
            && (outcome == NotConfigured <==> s.slot.None?)
            && (outcome == Panicked <==> s.slot.Some? && a.Present? && a.valid && !a.queueAlive)
            && (outcome == AlreadyAcquired <==> ReachesSlot(s, a) && s.slot == Some(None))
            && (outcome == TextureDestroyed <==> ReachesSlot(s, a) && Full(s) && !HandsBack(s, a))
            && (outcome == Device <==>
                  (s.slot.Some? && !a.valid) || (HandsBack(s, a) && a.Present? && a.answer.DeviceError?))
            && (outcome == Invalid <==> HandsBack(s, a) && a.Present? && a.answer.OtherError?)
            && (forall answer :: outcome == Status(answer) <==>
                  HandsBack(s, a) && !answer.DeviceError? && !answer.OtherError?
                  && answer == (if a.Present? then a.answer else Granted))
  {
    hide Run, Apply, RawOk, ReachesSlot, HandsBack;
    RunKeepsInv(actions);
    HandingBackAnswers(Run(actions).value, a);
  }

  /** Acquiring a texture answers as the driver does, an unspecific error counting as a lost surface, and goes on
      exactly with a texture that has a view. A texture that arrives is in the slot exactly if that was empty. */
  lemma AnswersOfGetCurrentTexture(s: State, a: Action)
    requires Enabled(s, a) && (a.Acquire? || a.FinishAcquire?)
    ensures var (s', outcome) := Apply(s, a);
            if a.Acquire? then
              && s'.slot == s.slot
              && (outcome == NotConfigured <==> s.slot.None?)
              && (outcome == Started <==> HandsOut(s, a) && a.viewOk)
              && (outcome == Device <==>
                    s.slot.Some? && (!a.valid || a.answer.DeviceError? || (a.answer.Granted? && !a.viewOk)))
              && (forall answer :: outcome == Status(answer) <==>
                    s.slot.Some? && a.valid && !a.answer.Granted? && !a.answer.DeviceError?
                    && answer == (if a.answer.OtherError? then Lost else a.answer))
            else
              && (outcome == Panicked <==> s.slot.None?)
              && (outcome == AlreadyAcquired <==> Full(s))
              && (outcome == Status(Granted) <==> s.slot == Some(None))
              && (InSlot(s', a.raw) && !InSlot(s, a.raw) <==> s.slot == Some(None))
              && (s.slot != Some(None) ==> s'.slot == s.slot)
  {
  }

  /** A reconfiguration leaves the surface without presentation until it ends, and then, if the driver grants it, with
      an empty slot; it gives up at once exactly if the slot was full. Nothing else reconfigures. */
  lemma ReconfigurationSteps(s: State, a: Action)
    requires Enabled(s, a)
    ensures var (s', outcome) := Apply(s, a);
            match a
            case BeginConfigure =>
              && s'.slot.None?
              && outcome == (if Full(s) then PreviousOutputExists else Started)
              && s'.configuring == s.configuring + (if Full(s) then 0 else 1)
            case EndConfigure(granted) =>
              && s'.slot == (if granted then Some(None) else s.slot)
              && outcome == (if granted then Status(Granted) else Invalid)
              && s'.configuring == s.configuring - 1
            case _ => s'.configuring == s.configuring && (s'.slot.None? <==> s.slot.None?)
  {
  }

  // ----- When a reconfiguration drops the texture in the slot

  /** A reconfiguration that ends now would overwrite a full slot. */
  predicate AboutToDrop(s: State) {
    Full(s) && s.configuring > 0
  }

  /** A full slot loses its texture other than to `present` or `discard`, and other than with the error for it, exactly
      when a reconfiguration ends successfully. */
  lemma FullSlotIsOverwrittenOnlyByEndConfigure(s: State, a: Action)
    requires Full(s) && Enabled(s, a)
    ensures Apply(s, a).0.slot != s.slot && !ReachesSlot(s, a) && Apply(s, a).1 != PreviousOutputExists
            <==> a == EndConfigure(true)
  {
  }

  /** Two reconfigurations are under way, or one is and the surface has a presentation again. */
  predicate Overlapped(s: State) {
    s.configuring >= 2 || (s.configuring == 1 && s.slot.Some?)
  }

  predicate NoneBegins(actions: seq<Action>) {
    BeginConfigure !in actions
  }

  /** Some run in which no further reconfiguration begins overwrites a full slot. */
  ghost predicate CanDrop(s: State) {
    exists actions :: NoneBegins(actions) && RunFrom(s, actions).Some? && AboutToDrop(RunFrom(s, actions).value)
  }

  lemma StepKeepsApart(s: State, a: Action)
    requires !Overlapped(s) && Enabled(s, a) && a != BeginConfigure
    ensures !Overlapped(Apply(s, a).0)
  {
  }

  lemma {:induction false} RunKeepsApart(s: State, actions: seq<Action>)
    requires !Overlapped(s) && NoneBegins(actions) && RunFrom(s, actions).Some?
    ensures !Overlapped(RunFrom(s, actions).value)
  {
    if actions == [] {
    } else {
      var init, a := actions[..|actions| - 1], actions[|actions| - 1];
      assert a in actions;
      RunKeepsApart(s, init);
      hide Overlapped, Enabled, Apply;
      StepKeepsApart(RunFrom(s, init).value, a);
    }
  }

  /** A texture acquired on a surface with a presentation fills its slot. */
  lemma SlotCanBeFilled(s: State, prefix: seq<Action>, s0: State)
    requires RunFrom(s0, prefix) == Some(s) && NoneBegins(prefix) && s.slot.Some? && s.configuring > 0
    ensures CanDrop(s0)
  {
    if Full(s) {
      assert AboutToDrop(s);
    } else {
      var acquire, finish := Acquire(true, Granted, true), FinishAcquire(s.acquired);
      var s1 := Apply(s, acquire).0;
      RunOneMore(s0, prefix, s, acquire, s1);
      RunOneMore(s0, prefix + [acquire], s1, finish, Apply(s1, finish).0);
      var filled := prefix + [acquire] + [finish];
      assert NoneBegins(filled) && AboutToDrop(RunFrom(s0, filled).value);
    }
  }

  /** The exact condition: from a state a run in which no further reconfiguration begins can overwrite a full slot, and
      so drop its texture, if and only if reconfigurations have overlapped there. */
  lemma CanDropIffOverlapped(s: State)
    ensures CanDrop(s) <==> Overlapped(s)
  {
    if Overlapped(s) {
      if s.configuring == 1 {
        SlotCanBeFilled(s, [], s);
      } else {
        var ended := Apply(s, EndConfigure(true)).0;
        RunOneMore(s, [], s, EndConfigure(true), ended);
        SlotCanBeFilled(ended, [] + [EndConfigure(true)], s);
      }
    } else {
      forall actions | NoneBegins(actions) && RunFrom(s, actions).Some?
        ensures !AboutToDrop(RunFrom(s, actions).value)
      {
        RunKeepsApart(s, actions);
      }
    }
  }

  /** Of the reconfigurations of a run at most one is under way at any time. */
  predicate NeverOverlaps(actions: seq<Action>)
    requires Run(actions).Some?
  {
    Run(actions).value.configuring <= 1 && (actions == [] || NeverOverlaps(actions[..|actions| - 1]))
  }

  /** Without overlap a surface that is being reconfigured has no presentation, and nothing is ever dropped. */
  lemma {:induction false} WithoutOverlapNothingIsDropped(actions: seq<Action>)
    requires Run(actions).Some? && NeverOverlaps(actions)
    ensures Run(actions).value.configuring == 1 ==> Run(actions).value.slot.None?
    ensures !AboutToDrop(Run(actions).value) && !CanDrop(Run(actions).value)
  {
    if actions == [] {
    } else {
      WithoutOverlapNothingIsDropped(actions[..|actions| - 1]);
    }
    CanDropIffOverlapped(Run(actions).value);
  }

  /** A raw texture that the driver has handed out, and that is neither on its way to the slot nor in it. */
  predicate OutOfSlot(s: State, raw: Raw) {
    raw < s.acquired && raw !in s.pending && !InSlot(s, raw)
  }

  lemma StepKeepsOut(s: State, a: Action, raw: Raw)
    requires SlotOk(s) && Enabled(s, a) && OutOfSlot(s, raw)
    ensures OutOfSlot(Apply(s, a).0, raw) && Returns(Apply(s, a).0, raw) == Returns(s, raw)
  {
    HoldersAfter(s, a, raw);
    PendingAfter(s, a, raw);
    ReturnsAfter(s, a, raw);
    SlotAfter(s, a);
    hide Apply, Returns, Holds;
  }

  /** What can be in the slot is what was there before, or a texture that has just arrived. */
  lemma SlotAfter(s: State, a: Action)
    requires Enabled(s, a)
    ensures var s' := Apply(s, a).0;
            Full(s') ==> s'.slot == s.slot || (a.FinishAcquire? && s'.slot == Some(Some(|s.textures|)))
    ensures Full(s) && s.slot.value.value < |s.textures| ==> s.slot != Some(Some(|s.textures|))
  {
  }

  /** A raw texture that was dropped from the slot is never handed back afterwards, whatever happens. */
  lemma {:induction false} DroppedIsNeverHandedBack(past: seq<Action>, s: State, raw: Raw, more: seq<Action>)
    requires Run(past) == Some(s) && OutOfSlot(s, raw) && RunFrom(s, more).Some?
    ensures var s' := RunFrom(s, more).value;
            OutOfSlot(s', raw) && Returns(s', raw) == Returns(s, raw)
  {
    hide Apply, Enabled, OutOfSlot, Returns, RawOk;
    RunKeepsInv(past);
    if more == [] {
    } else {
      var init, a := more[..|more| - 1], more[|more| - 1];
      DroppedIsNeverHandedBack(past, s, raw, init);
      RunFromKeepsInv(s, init);
      StepKeepsOut(RunFrom(s, init).value, a, raw);
    }
  }

  // ----- Runs that reach what the theorems allow for

  const CONFIGURED := INITIAL.(slot := Some(None))

  /** A configured surface, with one texture on its way to the slot, and then in it. */
  const ON_ITS_WAY := CONFIGURED.(acquired := 1, pending := {0})
  const IN_THE_SLOT := CONFIGURED.(slot := Some(Some(0)), textures := [Some(SurfaceTexture(0))], acquired := 1)

  lemma Acquiring(actions: seq<Action>, s: State)
    requires Run(actions) == Some(s) && s.(configuring := 0) == CONFIGURED
    ensures var r := actions + [Acquire(true, Granted, true)];
            && Run(r) == Some(ON_ITS_WAY.(configuring := s.configuring))
            && Run(r + [FinishAcquire(0)]) == Some(IN_THE_SLOT.(configuring := s.configuring))
  {
    var r := actions + [Acquire(true, Granted, true)];
    var s1 := ON_ITS_WAY.(configuring := s.configuring);
    RunOneMore(INITIAL, actions, s, Acquire(true, Granted, true), s1);
    RunOneMore(INITIAL, r, s1, FinishAcquire(0), IN_THE_SLOT.(configuring := s.configuring));
  }

  /** The actions of a complete reconfiguration. */
  const CONFIGURING: seq<Action> := [] + [BeginConfigure] + [EndConfigure(true)]

  lemma ConfiguringIsReached()
    ensures Run(CONFIGURING) == Some(CONFIGURED)
  {
    RunOneMore(INITIAL, [], INITIAL, BeginConfigure, INITIAL.(configuring := 1));
    RunOneMore(INITIAL, [] + [BeginConfigure], INITIAL.(configuring := 1), EndConfigure(true), CONFIGURED);
  }

  /** A texture that finishes inside the window of a reconfiguration panics, although the reconfiguration succeeds. */
  lemma FinishInsideReconfigurationPanics()
    ensures var window := CONFIGURING + [Acquire(true, Granted, true)] + [BeginConfigure];
            && Run(window).Some? && Enabled(Run(window).value, FinishAcquire(0))
            && Apply(Run(window).value, FinishAcquire(0)).1 == Panicked
            && Run(window + [FinishAcquire(0)] + [EndConfigure(true)]) == Some(CONFIGURED.(acquired := 1, lost := [0]))
  {
    ConfiguringIsReached();
    Acquiring(CONFIGURING, CONFIGURED);
    var acquiring := CONFIGURING + [Acquire(true, Granted, true)];
    var s1 := ON_ITS_WAY.(slot := None, configuring := 1);
    var s2 := s1.(pending := {}, lost := [0]);
    RunOneMore(INITIAL, acquiring, ON_ITS_WAY, BeginConfigure, s1);
    RunOneMore(INITIAL, acquiring + [BeginConfigure], s1, FinishAcquire(0), s2);
    RunOneMore(INITIAL, acquiring + [BeginConfigure] + [FinishAcquire(0)], s2, EndConfigure(true),
               CONFIGURED.(acquired := 1, lost := [0]));
  }

  /** A `present` after the queue was dropped panics, and the texture stays in the slot. */
  lemma PresentWithoutQueuePanics()
    ensures Run(CONFIGURING + [Acquire(true, Granted, true)] + [FinishAcquire(0)]) == Some(IN_THE_SLOT)
    ensures Apply(IN_THE_SLOT, Action.Present(true, false, Granted)) == (IN_THE_SLOT, Panicked)
  {
    assert Apply(IN_THE_SLOT, Action.Present(true, false, Granted)) == (IN_THE_SLOT, Panicked);
    hide Run, Apply;
    ConfiguringIsReached();
    Acquiring(CONFIGURING, CONFIGURED);
  }

  /** Of two overlapping reconfigurations the second overwrites a slot that was filled in between, and nobody
      hands its texture back by way of the slot. */
  lemma OverlappingReconfigurationsDropTheSlot()
    ensures var overlapping := [] + [BeginConfigure] + [BeginConfigure] + [EndConfigure(true)];
            var full := overlapping + [Acquire(true, Granted, true)] + [FinishAcquire(0)];
            && Run(full) == Some(IN_THE_SLOT.(configuring := 1))
            && Run(full + [EndConfigure(true)]) == Some(IN_THE_SLOT.(slot := Some(None)))
  {
    var overlapping := [] + [BeginConfigure] + [BeginConfigure] + [EndConfigure(true)];
    RunOneMore(INITIAL, [], INITIAL, BeginConfigure, INITIAL.(configuring := 1));
    RunOneMore(INITIAL, [] + [BeginConfigure], INITIAL.(configuring := 1), BeginConfigure, INITIAL.(configuring := 2));
    RunOneMore(INITIAL, [] + [BeginConfigure] + [BeginConfigure], INITIAL.(configuring := 2), EndConfigure(true),
               CONFIGURED.(configuring := 1));
    Acquiring(overlapping, CONFIGURED.(configuring := 1));
    RunOneMore(INITIAL, overlapping + [Acquire(true, Granted, true)] + [FinishAcquire(0)],
               IN_THE_SLOT.(configuring := 1), EndConfigure(true), IN_THE_SLOT.(slot := Some(None)));
  }

  /** A surface with the textures of its device; each method is one region under the presentation lock. */
  class Surface {
    var slot: Option<Option<TextureId>>
    var textures: seq<Option<Inner>>
    var acquired: nat
    var pending: set<Raw>
    var configuring: nat
    var presented: seq<Raw>
    var discarded: seq<Raw>
    var lost: seq<Raw>

    constructor ()
      ensures View() == INITIAL
    {
      slot, textures, acquired, pending, configuring := None, [], 0, {}, 0;
      presented, discarded, lost := [], [], [];
    }

    function View(): State
      reads this
    {
      State(slot, textures, acquired, pending, configuring, presented, discarded, lost)
    }

    method BeginConfigure() returns (outcome: Outcome)
      modifies this
      ensures (View(), outcome) == Apply(old(View()), Action.BeginConfigure)
    {
      var taken := slot;
      slot := None;
      if taken.Some? && taken.value.Some? {
        return PreviousOutputExists;
      }
      configuring := configuring + 1;
      outcome := Started;
    }

    method EndConfigure(granted: bool) returns (outcome: Outcome)
      requires configuring > 0
      modifies this
      ensures (View(), outcome) == Apply(old(View()), Action.EndConfigure(granted))
    {
      configuring := configuring - 1;
      if !granted {
        return Invalid;
      }
      slot := Some(None);
      outcome := Status(Granted);
    }

    method BeginGetCurrentTexture(valid: bool, answer: Answer, viewOk: bool) returns (outcome: Outcome)
      modifies this
      ensures (View(), outcome) == Apply(old(View()), Acquire(valid, answer, viewOk))
    {
      if slot.None? {
        return NotConfigured;
      }
      if !valid {
        return Device;
      }
      match answer {
        case Granted =>
          var raw := acquired;
          acquired := acquired + 1;
          if !viewOk {
            lost := lost + [raw];
            return Device;
          }
          pending := pending + {raw};
          outcome := Started;
        case DeviceError => outcome := Device;
        case OtherError => outcome := Status(Lost);
        case _ => outcome := Status(answer);
      }
    }

    method FinishGetCurrentTexture(raw: Raw) returns (outcome: Outcome)
      requires raw in pending
      modifies this
      ensures (View(), outcome) == Apply(old(View()), FinishAcquire(raw))
    {
      pending := pending - {raw};
      if slot.None? {
        lost := lost + [raw];
        return Panicked;
      }
      if slot.value.Some? {
        textures, lost := textures + [None], lost + [raw];
        return AlreadyAcquired;
      }
      slot := Some(Some(|textures|));
      textures := textures + [Some(SurfaceTexture(raw))];
      outcome := Status(Granted);
    }

    /** `Option::take` on the slot, then `snatch` on the texture found there. */
    method TakeTexture() returns (r: Result<Raw, Outcome>)
      requires slot.Some?
      modifies this
      ensures (View(), r) == TakenFromSlot(old(View()))
    {
      var taken := slot.value;
      slot := Some(None);
      if taken.None? {
        return Err(AlreadyAcquired);
      }
      var t := taken.value;
      if t >= |textures| {
        return Err(Panicked);
      }
      var inner := textures[t];
      textures := textures[t := None];
      match inner {
        case None => r := Err(TextureDestroyed);
        case Some(SurfaceTexture(raw)) => r := Ok(raw);
        case Some(Native) => r := Err(Panicked);
      }
    }

    method Present(valid: bool, queueAlive: bool, answer: Answer) returns (outcome: Outcome)
      modifies this
      ensures (View(), outcome) == Apply(old(View()), Action.Present(valid, queueAlive, answer))
    {
      if slot.None? {
        return NotConfigured;
      }
      if !valid {
        return Device;
      }
      if !queueAlive {
        return Panicked;
      }
      var r := TakeTexture();
      if r.Err? {
        return r.error;
      }
      presented := presented + [r.value];
      outcome := Reported(answer);
    }

    method Discard(valid: bool) returns (outcome: Outcome)
      modifies this
      ensures (View(), outcome) == Apply(old(View()), Action.Discard(valid))
    {
      if slot.None? {
        return NotConfigured;
      }
      if !valid {
        return Device;
      }
      var r := TakeTexture();
      if r.Err? {
        return r.error;
      }
      discarded := discarded + [r.value];
      outcome := Status(Granted);
    }
  }
}
