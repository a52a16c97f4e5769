/**
  Error scopes of deno_webgpu: `DeviceErrorHandler::push_error` of deno_webgpu/error.rs, and
  `push_error_scope`, `pop_error_scope` and `destroy` of deno_webgpu/device.rs. They implement
  section 22.3 (Error Scopes) of the W3C WebGPU specification.
*/
module ErrorScopes {
  import opened Wrappers

  datatype Filter = FilterValidation | FilterOutOfMemory | FilterInternal

  datatype LostReason = Unknown | Destroyed

  datatype Error = Lost(reason: LostReason) | Validation(message: string) | OutOfMemory | Internal

  function FilterOf(e: Error): Filter
    requires !e.Lost?
  {
    match e
    case Validation(_) => FilterValidation
    case OutOfMemory => FilterOutOfMemory
    case Internal => FilterInternal
  }

  /** What a pop resolves its promise with. */
  datatype Popped = Null | Reported(error: Error) | OperationError

  datatype Scope = Scope(filter: Filter, error: Option<Error>)

  /** The handler; `uncaptured` are the errors dispatched as events, and `resolutions` those of the lost promise. */
  datatype State = State(
    isLost: bool, scopes: seq<Scope>, hasResolver: bool, uncaptured: seq<Error>, resolutions: seq<LostReason>)

  const INITIAL := State(false, [], true, [], [])

  datatype Op = PushScope(filter: Filter) | PopScope | Report(error: Error)

  /** The innermost scope with the filter, if any. */
  function FindScope(scopes: seq<Scope>, f: Filter): (r: Option<nat>)
    ensures r.Some? ==> r.value < |scopes| && scopes[r.value].filter == f
    ensures forall i | (if r.Some? then r.value else -1) < i < |scopes| :: scopes[i].filter != f
  {
    if scopes == [] then None
    else if scopes[|scopes| - 1].filter == f then Some(|scopes| - 1)
    else FindScope(scopes[..|scopes| - 1], f)
  }

  function AfterError(s: State, e: Error): State {
    if s.isLost then s
    else if e.Lost? then
      s.(isLost := true, hasResolver := false,
         resolutions := if s.hasResolver then s.resolutions + [e.reason] else s.resolutions)
    else
      match FindScope(s.scopes, FilterOf(e))
      case Some(i) => if s.scopes[i].error.None? then s.(scopes := s.scopes[i := s.scopes[i].(error := Some(e))]) else s
      case None => s.(uncaptured := s.uncaptured + [e])
  }

  function Apply(s: State, op: Op): (State, Popped) {
    match op
    case PushScope(f) => (s.(scopes := s.scopes + [Scope(f, None)]), Null)
    case Report(e) => (AfterError(s, e), Null)
    case PopScope =>
      if s.isLost then (s, Null)
      else if s.scopes == [] then (s, OperationError)
      else
        var n := |s.scopes| - 1;
        (s.(scopes := s.scopes[..n]), match s.scopes[n].error case None => Null case Some(e) => Popped.Reported(e))
  }

  function Run(ops: seq<Op>): State {
    if ops == [] then INITIAL else Apply(Run(ops[..|ops| - 1]), ops[|ops| - 1]).0
  }

  class DeviceErrorHandler {
    var isLost: bool
    var scopes: seq<Scope>
    var lostResolver: bool
    var uncaptured: seq<Error>
    var resolutions: seq<LostReason>

    constructor ()
      ensures View() == INITIAL
    {
      isLost, scopes, lostResolver, uncaptured, resolutions := false, [], true, [], [];
    }

    function View(): State
      reads this
    {
      State(isLost, scopes, lostResolver, uncaptured, resolutions)
    }

    method PushError(err: Option<Error>)
      modifies this
      ensures View() == if err.None? then old(View()) else Apply(old(View()), Report(err.value)).0
    {
      if err.None? {
        return;
      }
      if isLost {
        return;
      }
      var e := err.value;
      if e.Lost? {
        isLost := true;
        if lostResolver {
          lostResolver := false;
          resolutions := resolutions + [e.reason];
        }
        return;
      }
      var filter := FilterOf(e);
      var i := |scopes|;
      while i > 0 && scopes[i - 1].filter != filter
        invariant 0 <= i <= |scopes|
        invariant FindScope(scopes[..i], filter) == FindScope(scopes, filter)
      {
        assert scopes[..i][..i - 1] == scopes[..i - 1];
        i := i - 1;
      }
      if i > 0 {
        if scopes[i - 1].error.None? {
          scopes := scopes[i - 1 := scopes[i - 1].(error := Some(e))];
        }
      } else {
        uncaptured := uncaptured + [e];
      }
    }

    method PushErrorScope(filter: Filter)
      modifies this
      ensures View() == Apply(old(View()), PushScope(filter)).0
    {
      scopes := scopes + [Scope(filter, None)];
    }

    method PopErrorScope() returns (r: Popped)
      modifies this
      ensures (View(), r) == Apply(old(View()), PopScope)
    {
      if isLost {
        return Null;
      }
      if scopes == [] {
        return OperationError;
      }
      var top := scopes[|scopes| - 1];
      scopes := scopes[..|scopes| - 1];
      r := if top.error.Some? then Popped.Reported(top.error.value) else Null;
    }

    method Destroy()
      modifies this
      ensures View() == Apply(old(View()), Report(Lost(Destroyed))).0
    {
      PushError(Some(Lost(Destroyed)));
    }
  }

  // ----- An independent account: brackets and positions in the history

  predicate IsLoss(op: Op) {
    op.Report? && op.error.Lost?
  }

  predicate LostIn(ops: seq<Op>) {
    exists i | 0 <= i < |ops| :: IsLoss(ops[i])
  }

  /** The positions of the scopes open after a history: pushes that no pop has matched yet. */
  function Open(ops: seq<Op>): (open: seq<nat>)
    ensures forall i | 0 <= i < |open| :: open[i] < |ops| && ops[open[i]].PushScope?
    ensures forall i, j | 0 <= i < j < |open| :: open[i] < open[j]
  {
    if ops == [] then []
    else
      var n := |ops| - 1;
      var before := Open(ops[..n]);
      match ops[n]
      case PushScope(_) => before + [n]
      case PopScope => if before == [] then [] else before[..|before| - 1]
      case Report(_) => before
  }

  /** Which errors a filter catches, case by case. */
  predicate Catches(f: Filter, e: Error) {
    match f
    case FilterValidation => e.Validation?
    case FilterOutOfMemory => e.OutOfMemory?
    case FilterInternal => e.Internal?
  }

  lemma CatchesItsFilter(f: Filter, e: Error)
    requires !e.Lost?
    ensures Catches(f, e) <==> f == FilterOf(e)
  {
  }

  /** The error at position `e` belongs to the scope pushed at `p`: that scope is open then and catches the
      error, and no scope open inside it does. */
  ghost predicate Belongs(ops: seq<Op>, p: nat, e: nat)
    requires p < |ops| && ops[p].PushScope?
  {
    && p < e < |ops| && ops[e].Report? && !ops[e].error.Lost?
    && Catches(ops[p].filter, ops[e].error)
    && p in Open(ops[..e])
    && forall q | q in Open(ops[..e]) && q > p :: !Catches(ops[q].filter, ops[e].error)
  }

  /** The first error that belongs to a scope. */
  ghost predicate FirstError(ops: seq<Op>, p: nat, e: nat)
    requires p < |ops| && ops[p].PushScope?
  {
    Belongs(ops, p, e) && forall d: nat | d < e :: !Belongs(ops, p, d)
  }

  /** A scope's stored error is the first that belongs to it, if there is one. */
  ghost predicate ScopeMatches(ops: seq<Op>, p: nat, scope: Scope)
    requires p < |ops| && ops[p].PushScope?
  {
    && scope.filter == ops[p].filter
    && match scope.error
       case None => forall e: nat :: !Belongs(ops, p, e)
       case Some(error) => exists e: nat :: FirstError(ops, p, e) && error == ops[e].error
  }

  ghost predicate Matches(ops: seq<Op>, s: State) {
    && !s.isLost
    && |s.scopes| == |Open(ops)|
    && forall i | 0 <= i < |s.scopes| :: ScopeMatches(ops, Open(ops)[i], s.scopes[i])
  }

  /** Whether an error belongs to a scope is settled when it is reported. */
  lemma BelongsIsStable(ops: seq<Op>, op: Op, p: nat, e: nat)
    requires p < |ops| && ops[p].PushScope? && e < |ops|
    ensures Belongs(ops + [op], p, e) <==> Belongs(ops, p, e)
  {
    assert (ops + [op])[..e] == ops[..e];
  }

  lemma FirstErrorIsStable(ops: seq<Op>, op: Op, p: nat, e: nat)
    requires p < |ops| && ops[p].PushScope? && e < |ops|
    ensures FirstError(ops + [op], p, e) <==> FirstError(ops, p, e)
  {
    BelongsIsStable(ops, op, p, e);
    forall d: nat | d < e
      ensures Belongs(ops + [op], p, d) <==> Belongs(ops, p, d)
    {
      BelongsIsStable(ops, op, p, d);
    }
  }

  /** A scope to which the newest operation does not belong keeps its account. */
  lemma ScopeMatchesIsStable(ops: seq<Op>, op: Op, p: nat, scope: Scope)
    requires p < |ops| && ops[p].PushScope?
    requires ScopeMatches(ops, p, scope)
    requires Belongs(ops + [op], p, |ops|) ==> scope.error.Some?
    ensures ScopeMatches(ops + [op], p, scope)
  {
    match scope.error
    case None =>
      forall e: nat
        ensures !Belongs(ops + [op], p, e)
      {
        if e < |ops| {
          BelongsIsStable(ops, op, p, e);
        }
      }
    case Some(error) =>
      var e: nat :| FirstError(ops, p, e) && error == ops[e].error;
      FirstErrorIsStable(ops, op, p, e);
  }

  predicate SameFilters(ops: seq<Op>, scopes: seq<Scope>) {
    |scopes| == |Open(ops)| && forall i | 0 <= i < |scopes| :: scopes[i].filter == ops[Open(ops)[i]].filter
  }

  lemma MatchesHasSameFilters(ops: seq<Op>, s: State)
    requires Matches(ops, s)
    ensures SameFilters(ops, s.scopes)
  {
  }

  /** Whether a newly reported error belongs to an open scope, in terms of its filter. */
  lemma BelongsNow(ops: seq<Op>, error: Error, p: nat)
    requires !error.Lost? && p in Open(ops)
    ensures Belongs(ops + [Report(error)], p, |ops|) <==>
            ops[p].filter == FilterOf(error) && forall q | q in Open(ops) && q > p :: ops[q].filter != FilterOf(error)
  {
    var ops' := ops + [Report(error)];
    assert ops'[..|ops|] == ops;
    forall q | q in Open(ops)
      ensures ops'[q] == ops[q] && (Catches(ops[q].filter, error) <==> ops[q].filter == FilterOf(error))
    {
      CatchesItsFilter(ops[q].filter, error);
    }
    hide Catches, FilterOf;
  }

  /** An error belongs to exactly the scope the handler finds for it. */
  lemma FoundScopeIsOwner(ops: seq<Op>, scopes: seq<Scope>, error: Error, i: nat)
    requires SameFilters(ops, scopes) && !error.Lost? && i < |scopes|
    ensures Belongs(ops + [Report(error)], Open(ops)[i], |ops|) <==> FindScope(scopes, FilterOf(error)) == Some(i)
  {
    hide Belongs, FilterOf;
    var open, f := Open(ops), FilterOf(error);
    BelongsNow(ops, error, open[i]);
    var found := FindScope(scopes, f);
    if found == Some(i) {
      forall q | q in open && q > open[i]
        ensures ops[q].filter != f
      {
        var j :| 0 <= j < |open| && open[j] == q;
        assert scopes[j].filter == ops[open[j]].filter;
      }
    } else if scopes[i].filter == f {
      var k := found.value;
      assert k > i && open[k] > open[i] && open[k] in open && scopes[k].filter == ops[open[k]].filter;
    }
  }

  lemma ReportKeepsMatches(ops: seq<Op>, s: State, error: Error)
    requires Matches(ops, s) && !error.Lost?
    ensures Matches(ops + [Report(error)], Apply(s, Report(error)).0)
  {
    var ops' := ops + [Report(error)];
    var s' := Apply(s, Report(error)).0;
    assert ops'[..|ops|] == ops;
    assert Open(ops') == Open(ops);
    forall i | 0 <= i < |s'.scopes|
      ensures ScopeMatches(ops', Open(ops')[i], s'.scopes[i])
    {
      var p := Open(ops)[i];
      assert ScopeMatches(ops, p, s.scopes[i]);
      MatchesHasSameFilters(ops, s);
      FoundScopeIsOwner(ops, s.scopes, error, i);
      if s'.scopes[i] == s.scopes[i] {
        ScopeMatchesIsStable(ops, Report(error), p, s.scopes[i]);
      } else {
        forall d: nat | d < |ops|
          ensures !Belongs(ops', p, d)
        {
          BelongsIsStable(ops, Report(error), p, d);
        }
        assert FirstError(ops', p, |ops|);
      }
    }
  }

  lemma BracketKeepsMatches(ops: seq<Op>, s: State, op: Op)
    requires Matches(ops, s) && !op.Report?
    ensures Matches(ops + [op], Apply(s, op).0)
  {
    var ops' := ops + [op];
    var s' := Apply(s, op).0;
    assert ops'[..|ops|] == ops;
    forall i | 0 <= i < |s'.scopes|
      ensures ScopeMatches(ops', Open(ops')[i], s'.scopes[i])
    {
      if i < |s.scopes| {
        assert ScopeMatches(ops, Open(ops)[i], s.scopes[i]);
        ScopeMatchesIsStable(ops, op, Open(ops)[i], s.scopes[i]);
      }
    }
  }

  lemma {:induction false} RunMatches(ops: seq<Op>)
    requires !LostIn(ops)
    ensures Matches(ops, Run(ops))
  {
    if ops == [] {
    } else {
      var init, op := ops[..|ops| - 1], ops[|ops| - 1];
      assert ops == init + [op];
      assert !LostIn(init);
      RunMatches(init);
      match op
      case Report(error) => ReportKeepsMatches(init, Run(init), error);
      case _ => BracketKeepsMatches(init, Run(init), op);
    }
  }

  /** Before the device is lost, a pop closes the innermost open scope and returns the first error that was reported
      while that scope was open, is one its filter catches, and had no open scope inside it that catches it;
      null if there was none; and an operation error if no scope is open. */
  lemma PopReturnsFirstError(ops: seq<Op>)
    requires !LostIn(ops)
    ensures var popped := Apply(Run(ops), PopScope).1;
            var open := Open(ops);
            if open == [] then popped == OperationError
            else
              var p := open[|open| - 1];
              match popped
              case Null => forall e: nat :: !Belongs(ops, p, e)
              case Reported(error) => exists e: nat :: FirstError(ops, p, e) && error == ops[e].error
              case OperationError => false
  {
    RunMatches(ops);
    var s := Run(ops);
    if s.scopes != [] {
      assert ScopeMatches(ops, Open(ops)[|Open(ops)| - 1], s.scopes[|s.scopes| - 1]);
    }
  }

  /** The errors that belong to no scope, in order. */
  ghost function Unclaimed(ops: seq<Op>): seq<Error> {
    if ops == [] then []
    else
      var n := |ops| - 1;
      var before := Unclaimed(ops[..n]);
      match ops[n]
      case Report(e) =>
        if e.Lost? || exists p | p in Open(ops) :: Belongs(ops, p, n) then before else before + [e]
      case _ => before
  }

  ghost predicate FirstLoss(ops: seq<Op>, k: nat) {
    && k < |ops| && IsLoss(ops[k])
    && forall i | 0 <= i < k :: !IsLoss(ops[i])
  }

  /** One step either is the first loss, or leaves the lost state as it was. */
  lemma LossStep(s: State, op: Op)
    ensures var s' := Apply(s, op).0;
            if s.isLost || !IsLoss(op)
            then s'.isLost == s.isLost && s'.hasResolver == s.hasResolver && s'.resolutions == s.resolutions
            else
              && s'.isLost && !s'.hasResolver
              && s'.resolutions == (if s.hasResolver then s.resolutions + [op.error.reason] else s.resolutions)
  {
  }

  /** The handler's lost state is that of a history: nothing before the first loss, and from then on one resolution. */
  ghost predicate LossOk(ops: seq<Op>, s: State) {
    && (s.isLost <==> LostIn(ops))
    && (s.isLost <==> !s.hasResolver)
    && (if s.isLost then exists k: nat :: FirstLoss(ops, k) && s.resolutions == [ops[k].error.reason]
        else s.resolutions == [])
  }

  lemma LossOkStep(init: seq<Op>, op: Op, s: State)
    requires LossOk(init, s)
    ensures LossOk(init + [op], Apply(s, op).0)
  {
    hide Apply;
    LossStep(s, op);
    var n, ops := |init|, init + [op];
    assert forall i | 0 <= i < n :: ops[i] == init[i];
    if s.isLost {
      var k: nat :| FirstLoss(init, k) && s.resolutions == [init[k].error.reason];
      assert FirstLoss(ops, k) && IsLoss(ops[k]);
    } else {
      assert forall i | 0 <= i < n :: !IsLoss(init[i]);
      assert ops[n] == op;
      if IsLoss(op) {
        assert FirstLoss(ops, n);
      }
    }
  }

  lemma {:induction false} RunLossOk(ops: seq<Op>)
    ensures LossOk(ops, Run(ops))
  {
    hide Apply, LossOk;
    if ops == [] {
      EmptyLossOk();
    } else {
      var n := |ops| - 1;
      RunLossOk(ops[..n]);
      assert ops == ops[..n] + [ops[n]];
      LossOkStep(ops[..n], ops[n], Run(ops[..n]));
    }
  }

  lemma EmptyLossOk()
    ensures LossOk([], INITIAL)
  {
  }

  lemma {:induction false} UncapturedBeforeLoss(ops: seq<Op>)
    requires !LostIn(ops)
    ensures Run(ops).uncaptured == Unclaimed(ops)
  {
    if ops == [] {
    } else {
      var n := |ops| - 1;
      var init, op := ops[..n], ops[n];
      assert ops == init + [op];
      assert !LostIn(init);
      UncapturedBeforeLoss(init);
      if op.Report? {
        RunMatches(init);
        var s := Run(init);
        assert Open(ops) == Open(init);
        forall i: nat | i < |s.scopes|
          ensures Belongs(ops, Open(init)[i], n) <==> FindScope(s.scopes, FilterOf(op.error)) == Some(i)
        {
          MatchesHasSameFilters(init, s);
          FoundScopeIsOwner(init, s.scopes, op.error, i);
        }
        var found := FindScope(s.scopes, FilterOf(op.error));
        if found.Some? {
          assert Open(ops)[found.value] in Open(ops);
        }
      }
    }
  }

  /** The part of a history before its first loss. */
  ghost function BeforeLoss(ops: seq<Op>): (before: seq<Op>)
    ensures before <= ops && !LostIn(before)
    ensures before == ops || FirstLoss(ops, |before|)
  {
    if !LostIn(ops) then ops
    else
      var n := |ops| - 1;
      assert ops == ops[..n] + [ops[n]];
      BeforeLoss(ops[..n])
  }

  /** The scopes that the pushes of some operations open, all empty. */
  function Pushed(ops: seq<Op>): seq<Scope> {
    if ops == [] then []
    else
      var before := Pushed(ops[..|ops| - 1]);
      match ops[|ops| - 1]
      case PushScope(f) => before + [Scope(f, None)]
      case _ => before
  }

  lemma ScopesOnceLost(s: State, op: Op)
    requires s.isLost || IsLoss(op)
    ensures Apply(s, op).0.scopes == s.scopes + Pushed([op])
  {
    assert [op][..0] == [];
  }

  lemma PushedOneMore(ops: seq<Op>, op: Op)
    ensures Pushed(ops + [op]) == Pushed(ops) + Pushed([op])
  {
    assert (ops + [op])[..|ops|] == ops && [op][..0] == [];
  }

  lemma BeforeLossStep(ops: seq<Op>)
    requires LostIn(ops)
    ensures var n := |ops| - 1;
            && BeforeLoss(ops) == BeforeLoss(ops[..n]) && |BeforeLoss(ops)| <= n
            && (Run(ops[..n]).isLost || IsLoss(ops[n]))
  {
    var n := |ops| - 1;
    RunLossOk(ops[..n]);
    assert ops == ops[..n] + [ops[n]];
  }

  /** From the first loss on scopes are still pushed, and never popped: over every history they are those that were open
      at the first loss, with what they held, and an empty one for each push since. */
  lemma {:induction false} ScopesAfterLoss(ops: seq<Op>)
    ensures Run(ops).scopes == Run(BeforeLoss(ops)).scopes + Pushed(ops[|BeforeLoss(ops)|..])
  {
    if !LostIn(ops) {
      assert ops[|ops|..] == [];
    } else {
      var n := |ops| - 1;
      BeforeLossStep(ops);
      hide Apply, BeforeLoss, LostIn, IsLoss, Pushed;
      var k := |BeforeLoss(ops)|;
      ScopesAfterLoss(ops[..n]);
      assert ops[k..] == ops[..n][k..] + [ops[n]];
      ScopesOnceLost(Run(ops[..n]), ops[n]);
      PushedOneMore(ops[..n][k..], ops[n]);
    }
  }

  lemma NothingUncapturedOnceLost(s: State, op: Op)
    requires s.isLost || IsLoss(op)
    ensures Apply(s, op).0.uncaptured == s.uncaptured
  {
  }

  /** No error is swallowed and none is reported twice: over every history the uncaptured-error events are
      exactly the errors before the first loss that belong to no scope, in order. */
  lemma {:induction false} UncapturedAreUnclaimed(ops: seq<Op>)
    ensures Run(ops).uncaptured == Unclaimed(BeforeLoss(ops))
  {
    hide Apply, Unclaimed;
    if !LostIn(ops) {
      UncapturedBeforeLoss(ops);
    } else {
      var n := |ops| - 1;
      UncapturedAreUnclaimed(ops[..n]);
      RunLossOk(ops[..n]);
      assert ops == ops[..n] + [ops[n]];
      NothingUncapturedOnceLost(Run(ops[..n]), ops[n]);
    }
  }

  /** The device is lost exactly once: the lost promise is resolved once, with the reason of the first loss, and never
      before; from then on errors change nothing at all, and a pop changes nothing and returns null. */
  lemma {:induction false} LossIsFinal(ops: seq<Op>, error: Error)
    ensures var s := Run(ops);
            && LossOk(ops, s)
            && (s.isLost ==> Apply(s, Report(error)) == (s, Null) && Apply(s, PopScope) == (s, Null))
  {
    RunLossOk(ops);
  }
}
