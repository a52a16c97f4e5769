/**
  `WeakVec::push` of wgpu-core/src/weak_vec.rs: a vector of weak references that, when full,
  is compacted backwards with `swap_remove` before it may grow.

  Targets die at any time, also during a scan, and never come back. A scan probes each index once,
  from the last to the first; `dead[i]` is the set of targets that are dead when index `i` is probed.
*/
module WeakVec {
  import opened Wrappers

  type Target = nat

  /** What the surroundings decide during one push: the deaths seen by the scan, and by how much the allocator
      exceeds the capacity asked of it when the vector reserves and when it grows. */
  datatype Surroundings = Surroundings(dead: seq<set<Target>>, reserveSlack: nat, growSlack: nat)

  datatype Vec = Vec(inner: seq<Target>, capacity: nat)

  predicate Valid(v: Vec) {
    |v.inner| <= v.capacity
  }

  ghost predicate NoResurrection(dead: seq<set<Target>>) {
    forall i, j | 0 <= i <= j < |dead| :: dead[j] <= dead[i]
  }

  function SwapRemove(s: seq<Target>, i: nat): seq<Target>
    requires i < |s|
  {
    s[i := s[|s| - 1]][..|s| - 1]
  }

  /** The scan from index `i - 1` down to 0. */
  function Compact(s: seq<Target>, i: nat, dead: seq<set<Target>>): (r: seq<Target>)
    requires i <= |s| && i <= |dead|
    ensures |r| <= |s|
    decreases i
  {
    if i == 0 then s
    else if s[i - 1] in dead[i - 1] then Compact(SwapRemove(s, i - 1), i - 1, dead)
    else Compact(s, i - 1, dead)
  }

  function Reserve(len: nat, capacity: nat, additional: nat, slack: nat): (r: nat)
    ensures r >= len + additional && r >= capacity
  {
    if capacity >= len + additional then capacity else len + additional + slack
  }

  /** A push, and the number of elements it scans. */
  function Pushed(v: Vec, value: Target, w: Surroundings): (r: (Vec, nat))
    requires Valid(v) && |v.inner| <= |w.dead|
    ensures Valid(r.0)
  {
    var n := |v.inner|;
    var full := n == v.capacity;
    var kept := if full then Compact(v.inner, n, w.dead) else v.inner;
    var reserved := if full then Reserve(|kept|, v.capacity, |kept|, w.reserveSlack) else v.capacity;
    var capacity := Reserve(|kept|, reserved, 1, w.growSlack);
    (Vec(kept + [value], capacity), if full then n else 0)
  }

  class WeakVec {
    var inner: seq<Target>
    var capacity: nat

    constructor ()
      ensures View() == Vec([], 0)
    {
      inner, capacity := [], 0;
    }

    function View(): Vec
      reads this
    {
      Vec(inner, capacity)
    }

    method Push(value: Target, w: Surroundings) returns (scanned: nat)
      requires Valid(View()) && |inner| <= |w.dead|
      modifies this
      ensures (View(), scanned) == Pushed(old(View()), value, w)
    {
      scanned := 0;
      if |inner| == capacity {
        var i := |inner|;
        while i > 0
          invariant 0 <= i <= |inner| <= |old(inner)| && scanned == |old(inner)| - i
          invariant capacity == old(capacity)
          invariant Compact(inner, i, w.dead) == Compact(old(inner), |old(inner)|, w.dead)
        {
          i := i - 1;
          scanned := scanned + 1;
          if inner[i] in w.dead[i] {
            inner := SwapRemove(inner, i);
          }
        }
        capacity := Reserve(|inner|, capacity, |inner|, w.reserveSlack);
      }
      capacity := Reserve(|inner|, capacity, 1, w.growSlack);
      inner := inner + [value];
    }
  }

  // ----- What a compaction keeps

  /** The elements found alive when they were probed. */
  function Survivors(s: seq<Target>, dead: seq<set<Target>>): seq<Target>
    requires |s| <= |dead|
  {
    if s == [] then []
    else
      var n := |s| - 1;
      Survivors(s[..n], dead) + (if s[n] in dead[n] then [] else [s[n]])
  }

  lemma SwapRemoveMultiset(s: seq<Target>, i: nat)
    requires i < |s|
    ensures SwapRemove(s, i)[..i] == s[..i]
    ensures multiset(SwapRemove(s, i)[i..]) == multiset(s[i + 1..])
  {
    var n := |s| - 1;
    if i < n {
      assert SwapRemove(s, i)[i..] == [s[n]] + s[i + 1..n];
      assert s[i + 1..] == s[i + 1..n] + [s[n]];
    } else {
      assert SwapRemove(s, i)[i..] == [] == s[i + 1..];
    }
  }

  lemma SurvivorsStep(s: seq<Target>, j: nat, dead: seq<set<Target>>)
    requires j < |s| && j < |dead|
    ensures Survivors(s[..j + 1], dead) == Survivors(s[..j], dead) + (if s[j] in dead[j] then [] else [s[j]])
  {
    assert s[..j + 1][..j] == s[..j];
  }

  /** What a scan still to be done below index `i` will leave. */
  predicate Accounted(r: seq<Target>, s: seq<Target>, i: nat, dead: seq<set<Target>>)
    requires i <= |s| && i <= |dead|
  {
    multiset(r) == multiset(Survivors(s[..i], dead)) + multiset(s[i..])
  }

  lemma AccountedAfterRemoval(r: seq<Target>, s: seq<Target>, j: nat, dead: seq<set<Target>>)
    requires j < |s| && j < |dead| && s[j] in dead[j]
    requires Accounted(r, SwapRemove(s, j), j, dead)
    ensures Accounted(r, s, j + 1, dead)
  {
    SurvivorsStep(s, j, dead);
    SwapRemoveMultiset(s, j);
    assert Survivors(s[..j + 1], dead) == Survivors(s[..j], dead);
  }

  lemma AccountedAfterKeeping(r: seq<Target>, s: seq<Target>, j: nat, dead: seq<set<Target>>)
    requires j < |s| && j < |dead| && s[j] !in dead[j]
    requires Accounted(r, s, j, dead)
    ensures Accounted(r, s, j + 1, dead)
  {
    SurvivorsStep(s, j, dead);
    assert s[j..] == [s[j]] + s[j + 1..];
  }

  lemma AccountedAtTheEnd(s: seq<Target>, dead: seq<set<Target>>)
    ensures Accounted(s, s, 0, dead)
  {
    assert s[0..] == s;
  }

  lemma {:induction false} CompactKeepsSurvivors(s: seq<Target>, i: nat, dead: seq<set<Target>>)
    requires i <= |s| && i <= |dead|
    ensures Accounted(Compact(s, i, dead), s, i, dead)
    decreases i
  {
    hide Accounted, Survivors;
    if i == 0 {
      AccountedAtTheEnd(s, dead);
    } else if s[i - 1] in dead[i - 1] {
      var r := Compact(SwapRemove(s, i - 1), i - 1, dead);
      CompactKeepsSurvivors(SwapRemove(s, i - 1), i - 1, dead);
      AccountedAfterRemoval(r, s, i - 1, dead);
    } else {
      CompactKeepsSurvivors(s, i - 1, dead);
      AccountedAfterKeeping(Compact(s, i - 1, dead), s, i - 1, dead);
    }
  }

  lemma CountsStep(s: seq<Target>, dead: seq<set<Target>>, t: Target)
    requires s != [] && |s| <= |dead|
    ensures var n := |s| - 1;
            && multiset(s)[t] == multiset(s[..n])[t] + (if s[n] == t then 1 else 0)
            && multiset(Survivors(s, dead))[t] ==
               multiset(Survivors(s[..n], dead))[t] + (if s[n] == t && t !in dead[n] then 1 else 0)
  {
    var n := |s| - 1;
    assert s == s[..n] + [s[n]];
    SurvivorsStep(s, n, dead);
    assert s[..n + 1] == s;
  }

  lemma {:induction false} SurvivorsCount(s: seq<Target>, dead: seq<set<Target>>, t: Target)
    requires |s| <= |dead| && NoResurrection(dead)
    ensures |s| > 0 && t !in dead[0] ==> multiset(Survivors(s, dead))[t] == multiset(s)[t]
    ensures |s| > 0 && t in dead[|s| - 1] ==> multiset(Survivors(s, dead))[t] == 0
    ensures multiset(Survivors(s, dead))[t] <= multiset(s)[t]
  {
    if s == [] {
    } else {
      var n := |s| - 1;
      CountsStep(s, dead, t);
      assert dead[n] <= dead[0] && (n > 0 ==> dead[n] <= dead[n - 1]);
      hide Survivors, NoResurrection;
      SurvivorsCount(s[..n], dead, t);
    }
  }

  /** A push keeps every reference whose target is alive at the end of its scan, drops every one whose target was
      already dead when the scan began, adds the new value, and makes up nothing: up to order, the result is the
      elements found alive when probed, and the new value. A vector with room is only appended to. */
  lemma PushKeepsTheLiving(v: Vec, value: Target, w: Surroundings, t: Target)
    requires Valid(v) && |v.inner| <= |w.dead| && NoResurrection(w.dead)
    ensures var v' := Pushed(v, value, w).0;
            var before, after := multiset(v.inner)[t], multiset(v'.inner)[t] - (if t == value then 1 else 0);
            && (|v.inner| < v.capacity ==> v'.inner == v.inner + [value])
            && (|v.inner| == v.capacity ==>
                  multiset(v'.inner) == multiset(Survivors(v.inner, w.dead)) + multiset{value})
            && 0 <= after <= before
            && (|v.inner| == v.capacity > 0 && t !in w.dead[0] ==> after == before)
            && (|v.inner| == v.capacity > 0 && t in w.dead[|v.inner| - 1] ==> after == 0)
  {
    var n := |v.inner|;
    assert v.inner[..n] == v.inner;
    CompactKeepsSurvivors(v.inner, n, w.dead);
    SurvivorsCount(v.inner, w.dead, t);
  }

  /** What a push costs and reserves: a full vector is scanned once from end to end, and then has room for twice its
      survivors; it grows only if it must, and no further than that unless the allocator gives more than it is asked
      for. A vector with room is neither scanned nor grown. */
  lemma ScanAndCapacity(v: Vec, value: Target, w: Surroundings)
    requires Valid(v) && |v.inner| <= |w.dead|
    ensures var ((v', scanned), survivors) := (Pushed(v, value, w), |Survivors(v.inner, w.dead)|);
            if |v.inner| < v.capacity then scanned == 0 && v'.capacity == v.capacity
            else
              && scanned == |v.inner|
              && v'.capacity >= v.capacity && v'.capacity >= 2 * survivors && v'.capacity >= survivors + 1
              && (v.capacity >= 2 * survivors && v.capacity >= survivors + 1 ==> v'.capacity == v.capacity)
              && (w.reserveSlack == w.growSlack == 0 ==>
                    v'.capacity == v.capacity || v'.capacity == 2 * survivors || v'.capacity == survivors + 1)
  {
    var n := |v.inner|;
    assert v.inner[..n] == v.inner;
    CompactKeepsSurvivors(v.inner, n, w.dead);
    var kept := Compact(v.inner, n, w.dead);
    assert v.inner[n..] == [] && |kept| == |multiset(kept)| == |multiset(Survivors(v.inner, w.dead))|;
  }

  // ----- Amortised cost

  datatype Step = Step(value: Target, w: Surroundings)

  /** The vector after a sequence of pushes, and how many elements they scanned in all. Each push must be told about
      at least as many probes as there are elements. */
  function RunPushes(steps: seq<Step>): Option<(Vec, nat)> {
    if steps == [] then Some((Vec([], 0), 0))
    else
      var n := |steps| - 1;
      match RunPushes(steps[..n])
      case None => None
      case Some((v, scanned)) =>
        if Valid(v) && |v.inner| <= |steps[n].w.dead| then
          var (v', more) := Pushed(v, steps[n].value, steps[n].w);
          Some((v', scanned + more))
        else None
  }

  /** The potential argument: unused capacity beyond twice the length pays for the next scan. */
  lemma {:induction false} ScansArePaidFor(steps: seq<Step>)
    requires RunPushes(steps).Some?
    ensures var (v, scanned) := RunPushes(steps).value;
            && Valid(v)
            && scanned <= 2 * |steps|
            && scanned + 2 * |v.inner| - v.capacity <= 2 * |steps|
  {
    if steps == [] {
    } else {
      ScansArePaidFor(steps[..|steps| - 1]);
    }
  }

  /** Whatever dies and whatever the allocator does, all compactions together scan at most
      two elements per push. */
  lemma {:induction false} AtMostTwoScansPerPush(steps: seq<Step>)
    requires RunPushes(steps).Some?
    ensures RunPushes(steps).value.1 <= 2 * |steps|
  {
    ScansArePaidFor(steps);
  }
}
