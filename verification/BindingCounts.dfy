/**
  Counting bindings against limits: `PerStageBindingTypeCounter` and
  `BindingTypeMaxCountValidator` of wgpu-core/src/binding_model.rs.
*/
module BindingCounts {
  import opened Integers
  import opened Wrappers

  function Min(a: nat, b: nat): nat {
    if a <= b then a else b
  }

  /** The addition of `Saturating<u32>`. */
  function Sat(a: U32, b: U32): U32 {
    if a + b > U32_MAX then U32_MAX else a + b
  }

  /** The plain 32-bit addition, which wraps around. */
  function Wrap(a: U32, b: U32): U32 {
    (a + b) % (U32_MAX + 1)
  }

  datatype Stage = Vertex | Fragment | Compute | Task | Mesh

  // ----- One counter

  /** A `PerStageBindingTypeCounter`, which counts for three of the stages. */
  datatype Counter = Counter(vertex: U32, fragment: U32, compute: U32)
  {
    function Of(stage: Stage): U32 {
      match stage
      case Vertex => vertex
      case Fragment => fragment
      case Compute => compute
      case _ => 0
    }

    function Add(visibility: set<Stage>, count: U32): Counter {
      Counter(if Vertex in visibility then Sat(vertex, count) else vertex,
              if Fragment in visibility then Sat(fragment, count) else fragment,
              if Compute in visibility then Sat(compute, count) else compute)
    }

    function Merge(other: Counter): Counter {
      Counter(Sat(vertex, other.vertex), Sat(fragment, other.fragment), Sat(compute, other.compute))
    }

    /** The stages with the greatest count, and that count. */
    function Max(): (r: (set<Stage>, U32))
      ensures forall stage :: Of(stage) <= r.1
      ensures r.0 != {} && forall stage :: stage in r.0 <==> stage in {Vertex, Fragment, Compute} && Of(stage) == r.1
    {
      var m0 := if fragment >= compute then fragment else compute;
      var m := if vertex >= m0 then vertex else m0;
      var stages := (if m == vertex then {Vertex} else {}) + (if m == fragment then {Fragment} else {})
                    + (if m == compute then {Compute} else {});
      (stages, m)
    }
  }

  const ZERO := Counter(0, 0, 0)

  // ----- Bindings and validators

  datatype BindingType =
    | UniformBuffer(hasDynamicOffset: bool)
    | StorageBuffer(hasDynamicOffset: bool)
    | Sampler
    | Texture
    | StorageTexture
    | AccelerationStructure
    | ExternalTexture

  type NonZeroU32 = x: int | 1 <= x <= U32_MAX witness 1

  datatype Entry = Entry(visibility: set<Stage>, ty: BindingType, count: Option<NonZeroU32>)

  datatype Kind =
    | SampledTextures
    | Samplers
    | StorageBuffers
    | StorageTextures
    | UniformBuffers
    | BindingArrayElements
    | BindingArraySamplerElements
    | BindingArrayAccelerationStructureElements
    | AccelerationStructures

  datatype Counts = Counts(
    dynamicUniformBuffers: U32, dynamicStorageBuffers: U32,
    sampledTextures: Counter, samplers: Counter, storageBuffers: Counter, storageTextures: Counter,
    uniformBuffers: Counter, accelerationStructures: Counter,
    arrayElements: Counter, arraySamplers: Counter, arrayAccelerationStructures: Counter,
    hasBindlessArray: bool)
  {
    function Of(kind: Kind): Counter {
      match kind
      case SampledTextures => sampledTextures
      case Samplers => samplers
      case StorageBuffers => storageBuffers
      case StorageTextures => storageTextures
      case UniformBuffers => uniformBuffers
      case BindingArrayElements => arrayElements
      case BindingArraySamplerElements => arraySamplers
      case BindingArrayAccelerationStructureElements => arrayAccelerationStructures
      case AccelerationStructures => accelerationStructures
    }
  }

  const NOTHING := Counts(0, 0, ZERO, ZERO, ZERO, ZERO, ZERO, ZERO, ZERO, ZERO, ZERO, false)

  /** `add_binding`, with its two levels of case distinction. */
  function WithBinding(c: Counts, e: Entry): Counts {
    if e.count.Some? then
      var n := e.count.value;
      var c1 := c.(arrayElements := c.arrayElements.Add(e.visibility, n), hasBindlessArray := true);
      match e.ty
      case Sampler => c1.(arraySamplers := c.arraySamplers.Add(e.visibility, n))
      case AccelerationStructure =>
        c1.(arrayAccelerationStructures := c.arrayAccelerationStructures.Add(e.visibility, n))
      case _ => c1
    else
      match e.ty
      case UniformBuffer(isDynamic) =>
        c.(uniformBuffers := c.uniformBuffers.Add(e.visibility, 1),
           dynamicUniformBuffers := if isDynamic then Wrap(c.dynamicUniformBuffers, 1) else c.dynamicUniformBuffers)
      case StorageBuffer(isDynamic) =>
        c.(storageBuffers := c.storageBuffers.Add(e.visibility, 1),
           dynamicStorageBuffers := if isDynamic then Wrap(c.dynamicStorageBuffers, 1) else c.dynamicStorageBuffers)
      case Sampler => c.(samplers := c.samplers.Add(e.visibility, 1))
      case Texture => c.(sampledTextures := c.sampledTextures.Add(e.visibility, 1))
      case StorageTexture => c.(storageTextures := c.storageTextures.Add(e.visibility, 1))
      case AccelerationStructure => c.(accelerationStructures := c.accelerationStructures.Add(e.visibility, 1))
      case ExternalTexture =>
        c.(sampledTextures := c.sampledTextures.Add(e.visibility, 4),
           samplers := c.samplers.Add(e.visibility, 1),
           uniformBuffers := c.uniformBuffers.Add(e.visibility, 1))
  }

  /** The validator built from a list of bindings. */
  function Built(entries: seq<Entry>): Counts {
    if entries == [] then NOTHING else WithBinding(Built(entries[..|entries| - 1]), entries[|entries| - 1])
  }

  /** `merge`, which leaves `has_bindless_array` alone. */
  function Merged(a: Counts, b: Counts): Counts {
    Counts(
      Wrap(a.dynamicUniformBuffers, b.dynamicUniformBuffers), Wrap(a.dynamicStorageBuffers, b.dynamicStorageBuffers),
      a.sampledTextures.Merge(b.sampledTextures), a.samplers.Merge(b.samplers),
      a.storageBuffers.Merge(b.storageBuffers), a.storageTextures.Merge(b.storageTextures),
      a.uniformBuffers.Merge(b.uniformBuffers), a.accelerationStructures.Merge(b.accelerationStructures),
      a.arrayElements.Merge(b.arrayElements), a.arraySamplers.Merge(b.arraySamplers),
      a.arrayAccelerationStructures.Merge(b.arrayAccelerationStructures),
      a.hasBindlessArray)
  }

  // ----- The reference: unbounded sums of weights

  /** How much one binding counts towards a kind, in each stage that sees it. An array counts with its length towards
      the array kinds only, and an external texture stands for four textures, a sampler and a uniform buffer. */
  function Weight(kind: Kind, e: Entry): (w: U32) {
    var isArray := e.count.Some?;
    match kind
    case SampledTextures => if isArray then 0 else if e.ty.Texture? then 1 else if e.ty.ExternalTexture? then 4 else 0
    case Samplers => if !isArray && (e.ty.Sampler? || e.ty.ExternalTexture?) then 1 else 0
    case StorageBuffers => if !isArray && e.ty.StorageBuffer? then 1 else 0
    case StorageTextures => if !isArray && e.ty.StorageTexture? then 1 else 0
    case UniformBuffers => if !isArray && (e.ty.UniformBuffer? || e.ty.ExternalTexture?) then 1 else 0
    case BindingArrayElements => if isArray then e.count.value else 0
    case BindingArraySamplerElements => if isArray && e.ty.Sampler? then e.count.value else 0
    case BindingArrayAccelerationStructureElements =>
      if isArray && e.ty.AccelerationStructure? then e.count.value else 0
    case AccelerationStructures => if !isArray && e.ty.AccelerationStructure? then 1 else 0
  }

  /** Whether a binding takes one of the pipeline layout's dynamic uniform buffers. */
  function DynamicUniform(e: Entry): nat {
    if e.count.None? && e.ty.UniformBuffer? && e.ty.hasDynamicOffset then 1 else 0
  }

  function DynamicStorage(e: Entry): nat {
    if e.count.None? && e.ty.StorageBuffer? && e.ty.hasDynamicOffset then 1 else 0
  }

  /** The sum of `f` over a list. */
  function Sum(f: Entry -> nat, entries: seq<Entry>): nat {
    if entries == [] then 0 else Sum(f, entries[..|entries| - 1]) + f(entries[|entries| - 1])
  }

  function InStage(kind: Kind, stage: Stage): Entry -> nat {
    (e: Entry) => if stage in e.visibility then Weight(kind, e) else 0
  }

  function Total(kind: Kind, stage: Stage, entries: seq<Entry>): nat {
    Sum(InStage(kind, stage), entries)
  }

  predicate Counted(stage: Stage) {
    stage in {Vertex, Fragment, Compute}
  }

  /** A validator's counters are the true totals of a list, saturated, and for dynamic buffers modulo 2^32. */
  ghost predicate IsCountOf(c: Counts, entries: seq<Entry>) {
    && (forall kind, stage | Counted(stage) :: c.Of(kind).Of(stage) == Min(Total(kind, stage, entries), U32_MAX))
    && c.dynamicUniformBuffers == Sum(DynamicUniform, entries) % (U32_MAX + 1)
    && c.dynamicStorageBuffers == Sum(DynamicStorage, entries) % (U32_MAX + 1)
  }

  lemma AddingABindingAddsItsWeight(c: Counts, e: Entry, kind: Kind)
    ensures WithBinding(c, e).Of(kind) == c.Of(kind).Add(e.visibility, Weight(kind, e))
  {
  }

  lemma WrapAddsModulo(a: nat, b: nat)
    ensures Wrap(a % (U32_MAX + 1), b % (U32_MAX + 1)) == (a + b) % (U32_MAX + 1)
  {
    var m := 0x1_0000_0000;
    var q, r := a / m + b / m, a % m + b % m;
    assert a + b == m * q + r;
    if r >= m {
      assert a + b == m * (q + 1) + (r - m);
    }
  }

  lemma SatAddsMinima(a: nat, b: nat)
    ensures Sat(Min(a, U32_MAX), Min(b, U32_MAX)) == Min(a + b, U32_MAX)
  {
  }

  lemma AddingABindingCountsTheRest(c: Counts, e: Entry)
    ensures WithBinding(c, e).dynamicUniformBuffers == Wrap(c.dynamicUniformBuffers, DynamicUniform(e))
    ensures WithBinding(c, e).dynamicStorageBuffers == Wrap(c.dynamicStorageBuffers, DynamicStorage(e))
    ensures WithBinding(c, e).hasBindlessArray <==> c.hasBindlessArray || e.count.Some?
  {
  }

  lemma {:induction false} BuiltIsCountOf(entries: seq<Entry>)
    ensures IsCountOf(Built(entries), entries)
    ensures Built(entries).hasBindlessArray <==> exists e :: e in entries && e.count.Some?
  {
    hide WithBinding, Weight, Wrap;
    if entries == [] {
    } else {
      var n := |entries| - 1;
      var init, e := entries[..n], entries[n];
      BuiltIsCountOf(init);
      assert entries == init + [e];
      forall kind, stage | Counted(stage)
        ensures Built(entries).Of(kind).Of(stage) == Min(Total(kind, stage, entries), U32_MAX)
      {
        assert Built(init).Of(kind).Of(stage) == Min(Total(kind, stage, init), U32_MAX);
        AddingABindingAddsItsWeight(Built(init), e, kind);
        SatAddsMinima(Total(kind, stage, init), Weight(kind, e));
      }
      AddingABindingCountsTheRest(Built(init), e);
      WrapAddsModulo(Sum(DynamicUniform, init), DynamicUniform(e));
      WrapAddsModulo(Sum(DynamicStorage, init), DynamicStorage(e));
    }
  }

  lemma {:induction false} SumOfConcatenation(f: Entry -> nat, xs: seq<Entry>, ys: seq<Entry>)
    ensures Sum(f, xs + ys) == Sum(f, xs) + Sum(f, ys)
  {
    if ys == [] {
      assert xs + ys == xs;
    } else {
      var n := |ys| - 1;
      SumOfConcatenation(f, xs, ys[..n]);
      assert (xs + ys)[..|xs + ys| - 1] == xs + ys[..n];
    }
  }

  /** A list with the elements of `xs` contains its last one somewhere. */
  lemma FindLast(xs: seq<Entry>, ys: seq<Entry>) returns (front: seq<Entry>, back: seq<Entry>)
    requires xs != [] && multiset(xs) == multiset(ys)
    ensures ys == front + ([xs[|xs| - 1]] + back)
    ensures multiset(xs[..|xs| - 1]) == multiset(front + back)
  {
    var n := |xs| - 1;
    assert xs == xs[..n] + [xs[n]];
    assert xs[n] in multiset(ys);
    var i :| 0 <= i < |ys| && ys[i] == xs[n];
    front, back := ys[..i], ys[i + 1..];
    assert ys == front + ([xs[n]] + back);
    ElementSplitsMultiset(xs[..n], xs[n], []);
    assert xs == xs[..n] + ([xs[n]] + []) && xs[..n] + [] == xs[..n];
    ElementSplitsMultiset(front, xs[n], back);
    WithoutElement(multiset(xs[..n]), multiset(front + back), xs[n]);
  }

  lemma ElementSplitsMultiset(front: seq<Entry>, x: Entry, back: seq<Entry>)
    ensures multiset(front + ([x] + back)) == multiset(front + back) + multiset{x}
  {
  }

  lemma WithoutElement(a: multiset<Entry>, b: multiset<Entry>, x: Entry)
    requires a + multiset{x} == b + multiset{x}
    ensures a == b
  {
    assert a == (a + multiset{x}) - multiset{x} && b == (b + multiset{x}) - multiset{x};
  }

  lemma {:induction false} SumIgnoresOrder(f: Entry -> nat, xs: seq<Entry>, ys: seq<Entry>)
    requires multiset(xs) == multiset(ys)
    ensures Sum(f, xs) == Sum(f, ys)
    decreases |xs|
  {
    if xs == [] {
      assert |ys| == |multiset(ys)|;
    } else {
      var x := xs[|xs| - 1];
      var front, back := FindLast(xs, ys);
      SumIgnoresOrder(f, xs[..|xs| - 1], front + back);
      SumOfConcatenation(f, front, [x] + back);
      SumOfConcatenation(f, [x], back);
      SumOfConcatenation(f, front, back);
    }
  }

  lemma MergedOf(a: Counts, b: Counts, kind: Kind)
    ensures Merged(a, b).Of(kind) == a.Of(kind).Merge(b.Of(kind))
  {
  }

  lemma MergedIsCountOf(a: Counts, b: Counts, xs: seq<Entry>, ys: seq<Entry>)
    requires IsCountOf(a, xs) && IsCountOf(b, ys)
    ensures IsCountOf(Merged(a, b), xs + ys)
  {
    forall kind, stage | Counted(stage)
      ensures Merged(a, b).Of(kind).Of(stage) == Min(Total(kind, stage, xs + ys), U32_MAX)
    {
      SumOfConcatenation(InStage(kind, stage), xs, ys);
      assert a.Of(kind).Of(stage) == Min(Total(kind, stage, xs), U32_MAX);
      assert b.Of(kind).Of(stage) == Min(Total(kind, stage, ys), U32_MAX);
      MergedOf(a, b, kind);
      SatAddsMinima(Total(kind, stage, xs), Total(kind, stage, ys));
    }
    SumOfConcatenation(DynamicUniform, xs, ys);
    SumOfConcatenation(DynamicStorage, xs, ys);
    WrapAddsModulo(Sum(DynamicUniform, xs), Sum(DynamicUniform, ys));
    WrapAddsModulo(Sum(DynamicStorage, xs), Sum(DynamicStorage, ys));
  }

  // ----- Merging in any order and grouping

  /** Validators built from lists and merged pairwise in some grouping. */
  datatype Grouping = Single(entries: seq<Entry>) | Pair(left: Grouping, right: Grouping)
  {
    function Entries(): seq<Entry> {
      match this
      case Single(entries) => entries
      case Pair(left, right) => left.Entries() + right.Entries()
    }

    /** The list that all others are merged into. */
    function First(): seq<Entry> {
      match this
      case Single(entries) => entries
      case Pair(left, _) => left.First()
    }

    function Validator(): Counts {
      match this
      case Single(entries) => Built(entries)
      case Pair(left, right) => Merged(left.Validator(), right.Validator())
    }
  }

  lemma {:induction false} GroupingIsCountOf(g: Grouping)
    ensures IsCountOf(g.Validator(), g.Entries())
  {
    match g
    case Single(entries) => BuiltIsCountOf(entries);
    case Pair(left, right) =>
      GroupingIsCountOf(left);
      GroupingIsCountOf(right);
      MergedIsCountOf(left.Validator(), right.Validator(), left.Entries(), right.Entries());
  }

  lemma CountsAreDetermined(a: Counts, b: Counts, xs: seq<Entry>, ys: seq<Entry>)
    requires IsCountOf(a, xs) && IsCountOf(b, ys) && multiset(xs) == multiset(ys)
    ensures a == b.(hasBindlessArray := a.hasBindlessArray)
  {
    forall kind
      ensures a.Of(kind) == b.Of(kind)
    {
      forall stage | Counted(stage)
        ensures a.Of(kind).Of(stage) == b.Of(kind).Of(stage)
      {
        SumIgnoresOrder(InStage(kind, stage), xs, ys);
        assert a.Of(kind).Of(stage) == Min(Total(kind, stage, xs), U32_MAX);
        assert b.Of(kind).Of(stage) == Min(Total(kind, stage, ys), U32_MAX);
      }
      assert Counted(Vertex) && Counted(Fragment) && Counted(Compute);
      assert a.Of(kind) == Counter(a.Of(kind).Of(Vertex), a.Of(kind).Of(Fragment), a.Of(kind).Of(Compute));
    }
    assert forall kind :: a.Of(kind) == b.Of(kind);
    assert a.Of(SampledTextures) == b.Of(SampledTextures) && a.Of(Samplers) == b.Of(Samplers);
    assert a.Of(StorageBuffers) == b.Of(StorageBuffers) && a.Of(StorageTextures) == b.Of(StorageTextures);
    assert a.Of(UniformBuffers) == b.Of(UniformBuffers) && a.Of(AccelerationStructures) == b.Of(AccelerationStructures);
    assert a.Of(BindingArrayElements) == b.Of(BindingArrayElements);
    assert a.Of(BindingArraySamplerElements) == b.Of(BindingArraySamplerElements);
    assert a.Of(BindingArrayAccelerationStructureElements) == b.Of(BindingArrayAccelerationStructureElements);
    SumIgnoresOrder(DynamicUniform, xs, ys);
    SumIgnoresOrder(DynamicStorage, xs, ys);
  }

  lemma {:induction false} FlagIsOfTheFirst(g: Grouping)
    ensures g.Validator().hasBindlessArray <==> exists e :: e in g.First() && e.count.Some?
  {
    match g
    case Single(entries) => BuiltIsCountOf(entries);
    case Pair(left, right) => FlagIsOfTheFirst(left);
  }

  /** Merging is a homomorphism: however a collection of bindings is split into lists, and in whatever order and
      grouping the lists' validators are merged, every merged counter is that of the validator built from all
      the bindings at once, in any order. Saturation and wrap-around do not disturb this. The flag for bindless arrays
      alone is not merged: it is that of the list merged into. */
  lemma MergingIsBuilding(g: Grouping, entries: seq<Entry>)
    requires multiset(g.Entries()) == multiset(entries)
    ensures g.Validator() == Built(entries).(hasBindlessArray := g.Validator().hasBindlessArray)
    ensures g.Validator().hasBindlessArray <==> exists e :: e in g.First() && e.count.Some?
  {
    FlagIsOfTheFirst(g);
    GroupingIsCountOf(g);
    BuiltIsCountOf(entries);
    CountsAreDetermined(g.Validator(), Built(entries), g.Entries(), entries);
  }

  // ----- Validation against limits

  datatype Limits = Limits(dynamicUniformBuffers: U32, dynamicStorageBuffers: U32, perStage: Kind -> U32)

  datatype ErrorKind = DynamicUniformBuffers | DynamicStorageBuffers | PerStage(kind: Kind)

  datatype Zone = Pipeline | Stages(stages: set<Stage>)

  datatype Error = Error(kind: ErrorKind, zone: Zone, limit: U32, count: U32)

  /** The order in which the source checks the per-stage kinds. */
  const CHECK_ORDER: seq<Kind> := [
    SampledTextures, Samplers, StorageBuffers, StorageTextures, UniformBuffers, BindingArrayElements,
    BindingArraySamplerElements, BindingArrayAccelerationStructureElements, AccelerationStructures]

  lemma CheckOrderIsComplete(kind: Kind)
    ensures kind in CHECK_ORDER
  {
  }

  /** `PerStageBindingTypeCounter::validate`. */
  function ValidateCounter(c: Counter, limit: U32, kind: Kind): Result<(), Error> {
    var (stages, count) := c.Max();
    if limit < count then Err(Error(PerStage(kind), Stages(stages), limit, count)) else Ok(())
  }

  function ValidateFrom(c: Counts, limits: Limits, kinds: seq<Kind>): Result<(), Error> {
    if kinds == [] then Ok(())
    else
      match ValidateCounter(c.Of(kinds[0]), limits.perStage(kinds[0]), kinds[0])
      case Err(e) => Err(e)
      case Ok(_) => ValidateFrom(c, limits, kinds[1..])
  }

  /** `BindingTypeMaxCountValidator::validate`. */
  function Validate(c: Counts, limits: Limits): Result<(), Error> {
    if limits.dynamicUniformBuffers < c.dynamicUniformBuffers then
      Err(Error(DynamicUniformBuffers, Pipeline, limits.dynamicUniformBuffers, c.dynamicUniformBuffers))
    else if limits.dynamicStorageBuffers < c.dynamicStorageBuffers then
      Err(Error(DynamicStorageBuffers, Pipeline, limits.dynamicStorageBuffers, c.dynamicStorageBuffers))
    else ValidateFrom(c, limits, CHECK_ORDER)
  }

  /** An error is truthful: it names a kind whose greatest count in a stage exceeds the limit,
      and all the stages where it does so most. */
  ghost predicate Truthful(e: Error, c: Counts, limits: Limits) {
    && e.limit < e.count
    && match e.kind
       case DynamicUniformBuffers =>
         e.zone.Pipeline? && e.limit == limits.dynamicUniformBuffers && e.count == c.dynamicUniformBuffers
       case DynamicStorageBuffers =>
         e.zone.Pipeline? && e.limit == limits.dynamicStorageBuffers && e.count == c.dynamicStorageBuffers
       case PerStage(kind) =>
         && e.limit == limits.perStage(kind)
         && e.zone.Stages? && e.zone.stages != {}
         && (forall stage :: c.Of(kind).Of(stage) <= e.count)
         && (forall stage :: stage in e.zone.stages <==> Counted(stage) && c.Of(kind).Of(stage) == e.count)
  }

  lemma {:induction false} ValidateFromIsExact(c: Counts, limits: Limits, kinds: seq<Kind>)
    ensures ValidateFrom(c, limits, kinds).Ok? <==>
            forall kind, stage | kind in kinds && Counted(stage) :: c.Of(kind).Of(stage) <= limits.perStage(kind)
    ensures ValidateFrom(c, limits, kinds).Err? ==> Truthful(ValidateFrom(c, limits, kinds).error, c, limits)
  {
    if kinds == [] {
    } else {
      var k := kinds[0];
      ValidateFromIsExact(c, limits, kinds[1..]);
      var (stages, count) := c.Of(k).Max();
      var top :| top in stages;
      assert Counted(top) && c.Of(k).Of(top) == count;
    }
  }

  ghost predicate WithinLimits(c: Counts, limits: Limits) {
    forall kind, stage | Counted(stage) :: c.Of(kind).Of(stage) <= limits.perStage(kind)
  }

  lemma ValidateAllKinds(c: Counts, limits: Limits)
    ensures ValidateFrom(c, limits, CHECK_ORDER).Ok? <==> WithinLimits(c, limits)
    ensures ValidateFrom(c, limits, CHECK_ORDER).Err? ==>
              Truthful(ValidateFrom(c, limits, CHECK_ORDER).error, c, limits)
  {
    hide ValidateFrom, Truthful;
    ValidateFromIsExact(c, limits, CHECK_ORDER);
    forall kind
      ensures kind in CHECK_ORDER
    {
      CheckOrderIsComplete(kind);
    }
  }

  /** The true totals are within the limits, up to the width of the counters: per-stage counters
      saturate at 2^32 - 1, those of dynamic buffers wrap around. */
  ghost predicate TotalsWithinLimits(entries: seq<Entry>, limits: Limits) {
    && (forall kind, stage | Counted(stage) :: Min(Total(kind, stage, entries), U32_MAX) <= limits.perStage(kind))
    && Sum(DynamicUniform, entries) % (U32_MAX + 1) <= limits.dynamicUniformBuffers
    && Sum(DynamicStorage, entries) % (U32_MAX + 1) <= limits.dynamicStorageBuffers
  }

  /** The place of a check in the source, those of the pipeline layout first. */
  function Place(kind: ErrorKind): nat {
    match kind
    case DynamicUniformBuffers => 0
    case DynamicStorageBuffers => 1
    case PerStage(SampledTextures) => 2
    case PerStage(Samplers) => 3
    case PerStage(StorageBuffers) => 4
    case PerStage(StorageTextures) => 5
    case PerStage(UniformBuffers) => 6
    case PerStage(BindingArrayElements) => 7
    case PerStage(BindingArraySamplerElements) => 8
    case PerStage(BindingArrayAccelerationStructureElements) => 9
    case PerStage(AccelerationStructures) => 10
  }

  /** The limit of a kind is exceeded, in some stage if it is counted by stages. */
  ghost predicate Exceeds(c: Counts, limits: Limits, kind: ErrorKind) {
    match kind
    case DynamicUniformBuffers => c.dynamicUniformBuffers > limits.dynamicUniformBuffers
    case DynamicStorageBuffers => c.dynamicStorageBuffers > limits.dynamicStorageBuffers
    case PerStage(k) => exists stage :: Counted(stage) && c.Of(k).Of(stage) > limits.perStage(k)
  }

  lemma {:induction false} ErrsAtFirst(c: Counts, limits: Limits, kinds: seq<Kind>)
    ensures ValidateFrom(c, limits, kinds).Ok? ==> forall k | k in kinds :: !Exceeds(c, limits, PerStage(k))
    ensures ValidateFrom(c, limits, kinds).Err? ==>
              exists i :: 0 <= i < |kinds| && ValidateFrom(c, limits, kinds).error.kind == PerStage(kinds[i])
                          && Exceeds(c, limits, PerStage(kinds[i]))
                          && forall j | 0 <= j < i :: !Exceeds(c, limits, PerStage(kinds[j]))
  {
    if kinds == [] {
    } else {
      var rest := kinds[1..];
      ErrsAtFirst(c, limits, rest);
      CounterErrsIffExceeds(c, limits, kinds[0]);
      hide Exceeds, ValidateCounter;
      if ValidateCounter(c.Of(kinds[0]), limits.perStage(kinds[0]), kinds[0]).Ok? {
        assert forall k | k in kinds :: k == kinds[0] || k in rest;
        if ValidateFrom(c, limits, rest).Err? {
          var i :| 0 <= i < |rest| && ValidateFrom(c, limits, rest).error.kind == PerStage(rest[i])
                   && Exceeds(c, limits, PerStage(rest[i]))
                   && forall j | 0 <= j < i :: !Exceeds(c, limits, PerStage(rest[j]));
          assert kinds[i + 1] == rest[i];
          assert forall j | 1 <= j < i + 1 :: kinds[j] == rest[j - 1];
        }
      } else {
        assert ValidateFrom(c, limits, kinds).error.kind == PerStage(kinds[0]);
      }
    }
  }

  lemma CounterErrsIffExceeds(c: Counts, limits: Limits, k: Kind)
    ensures ValidateCounter(c.Of(k), limits.perStage(k), k).Err? <==> Exceeds(c, limits, PerStage(k))
    ensures ValidateCounter(c.Of(k), limits.perStage(k), k).Err? ==>
              ValidateCounter(c.Of(k), limits.perStage(k), k).error.kind == PerStage(k)
  {
    var (stages, count) := c.Of(k).Max();
    var top :| top in stages;
    assert Counted(top) && c.Of(k).Of(top) == count;
  }

  lemma OrderOfKinds(i: nat)
    requires i < |CHECK_ORDER|
    ensures Place(PerStage(CHECK_ORDER[i])) == i + 2
  {
  }

  lemma OrderIsComplete(kind: Kind)
    ensures Place(PerStage(kind)) - 2 < |CHECK_ORDER| && CHECK_ORDER[Place(PerStage(kind)) - 2] == kind
  {
  }

  /** Of several limits exceeded, the one checked first in the source is reported. */
  lemma FirstExceededIsReported(c: Counts, limits: Limits, other: ErrorKind)
    requires Validate(c, limits).Err? && Exceeds(c, limits, other)
    ensures Exceeds(c, limits, Validate(c, limits).error.kind)
    ensures Place(Validate(c, limits).error.kind) <= Place(other)
  {
    ErrsAtFirst(c, limits, CHECK_ORDER);
    var r := ValidateFrom(c, limits, CHECK_ORDER);
    if Validate(c, limits) == r {
      assert other.PerStage?;
      var i :| 0 <= i < |CHECK_ORDER| && r.error.kind == PerStage(CHECK_ORDER[i])
               && forall j | 0 <= j < i :: !Exceeds(c, limits, PerStage(CHECK_ORDER[j]));
      OrderOfKinds(i);
      OrderIsComplete(other.kind);
    }
  }

  lemma CountsWithinIffTotalsWithin(c: Counts, entries: seq<Entry>, limits: Limits)
    requires IsCountOf(c, entries)
    ensures TotalsWithinLimits(entries, limits) <==>
            WithinLimits(c, limits) && c.dynamicUniformBuffers <= limits.dynamicUniformBuffers
            && c.dynamicStorageBuffers <= limits.dynamicStorageBuffers
  {
    hide Total, Sum, Min, Counts.Of, Counter.Of;
    if WithinLimits(c, limits) {
      forall kind, stage | Counted(stage)
        ensures Min(Total(kind, stage, entries), U32_MAX) <= limits.perStage(kind)
      {
        assert c.Of(kind).Of(stage) <= limits.perStage(kind);
      }
    }
  }

  /** Validation of what was built from a list, or merged in any way from its parts, succeeds exactly if the true
      totals are within the limits. A failure is reported truthfully. */
  lemma ValidateIsExact(g: Grouping, limits: Limits)
    ensures Validate(g.Validator(), limits).Ok? <==> TotalsWithinLimits(g.Entries(), limits)
    ensures Validate(g.Validator(), limits).Err? ==>
              Truthful(Validate(g.Validator(), limits).error, g.Validator(), limits)
  {
    hide IsCountOf, TotalsWithinLimits, WithinLimits, ValidateFrom, Grouping.Entries, Grouping.Validator;
    var c := g.Validator();
    GroupingIsCountOf(g);
    ValidateAllKinds(c, limits);
    CountsWithinIffTotalsWithin(c, g.Entries(), limits);
  }

  lemma {:induction false} DynamicSumIsAtMostLength(entries: seq<Entry>)
    ensures Sum(DynamicUniform, entries) <= |entries| && Sum(DynamicStorage, entries) <= |entries|
  {
    if entries == [] {
    } else {
      DynamicSumIsAtMostLength(entries[..|entries| - 1]);
    }
  }

  /** The counters of dynamic buffers, unlike the others, do not saturate: each is the true number if and only if that
      number is below 2^32, as it is for every list of fewer bindings; 2^32 of them count as none. */
  lemma DynamicCountsAreTrueIffTheyFit(entries: seq<Entry>)
    ensures var c := Built(entries);
            && (c.dynamicUniformBuffers == Sum(DynamicUniform, entries) <==> Sum(DynamicUniform, entries) <= U32_MAX)
            && (c.dynamicStorageBuffers == Sum(DynamicStorage, entries) <==> Sum(DynamicStorage, entries) <= U32_MAX)
            && (|entries| <= U32_MAX ==>
                  Sum(DynamicUniform, entries) <= U32_MAX && Sum(DynamicStorage, entries) <= U32_MAX)
            && (Sum(DynamicUniform, entries) == U32_MAX + 1 ==> c.dynamicUniformBuffers == 0)
  {
    hide Built, Sum;
    BuiltIsCountOf(entries);
    DynamicSumIsAtMostLength(entries);
  }

  /** The same binding, `n` times. */
  function Repeated(e: Entry, n: nat): seq<Entry> {
    if n == 0 then [] else Repeated(e, n - 1) + [e]
  }

  lemma {:induction false} SumOfRepeated(f: Entry -> nat, e: Entry, n: nat)
    requires f(e) == 1
    ensures Sum(f, Repeated(e, n)) == n && |Repeated(e, n)| == n
  {
    if n == 0 {
    } else {
      SumOfRepeated(f, e, n - 1);
      assert Repeated(e, n)[..n - 1] == Repeated(e, n - 1);
    }
  }

  /** A list that wraps: 2^32 dynamic buffers of either sort count as none. */
  lemma DynamicCountsWrap(visibility: set<Stage>)
    ensures var entries := Repeated(Entry(visibility, UniformBuffer(true), None), U32_MAX + 1);
            Sum(DynamicUniform, entries) == U32_MAX + 1 && Built(entries).dynamicUniformBuffers == 0
    ensures var entries := Repeated(Entry(visibility, StorageBuffer(true), None), U32_MAX + 1);
            Sum(DynamicStorage, entries) == U32_MAX + 1 && Built(entries).dynamicStorageBuffers == 0
  {
    var uniform := Entry(visibility, UniformBuffer(true), None);
    var storage := Entry(visibility, StorageBuffer(true), None);
    hide Built, Sum, Repeated;
    SumOfRepeated(DynamicUniform, uniform, U32_MAX + 1);
    SumOfRepeated(DynamicStorage, storage, U32_MAX + 1);
    BuiltIsCountOf(Repeated(uniform, U32_MAX + 1));
    BuiltIsCountOf(Repeated(storage, U32_MAX + 1));
  }

  // ----- The validator as the source's object

  class BindingTypeMaxCountValidator {
    var dynamicUniformBuffers: U32
    var dynamicStorageBuffers: U32
    var sampledTextures: Counter
    var samplers: Counter
    var storageBuffers: Counter
    var storageTextures: Counter
    var uniformBuffers: Counter
    var accelerationStructures: Counter
    var arrayElements: Counter
    var arraySamplers: Counter
    var arrayAccelerationStructures: Counter
    var hasBindlessArray: bool

    constructor ()
      ensures View() == NOTHING
    {
      dynamicUniformBuffers, dynamicStorageBuffers, hasBindlessArray := 0, 0, false;
      sampledTextures, samplers, storageBuffers, storageTextures, uniformBuffers := ZERO, ZERO, ZERO, ZERO, ZERO;
      accelerationStructures, arrayElements, arraySamplers, arrayAccelerationStructures := ZERO, ZERO, ZERO, ZERO;
    }

    function View(): Counts
      reads this
    {
      Counts(dynamicUniformBuffers, dynamicStorageBuffers, sampledTextures, samplers, storageBuffers, storageTextures,
             uniformBuffers, accelerationStructures, arrayElements, arraySamplers, arrayAccelerationStructures,
             hasBindlessArray)
    }

    method AddBinding(binding: Entry)
      modifies this
      ensures View() == WithBinding(old(View()), binding)
    {
      var count := if binding.count.Some? then binding.count.value else 1;
      if binding.count.Some? {
        arrayElements := arrayElements.Add(binding.visibility, count);
        hasBindlessArray := true;
        match binding.ty {
          case Sampler => arraySamplers := arraySamplers.Add(binding.visibility, count);
          case AccelerationStructure =>
            arrayAccelerationStructures := arrayAccelerationStructures.Add(binding.visibility, count);
          case _ =>
        }
      } else {
        match binding.ty {
          case UniformBuffer(hasDynamicOffset) =>
            uniformBuffers := uniformBuffers.Add(binding.visibility, count);
            if hasDynamicOffset {
              dynamicUniformBuffers := Wrap(dynamicUniformBuffers, count);
            }
          case StorageBuffer(hasDynamicOffset) =>
            storageBuffers := storageBuffers.Add(binding.visibility, count);
            if hasDynamicOffset {
              dynamicStorageBuffers := Wrap(dynamicStorageBuffers, count);
            }
          case Sampler => samplers := samplers.Add(binding.visibility, count);
          case Texture => sampledTextures := sampledTextures.Add(binding.visibility, count);
          case StorageTexture => storageTextures := storageTextures.Add(binding.visibility, count);
          case AccelerationStructure => accelerationStructures := accelerationStructures.Add(binding.visibility, count);
          case ExternalTexture =>
            sampledTextures := sampledTextures.Add(binding.visibility, count * 4);
            samplers := samplers.Add(binding.visibility, count);
            uniformBuffers := uniformBuffers.Add(binding.visibility, count);
        }
      }
    }

    /** The borrow checker rules out merging a validator into itself. */
    method Merge(other: BindingTypeMaxCountValidator)
      requires other != this
      modifies this
      ensures View() == Merged(old(View()), old(other.View()))
    {
      hide Wrap, Counter.Merge;
      var theirs := other.View();
      dynamicUniformBuffers := Wrap(dynamicUniformBuffers, theirs.dynamicUniformBuffers);
      dynamicStorageBuffers := Wrap(dynamicStorageBuffers, theirs.dynamicStorageBuffers);
      sampledTextures := sampledTextures.Merge(theirs.sampledTextures);
      samplers := samplers.Merge(theirs.samplers);
      storageBuffers := storageBuffers.Merge(theirs.storageBuffers);
      storageTextures := storageTextures.Merge(theirs.storageTextures);
      uniformBuffers := uniformBuffers.Merge(theirs.uniformBuffers);
      accelerationStructures := accelerationStructures.Merge(theirs.accelerationStructures);
      arrayElements := arrayElements.Merge(theirs.arrayElements);
      arraySamplers := arraySamplers.Merge(theirs.arraySamplers);
      arrayAccelerationStructures := arrayAccelerationStructures.Merge(theirs.arrayAccelerationStructures);
    }

    /** The loop of `create_bind_group_layout`, which adds the bindings of a layout. */
    method AddAll(entries: seq<Entry>)
      requires View() == NOTHING
      modifies this
      ensures View() == Built(entries)
    {
      for i := 0 to |entries|
        invariant View() == Built(entries[..i])
      {
        AddBinding(entries[i]);
        assert entries[..i + 1][..i] == entries[..i];
      }
      assert entries[..|entries|] == entries;
    }
  }
}
