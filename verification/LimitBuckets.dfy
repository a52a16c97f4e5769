/**
  Limit bucketing of wgpu-core/src/limits.rs: an adapter's limits, features and subgroup sizes
  are replaced with those of the first predefined bucket that it satisfies.
*/
module LimitBuckets {
  import opened Wrappers

  // ----- Limits and features

  /** The limits of wgpu-types/src/limits.rs in the order listed there; a maximum is better
      when greater, a minimum when smaller. */
  const LIMIT_COUNT: nat := 51

  type Limits = s: seq<nat> | |s| == LIMIT_COUNT witness seq(LIMIT_COUNT, _ => 0)

  const MIN_UNIFORM_OFFSET_ALIGNMENT: nat := 23
  const MIN_STORAGE_OFFSET_ALIGNMENT: nat := 24

  /** The two minimum offset alignments. */
  predicate IsMinimum(i: nat) {
    i == MIN_UNIFORM_OFFSET_ALIGNMENT || i == MIN_STORAGE_OFFSET_ALIGNMENT
  }

  predicate NoBetter(i: nat, requested: nat, allowed: nat) {
    if IsMinimum(i) then requested >= allowed else requested <= allowed
  }

  /** No limit of `requested` is better than in `allowed`. */
  predicate Within(requested: Limits, allowed: Limits) {
    forall i: nat | i < LIMIT_COUNT :: NoBetter(i, requested[i], allowed[i])
  }

  datatype FailedLimit = FailedLimit(index: nat, requested: nat, allowed: nat)

  /** `check_limits`, which collects the limits that fail. */
  method CheckLimits(requested: Limits, allowed: Limits) returns (failed: seq<FailedLimit>)
    ensures failed == [] <==> Within(requested, allowed)
    ensures forall f :: f in failed <==>
              f.index < LIMIT_COUNT && f == FailedLimit(f.index, requested[f.index], allowed[f.index])
              && (if f.index in {MIN_UNIFORM_OFFSET_ALIGNMENT, MIN_STORAGE_OFFSET_ALIGNMENT}
                  then f.requested < f.allowed else f.requested > f.allowed)
  {
    failed := [];
    for i := 0 to LIMIT_COUNT
      invariant forall f :: f in failed <==>
                  f.index < i && f == FailedLimit(f.index, requested[f.index], allowed[f.index])
                  && !NoBetter(f.index, f.requested, f.allowed)
    {
      if !NoBetter(i, requested[i], allowed[i]) {
        failed := failed + [FailedLimit(i, requested[i], allowed[i])];
      }
    }
    if failed != [] {
      assert failed[0] in failed;
    }
    if i: nat :| i < LIMIT_COUNT && !NoBetter(i, requested[i], allowed[i]) {
      assert FailedLimit(i, requested[i], allowed[i]) in failed;
    }
  }

  datatype Feature =
    | Subgroup
    | ExternalTexture
    | TextureFormatNv12
    | TextureFormatP010
    | TextureFormat16BitNorm
    | DepthClipControl
    | Depth32FloatStencil8
    | TextureCompressionBc
    | TextureCompressionBcSliced3d
    | TextureCompressionAstc
    | TextureCompressionAstcSliced3d
    | TextureCompressionEtc2
    | TimestampQuery
    | IndirectFirstInstance
    | ShaderF16
    | Rg11b10UfloatRenderable
    | Bgra8UnormStorage
    | Float32Filterable
    | Float32Blendable
    | ClipDistances
    | DualSourceBlending
    | PrimitiveIndex
    | Immediates
    | Other(bit: nat)

  const EXEMPT: set<Feature> := {ExternalTexture, TextureFormatNv12, TextureFormatP010, TextureFormat16BitNorm}

  const MINIMUM_SUBGROUP_MIN_SIZE: nat := 4
  const MAXIMUM_SUBGROUP_MAX_SIZE: nat := 128

  // ----- Adapters and buckets

  /** What an adapter shows to an application. */
  datatype Exposed = Exposed(limits: Limits, features: set<Feature>, subgroupMin: nat, subgroupMax: nat)

  datatype BucketInfo = BucketInfo(name: string, raw: Exposed)

  datatype AdapterValue = AdapterValue(isCpu: bool, exposed: Exposed, bucket: Option<BucketInfo>)

  datatype Bucket = Bucket(
    name: string, limits: Limits, isFallback: bool, subgroupMin: nat, subgroupMax: nat, features: set<Feature>)

  predicate IsCompatible(b: Bucket, isCpu: bool, e: Exposed) {
    && Within(b.limits, e.limits)
    && isCpu == b.isFallback
    && (Subgroup in b.features ==> e.subgroupMin >= b.subgroupMin && e.subgroupMax <= b.subgroupMax)
    && b.features <= e.features
  }

  /** What an adapter shows once a bucket has been applied to it. */
  function ExposedBy(b: Bucket, e: Exposed): Exposed {
    var subgroups := Subgroup in b.features;
    Exposed(b.limits, e.features * EXEMPT + b.features,
            if subgroups then b.subgroupMin else MINIMUM_SUBGROUP_MIN_SIZE,
            if subgroups then b.subgroupMax else MAXIMUM_SUBGROUP_MAX_SIZE)
  }

  function Bucketed(b: Bucket, a: AdapterValue): AdapterValue {
    AdapterValue(a.isCpu, ExposedBy(b, a.exposed), Some(BucketInfo(b.name, a.exposed)))
  }

  /** The first bucket in a list that an adapter satisfies. */
  function FirstCompatible(buckets: seq<Bucket>, isCpu: bool, e: Exposed): (r: Option<nat>)
    ensures r.None? ==> forall i | 0 <= i < |buckets| :: !IsCompatible(buckets[i], isCpu, e)
    ensures r.Some? ==> r.value < |buckets| && IsCompatible(buckets[r.value], isCpu, e)
    ensures r.Some? ==> forall i | 0 <= i < r.value :: !IsCompatible(buckets[i], isCpu, e)
  {
    if buckets == [] then None
    else if IsCompatible(buckets[0], isCpu, e) then Some(0)
    else
      match FirstCompatible(buckets[1..], isCpu, e)
      case None => None
      case Some(i) => Some(i + 1)
  }

  class Adapter {
    const isCpu: bool
    var limits: Limits
    var features: set<Feature>
    var subgroupMin: nat
    var subgroupMax: nat
    var limitBucket: Option<BucketInfo>

    constructor (a: AdapterValue)
      ensures View() == a
    {
      isCpu, limits, features, limitBucket := a.isCpu, a.exposed.limits, a.exposed.features, a.bucket;
      subgroupMin, subgroupMax := a.exposed.subgroupMin, a.exposed.subgroupMax;
    }

    function View(): AdapterValue
      reads this
    {
      AdapterValue(isCpu, Exposed(limits, features, subgroupMin, subgroupMax), limitBucket)
    }

    /** `Bucket::try_apply_to`, which replaces the adapter's fields one by one and keeps the old values. */
    method TryApply(b: Bucket) returns (applied: bool)
      modifies this
      ensures applied == IsCompatible(b, isCpu, old(View()).exposed)
      ensures View() == if applied then Bucketed(b, old(View())) else old(View())
    {
      var failing := CheckLimits(b.limits, limits);
      var subgroupsOk := Subgroup !in b.features || (subgroupMin >= b.subgroupMin && subgroupMax <= b.subgroupMax);
      if !(failing == [] && isCpu == b.isFallback && subgroupsOk && b.features <= features) {
        return false;
      }
      var rawLimits := limits;
      limits := b.limits;
      var rawFeatures := features;
      features := features * EXEMPT + b.features;
      var rawMin, rawMax := subgroupMin, subgroupMax;
      if Subgroup in b.features {
        subgroupMin, subgroupMax := b.subgroupMin, b.subgroupMax;
      } else {
        subgroupMin, subgroupMax := MINIMUM_SUBGROUP_MIN_SIZE, MAXIMUM_SUBGROUP_MAX_SIZE;
      }
      limitBucket := Some(BucketInfo(b.name, Exposed(rawLimits, rawFeatures, rawMin, rawMax)));
      applied := true;
    }

    /** `apply_limit_buckets` over a list of buckets; without a suitable one it gives up the adapter. */
    method ApplyLimitBuckets(buckets: seq<Bucket>) returns (chosen: Option<nat>)
      modifies this
      ensures chosen == FirstCompatible(buckets, isCpu, old(View()).exposed)
      ensures View() == if chosen.Some? then Bucketed(buckets[chosen.value], old(View())) else old(View())
    {
      for i := 0 to |buckets|
        invariant View() == old(View())
        invariant forall j | 0 <= j < i :: !IsCompatible(buckets[j], isCpu, old(View()).exposed)
      {
        var applied := TryApply(buckets[i]);
        if applied {
          return Some(i);
        }
      }
      chosen := None;
    }
  }

  // ----- What bucketing promises, for every list of buckets

  lemma WithinIsAPreorder(a: Limits, b: Limits, c: Limits)
    ensures Within(a, a)
    ensures Within(a, b) && Within(b, c) ==> Within(a, c)
  {
  }

  /** The two offset alignments may only be coarser, and every other limit only lower. */
  ghost predicate Covers(raw: Limits, exposed: Limits) {
    && exposed[23] >= raw[23] && exposed[24] >= raw[24]
    && forall i: nat | i < LIMIT_COUNT && i != 23 && i != 24 :: exposed[i] <= raw[i]
  }

  /** What `Within` means, limit by limit. */
  lemma WithinIffCovered(exposed: Limits, raw: Limits)
    ensures Within(exposed, raw) <==> Covers(raw, exposed)
  {
    if Within(exposed, raw) {
      assert NoBetter(23, exposed[23], raw[23]) && NoBetter(24, exposed[24], raw[24]);
      forall i: nat | i < LIMIT_COUNT && i != 23 && i != 24
        ensures exposed[i] <= raw[i]
      {
        assert NoBetter(i, exposed[i], raw[i]);
      }
    }
  }

  /** Nothing beyond the hardware is promised: no exposed alignment is finer and no other exposed limit higher than
      the raw one, no exposed feature is missing, and exposed subgroup sizes enclose the raw ones. */
  ghost predicate Honest(e: Exposed, raw: Exposed) {
    && Covers(raw.limits, e.limits)
    && e.features <= raw.features
    && (Subgroup in e.features ==> e.subgroupMin <= raw.subgroupMin && raw.subgroupMax <= e.subgroupMax)
  }

  /** A bucket accepts an adapter exactly if showing it in its place is honest, and either both are fallback adapters
      or neither is. */
  lemma CompatibleIffHonest(b: Bucket, isCpu: bool, raw: Exposed)
    ensures IsCompatible(b, isCpu, raw) <==> isCpu == b.isFallback && Honest(ExposedBy(b, raw), raw)
  {
    WithinIffCovered(b.limits, raw.limits);
    hide Within, Covers;
    var e := ExposedBy(b, raw);
    assert e.features == raw.features * EXEMPT + b.features;
    assert Subgroup !in EXEMPT;
    assert e.features <= raw.features <==> b.features <= raw.features;
  }

  /** For every list of buckets what is exposed is honest. */
  lemma NeverOverPromises(buckets: seq<Bucket>, isCpu: bool, raw: Exposed)
    requires FirstCompatible(buckets, isCpu, raw).Some?
    ensures Honest(ExposedBy(buckets[FirstCompatible(buckets, isCpu, raw).value], raw), raw)
  {
    hide IsCompatible, Honest, ExposedBy;
    CompatibleIffHonest(buckets[FirstCompatible(buckets, isCpu, raw).value], isCpu, raw);
  }

  /** A bucket shows its own limits and features, and besides those only the features about external textures that the
      adapter has; and, as the specification of WebGPU asks, the widest range of sizes if it has no subgroups. */
  lemma ExposesTheBucket(b: Bucket, raw: Exposed, feature: Feature)
    ensures var e := ExposedBy(b, raw);
            && e.limits == b.limits
            && (feature in e.features <==>
                  feature in b.features
                  || (feature in raw.features
                      && (feature.ExternalTexture? || feature.TextureFormatNv12? || feature.TextureFormatP010?
                          || feature.TextureFormat16BitNorm?)))
            && (e.subgroupMin, e.subgroupMax) ==
               (if Subgroup in b.features then (b.subgroupMin, b.subgroupMax) else (4, 128))
  {
  }

  /** Bucketing can be undone from what it records: the bucket's name and everything the adapter showed before. */
  lemma RawValuesAreKept(b: Bucket, a: AdapterValue)
    ensures Bucketed(b, a).bucket == Some(BucketInfo(b.name, a.exposed))
    ensures AdapterValue(Bucketed(b, a).isCpu, Bucketed(b, a).bucket.value.raw, a.bucket) == a
  {
  }

  /** Two adapters that get the same bucket show the same thing, but for the exempt features,
      of which each shows exactly those it has. */
  lemma ExposesOnlyTheBucket(buckets: seq<Bucket>, isCpu: bool, raw1: Exposed, raw2: Exposed)
    requires FirstCompatible(buckets, isCpu, raw1) == FirstCompatible(buckets, isCpu, raw2)
    requires FirstCompatible(buckets, isCpu, raw1).Some?
    ensures var b := buckets[FirstCompatible(buckets, isCpu, raw1).value];
            var e1, e2 := ExposedBy(b, raw1), ExposedBy(b, raw2);
            && e1.features * EXEMPT == raw1.features * EXEMPT
            && (raw1.features * EXEMPT == raw2.features * EXEMPT ==> e1 == e2)
            && e1.(features := e1.features - EXEMPT) == e2.(features := e2.features - EXEMPT)
  {
    hide Within;
    var b := buckets[FirstCompatible(buckets, isCpu, raw1).value];
    assert forall e: Exposed :: ExposedBy(b, e).features - EXEMPT == b.features - EXEMPT;
  }

  /** A bucket that accepts an adapter in another bucket's clothes accepts the adapter itself. */
  lemma CompatibleWithExposedIsCompatibleWithRaw(b: Bucket, chosen: Bucket, isCpu: bool, raw: Exposed)
    requires IsCompatible(chosen, isCpu, raw)
    requires IsCompatible(b, isCpu, ExposedBy(chosen, raw))
    ensures IsCompatible(b, isCpu, raw)
  {
    hide Within;
    WithinIsAPreorder(b.limits, chosen.limits, raw.limits);
  }

  lemma SecondApplication(b: Bucket, isCpu: bool, raw: Exposed)
    requires IsCompatible(b, isCpu, raw)
    ensures var once := ExposedBy(b, raw);
            IsCompatible(b, isCpu, once) && ExposedBy(b, once) == once
  {
    hide Within;
    WithinIsAPreorder(b.limits, b.limits, b.limits);
    var once := ExposedBy(b, raw);
    assert once.features * EXEMPT + b.features == once.features;
  }

  lemma FirstAccepting(buckets: seq<Bucket>, isCpu: bool, e: Exposed, i: nat)
    requires i < |buckets| && IsCompatible(buckets[i], isCpu, e)
    requires forall j | 0 <= j < i :: !IsCompatible(buckets[j], isCpu, e)
    ensures FirstCompatible(buckets, isCpu, e) == Some(i)
  {
    hide IsCompatible;
    var r := FirstCompatible(buckets, isCpu, e);
    assert r.Some?;
  }

  /** Bucketing is idempotent: a second application picks the same bucket and changes nothing that is exposed. */
  lemma BucketingIsIdempotent(buckets: seq<Bucket>, isCpu: bool, raw: Exposed)
    requires FirstCompatible(buckets, isCpu, raw).Some?
    ensures var i := FirstCompatible(buckets, isCpu, raw);
            var once := ExposedBy(buckets[i.value], raw);
            FirstCompatible(buckets, isCpu, once) == i && ExposedBy(buckets[i.value], once) == once
  {
    hide IsCompatible, ExposedBy;
    var i := FirstCompatible(buckets, isCpu, raw).value;
    var once := ExposedBy(buckets[i], raw);
    SecondApplication(buckets[i], isCpu, raw);
    forall j | 0 <= j < i
      ensures !IsCompatible(buckets[j], isCpu, once)
    {
      if IsCompatible(buckets[j], isCpu, once) {
        CompatibleWithExposedIsCompatibleWithRaw(buckets[j], buckets[i], isCpu, raw);
      }
    }
    FirstAccepting(buckets, isCpu, once, i);
  }

  /** A list that ends, like the source's, with a default and a fallback bucket that have the default limits and no
      features, and whose other buckets are at least as good, gives up exactly the downlevel adapters. */
  lemma GivesUpExactlyDownlevelAdapters(
      special: seq<Bucket>, defaults: Limits, d: Bucket, f: Bucket, isCpu: bool, raw: Exposed)
    requires d.limits == f.limits == defaults && d.features == f.features == {} && !d.isFallback && f.isFallback
    requires forall b | b in special :: Within(defaults, b.limits)
    ensures FirstCompatible(special + [d, f], isCpu, raw).Some? <==> Within(defaults, raw.limits)
  {
    var buckets := special + [d, f];
    var r := FirstCompatible(buckets, isCpu, raw);
    if r.Some? {
      assert buckets[r.value] in special || buckets[r.value] in [d, f];
      WithinIsAPreorder(defaults, buckets[r.value].limits, raw.limits);
    } else {
      assert buckets[|special|] == d && buckets[|special| + 1] == f;
    }
  }
}
