/**
  The ten buckets of wgpu-core/src/limits.rs, with the default limits of wgpu-types/src/limits.rs.
*/
module BucketTable {
  import opened Wrappers
  import opened LimitBuckets

  // ----- The limits that some bucket changes, by their position

  const MAX_TEXTURE_DIMENSION_1D := 0
  const MAX_TEXTURE_DIMENSION_2D := 1
  const MAX_TEXTURE_ARRAY_LAYERS := 3
  const MAX_BIND_GROUPS := 4
  const MAX_DYNAMIC_UNIFORM_BUFFERS := 6
  const MAX_SAMPLED_TEXTURES := 8
  const MAX_STORAGE_BUFFERS := 10
  const MAX_STORAGE_TEXTURES := 11
  const MAX_STORAGE_BUFFER_BINDING_SIZE := 17
  const MAX_BUFFER_SIZE := 19
  const MAX_VERTEX_ATTRIBUTES := 20
  const MAX_INTER_STAGE_SHADER_VARIABLES := 22
  const MAX_COLOR_ATTACHMENT_BYTES := 26
  const MAX_WORKGROUP_STORAGE_SIZE := 27
  const MAX_INVOCATIONS_PER_WORKGROUP := 28
  const MAX_WORKGROUP_SIZE_X := 29
  const MAX_WORKGROUP_SIZE_Y := 30

  const KILO := 1024
  const MEGA := 1024 * 1024
  const GIGA := 1024 * 1024 * 1024

  /** `Limits::defaults`, in four parts. */
  const DEFAULT_RESOURCES: seq<nat> := [8192, 8192, 2048, 256, 4, 1000, 8, 4, 16, 16, 8, 4, 12, 0, 0, 0]
  const DEFAULT_SIZES: seq<nat> := [64 * KILO, 128 * MEGA, 8, 256 * MEGA, 16, 2048, 16, 256, 256, 8, 32]
  const DEFAULT_COMPUTE: seq<nat> := [16384, 256, 256, 256, 64, 65535, 0, 1000000]

  /** Those of mesh shaders, ray tracing and multiview. */
  const DEFAULT_OTHERS: seq<nat> := [0, 0, 0, 0, 0, 0, 0, 0, 0, 0, 0, 0, 0, 0, 0, 0]

  const DEFAULTS: Limits := DEFAULT_RESOURCES + DEFAULT_SIZES + DEFAULT_COMPUTE + DEFAULT_OTHERS

  // ----- The buckets

  const UPLEVEL := Bucket(
    "uplevel-defaults",
    DEFAULTS[MAX_BIND_GROUPS := 8][MAX_BUFFER_SIZE := GIGA][MAX_COLOR_ATTACHMENT_BYTES := 64]
      [MAX_INVOCATIONS_PER_WORKGROUP := 1024][MAX_WORKGROUP_SIZE_X := 1024][MAX_WORKGROUP_SIZE_Y := 1024]
      [MAX_WORKGROUP_STORAGE_SIZE := 32 * KILO][MAX_INTER_STAGE_SHADER_VARIABLES := 28][MAX_STORAGE_TEXTURES := 8]
      [MAX_TEXTURE_ARRAY_LAYERS := 2048][MAX_TEXTURE_DIMENSION_1D := 16384][MAX_TEXTURE_DIMENSION_2D := 16384]
      [MAX_VERTEX_ATTRIBUTES := 29],
    false, 4, 128,
    {DepthClipControl, Depth32FloatStencil8, TextureCompressionBc, TextureCompressionBcSliced3d, TimestampQuery,
     IndirectFirstInstance, Rg11b10UfloatRenderable, Bgra8UnormStorage, Float32Filterable, DualSourceBlending,
     PrimitiveIndex, Subgroup, Immediates})

  const M1 := Bucket(
    "m1",
    UPLEVEL.limits[MAX_DYNAMIC_UNIFORM_BUFFERS := 12][MAX_SAMPLED_TEXTURES := 48]
      [MAX_STORAGE_BUFFER_BINDING_SIZE := GIGA][MAX_VERTEX_ATTRIBUTES := 31],
    false, 4, 64,
    UPLEVEL.features + {TextureCompressionAstc, TextureCompressionAstcSliced3d, TextureCompressionEtc2, ShaderF16,
                        Float32Blendable, ClipDistances})

  const A2 := Bucket(
    "a2",
    UPLEVEL.limits[MAX_COLOR_ATTACHMENT_BYTES := 128][MAX_WORKGROUP_STORAGE_SIZE := 64 * KILO]
      [MAX_SAMPLED_TEXTURES := 48][MAX_STORAGE_BUFFER_BINDING_SIZE := GIGA][MAX_STORAGE_BUFFERS := 16]
      [MAX_VERTEX_ATTRIBUTES := 32],
    false, 64, 64, UPLEVEL.features + {ShaderF16})

  const I1 := Bucket(
    "i1",
    UPLEVEL.limits[MAX_COLOR_ATTACHMENT_BYTES := 128][MAX_SAMPLED_TEXTURES := 48]
      [MAX_STORAGE_BUFFER_BINDING_SIZE := 512 * MEGA][MAX_STORAGE_BUFFERS := 16],
    false, 8, 32, UPLEVEL.features + {ShaderF16})

  const N1 := Bucket(
    "n1",
    UPLEVEL.limits[MAX_COLOR_ATTACHMENT_BYTES := 128][MAX_WORKGROUP_STORAGE_SIZE := 48 * KILO]
      [MAX_SAMPLED_TEXTURES := 48][MAX_STORAGE_BUFFER_BINDING_SIZE := GIGA][MAX_STORAGE_BUFFERS := 16]
      [MAX_VERTEX_ATTRIBUTES := 32],
    false, 32, 32, UPLEVEL.features + {ShaderF16})

  const A1 := Bucket(
    "a1",
    UPLEVEL.limits[MAX_COLOR_ATTACHMENT_BYTES := 128][MAX_SAMPLED_TEXTURES := 48]
      [MAX_STORAGE_BUFFER_BINDING_SIZE := GIGA][MAX_STORAGE_BUFFERS := 16][MAX_VERTEX_ATTRIBUTES := 32],
    false, 32, 64, UPLEVEL.features + {ShaderF16})

  const NO_F16 := Bucket(
    "no-f16",
    UPLEVEL.limits[MAX_COLOR_ATTACHMENT_BYTES := 128][MAX_WORKGROUP_STORAGE_SIZE := 48 * KILO]
      [MAX_SAMPLED_TEXTURES := 48][MAX_STORAGE_BUFFER_BINDING_SIZE := GIGA][MAX_STORAGE_BUFFERS := 16]
      [MAX_VERTEX_ATTRIBUTES := 32],
    false, 32, 64, UPLEVEL.features)

  const LLVMPIPE := Bucket(
    "llvmpipe",
    UPLEVEL.limits[MAX_COLOR_ATTACHMENT_BYTES := 128][MAX_SAMPLED_TEXTURES := 48][MAX_STORAGE_BUFFERS := 16]
      [MAX_VERTEX_ATTRIBUTES := 32],
    true, 8, 8, UPLEVEL.features + {ShaderF16, ClipDistances})

  const WARP := Bucket(
    "warp",
    UPLEVEL.limits[MAX_COLOR_ATTACHMENT_BYTES := 128][MAX_SAMPLED_TEXTURES := 48][MAX_STORAGE_BUFFERS := 16]
      [MAX_VERTEX_ATTRIBUTES := 32],
    true, 4, 128, UPLEVEL.features + {ShaderF16})

  const DEFAULT := Bucket("default", DEFAULTS, false, 4, 128, {})

  const FALLBACK := Bucket("fallback", DEFAULTS, true, 4, 128, {})

  const SPECIAL: seq<Bucket> := [M1, A2, I1, N1, A1, NO_F16, LLVMPIPE, WARP]

  /** `buckets`, in the order in which they are tried. */
  const BUCKETS: seq<Bucket> := SPECIAL + [DEFAULT, FALLBACK]

  const N1_INDEX := 3

  // ----- What holds of this table

  /** An adapter that is exactly as good as a bucket. */
  function Own(b: Bucket): Exposed {
    Exposed(b.limits, b.features, b.subgroupMin, b.subgroupMax)
  }

  lemma UplevelIsAboveDefaults()
    ensures Within(DEFAULTS, UPLEVEL.limits)
  {
  }

  lemma M1LimitsAreUplevel()
    ensures Within(UPLEVEL.limits, M1.limits)
  {
  }

  lemma M1IsUplevel()
    ensures IsCompatible(UPLEVEL, false, Own(M1))
  {
    hide Within;
    M1LimitsAreUplevel();
  }

  lemma A2IsUplevel()
    ensures IsCompatible(UPLEVEL, false, Own(A2))
  {
  }

  lemma I1IsUplevel()
    ensures IsCompatible(UPLEVEL, false, Own(I1))
  {
  }

  lemma N1IsUplevel()
    ensures IsCompatible(UPLEVEL, false, Own(N1))
  {
  }

  lemma A1IsUplevel()
    ensures IsCompatible(UPLEVEL, false, Own(A1))
  {
  }

  lemma NoF16IsUplevel()
    ensures IsCompatible(UPLEVEL, false, Own(NO_F16))
  {
  }

  lemma LlvmpipeIsUplevel()
    ensures IsCompatible(UPLEVEL, false, Own(LLVMPIPE))
  {
  }

  lemma WarpIsUplevel()
    ensures IsCompatible(UPLEVEL, false, Own(WARP))
  {
  }

  /** Each special bucket is a superset of `UPLEVEL`: hardware exactly as good as it satisfies `UPLEVEL`, leaving aside
      whether it is a fallback adapter. */
  lemma SpecialBucketsAreUplevel(b: Bucket)
    requires b in SPECIAL
    ensures IsCompatible(UPLEVEL, false, Own(b))
  {
    hide IsCompatible, Own;
    var i :| 0 <= i < |SPECIAL| && SPECIAL[i] == b;
    if
    case i == 0 => M1IsUplevel();
    case i == 1 => A2IsUplevel();
    case i == 2 => I1IsUplevel();
    case i == 3 => N1IsUplevel();
    case i == 4 => A1IsUplevel();
    case i == 5 => NoF16IsUplevel();
    case i == 6 => LlvmpipeIsUplevel();
    case i == 7 => WarpIsUplevel();
  }

  /** So the list gives up exactly the adapters that are below the default limits somewhere. */
  lemma TableGivesUpExactlyDownlevelAdapters(isCpu: bool, raw: Exposed)
    ensures FirstCompatible(BUCKETS, isCpu, raw).Some? <==> Within(DEFAULTS, raw.limits)
  {
    hide Within;
    UplevelIsAboveDefaults();
    forall b | b in SPECIAL
      ensures Within(DEFAULTS, b.limits)
    {
      SpecialBucketsAreUplevel(b);
      WithinIsAPreorder(DEFAULTS, UPLEVEL.limits, b.limits);
    }
    GivesUpExactlyDownlevelAdapters(SPECIAL, DEFAULTS, DEFAULT, FALLBACK, isCpu, raw);
  }

  /** An adapter as good as `UPLEVEL` whose storage buffers may be aligned more finely, as Metal's are. */
  const FINELY_ALIGNED := Own(UPLEVEL).(limits := UPLEVEL.limits[MIN_STORAGE_OFFSET_ALIGNMENT := 32])

  lemma FinelyAlignedIsAboveDefaults()
    ensures Within(DEFAULTS, FINELY_ALIGNED.limits)
  {
    UplevelIsAboveDefaults();
    assert UPLEVEL.limits[MIN_STORAGE_OFFSET_ALIGNMENT] == 256;
    forall i: nat | i < LIMIT_COUNT
      ensures NoBetter(i, DEFAULTS[i], FINELY_ALIGNED.limits[i])
    {
      assert NoBetter(i, DEFAULTS[i], UPLEVEL.limits[i]);
      assert i != MIN_STORAGE_OFFSET_ALIGNMENT ==> FINELY_ALIGNED.limits[i] == UPLEVEL.limits[i];
    }
  }

  lemma NoF16RejectsFinelyAligned()
    ensures !Within(NO_F16.limits, FINELY_ALIGNED.limits)
  {
    var i := MAX_COLOR_ATTACHMENT_BYTES;
    assert !NoBetter(i, NO_F16.limits[i], FINELY_ALIGNED.limits[i]);
  }

  /** Finer alignments do not cost an adapter its bucket: this one gets the default bucket. */
  lemma FinelyAlignedGetsDefault()
    ensures FirstCompatible(BUCKETS, false, FINELY_ALIGNED) == Some(8) && BUCKETS[8] == DEFAULT
  {
    FinelyAlignedIsAboveDefaults();
    NoF16RejectsFinelyAligned();
    hide Within;
    forall j | 0 <= j < 8
      ensures !IsCompatible(BUCKETS[j], false, FINELY_ALIGNED)
    {
      if j == 5 {
        assert BUCKETS[j] == NO_F16;
      } else {
        assert ShaderF16 in BUCKETS[j].features && ShaderF16 !in FINELY_ALIGNED.features;
      }
    }
    FirstAccepting(BUCKETS, false, FINELY_ALIGNED, 8);
  }

  // ----- Which buckets are ever applied

  lemma I1WithinN1()
    ensures Within(I1.limits, N1.limits)
  {
  }

  /** Whatever satisfies `n1` satisfies `i1`, which is tried before it. */
  lemma I1ShadowsN1(isCpu: bool, raw: Exposed)
    requires IsCompatible(N1, isCpu, raw)
    ensures IsCompatible(I1, isCpu, raw)
  {
    hide Within;
    I1WithinN1();
    WithinIsAPreorder(I1.limits, N1.limits, raw.limits);
  }

  lemma AcceptsItself(b: Bucket)
    ensures IsCompatible(b, b.isFallback, Own(b))
  {
    hide Within;
    WithinIsAPreorder(b.limits, b.limits, b.limits);
  }

  lemma A2ExceedsOthers()
    ensures !Within(A2.limits, I1.limits) && !Within(A2.limits, A1.limits)
  {
    var i := MAX_WORKGROUP_STORAGE_SIZE;
    assert !NoBetter(i, A2.limits[i], I1.limits[i]) && !NoBetter(i, A2.limits[i], A1.limits[i]);
  }

  /** Why an earlier bucket does not accept hardware of a later one, other than `n1`: being a fallback adapter,
      features, sizes of subgroups, or, for `a2`, the storage of workgroups. */
  lemma EarlierRejects(i: nat, j: nat)
    requires i < j < |BUCKETS| && j != N1_INDEX
    ensures !IsCompatible(BUCKETS[i], BUCKETS[j].isFallback, Own(BUCKETS[j]))
  {
    hide Within;
    var b, c := BUCKETS[i], BUCKETS[j];
    if b.isFallback == c.isFallback {
      if j >= 8 {
        assert Subgroup in b.features && Subgroup !in c.features;
      } else if j == 7 {
        assert b == LLVMPIPE && c == WARP;
      } else if j == 5 {
        assert ShaderF16 in b.features && ShaderF16 !in c.features;
      } else if i == 0 {
        assert TextureCompressionAstc in b.features && TextureCompressionAstc !in c.features;
      } else if i == 1 {
        A2ExceedsOthers();
        assert b == A2 && (c == I1 || c == A1);
      } else {
        assert (b == I1 || b == N1) && c == A1;
      }
    }
  }

  lemma N1IsNeverApplied(isCpu: bool, raw: Exposed)
    ensures FirstCompatible(BUCKETS, isCpu, raw) != Some(N1_INDEX)
  {
    hide IsCompatible;
    assert BUCKETS[2] == I1 && BUCKETS[N1_INDEX] == N1;
    if IsCompatible(N1, isCpu, raw) {
      I1ShadowsN1(isCpu, raw);
    }
  }

  lemma OthersAreApplied(i: nat)
    requires i < |BUCKETS| && i != N1_INDEX
    ensures FirstCompatible(BUCKETS, BUCKETS[i].isFallback, Own(BUCKETS[i])) == Some(i)
  {
    hide IsCompatible, Own;
    AcceptsItself(BUCKETS[i]);
    forall j | 0 <= j < i
      ensures !IsCompatible(BUCKETS[j], BUCKETS[i].isFallback, Own(BUCKETS[i]))
    {
      EarlierRejects(j, i);
    }
    FirstAccepting(BUCKETS, BUCKETS[i].isFallback, Own(BUCKETS[i]), i);
  }

  /** Of the ten buckets every one is applied to some adapter, hardware exactly as good as it for one, except `n1`: an
      adapter that satisfies it gets an earlier one. */
  lemma EveryBucketButN1IsApplied(i: nat)
    requires i < |BUCKETS|
    ensures BUCKETS[N1_INDEX] == N1
    ensures (exists isCpu, raw :: FirstCompatible(BUCKETS, isCpu, raw) == Some(i)) <==> i != N1_INDEX
  {
    hide IsCompatible, FirstCompatible, Own;
    if i == N1_INDEX {
      forall isCpu, raw {
        N1IsNeverApplied(isCpu, raw);
      }
    } else {
      OthersAreApplied(i);
    }
  }
}
