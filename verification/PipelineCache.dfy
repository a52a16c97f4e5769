/**
  The pipeline cache header of wgpu-core/src/pipeline_cache.rs: a writer that fills a buffer,
  a reader that consumes a slice, and the validator of cache files.
*/
module PipelineCache {
  import opened Integers
  import opened Wrappers

  // ----- Big-endian numbers

  function Pow256(n: nat): (p: nat)
    ensures p > 0
  {
    if n == 0 then 1 else 256 * Pow256(n - 1)
  }

  /** `to_be_bytes` of an `n`-byte integer. */
  function ToBytes(n: nat, x: nat): (b: Bytes)
    ensures |b| == n
  {
    if n == 0 then [] else ToBytes(n - 1, x / 256) + [x % 256]
  }

  /** `from_be_bytes`. */
  function FromBytes(b: Bytes): nat {
    if b == [] then 0 else 256 * FromBytes(b[..|b| - 1]) + b[|b| - 1]
  }

  lemma {:induction false} FromToBytes(n: nat, x: nat)
    requires x < Pow256(n)
    ensures FromBytes(ToBytes(n, x)) == x
  {
    if n == 0 {
    } else {
      FromToBytes(n - 1, x / 256);
      assert ToBytes(n, x)[..n - 1] == ToBytes(n - 1, x / 256);
    }
  }

  lemma {:induction false} ToFromBytes(b: Bytes)
    ensures FromBytes(b) < Pow256(|b|) && ToBytes(|b|, FromBytes(b)) == b
  {
    if b == [] {
    } else {
      var init := b[..|b| - 1];
      ToFromBytes(init);
      assert FromBytes(b) / 256 == FromBytes(init) && FromBytes(b) % 256 == b[|b| - 1];
      assert b == init + [b[|b| - 1]];
    }
  }

  // ----- The header

  datatype Header = Header(
    magic: Bytes, version: nat, abi: nat, backend: Byte, adapterKey: Bytes, validationKey: Bytes,
    dataSize: nat, hashSpace: nat)

  const HEADER_LENGTH := 64

  /** The ranges of the header's fixed-size fields. */
  predicate WellTyped(h: Header) {
    && |h.magic| == 8 && h.version < Pow256(4) && h.abi < Pow256(4)
    && |h.adapterKey| == 15 && |h.validationKey| == 16
    && h.dataSize < Pow256(8) && h.hashSpace < Pow256(8)
  }

  function Encode(h: Header): (b: Bytes)
    requires WellTyped(h)
    ensures |b| == HEADER_LENGTH
  {
    h.magic + ToBytes(4, h.version) + ToBytes(4, h.abi) + [h.backend]
    + h.adapterKey + h.validationKey + ToBytes(8, h.dataSize) + ToBytes(8, h.hashSpace)
  }

  function Decode(b: Bytes): (h: Header)
    requires |b| == HEADER_LENGTH
  {
    Header(b[..8], FromBytes(b[8..12]), FromBytes(b[12..16]), b[16], b[17..32], b[32..48],
           FromBytes(b[48..56]), FromBytes(b[56..]))
  }

  lemma DecodeEncode(h: Header)
    requires WellTyped(h)
    ensures Decode(Encode(h)) == h
  {
    var b := Encode(h);
    assert b[..8] == h.magic;
    assert b[8..12] == ToBytes(4, h.version);
    assert b[12..16] == ToBytes(4, h.abi);
    assert b[17..32] == h.adapterKey;
    assert b[32..48] == h.validationKey;
    assert b[48..56] == ToBytes(8, h.dataSize);
    assert b[56..] == ToBytes(8, h.hashSpace);
    FromToBytes(4, h.version);
    FromToBytes(4, h.abi);
    FromToBytes(8, h.dataSize);
    FromToBytes(8, h.hashSpace);
  }

  lemma EncodeDecode(b: Bytes)
    requires |b| == HEADER_LENGTH
    ensures WellTyped(Decode(b)) && Encode(Decode(b)) == b
  {
    ToFromBytes(b[8..12]);
    ToFromBytes(b[12..16]);
    ToFromBytes(b[48..56]);
    ToFromBytes(b[56..]);
    assert b == b[..8] + b[8..12] + b[12..16] + [b[16]] + b[17..32] + b[32..48] + b[48..56] + b[56..];
  }

  // ----- Reading and writing in place

  /** The source's `Reader`: every read shortens `data`, or fails and leaves it alone. */
  class Reader {
    var data: Bytes
    var totalRead: nat

    constructor (data: Bytes)
      ensures this.data == data && totalRead == 0
    {
      this.data, totalRead := data, 0;
    }

    method ReadArray(n: nat) returns (r: Option<Bytes>)
      modifies this
      ensures r.Some? <==> n <= |old(data)|
      ensures r.Some? ==> r.value == old(data)[..n] && data == old(data)[n..] && totalRead == old(totalRead) + n
      ensures r.None? ==> data == old(data) && totalRead == old(totalRead)
    {
      if n > |data| {
        return None;
      }
      r := Some(data[..n]);
      totalRead := totalRead + n;
      data := data[n..];
    }

    method ReadByte() returns (r: Option<Byte>)
      modifies this
      ensures r.Some? <==> 1 <= |old(data)|
      ensures r.Some? ==> r.value == old(data)[0] && data == old(data)[1..] && totalRead == old(totalRead) + 1
      ensures r.None? ==> data == old(data) && totalRead == old(totalRead)
    {
      if data == [] {
        return None;
      }
      r := Some(data[0]);
      totalRead := totalRead + 1;
      data := data[1..];
    }

    method ReadNumber(n: nat) returns (r: Option<nat>)
      modifies this
      ensures r.Some? <==> n <= |old(data)|
      ensures r.Some? ==>
                r.value == FromBytes(old(data)[..n]) && data == old(data)[n..] && totalRead == old(totalRead) + n
      ensures r.None? ==> data == old(data) && totalRead == old(totalRead)
    {
      var a := ReadArray(n);
      r := if a.Some? then Some(FromBytes(a.value)) else None;
    }
  }

  function ReadHeader(data: Bytes): Option<(Header, Bytes)> {
    if |data| < HEADER_LENGTH then None else Some((Decode(data[..HEADER_LENGTH]), data[HEADER_LENGTH..]))
  }

  /** `PipelineCacheHeader::read`, whose assertion on the number of bytes read holds. */
  method Read(data: Bytes) returns (r: Option<(Header, Bytes)>)
    ensures r == ReadHeader(data)
  {
    var reader := new Reader(data);
    var magic := reader.ReadArray(8);
    if magic.None? { return None; }
    var version := reader.ReadNumber(4);
    if version.None? { return None; }
    assert reader.data == data[12..] && data[8..][..4] == data[8..12];
    var abi := reader.ReadNumber(4);
    if abi.None? { return None; }
    assert reader.data == data[16..] && data[12..][..4] == data[12..16];
    var backend := reader.ReadByte();
    if backend.None? { return None; }
    assert reader.data == data[17..];
    var adapterKey := reader.ReadArray(15);
    if adapterKey.None? { return None; }
    assert reader.data == data[32..] && data[17..][..15] == data[17..32];
    var validationKey := reader.ReadArray(16);
    if validationKey.None? { return None; }
    assert reader.data == data[48..] && data[32..][..16] == data[32..48];
    var dataSize := reader.ReadNumber(8);
    if dataSize.None? { return None; }
    assert reader.data == data[56..] && data[48..][..8] == data[48..56];
    var hashSpace := reader.ReadNumber(8);
    if hashSpace.None? { return None; }
    assert reader.data == data[64..] && data[56..][..8] == data[56..64];
    assert reader.totalRead == HEADER_LENGTH;
    SlicesOfHeader(data);
    r := Some((Header(magic.value, version.value, abi.value, backend.value, adapterKey.value, validationKey.value,
                      dataSize.value, hashSpace.value), reader.data));
  }

  lemma SlicesOfHeader(data: Bytes)
    requires |data| >= HEADER_LENGTH
    ensures var b := data[..HEADER_LENGTH];
            && b[..8] == data[..8] && b[8..12] == data[8..12] && b[12..16] == data[12..16] && b[17..32] == data[17..32]
            && b[32..48] == data[32..48] && b[48..56] == data[48..56] && b[56..] == data[56..64]
  {
  }

  /** The source's `Writer`: it fills a buffer from the front, and `at` is where its remaining part begins. */
  class Writer {
    const buffer: array<Byte>
    var at: nat

    constructor (buffer: array<Byte>)
      ensures this.buffer == buffer && at == 0
    {
      this.buffer, at := buffer, 0;
    }

    method WriteArray(bytes: Bytes) returns (ok: bool)
      requires at <= buffer.Length
      modifies this, buffer
      ensures at <= buffer.Length
      ensures ok <==> |bytes| <= buffer.Length - old(at)
      ensures at == if ok then old(at) + |bytes| else old(at)
      ensures buffer[..at] == old(buffer[..at]) + (if ok then bytes else [])
      ensures buffer[at..] == old(buffer[..])[at..]
    {
      if |bytes| > buffer.Length - at {
        return false;
      }
      for i := 0 to |bytes|
        invariant at == old(at)
        invariant buffer[..at + i] == old(buffer[..at]) + bytes[..i]
        invariant buffer[at + i..] == old(buffer[..])[at + i..]
      {
        buffer[at + i] := bytes[i];
      }
      at := at + |bytes|;
      ok := true;
    }
  }

  /** `PipelineCacheHeader::write` into a buffer of the header's length. */
  method Write(h: Header, into: array<Byte>) returns (ok: bool)
    requires WellTyped(h) && into.Length == HEADER_LENGTH
    modifies into
    ensures ok && into[..] == Encode(h)
  {
    hide ToBytes, Pow256;
    var writer := new Writer(into);
    ok := writer.WriteArray(h.magic);
    ok := writer.WriteArray(ToBytes(4, h.version));
    ok := writer.WriteArray(ToBytes(4, h.abi));
    ok := writer.WriteArray([h.backend]);
    assert into[..writer.at] == h.magic + ToBytes(4, h.version) + ToBytes(4, h.abi) + [h.backend];
    ok := writer.WriteArray(h.adapterKey);
    ok := writer.WriteArray(h.validationKey);
    ok := writer.WriteArray(ToBytes(8, h.dataSize));
    ok := writer.WriteArray(ToBytes(8, h.hashSpace));
    assert into[..writer.at] == into[..];
  }

  // ----- Adding and validating headers

  datatype Backend = Noop | Vulkan | Metal | Dx12 | Gl | BrowserWebGpu

  /** The part of `AdapterInfo` the header depends on. */
  datatype Adapter = Adapter(backend: Backend, vendor: nat, device: nat)

  datatype Error = Truncated | Extended | Corrupted | Outdated | DeviceMismatch | Unsupported

  predicate IsU32(a: Adapter) {
    a.vendor < Pow256(4) && a.device < Pow256(4)
  }

  function BackendByte(b: Backend): Byte {
    match b
    case Noop => 0
    case Vulkan => 1
    case Metal => 2
    case Dx12 => 3
    case Gl => 4
    case BrowserWebGpu => 5
  }

  function AdapterKey(a: Adapter): Result<Bytes, Error> {
    if !a.backend.Vulkan? then Err(Unsupported)
    else Ok([255, 255, 255] + ToBytes(4, a.vendor) + ToBytes(4, a.device) + [255, 255, 255, 255])
  }

  /** `b"WGPUPLCH"`. */
  const MAGIC: Bytes := [0x57, 0x47, 0x50, 0x55, 0x50, 0x4C, 0x43, 0x48]
  const HEADER_VERSION: nat := 1
  const HASH_SPACE_VALUE: nat := 0xFEDCBA9_876543210

  /** What a build and its user bring to a validation: the size of a pointer in bytes, the adapter, and the key. */
  datatype Setup = Setup(pointerBytes: nat, adapter: Adapter, key: Bytes)

  predicate ProperSetup(s: Setup) {
    s.pointerBytes in {4, 8} && IsU32(s.adapter) && |s.key| == 16
  }

  /** A slice's length fits the machine's `usize`. */
  predicate Fits(b: Bytes, s: Setup) {
    |b| < Pow256(s.pointerBytes)
  }

  lemma WordSizes(s: Setup)
    requires ProperSetup(s)
    ensures Pow256(4) == 0x1_0000_0000 && Pow256(8) == 0x1_0000_0000_0000_0000
    ensures Pow256(s.pointerBytes) <= Pow256(8)
  {
    assert Pow256(2) == 65536;
    assert Pow256(4) == 256 * (256 * Pow256(2));
    assert Pow256(6) == 256 * (256 * Pow256(4));
    assert Pow256(8) == 256 * (256 * Pow256(6));
  }

  /** The header that `add_cache_header` writes; it panics for an adapter without a key. */
  function HeaderFor(data: Bytes, s: Setup): (h: Header)
    requires ProperSetup(s) && s.adapter.backend.Vulkan? && Fits(data, s)
    ensures WellTyped(h)
  {
    WordSizes(s);
    Header(MAGIC, HEADER_VERSION, s.pointerBytes, BackendByte(s.adapter.backend), AdapterKey(s.adapter).value, s.key,
           |data|, HASH_SPACE_VALUE)
  }

  method AddCacheHeader(region: array<Byte>, data: Bytes, s: Setup)
    requires region.Length == HEADER_LENGTH
    requires ProperSetup(s) && s.adapter.backend.Vulkan? && Fits(data, s)
    modifies region
    ensures region[..] == Encode(HeaderFor(data, s))
  {
    var _ := Write(HeaderFor(data, s), region);
  }

  /** A cache file: the header and the data it was written for. */
  function File(data: Bytes, s: Setup): Bytes
    requires ProperSetup(s) && s.adapter.backend.Vulkan? && Fits(data, s)
  {
    Encode(HeaderFor(data, s)) + data
  }

  /** `validate_pipeline_cache`, check by check. */
  function Validate(cache: Bytes, s: Setup): Result<Bytes, Error> {
    match AdapterKey(s.adapter)
    case Err(e) => Err(e)
    case Ok(adapterKey) =>
      match ReadHeader(cache)
      case None => Err(Truncated)
      case Some((h, remaining)) =>
        if h.magic != MAGIC then Err(Corrupted)
        else if h.version != HEADER_VERSION then Err(Outdated)
        else if h.abi != s.pointerBytes then Err(Outdated)
        else if h.backend != BackendByte(s.adapter.backend) then Err(DeviceMismatch)
        else if h.adapterKey != adapterKey then Err(DeviceMismatch)
        else if h.validationKey != s.key then Err(Outdated)
        else if h.dataSize >= Pow256(s.pointerBytes) then Err(Corrupted)
        else if |remaining| < h.dataSize then Err(Truncated)
        else if |remaining| > h.dataSize then Err(Extended)
        else if h.hashSpace != HASH_SPACE_VALUE then Err(Corrupted)
        else Ok(remaining)
  }

  lemma ReadsBack(data: Bytes, rest: Bytes, s: Setup)
    requires ProperSetup(s) && s.adapter.backend.Vulkan? && Fits(data, s)
    ensures ReadHeader(Encode(HeaderFor(data, s)) + rest) == Some((HeaderFor(data, s), rest))
  {
    var h := HeaderFor(data, s);
    DecodeEncode(h);
    assert (Encode(h) + rest)[..HEADER_LENGTH] == Encode(h);
    assert (Encode(h) + rest)[HEADER_LENGTH..] == rest;
  }

  /** The validator accepts exactly the canonical encoding: it returns `d` if and only if the file is the header
      written for `d`, this adapter, this key and this pointer size, followed by `d`. */
  lemma AcceptsExactlyOwnFiles(cache: Bytes, s: Setup, d: Bytes)
    requires ProperSetup(s) && Fits(cache, s) && Fits(d, s)
    ensures Validate(cache, s) == Ok(d) <==> s.adapter.backend.Vulkan? && cache == File(d, s)
  {
    if s.adapter.backend.Vulkan? {
      ReadsBack(d, d, s);
    }
    if Validate(cache, s) == Ok(d) {
      var b := cache[..HEADER_LENGTH];
      EncodeDecode(b);
      assert Decode(b) == HeaderFor(d, s);
      assert cache == b + cache[HEADER_LENGTH..];
    }
  }

  /** Every proper prefix of a valid file is reported as truncated. */
  lemma ProperPrefixIsTruncated(d: Bytes, s: Setup, n: nat)
    requires ProperSetup(s) && s.adapter.backend.Vulkan? && Fits(d, s) && n < |File(d, s)|
    ensures Validate(File(d, s)[..n], s) == Err(Truncated)
  {
    if n >= HEADER_LENGTH {
      var rest := d[..n - HEADER_LENGTH];
      assert File(d, s)[..n] == Encode(HeaderFor(d, s)) + rest;
      ReadsBack(d, rest, s);
    }
  }

  /** Every proper extension of a valid file is reported as extended. */
  lemma ProperExtensionIsExtended(d: Bytes, extra: Bytes, s: Setup)
    requires ProperSetup(s) && s.adapter.backend.Vulkan? && Fits(d, s) && extra != []
    ensures Validate(File(d, s) + extra, s) == Err(Extended)
  {
    assert File(d, s) + extra == Encode(HeaderFor(d, s)) + (d + extra);
    ReadsBack(d, d + extra, s);
  }

  lemma AdapterKeyIsInjective(a: Adapter, b: Adapter)
    requires IsU32(a) && IsU32(b) && a.backend.Vulkan? && b.backend.Vulkan?
    ensures AdapterKey(a) == AdapterKey(b) <==> a == b
  {
    var ka, kb := AdapterKey(a).value, AdapterKey(b).value;
    assert ka[3..7] == ToBytes(4, a.vendor) && ka[7..11] == ToBytes(4, a.device);
    assert kb[3..7] == ToBytes(4, b.vendor) && kb[7..11] == ToBytes(4, b.device);
    FromToBytes(4, a.vendor);
    FromToBytes(4, b.vendor);
    FromToBytes(4, a.device);
    FromToBytes(4, b.device);
  }

  /** A file is told apart by every setup but its own, and the error says how they differ:
      the pointer size first, then the adapter, then the key. */
  lemma ForeignFileIsRejected(d: Bytes, s: Setup, other: Setup)
    requires ProperSetup(s) && ProperSetup(other) && s.adapter.backend.Vulkan? && Fits(d, s)
    ensures Validate(File(d, s), other) ==
            if !other.adapter.backend.Vulkan? then Err(Unsupported)
            else if other.pointerBytes != s.pointerBytes then Err(Outdated)
            else if other.adapter != s.adapter then Err(DeviceMismatch)
            else if other.key != s.key then Err(Outdated)
            else Ok(d)
  {
    ReadsBack(d, d, s);
    if other.adapter.backend.Vulkan? {
      AdapterKeyIsInjective(s.adapter, other.adapter);
    }
  }

  /** Of a header that is not the one written for this setup and these data, the first field in the order of the file
      that differs decides the error, whatever comes after it. */
  lemma FirstDifferenceDecides(h: Header, d: Bytes, s: Setup)
    requires WellTyped(h) && ProperSetup(s) && s.adapter.backend.Vulkan? && Fits(d, s) && h != HeaderFor(d, s)
    ensures var own := HeaderFor(d, s);
            Validate(Encode(h) + d, s) == Err(
              if h.magic != own.magic then Corrupted
              else if h.version != own.version || h.abi != own.abi then Outdated
              else if h.backend != own.backend || h.adapterKey != own.adapterKey then DeviceMismatch
              else if h.validationKey != own.validationKey then Outdated
              else if h.dataSize >= Pow256(s.pointerBytes) then Corrupted
              else if h.dataSize > own.dataSize then Truncated
              else if h.dataSize < own.dataSize then Extended
              else Corrupted)
  {
    hide ToBytes, FromBytes, Decode, Encode, Pow256;
    DecodeEncode(h);
    assert (Encode(h) + d)[..HEADER_LENGTH] == Encode(h);
    assert (Encode(h) + d)[HEADER_LENGTH..] == d;
  }

  /** The four bytes of a number of 32 bits, the highest first. */
  lemma FourBytes(x: nat)
    requires x < Pow256(4)
    ensures ToBytes(4, x) == [x / 0x100_0000, x / 0x1_0000 % 256, x / 0x100 % 256, x % 256]
  {
    assert Pow256(4) == 256 * Pow256(3) && Pow256(2) == 65536;
    assert ToBytes(2, x / 0x1_0000) == ToBytes(1, x / 0x100_0000) + [x / 0x1_0000 % 256];
    assert ToBytes(3, x / 0x100) == ToBytes(2, x / 0x1_0000) + [x / 0x100 % 256];
    assert ToBytes(4, x) == ToBytes(3, x / 0x100) + [x % 256];
  }

  lemma MagicSpells()
    ensures MAGIC == ['W' as int, 'G' as int, 'P' as int, 'U' as int, 'P' as int, 'L' as int, 'C' as int, 'H' as int]
  {
  }

  lemma KeyOfAdapter(a: Adapter)
    requires a.backend.Vulkan?
    ensures var key := AdapterKey(a).value;
            && key[..3] == [255, 255, 255] && key[11..] == [255, 255, 255, 255]
            && key[3..7] == ToBytes(4, a.vendor) && key[7..11] == ToBytes(4, a.device)
  {
    hide ToBytes;
  }

  /** Where a file has the fields of its header. */
  lemma FieldsOfFile(h: Header, d: Bytes)
    requires WellTyped(h)
    ensures var file := Encode(h) + d;
            && file[..8] == h.magic && file[8..12] == ToBytes(4, h.version) && file[12..16] == ToBytes(4, h.abi)
            && file[16] == h.backend && file[17..32] == h.adapterKey && file[32..48] == h.validationKey
            && file[48..56] == ToBytes(8, h.dataSize) && file[56..64] == ToBytes(8, h.hashSpace) && file[64..] == d
  {
    hide ToBytes, Pow256;
  }

  lemma PartsOfKey(file: Bytes)
    requires |file| >= HEADER_LENGTH
    ensures var key := file[17..32];
            && file[17..20] == key[..3] && file[20..24] == key[3..7]
            && file[24..28] == key[7..11] && file[28..32] == key[11..]
  {
  }

  /** The fields of the header that is written. */
  lemma FieldsOfHeader(d: Bytes, s: Setup)
    requires ProperSetup(s) && s.adapter.backend.Vulkan? && Fits(d, s)
    ensures var h := HeaderFor(d, s);
            && h.magic == MAGIC
            && ToBytes(4, h.version) == [0, 0, 0, 1] && ToBytes(4, h.abi) == [0, 0, 0, s.pointerBytes]
            && h.backend == 1 && h.adapterKey == AdapterKey(s.adapter).value && h.validationKey == s.key
            && h.dataSize == |d| && h.hashSpace == 0xFEDC_BA98_7654_3210
  {
    WordSizes(s);
    FourBytes(1);
    FourBytes(s.pointerBytes);
    hide ToBytes, Pow256, AdapterKey;
  }

  /** Bytes 17 to 31: the vendor and the device, between bytes that are all ones. */
  predicate HasKey(file: Bytes, a: Adapter)
    requires |file| >= HEADER_LENGTH
  {
    && file[17..20] == [255, 255, 255] && file[28..32] == [255, 255, 255, 255]
    && file[20..24] == ToBytes(4, a.vendor) && file[24..28] == ToBytes(4, a.device)
  }

  lemma KeyInFile(file: Bytes, a: Adapter)
    requires |file| >= HEADER_LENGTH && a.backend.Vulkan? && file[17..32] == AdapterKey(a).value
    ensures HasKey(file, a)
  {
    hide ToBytes;
    PartsOfKey(file);
    KeyOfAdapter(a);
    hide AdapterKey;
  }

  /** The file, byte by byte. */
  lemma Layout(d: Bytes, s: Setup)
    requires ProperSetup(s) && s.adapter.backend.Vulkan? && Fits(d, s)
    ensures var file := File(d, s);
            && |file| == 64 + |d|
            && file[..8] == ['W' as int, 'G' as int, 'P' as int, 'U' as int,
                             'P' as int, 'L' as int, 'C' as int, 'H' as int]
            && file[8..12] == [0, 0, 0, 1] && file[12..16] == [0, 0, 0, s.pointerBytes] && file[16] == 1
            && HasKey(file, s.adapter) && file[32..48] == s.key
            && file[48..56] == ToBytes(8, |d|) && file[56..64] == ToBytes(8, 0xFEDC_BA98_7654_3210)
            && file[64..] == d
  {
    hide ToBytes, Pow256, Encode, HeaderFor, AdapterKey, ProperSetup, Fits, HasKey;
    MagicSpells();
    FieldsOfHeader(d, s);
    FieldsOfFile(HeaderFor(d, s), d);
    KeyInFile(File(d, s), s.adapter);
  }
}
