/** The SIFT trace format: little-endian fields, record layouts and the parser for one record. */
module SiftFormat {

  const TWO32: int := 0x1_0000_0000
  const TWO64: int := 0x1_0000_0000_0000_0000
  const PAGE: int := 4096                      // ICACHE_SIZE and PAGE_SIZE_SIFT
  const MAX_DYNAMIC_ADDRESSES: int := 2
  const MAGIC: int := 0x5446_4953              // "SIFT"

  type Byte = b: int | 0 <= b < 256
  type Word16 = n: int | 0 <= n < 0x1_0000
  type Word32 = n: int | 0 <= n < 0x1_0000_0000
  type Word64 = n: int | 0 <= n < 0x1_0000_0000_0000_0000

  /** `addr & ICACHE_PAGE_MASK` */
  function PageBase(a: Word64): (b: Word64)
    ensures b <= a < b + PAGE && b % PAGE == 0 && b + PAGE <= TWO64
  {
    a - a % PAGE
  }

  /** 64-bit wrapping addition */
  function Add64(a: Word64, b: nat): (r: Word64)
    ensures a + b < TWO64 ==> r == a + b
    ensures TWO64 <= a + b < 2 * TWO64 ==> r == a + b - TWO64
  {
    (a + b) % TWO64
  }

  // ---------------------------------------------------------------- little-endian integers

  function Pow256(n: nat): (p: nat)
    ensures p >= 1
  {
    if n == 0 then 1 else 256 * Pow256(n - 1)
  }

  function LE(v: nat, n: nat): (bs: seq<Byte>)
    ensures |bs| == n
    decreases n, v  // naming v keeps constant widths folded
  {
    if n == 0 then [] else [v % 256] + LE(v / 256, n - 1)
  }

  function FromLE(bs: seq<Byte>): (v: nat)
    ensures v < Pow256(|bs|)
  {
    if bs == [] then 0 else bs[0] + 256 * FromLE(bs[1..])
  }

  /** A field of n bytes keeps a number modulo 256^n. */
  lemma {:induction false} FromLEWraps(v: nat, n: nat)
    ensures FromLE(LE(v, n)) == v % Pow256(n)
    decreases n
  {
    if n != 0 {
      FromLEWraps(v / 256, n - 1);
      assert LE(v, n)[1..] == LE(v / 256, n - 1);
      LowDigit(v, Pow256(n - 1));
    }
  }

  lemma LowDigit(v: nat, p: nat)
    requires p >= 1
    ensures v % (256 * p) == v % 256 + 256 * (v / 256 % p)
  {
    var q, r := v / 256 / p, v % 256 + 256 * (v / 256 % p);
    assert v / 256 == p * q + v / 256 % p;
    assert v == 256 * p * q + r;
    UniqueRest(v, 256 * p, q, r);
  }

  lemma UniqueRest(v: nat, m: nat, q: nat, r: nat)
    requires v == m * q + r && r < m
    ensures v % m == r
  {
    var q', r' := v / m, v % m;
    assert v == m * q' + r';
    if q < q' {
      Above(m, q, q');
    } else if q' < q {
      Above(m, q', q);
    }
  }

  lemma Above(m: nat, a: nat, b: nat)
    requires a < b
    ensures m * a + m <= m * b
  {
    if a + 1 < b {
      Above(m, a, b - 1);
    }
    assert m * b == m * (b - 1) + m;
  }

  lemma FromLEOfLE(v: nat, n: nat)
    requires v < Pow256(n)
    ensures FromLE(LE(v, n)) == v
  {
    FromLEWraps(v, n);
    UniqueRest(v, Pow256(n), 0, v);
  }

  lemma {:induction false} LEOfFromLE(bs: seq<Byte>)
    ensures LE(FromLE(bs), |bs|) == bs
  {
    if bs != [] {
      LEOfFromLE(bs[1..]);
      var v := FromLE(bs);
      assert v % 256 == bs[0] && v / 256 == FromLE(bs[1..]);
      assert bs == [bs[0]] + bs[1..];
    }
  }

  /** Byte k of a field, the least significant one first. */
  lemma {:induction false} LittleEndian(v: nat, n: nat, k: nat)
    requires k < n
    ensures LE(v, n)[k] == v / Pow256(k) % 256
    decreases n
  {
    if k > 0 {
      LittleEndian(v / 256, n - 1, k - 1);
      DivTwice(v, Pow256(k - 1));
    }
  }

  lemma DivTwice(v: nat, p: nat)
    requires p >= 1
    ensures v / 256 / p == v / (256 * p)
  {
    var q := v / 256 / p;
    var r := v - 256 * p * q;
    assert v / 256 == p * q + v / 256 % p;
    assert r == 256 * (v / 256 % p) + v % 256;
    UniqueQuotient(v, 256 * p, q, r);
  }

  lemma UniqueQuotient(v: nat, m: nat, q: nat, r: nat)
    requires v == m * q + r && r < m
    ensures v / m == q
  {
    var q', r' := v / m, v % m;
    assert v == m * q' + r';
    if q < q' {
      Above(m, q, q');
    } else if q' < q {
      Above(m, q', q);
    }
  }

  lemma Pow256Values()
    ensures Pow256(1) == 256 && Pow256(2) == 0x1_0000
    ensures Pow256(4) == TWO32 && Pow256(8) == TWO64
  {
    assert Pow256(1) == 256 * Pow256(0);
    assert Pow256(2) == 256 * Pow256(1);
    assert Pow256(3) == 256 * Pow256(2);
    assert Pow256(4) == 256 * Pow256(3);
    assert Pow256(5) == 256 * Pow256(4);
    assert Pow256(6) == 256 * Pow256(5);
    assert Pow256(7) == 256 * Pow256(6);
    assert Pow256(8) == 256 * Pow256(7);
  }

  /** Field of 4 bytes at offset `at`. */
  function Get32(bs: seq<Byte>, at: nat): (v: Word32)
    requires at + 4 <= |bs|
  {
    Pow256Values();
    FromLE(bs[at..at + 4])
  }

  /** Field of 8 bytes at offset `at`. */
  function Get64(bs: seq<Byte>, at: nat): (v: Word64)
    requires at + 8 <= |bs|
  {
    Pow256Values();
    FromLE(bs[at..at + 8])
  }

  lemma Get64At(before: seq<Byte>, v: Word64, after: seq<Byte>)
    ensures Get64(before + LE(v, 8) + after, |before|) == v
  {
    Pow256Values();
    FromLEOfLE(v, 8);
    assert (before + LE(v, 8) + after)[|before|..|before| + 8] == LE(v, 8);
  }

  lemma Get32At(before: seq<Byte>, v: Word32, after: seq<Byte>)
    ensures Get32(before + LE(v, 4) + after, |before|) == v
  {
    Pow256Values();
    FromLEOfLE(v, 4);
    assert (before + LE(v, 4) + after)[|before|..|before| + 4] == LE(v, 4);
  }

  // ---------------------------------------------------------------- stream header

  datatype Options = Options(arch32: bool, icacheVariable: bool, physicalAddress: bool)

  function OptionBits(o: Options): (v: Word64)
    ensures v < 16 && v % 2 == 0 && ((v / 8) % 2 == 1 <==> o.physicalAddress)
  {
    (if o.arch32 then 2 else 0) + (if o.icacheVariable then 4 else 0) + (if o.physicalAddress then 8 else 0)
  }

  function EncodeHeader(o: Options): (bs: seq<Byte>)
    ensures |bs| == 16
  {
    LE(MAGIC, 4) + LE(0, 4) + LE(OptionBits(o), 8)
  }

  /** What `initStream` accepts: the magic number and no option bit it does not know.
      A header size other than 0 is only reported.  A compressed stream is not modelled. */
  datatype HeaderResult = Accepted(physicalAddress: bool) | Rejected | Compressed

  function ParseHeader(bs: seq<Byte>): (r: HeaderResult)
  {
    if |bs| < 16 || Get32(bs, 0) != MAGIC then Rejected
    else
      var options := Get64(bs, 8);
      if options % 2 == 1 then Compressed
      else if options >= 16 then Rejected
      else Accepted((options / 8) % 2 == 1)
  }

  /** The physical-address option, which is noted even if the header is then rejected for another option. */
  predicate HeaderPhysical(bs: seq<Byte>)
    ensures ParseHeader(bs).Accepted? ==> HeaderPhysical(bs) == ParseHeader(bs).physicalAddress
  {
    |bs| >= 16 && Get32(bs, 0) == MAGIC && (Get64(bs, 8) / 8) % 2 == 1
  }

  lemma HeaderLayout(o: Options)
    ensures EncodeHeader(o) ==
            [0x53, 0x49, 0x46, 0x54, 0, 0, 0, 0,
             (if o.arch32 then 2 else 0) + (if o.icacheVariable then 4 else 0) + (if o.physicalAddress then 8 else 0), 0, 0, 0, 0, 0, 0, 0]
  {
    hide LE;
    MagicBytes();
    OptionField(OptionBits(o));
    SmallField(0);
  }

  /** "SIFT" */
  lemma MagicBytes()
    ensures LE(MAGIC, 4) == [0x53, 0x49, 0x46, 0x54]
  {
    assert LE(0x5446_4953, 4) == [0x53] + LE(0x54_4649, 3);
    assert LE(0x54_4649, 3) == [0x49] + LE(0x5446, 2);
    assert LE(0x5446, 2) == [0x46] + LE(0x54, 1);
    assert LE(0x54, 1) == [0x54] + LE(0, 0);
  }

  lemma OptionField(v: nat)
    requires v < 256
    ensures LE(v, 8) == [v, 0, 0, 0, 0, 0, 0, 0]
  {
    assert LE(v, 8) == [v] + LE(0, 7);
    assert LE(0, 7) == [0] + LE(0, 6);
    assert LE(0, 6) == [0] + LE(0, 5);
    assert LE(0, 5) == [0] + LE(0, 4);
    SmallField(0);
  }

  lemma HeaderRoundTrip(o: Options, rest: seq<Byte>)
    ensures ParseHeader(EncodeHeader(o) + rest) == Accepted(o.physicalAddress)
  {
    hide LE, Get32, Get64;
    var bs := EncodeHeader(o) + rest;
    var tail := LE(0, 4) + LE(OptionBits(o), 8) + rest;
    assert Get32(bs, 0) == MAGIC by {
      assert bs == [] + LE(MAGIC, 4) + tail;
      Get32At([], MAGIC, tail);
    }
    assert Get64(bs, 8) == OptionBits(o) by {
      assert bs == (LE(MAGIC, 4) + LE(0, 4)) + LE(OptionBits(o), 8) + rest;
      Get64At(LE(MAGIC, 4) + LE(0, 4), OptionBits(o), rest);
    }
  }

  // ---------------------------------------------------------------- records

  const REC_ICACHE: Byte := 0
  const REC_OUTPUT: Byte := 1
  const REC_ICACHE_VARIABLE: Byte := 11
  const REC_LOGICAL2PHYSICAL: Byte := 14
  const REC_ROUTINE_CHANGE: Byte := 17
  const REC_CACHE_ONLY: Byte := 24
  const REC_ISA_CHANGE: Byte := 25
  const REC_END: Byte := 255

  /** Requests, which are answered over the response channel (module SiftProtocol), and RoutineAnnounce. */
  const OTHER_HANDLED: set<Byte> := {2, 4, 8, 12, 15, 18, 19, 21, 23}

  datatype Record =
    | Simple(size: nat, isBranch: bool, taken: bool, addresses: seq<Word64>)
    | Extended(size: nat, isBranch: bool, taken: bool, isPredicate: bool, executed: bool, addr: Word64, addresses: seq<Word64>)
    | IcachePage(base: Word64, bytes: seq<Byte>)
    | IcacheVariable(start: Word64, bytes: seq<Byte>)
    | Logical2Physical(vp: Word64, pp: Word64)
    | CacheOnly(icount: Byte, kind: Byte, eip: Word64, address: Word64)
    | Output(fd: Byte, data: seq<Byte>)
    | RoutineChange(event: Byte, eip: Word64, esp: Word64, callEip: Word64)
    | IsaChange(isa: Word32)
    | End
    | Skipped(kind: Byte, payload: seq<Byte>)

  function Bit(b: bool): (v: int)
    ensures 0 <= v <= 1 && (v == 1 <==> b)
  {
    if b then 1 else 0
  }

  // Bit fields, first field in the low bits.

  function PackSimple(size: nat, n: nat, isBranch: bool, taken: bool): (b: Byte)
    requires size < 16 && n < 4
  {
    size + 16 * n + 64 * Bit(isBranch) + 128 * Bit(taken)
  }

  function PackFlags(n: nat, isBranch: bool, taken: bool, isPredicate: bool, executed: bool): (b: Byte)
    requires n < 4
  {
    n + 4 * Bit(isBranch) + 8 * Bit(taken) + 16 * Bit(isPredicate) + 32 * Bit(executed)
  }

  /** The field of `b` that starts at weight `at` and takes `values` values. */
  function Field(b: Byte, at: nat, values: nat): (v: nat)
    requires at > 0 && values > 0
  {
    (b / at) % values
  }

  lemma FieldsOfSimple(size: nat, n: nat, isBranch: bool, taken: bool)
    requires size < 16 && n < 4
    ensures var b := PackSimple(size, n, isBranch, taken);
            && Field(b, 1, 16) == size && Field(b, 16, 4) == n
            && Field(b, 64, 2) == Bit(isBranch) && Field(b, 128, 2) == Bit(taken)
  {
  }

  lemma FieldsOfFlags(n: nat, isBranch: bool, taken: bool, isPredicate: bool, executed: bool)
    requires n < 4
    ensures var b := PackFlags(n, isBranch, taken, isPredicate, executed);
            && Field(b, 1, 4) == n && Field(b, 4, 2) == Bit(isBranch) && Field(b, 8, 2) == Bit(taken)
            && Field(b, 16, 2) == Bit(isPredicate) && Field(b, 32, 2) == Bit(executed)
  {
  }

  function EncodeAddresses(a: seq<Word64>): (bs: seq<Byte>)
    ensures |bs| == 8 * |a|
  {
    if a == [] then [] else LE(a[0], 8) + EncodeAddresses(a[1..])
  }

  function DecodeAddresses(bs: seq<Byte>, n: nat): (a: seq<Word64>)
    requires |bs| >= 8 * n
    ensures |a| == n
    decreases n
  {
    if n == 0 then [] else [Get64(bs, 0)] + DecodeAddresses(bs[8..], n - 1)
  }

  lemma {:induction false} AddressesRoundTrip(a: seq<Word64>, rest: seq<Byte>)
    ensures DecodeAddresses(EncodeAddresses(a) + rest, |a|) == a
  {
    hide LE, Get64;
    if a != [] {
      var bs := EncodeAddresses(a) + rest;
      assert bs == [] + LE(a[0], 8) + (EncodeAddresses(a[1..]) + rest);
      Get64At([], a[0], EncodeAddresses(a[1..]) + rest);
      assert bs[8..] == EncodeAddresses(a[1..]) + rest;
      AddressesRoundTrip(a[1..], rest);
    }
  }

  /** `rec.Other` followed by its payload; the size field wraps at 2^32 */
  function EncodeOther(kind: Byte, payload: seq<Byte>): (bs: seq<Byte>)
    ensures |bs| == 6 + |payload|
  {
    [0, kind] + LE(|payload|, 4) + payload
  }

  /** The records a writer can produce: the fields fit the bit fields they are stored in. */
  predicate Encodable(r: Record)
  {
    match r
    case Simple(size, _, _, addresses) => size <= 15 && |addresses| <= MAX_DYNAMIC_ADDRESSES
    case Extended(size, _, _, _, _, _, addresses) => size <= 15 && |addresses| <= MAX_DYNAMIC_ADDRESSES
    case IcachePage(_, bytes) => |bytes| == PAGE
    case IcacheVariable(_, bytes) => |bytes| + 8 < TWO32
    case Output(_, data) => |data| < TWO32
    case Skipped(_, _) => false
    case _ => true
  }

  /** The encodable records that are told apart by their first byte and pass the reader's size asserts. */
  predicate Readable(r: Record)
    requires Encodable(r)
  {
    match r
    case Simple(size, _, _, _) => size >= 1
    case Extended(size, _, _, _, _, _, _) => size >= 1
    case Output(_, data) => 0 < |data| < TWO32 - 1
    case _ => true
  }

  function EncodeSimple(size: nat, isBranch: bool, taken: bool, addresses: seq<Word64>): (bs: seq<Byte>)
    requires size <= 15 && |addresses| <= MAX_DYNAMIC_ADDRESSES
    ensures |bs| == 1 + 8 * |addresses|
  {
    [PackSimple(size, |addresses|, isBranch, taken)] + EncodeAddresses(addresses)
  }

  function EncodeExtended(size: nat, flags: Byte, addr: Word64, addresses: seq<Word64>): (bs: seq<Byte>)
    requires size <= 15
    ensures |bs| == 10 + 8 * |addresses|
  {
    [16 * size, flags] + LE(addr, 8) + EncodeAddresses(addresses)
  }

  function KindAndPayload(r: Record): (kp: (Byte, seq<Byte>))
    requires Encodable(r) && !r.Simple? && !r.Extended?
    ensures Readable(r) ==> |kp.1| < TWO32
  {
    match r
    case IcachePage(base, bytes) => (REC_ICACHE, LE(base, 8) + bytes)
    case IcacheVariable(start, bytes) => (REC_ICACHE_VARIABLE, LE(start, 8) + bytes)
    case Logical2Physical(vp, pp) => (REC_LOGICAL2PHYSICAL, LE(vp, 8) + LE(pp, 8))
    case CacheOnly(icount, kind, eip, address) => (REC_CACHE_ONLY, [icount, kind] + LE(eip, 8) + LE(address, 8))
    case Output(fd, data) => (REC_OUTPUT, [fd] + data)
    case RoutineChange(event, eip, esp, callEip) => (REC_ROUTINE_CHANGE, [event] + LE(eip, 8) + LE(esp, 8) + LE(callEip, 8))
    case IsaChange(isa) => (REC_ISA_CHANGE, LE(isa, 4))
    case End => (REC_END, [])
  }

  function Encode(r: Record): (bs: seq<Byte>)
    requires Encodable(r)
    ensures |bs| >= 1
  {
    match r
    case Simple(size, isBranch, taken, addresses) => EncodeSimple(size, isBranch, taken, addresses)
    case Extended(size, isBranch, taken, isPredicate, executed, addr, addresses) =>
      EncodeExtended(size, PackFlags(|addresses|, isBranch, taken, isPredicate, executed), addr, addresses)
    case _ => var (kind, payload) := KindAndPayload(r); EncodeOther(kind, payload)
  }

  /** The records in bytes, as the format lays them down. */
  lemma Layout(r: Record)
    requires Encodable(r)
    ensures match r
            case Simple(size, isBranch, taken, addresses) =>
              Encode(r) == [size + 16 * |addresses| + (if isBranch then 64 else 0) + (if taken then 128 else 0)] + EncodeAddresses(addresses)
            case Extended(size, isBranch, taken, isPredicate, executed, addr, addresses) =>
              Encode(r) == [16 * size, |addresses| + (if isBranch then 4 else 0) + (if taken then 8 else 0)
                                       + (if isPredicate then 16 else 0) + (if executed then 32 else 0)]
                           + LE(addr, 8) + EncodeAddresses(addresses)
            case IcachePage(base, bytes) => Encode(r) == [0, 0, 8, 16, 0, 0] + LE(base, 8) + bytes
            case IcacheVariable(start, bytes) => Encode(r) == [0, 11] + LE(8 + |bytes|, 4) + LE(start, 8) + bytes
            case Logical2Physical(vp, pp) => Encode(r) == [0, 14, 16, 0, 0, 0] + LE(vp, 8) + LE(pp, 8)
            case CacheOnly(icount, kind, eip, address) =>
              Encode(r) == [0, 24, 18, 0, 0, 0] + [icount, kind] + LE(eip, 8) + LE(address, 8)
            case Output(fd, data) => Encode(r) == [0, 1] + LE(1 + |data|, 4) + [fd] + data
            case RoutineChange(event, eip, esp, callEip) =>
              Encode(r) == [0, 17, 25, 0, 0, 0] + [event] + LE(eip, 8) + LE(esp, 8) + LE(callEip, 8)
            case IsaChange(isa) => Encode(r) == [0, 25, 4, 0, 0, 0] + LE(isa, 4)
            case End => Encode(r) == [0, 255, 0, 0, 0, 0]
  {
    hide LE, EncodeAddresses, EncodeOther;
    match r
    case IcachePage(base, bytes) => FixedLayout(0, LE(base, 8) + bytes, 8 + PAGE); ThreeParts([0, 0, 8, 16, 0, 0], LE(base, 8), bytes, []);
    case IcacheVariable(start, bytes) => OpenLayout(11, LE(start, 8), bytes);
    case Logical2Physical(vp, pp) => FixedLayout(14, LE(vp, 8) + LE(pp, 8), 16); ThreeParts([0, 14, 16, 0, 0, 0], LE(vp, 8), LE(pp, 8), []);
    case CacheOnly(icount, kind, eip, address) =>
      FixedLayout(24, [icount, kind] + LE(eip, 8) + LE(address, 8), 18);
      ThreeParts([0, 24, 18, 0, 0, 0], [icount, kind], LE(eip, 8), LE(address, 8));
    case Output(fd, data) => OpenLayout(1, [fd], data);
    case RoutineChange(event, eip, esp, callEip) =>
      FixedLayout(17, [event] + LE(eip, 8) + LE(esp, 8) + LE(callEip, 8), 25);
      ThreeParts([0, 17, 25, 0, 0, 0] + [event], LE(eip, 8), LE(esp, 8), LE(callEip, 8));
      ThreeParts([0, 17, 25, 0, 0, 0], [event], LE(eip, 8) + LE(esp, 8) + LE(callEip, 8), []);
      ThreeParts([event], LE(eip, 8), LE(esp, 8), LE(callEip, 8));
    case IsaChange(isa) => FixedLayout(25, LE(isa, 4), 4);
    case End => FixedLayout(255, [], 0);
    case _ =>
  }

  lemma ThreeParts(head: seq<Byte>, a: seq<Byte>, b: seq<Byte>, c: seq<Byte>)
    ensures head + (a + b + c) == head + a + b + c
    ensures head + (a + b) == head + a + b
  {
  }

  /** A record of known size. */
  lemma FixedLayout(kind: Byte, payload: seq<Byte>, n: nat)
    requires |payload| == n < 0x1_0000
    ensures EncodeOther(kind, payload) == [0, kind, n % 256, n / 256, 0, 0] + payload
  {
    hide LE;
    SmallField(n);
  }

  lemma OpenLayout(kind: Byte, a: seq<Byte>, b: seq<Byte>)
    ensures EncodeOther(kind, a + b) == [0, kind] + LE(|a| + |b|, 4) + a + b
  {
    hide LE;
    ThreeParts([0, kind] + LE(|a| + |b|, 4), a, b, []);
  }

  lemma SmallField(v: nat)
    requires v < 0x1_0000
    ensures LE(v, 4) == [v % 256, v / 256, 0, 0]
  {
    assert LE(v, 4) == [v % 256] + LE(v / 256, 3);
    assert LE(v / 256, 3) == [v / 256] + LE(0, 2);
    assert LE(0, 2) == [0] + LE(0, 1);
    assert LE(0, 1) == [0] + LE(0, 0);
  }

  /** Parsing one record at the front of a stream.  `Exhausted` is a failed `peek`; `Garbled` means the
      stream stops inside a record, which the reader does not notice (it would use stale fields);
      `Violated` means one of the reader's asserts on the record size fails. */
  datatype Parsed = Exhausted | Garbled | Violated | Elsewhere(kind: Byte) | Ok(rec: Record, consumed: nat)

  /** The bounds that field widths put on a parsed record. */
  predicate Bounded(r: Record)
  {
    match r
    case Simple(size, _, _, _) => size <= 15
    case Extended(size, _, _, _, _, _, _) => size <= 15
    case IcachePage(_, bytes) => |bytes| == PAGE
    case IcacheVariable(_, bytes) => |bytes| < TWO32
    case _ => true
  }

  function Parse(bs: seq<Byte>): (p: Parsed)
    ensures p.Ok? ==> 1 <= p.consumed <= |bs| && Bounded(p.rec)
  {
    if bs == [] then Exhausted
    else if bs[0] == 0 then
      if |bs| < 6 then Garbled
      else
        var size := Get32(bs, 2);
        if |bs| < 6 + size then Garbled else ParseOther(bs[1], bs[6..6 + size])
    else if Field(bs[0], 1, 16) != 0 then ParseSimple(bs)
    else ParseExtended(bs)
  }

  function ParseSimple(bs: seq<Byte>): (p: Parsed)
    requires |bs| >= 1
    ensures p.Ok? ==> 1 <= p.consumed <= |bs| && p.rec.Simple? && p.rec.size <= 15
  {
    var n := Field(bs[0], 16, 4);
    if |bs| < 1 + 8 * n then Garbled
    else
      Ok(Simple(Field(bs[0], 1, 16), Field(bs[0], 64, 2) == 1, Field(bs[0], 128, 2) == 1, DecodeAddresses(bs[1..], n)),
         1 + 8 * n)
  }

  function ParseExtended(bs: seq<Byte>): (p: Parsed)
    requires |bs| >= 1
    ensures p.Ok? ==> 1 <= p.consumed <= |bs| && p.rec.Extended? && p.rec.size <= 15
  {
    if |bs| < 10 then Garbled
    else
      var n := Field(bs[1], 1, 4);
      if |bs| < 10 + 8 * n then Garbled
      else
        Ok(Extended(Field(bs[0], 16, 16), Field(bs[1], 4, 2) == 1, Field(bs[1], 8, 2) == 1, Field(bs[1], 16, 2) == 1,
                    Field(bs[1], 32, 2) == 1, Get64(bs, 2), DecodeAddresses(bs[10..], n)),
           10 + 8 * n)
  }

  function ParseOther(kind: Byte, d: seq<Byte>): (p: Parsed)
    ensures p.Ok? ==> p.consumed == 6 + |d| && !p.rec.Simple? && !p.rec.Extended?
    ensures p.Ok? && |d| < TWO32 ==> Bounded(p.rec)
  {
    var n := 6 + |d|;
    if kind == REC_ICACHE then
      if |d| != 8 + PAGE then Violated else Ok(IcachePage(Get64(d, 0), d[8..]), n)
    else if kind == REC_ICACHE_VARIABLE then
      if |d| < 8 then Garbled else Ok(IcacheVariable(Get64(d, 0), d[8..]), n)
    else if kind == REC_LOGICAL2PHYSICAL then
      if |d| != 16 then Violated else Ok(Logical2Physical(Get64(d, 0), Get64(d, 8)), n)
    else if kind == REC_CACHE_ONLY then
      if |d| != 18 then Violated else Ok(CacheOnly(d[0], d[1], Get64(d, 2), Get64(d, 10)), n)
    else if kind == REC_OUTPUT then
      if |d| <= 1 then Violated else Ok(Output(d[0], d[1..]), n)
    else if kind == REC_ROUTINE_CHANGE then
      if |d| != 25 then Violated else Ok(RoutineChange(d[0], Get64(d, 1), Get64(d, 9), Get64(d, 17)), n)
    else if kind == REC_ISA_CHANGE then
      if |d| != 4 then Violated else Ok(IsaChange(Get32(d, 0)), n)
    else if kind == REC_END then
      if |d| != 0 then Violated else Ok(End, n)
    else if kind in OTHER_HANDLED then Elsewhere(kind)
    else Ok(Skipped(kind, d), n)
  }

  lemma ParseEncodedOther(kind: Byte, payload: seq<Byte>, rest: seq<Byte>)
    requires |payload| < TWO32
    ensures Parse(EncodeOther(kind, payload) + rest) == ParseOther(kind, payload)
  {
    var bs := EncodeOther(kind, payload) + rest;
    assert bs == [0, kind] + LE(|payload|, 4) + (payload + rest);
    Get32At([0, kind], |payload|, payload + rest);
    assert bs[6..6 + |payload|] == payload;
  }

  lemma OnePayload64(v: Word64, rest: seq<Byte>)
    ensures Get64(LE(v, 8) + rest, 0) == v
    ensures (LE(v, 8) + rest)[8..] == rest
  {
    assert [] + LE(v, 8) + rest == LE(v, 8) + rest;
    Get64At([], v, rest);
  }

  /** Two 8-byte fields after a one- or two-byte prefix. */
  lemma TwoFields64(front: seq<Byte>, v: Word64, w: Word64, rest: seq<Byte>)
    ensures var d := front + LE(v, 8) + LE(w, 8) + rest;
            Get64(d, |front|) == v && Get64(d, |front| + 8) == w
  {
    hide LE, Get64;
    var d := front + LE(v, 8) + LE(w, 8) + rest;
    assert d == front + LE(v, 8) + (LE(w, 8) + rest);
    Get64At(front, v, LE(w, 8) + rest);
    Get64At(front + LE(v, 8), w, rest);
  }

  lemma ParseMapping(vp: Word64, pp: Word64)
    ensures ParseOther(REC_LOGICAL2PHYSICAL, LE(vp, 8) + LE(pp, 8)) == Ok(Logical2Physical(vp, pp), 22)
  {
    hide LE, Get64;
    TwoFields64([], vp, pp, []);
    assert [] + LE(vp, 8) + LE(pp, 8) + [] == LE(vp, 8) + LE(pp, 8);
  }

  lemma ParseCacheOnly(icount: Byte, kind: Byte, eip: Word64, address: Word64)
    ensures ParseOther(REC_CACHE_ONLY, [icount, kind] + LE(eip, 8) + LE(address, 8)) == Ok(CacheOnly(icount, kind, eip, address), 24)
  {
    hide LE, Get64;
    var d := [icount, kind] + LE(eip, 8) + LE(address, 8);
    TwoFields64([icount, kind], eip, address, []);
    assert d + [] == d;
  }

  lemma ParseRoutineChange(event: Byte, eip: Word64, esp: Word64, callEip: Word64)
    ensures ParseOther(REC_ROUTINE_CHANGE, [event] + LE(eip, 8) + LE(esp, 8) + LE(callEip, 8))
            == Ok(RoutineChange(event, eip, esp, callEip), 31)
  {
    hide LE, Get64;
    var d := [event] + LE(eip, 8) + LE(esp, 8) + LE(callEip, 8);
    TwoFields64([event], eip, esp, LE(callEip, 8));
    Get64At([event] + LE(eip, 8) + LE(esp, 8), callEip, []);
    assert d + [] == d;
  }

  lemma ParseIsaChange(isa: Word32)
    ensures ParseOther(REC_ISA_CHANGE, LE(isa, 4)) == Ok(IsaChange(isa), 10)
  {
    Get32At([], isa, []);
    assert [] + LE(isa, 4) + [] == LE(isa, 4);
  }

  lemma ParseEncodedPayload(r: Record)
    requires Encodable(r) && Readable(r) && !r.Simple? && !r.Extended?
    ensures var (kind, payload) := KindAndPayload(r); ParseOther(kind, payload) == Ok(r, 6 + |payload|)
  {
    match r
    case IcachePage(base, bytes) => OnePayload64(base, bytes);
    case IcacheVariable(start, bytes) => OnePayload64(start, bytes);
    case Logical2Physical(vp, pp) => ParseMapping(vp, pp);
    case CacheOnly(icount, kind, eip, address) => ParseCacheOnly(icount, kind, eip, address);
    case Output(fd, data) => assert ([fd] + data)[1..] == data;
    case RoutineChange(event, eip, esp, callEip) => ParseRoutineChange(event, eip, esp, callEip);
    case IsaChange(isa) => ParseIsaChange(isa);
    case End =>
  }

  lemma ParseEncodedSimple(size: nat, isBranch: bool, taken: bool, addresses: seq<Word64>, rest: seq<Byte>)
    requires 1 <= size <= 15 && |addresses| <= MAX_DYNAMIC_ADDRESSES
    ensures var e := EncodeSimple(size, isBranch, taken, addresses);
            && e[0] != 0 && Field(e[0], 1, 16) != 0
            && ParseSimple(e + rest) == Ok(Simple(size, isBranch, taken, addresses), |e|)
  {
    hide DecodeAddresses, EncodeAddresses;
    var bs := EncodeSimple(size, isBranch, taken, addresses) + rest;
    assert bs[0] == PackSimple(size, |addresses|, isBranch, taken);
    FieldsOfSimple(size, |addresses|, isBranch, taken);
    assert bs[1..] == EncodeAddresses(addresses) + rest;
    AddressesRoundTrip(addresses, rest);
  }

  lemma ParseEncodedExtended(size: nat, flags: Byte, addr: Word64, addresses: seq<Word64>, rest: seq<Byte>)
    requires 1 <= size <= 15 && Field(flags, 1, 4) == |addresses| <= MAX_DYNAMIC_ADDRESSES
    ensures var e := EncodeExtended(size, flags, addr, addresses);
            && e[0] != 0 && Field(e[0], 1, 16) == 0
            && ParseExtended(e + rest) ==
               Ok(Extended(size, Field(flags, 4, 2) == 1, Field(flags, 8, 2) == 1, Field(flags, 16, 2) == 1,
                           Field(flags, 32, 2) == 1, addr, addresses), |e|)
  {
    hide LE, Get64, DecodeAddresses, EncodeAddresses;
    var bs := EncodeExtended(size, flags, addr, addresses) + rest;
    var tail := EncodeAddresses(addresses) + rest;
    assert bs == [16 * size, flags] + LE(addr, 8) + tail;
    Get64At([16 * size, flags], addr, tail);
    assert bs[10..] == tail;
    AddressesRoundTrip(addresses, rest);
  }

  /** Every readable record is recovered, with exactly its own bytes consumed, whatever follows it. */
  lemma ParseReadable(r: Record, rest: seq<Byte>)
    requires Encodable(r) && Readable(r)
    ensures Parse(Encode(r) + rest) == Ok(r, |Encode(r)|)
  {
    if r.Simple? {
      ParseEncodedSimple(r.size, r.isBranch, r.taken, r.addresses, rest);
    } else if r.Extended? {
      var flags := PackFlags(|r.addresses|, r.isBranch, r.taken, r.isPredicate, r.executed);
      FieldsOfFlags(|r.addresses|, r.isBranch, r.taken, r.isPredicate, r.executed);
      ParseEncodedExtended(r.size, flags, r.addr, r.addresses, rest);
    } else {
      ParseEncodedPayload(r);
      var (kind, payload) := KindAndPayload(r);
      ParseEncodedOther(kind, payload, rest);
    }
  }

  lemma ParseUnreadable(r: Record, rest: seq<Byte>)
    requires Encodable(r) && !Readable(r)
    ensures Parse(Encode(r) + rest) != Ok(r, |Encode(r)|)
  {
    if r.Simple? {
      FieldsOfSimple(r.size, |r.addresses|, r.isBranch, r.taken);
      assert (Encode(r) + rest)[0] == PackSimple(r.size, |r.addresses|, r.isBranch, r.taken);
    } else if r.Extended? {
      assert (Encode(r) + rest)[0] == 0;
    } else {
      LostOutput(r.fd, r.data, rest);
    }
  }

  /** Output without data, or with so much that the size field wraps to 0, fails the reader's assert. */
  lemma LostOutput(fd: Byte, data: seq<Byte>, rest: seq<Byte>)
    requires |data| == 0 || |data| == TWO32 - 1
    ensures Parse(EncodeOther(REC_OUTPUT, [fd] + data) + rest) == Violated
  {
    hide LE, FromLE;
    var payload := [fd] + data;
    var bs := EncodeOther(REC_OUTPUT, payload) + rest;
    assert bs == [0, REC_OUTPUT] + LE(|payload|, 4) + (payload + rest);
    assert bs[2..6] == LE(|payload|, 4);
    Pow256Values();
    FromLEWraps(|payload|, 4);
  }

  /** A record survives the trip through the stream exactly when it is readable. */
  lemma ParseEncode(r: Record, rest: seq<Byte>)
    requires Encodable(r)
    ensures Parse(Encode(r) + rest) == Ok(r, |Encode(r)|) <==> Readable(r)
  {
    if Readable(r) {
      ParseReadable(r, rest);
    } else {
      ParseUnreadable(r, rest);
    }
  }

  // ---------------------------------------------------------------- record sequences

  type Wire = r: Record | Encodable(r) witness End

  /** The pieces f(x) of a sequence, one after the other. */
  function Flat<T>(f: T -> seq<Byte>, xs: seq<T>): (bs: seq<Byte>)
  {
    if xs == [] then [] else f(xs[0]) + Flat(f, xs[1..])
  }

  lemma {:induction false} FlatConcat<T>(f: T -> seq<Byte>, xs: seq<T>, ys: seq<T>)
    ensures Flat(f, xs + ys) == Flat(f, xs) + Flat(f, ys)
  {
    if xs == [] {
      assert xs + ys == ys;
    } else {
      var head, tail := f(xs[0]), Flat(f, xs[1..]);
      assert (xs + ys)[0] == xs[0] && (xs + ys)[1..] == xs[1..] + ys;
      FlatConcat(f, xs[1..], ys);
      assert head + (tail + Flat(f, ys)) == (head + tail) + Flat(f, ys);
    }
  }

  lemma FlatSnoc<T>(f: T -> seq<Byte>, xs: seq<T>, x: T)
    ensures Flat(f, xs + [x]) == Flat(f, xs) + f(x)
  {
    FlatConcat(f, xs, [x]);
    assert [x][1..] == [];
    assert Flat(f, [x]) == f(x) + Flat(f, []);
  }

  function EncodeAll(rs: seq<Wire>): (bs: seq<Byte>)
  {
    Flat(EncodeWire, rs)
  }

  function EncodeWire(r: Wire): (bs: seq<Byte>)
  {
    Encode(r)
  }

  lemma EncodeAllConcat(rs: seq<Wire>, ts: seq<Wire>)
    ensures EncodeAll(rs + ts) == EncodeAll(rs) + EncodeAll(ts)
  {
    FlatConcat<Wire>(EncodeWire, rs, ts);
  }
}
