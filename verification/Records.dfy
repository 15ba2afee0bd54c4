/** One transfer as the Cache stores it: a 120-byte payload and its CRC32C. */
module Records {
  import opened Wrappers
  import opened Bytes
  import opened History
  import opened Merkle

  const PAYLOAD_SIZE: nat := 120
  const STRIDE: nat := 124
  const MAX_UINT64: int := 0xffff_ffff_ffff_ffff

  type uint64 = x: int | 0 <= x <= 0xffff_ffff_ffff_ffff
  type int64 = x: int | -0x8000_0000_0000_0000 <= x <= 0x7fff_ffff_ffff_ffff

  type Checksum = s: seq<byte> | |s| == 4 witness [0, 0, 0, 0]

  /** CRC32C, of which nothing is known but that it is a function: no claim is made of what damage it
      tells apart. */
  type Crc = seq<byte> -> Checksum

  datatype Record = Record(
    blockNumber: uint64, blockHash: Hash, timestamp: int64, from: Address, to: Address, value: Option<int>)

  datatype ValueError = NilValue | NegativeValue | WideValue

  predicate Storable(r: Record) {
    FitsUint256(r.value)
  }

  function BadValue(r: Record): Option<ValueError> {
    if r.value.None? then Some(NilValue)
    else if r.value.value < 0 then Some(NegativeValue)
    else if r.value.value >= Span(WORD_SIZE) then Some(WideValue)
    else None
  }

  /** What is wrong with a value that is not a uint256. */
  ghost predicate BadlyValued(r: Record, e: ValueError) {
    match e
    case NilValue => r.value == None
    case NegativeValue => r.value.Some? && r.value.value < 0
    case WideValue => r.value.Some? && r.value.value >= Span(32)
  }

  lemma BadValueIs(r: Record)
    ensures if BadValue(r).Some? then BadlyValued(r, BadValue(r).value) else Storable(r)
  {
  }

  /** Go's uint64(x): two's complement. */
  function Unsigned(x: int64): uint64 {
    if x < 0 then x + 0x1_0000_0000_0000_0000 else x
  }

  function Signed(x: uint64): int64 {
    if x > 0x7fff_ffff_ffff_ffff then x - 0x1_0000_0000_0000_0000 else x
  }

  function Payload(r: Record): (p: seq<byte>)
    requires Storable(r)
    ensures |p| == PAYLOAD_SIZE
  {
    ToBytes(r.blockNumber, 8) + r.blockHash + ToBytes(Unsigned(r.timestamp), 8)
    + ToBytes(r.from, ADDRESS_SIZE) + ToBytes(r.to, ADDRESS_SIZE) + ToBytes(r.value.value, WORD_SIZE)
  }

  function Stored(crc: Crc, r: Record): (s: seq<byte>)
    requires Storable(r)
    ensures |s| == STRIDE
  {
    Payload(r) + crc(Payload(r))
  }

  lemma Widths()
    ensures Span(8) == MAX_UINT64 + 1
    ensures Span(ADDRESS_SIZE) == 0x1_0000000000_0000000000_0000000000_0000000000
  {
    AddressFits(0);
    assert Span(4) == 0x1_0000_0000;
  }

  /** Bytes of an address name one. */
  function AddressOf(s: seq<byte>): Address
    requires |s| == ADDRESS_SIZE
  {
    BytesRoundTrip(s);
    Widths();
    FromBytes(s)
  }

  function Uint64Of(s: seq<byte>): uint64
    requires |s| == 8
  {
    BytesRoundTrip(s);
    Widths();
    FromBytes(s)
  }

  /** Reads a stride back, its checksum first. */
  function Decode(crc: Crc, buf: seq<byte>): Option<Record>
    requires |buf| == STRIDE
  {
    if crc(buf[..PAYLOAD_SIZE]) != buf[PAYLOAD_SIZE..] then None
    else Some(Record(
      Uint64Of(buf[0..8]), buf[8..40], Signed(Uint64Of(buf[40..48])),
      AddressOf(buf[48..68]), AddressOf(buf[68..88]), Some(FromBytes(buf[88..120]))))
  }

  lemma PayloadFields(r: Record)
    requires Storable(r)
    ensures
      var p := Payload(r);
      && p[0..8] == ToBytes(r.blockNumber, 8) && p[8..40] == r.blockHash
      && p[40..48] == ToBytes(Unsigned(r.timestamp), 8)
      && p[48..68] == ToBytes(r.from, ADDRESS_SIZE) && p[68..88] == ToBytes(r.to, ADDRESS_SIZE)
      && p[88..120] == ToBytes(r.value.value, WORD_SIZE)
  {
  }

  /** Where in a stride each field of a record is, big-endian, and the checksum of them after them. */
  lemma StrideLayout(crc: Crc, r: Record)
    requires Storable(r)
    ensures
      var s := Stored(crc, r);
      && FromBytes(s[0..8]) == r.blockNumber && s[8..40] == r.blockHash
      && (FromBytes(s[40..48]) - r.timestamp) % 0x1_0000_0000_0000_0000 == 0
      && FromBytes(s[48..68]) == r.from && FromBytes(s[68..88]) == r.to
      && Some(FromBytes(s[88..120])) == r.value && s[120..124] == crc(s[..120])
  {
    StoredFields(crc, r);
    Widths();
    Congruent(r.timestamp);
    hide ToBytes, FromBytes, Payload, Stored, Unsigned, Span;
    NumberRoundTrip(r.blockNumber, 8);
    NumberRoundTrip(Unsigned(r.timestamp), 8);
    NumberRoundTrip(r.from, ADDRESS_SIZE);
    NumberRoundTrip(r.to, ADDRESS_SIZE);
    NumberRoundTrip(r.value.value, WORD_SIZE);
  }

  lemma Congruent(x: int64)
    ensures (Unsigned(x) - x) % 0x1_0000_0000_0000_0000 == 0
  {
  }

  lemma StoredFields(crc: Crc, r: Record)
    requires Storable(r)
    ensures
      var s := Stored(crc, r);
      && s[0..8] == ToBytes(r.blockNumber, 8) && s[8..40] == r.blockHash
      && s[40..48] == ToBytes(Unsigned(r.timestamp), 8)
      && s[48..68] == ToBytes(r.from, ADDRESS_SIZE) && s[68..88] == ToBytes(r.to, ADDRESS_SIZE)
      && s[88..120] == ToBytes(r.value.value, WORD_SIZE) && s[120..124] == crc(s[..120])
  {
    PayloadFields(r);
    hide ToBytes, Payload, Unsigned;
    var p, s := Payload(r), Stored(crc, r);
    assert s[..120] == p && s[120..124] == crc(p);
    assert s[0..8] == p[0..8] && s[8..40] == p[8..40] && s[40..48] == p[40..48];
    assert s[48..68] == p[48..68] && s[68..88] == p[68..88] && s[88..120] == p[88..120];
  }

  /** A stored record reads back as itself. */
  lemma RecordRoundTrip(crc: Crc, r: Record)
    requires Storable(r)
    ensures Decode(crc, Stored(crc, r)) == Some(r)
  {
    var s, p := Stored(crc, r), Payload(r);
    assert s[..PAYLOAD_SIZE] == p && s[PAYLOAD_SIZE..] == crc(p);
    PayloadFields(r);
    assert s[0..8] == p[0..8] && s[8..40] == p[8..40] && s[40..48] == p[40..48];
    assert s[48..68] == p[48..68] && s[68..88] == p[68..88] && s[88..120] == p[88..120];
    FieldsRoundTrip(r);
  }

  lemma FieldsRoundTrip(r: Record)
    requires Storable(r)
    ensures Uint64Of(ToBytes(r.blockNumber, 8)) == r.blockNumber
    ensures Signed(Uint64Of(ToBytes(Unsigned(r.timestamp), 8))) == r.timestamp
    ensures AddressOf(ToBytes(r.from, ADDRESS_SIZE)) == r.from
    ensures AddressOf(ToBytes(r.to, ADDRESS_SIZE)) == r.to
    ensures FromBytes(ToBytes(r.value.value, WORD_SIZE)) == r.value.value
  {
    Widths();
    NumberRoundTrip(r.blockNumber, 8);
    NumberRoundTrip(Unsigned(r.timestamp), 8);
    NumberRoundTrip(r.from, ADDRESS_SIZE);
    NumberRoundTrip(r.to, ADDRESS_SIZE);
    NumberRoundTrip(r.value.value, WORD_SIZE);
  }

  /** Whatever decodes is the stored form of what it decodes to: no byte of a stride is ignored. */
  lemma DecodedIsStored(crc: Crc, buf: seq<byte>)
    requires |buf| == STRIDE && Decode(crc, buf).Some?
    ensures Storable(Decode(crc, buf).value) && Stored(crc, Decode(crc, buf).value) == buf
  {
    var r := Decode(crc, buf).value;
    PiecesRoundTrip(buf);
    assert Unsigned(Signed(Uint64Of(buf[40..48]))) == Uint64Of(buf[40..48]);
    SixPieces(buf[..PAYLOAD_SIZE], Payload(r), buf);
    assert buf == buf[..PAYLOAD_SIZE] + buf[PAYLOAD_SIZE..];
  }

  lemma PiecesRoundTrip(buf: seq<byte>)
    requires |buf| == STRIDE
    ensures ToBytes(FromBytes(buf[0..8]), 8) == buf[0..8] && ToBytes(FromBytes(buf[40..48]), 8) == buf[40..48]
    ensures ToBytes(FromBytes(buf[48..68]), ADDRESS_SIZE) == buf[48..68]
    ensures ToBytes(FromBytes(buf[68..88]), ADDRESS_SIZE) == buf[68..88]
    ensures ToBytes(FromBytes(buf[88..120]), WORD_SIZE) == buf[88..120]
    ensures FromBytes(buf[88..120]) < Span(WORD_SIZE)
  {
    BytesRoundTrip(buf[0..8]);
    BytesRoundTrip(buf[40..48]);
    BytesRoundTrip(buf[48..68]);
    BytesRoundTrip(buf[68..88]);
    BytesRoundTrip(buf[88..120]);
  }

  lemma SixPieces(p: seq<byte>, q: seq<byte>, buf: seq<byte>)
    requires |buf| == STRIDE && p == buf[..PAYLOAD_SIZE]
    requires q == buf[0..8] + buf[8..40] + buf[40..48] + buf[48..68] + buf[68..88] + buf[88..120]
    ensures p == q
  {
  }

  // ------------------------------------------------------------------ a log of records

  /** The stored records, one stride after another. */
  function Log(crc: Crc, rs: seq<Record>): (s: seq<byte>)
    requires AllStorable(rs)
    ensures |s| == STRIDE * |rs|
  {
    if rs == [] then [] else Log(crc, rs[..|rs| - 1]) + Stored(crc, rs[|rs| - 1])
  }

  lemma {:induction false} LogAppend(crc: Crc, rs: seq<Record>, ts: seq<Record>)
    requires AllStorable(rs + ts)
    ensures AllStorable(rs) && AllStorable(ts)
    ensures Log(crc, rs + ts) == Log(crc, rs) + Log(crc, ts)
  {
    PartsStorable(rs, ts);
    hide Stored, AllStorable;
    if ts == [] {
      assert rs + ts == rs;
    } else {
      var init, last := ts[..|ts| - 1], ts[|ts| - 1];
      assert (rs + ts)[..|rs + ts| - 1] == rs + init;
      assert ts == init + [last];
      PartsStorable(rs + init, [last]);
      PartsStorable(init, [last]);
      assert (rs + init) + [last] == rs + ts;
      LogAppend(crc, rs, init);
      AddLast(Log(crc, rs), Log(crc, init), Stored(crc, last));
    }
  }

  lemma PartsStorable(rs: seq<Record>, ts: seq<Record>)
    requires AllStorable(rs + ts)
    ensures AllStorable(rs) && AllStorable(ts)
  {
    assert forall r :: r in rs ==> r in rs + ts;
    assert forall r :: r in ts ==> r in rs + ts;
  }

  lemma AddLast(a: seq<byte>, b: seq<byte>, c: seq<byte>)
    ensures a + (b + c) == a + b + c
  {
  }

  ghost predicate AllStorable(rs: seq<Record>) {
    forall r :: r in rs ==> Storable(r)
  }

  lemma SliceStorable(rs: seq<Record>, lo: nat, hi: nat)
    requires lo <= hi <= |rs| && AllStorable(rs)
    ensures AllStorable(rs[lo..hi])
  {
    forall r | r in rs[lo..hi] ensures Storable(r) {
      assert r in rs;
    }
  }

  lemma LogPrefix(crc: Crc, rs: seq<Record>, k: nat)
    requires k <= |rs| && AllStorable(rs)
    ensures AllStorable(rs[..k])
    ensures Log(crc, rs)[..STRIDE * k] == Log(crc, rs[..k])
  {
    var head, tail := rs[..k], rs[k..];
    SliceStorable(rs, 0, k);
    SliceStorable(rs, k, |rs|);
    assert rs == head + tail;
    LogAppend(crc, head, tail);
    FirstPart(Log(crc, head), Log(crc, tail));
  }

  lemma FirstPart(a: seq<byte>, b: seq<byte>)
    ensures (a + b)[..|a|] == a
  {
  }

  /** The i-th stride of a log is the i-th record. */
  lemma LogAt(crc: Crc, rs: seq<Record>, i: nat)
    requires i < |rs| && AllStorable(rs)
    ensures STRIDE * i + STRIDE <= |Log(crc, rs)|
    ensures Log(crc, rs)[STRIDE * i..STRIDE * i + STRIDE] == Stored(crc, rs[i])
    ensures Decode(crc, Log(crc, rs)[STRIDE * i..STRIDE * i + STRIDE]) == Some(rs[i])
  {
    LogPrefix(crc, rs, i + 1);
    var head := rs[..i + 1];
    assert head[..i] == rs[..i] && head[i] == rs[i];
    var whole := Log(crc, rs);
    assert whole[..STRIDE * i + STRIDE] == Log(crc, head);
    assert Log(crc, head) == Log(crc, head[..i]) + Stored(crc, rs[i]);
    assert Log(crc, head)[STRIDE * i..] == Stored(crc, rs[i]);
    assert whole[STRIDE * i..STRIDE * i + STRIDE] == whole[..STRIDE * i + STRIDE][STRIDE * i..];
    RecordRoundTrip(crc, rs[i]);
  }

  // ------------------------------------------------------------------ writing in place

  /** Go's copy into buf at at. */
  method Put(buf: array<byte>, at: nat, bytes: seq<byte>)
    requires at + |bytes| <= buf.Length
    modifies buf
    ensures buf[..at + |bytes|] == old(buf[..at]) + bytes
    ensures buf[at + |bytes|..] == old(buf[at + |bytes|..])
  {
    forall i | 0 <= i < |bytes| {
      buf[at + i] := bytes[i];
    }
  }

  /** Writes the payload and its checksum into the stride of buf that starts at at. */
  method Encode(crc: Crc, r: Record, buf: array<byte>, at: nat) returns (e: Option<ValueError>)
    requires at + STRIDE <= buf.Length
    modifies buf
    ensures e == BadValue(r)
    ensures e.Some? ==> buf[..] == old(buf[..])
    ensures e.None? ==> Storable(r) && buf[..at + STRIDE] == old(buf[..at]) + Stored(crc, r)
    ensures e.None? ==> buf[at + STRIDE..] == old(buf[at + STRIDE..])
  {
    e := BadValue(r);
    if e.Some? {
      return;
    }
    hide ToBytes, Span, FitsUint256;
    ghost var rest := buf[at + STRIDE..];
    PutPayload(r, buf, at);
    hide Payload;
    Put(buf, at + PAYLOAD_SIZE, crc(buf[at..at + PAYLOAD_SIZE]));
    AddLast(old(buf[..at]), Payload(r), crc(Payload(r)));
  }

  method PutPayload(r: Record, buf: array<byte>, at: nat)
    requires at + STRIDE <= buf.Length && Storable(r)
    modifies buf
    ensures buf[..at + PAYLOAD_SIZE] == old(buf[..at]) + Payload(r)
    ensures buf[at..at + PAYLOAD_SIZE] == Payload(r)
    ensures buf[at + STRIDE..] == old(buf[at + STRIDE..])
  {
    PayloadParts(r);
    hide Payload, Head, Tail, Storable;
    ghost var before := buf[..at];
    PutHead(r, buf, at);
    PutTail(r, buf, at);
    AddLast(before, Head(r), Tail(r));
    LastPart(before, Payload(r));
    assert buf[at..at + PAYLOAD_SIZE] == buf[..at + PAYLOAD_SIZE][at..];
  }

  lemma LastPart(a: seq<byte>, b: seq<byte>)
    ensures (a + b)[|a|..] == b
  {
  }

  function Head(r: Record): (s: seq<byte>)
    ensures |s| == 48
  {
    ToBytes(r.blockNumber, 8) + r.blockHash + ToBytes(Unsigned(r.timestamp), 8)
  }

  function Tail(r: Record): (s: seq<byte>)
    requires Storable(r)
    ensures |s| == 72
  {
    ToBytes(r.from, ADDRESS_SIZE) + ToBytes(r.to, ADDRESS_SIZE) + ToBytes(r.value.value, WORD_SIZE)
  }

  lemma PayloadParts(r: Record)
    requires Storable(r)
    ensures Payload(r) == Head(r) + Tail(r)
  {
    hide ToBytes;
  }

  method PutHead(r: Record, buf: array<byte>, at: nat)
    requires at + STRIDE <= buf.Length
    modifies buf
    ensures buf[..at + 48] == old(buf[..at]) + Head(r)
    ensures buf[at + STRIDE..] == old(buf[at + STRIDE..])
  {
    ghost var rest := buf[at + STRIDE..];
    Put(buf, at, ToBytes(r.blockNumber, 8));
    assert buf[at + STRIDE..] == buf[at + 8..][STRIDE - 8..] == rest;
    Put(buf, at + 8, r.blockHash);
    assert buf[at + STRIDE..] == buf[at + 40..][STRIDE - 40..] == rest;
    Put(buf, at + 40, ToBytes(Unsigned(r.timestamp), 8));
    assert buf[at + STRIDE..] == buf[at + 48..][STRIDE - 48..] == rest;
  }

  method PutTail(r: Record, buf: array<byte>, at: nat)
    requires at + STRIDE <= buf.Length && Storable(r)
    modifies buf
    ensures buf[..at + PAYLOAD_SIZE] == old(buf[..at + 48]) + Tail(r)
    ensures buf[at + STRIDE..] == old(buf[at + STRIDE..])
  {
    ghost var rest := buf[at + STRIDE..];
    Put(buf, at + 48, ToBytes(r.from, ADDRESS_SIZE));
    assert buf[at + STRIDE..] == buf[at + 68..][STRIDE - 68..] == rest;
    Put(buf, at + 68, ToBytes(r.to, ADDRESS_SIZE));
    assert buf[at + STRIDE..] == buf[at + 88..][STRIDE - 88..] == rest;
    Put(buf, at + 88, ToBytes(r.value.value, WORD_SIZE));
    assert buf[at + STRIDE..] == buf[at + 120..][STRIDE - 120..] == rest;
  }
}
