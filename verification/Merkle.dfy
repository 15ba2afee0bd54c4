/** The Distributor's leaf: abi.encode(uint256 id, address account, uint256[5] amounts). */
module Merkle {
  import opened Wrappers
  import opened Bytes
  import opened History

  const AMOUNT_COUNT: nat := 5
  const WORD_SIZE: nat := 32
  const LEAF_WORDS: nat := 2 + AMOUNT_COUNT
  const LEAF_SIZE: nat := LEAF_WORDS * WORD_SIZE
  const ADDRESS_SIZE: nat := 20

  type Hash = h: seq<byte> | |h| == 32 witness seq(32, _ => 0)

  /** keccak-256, of which nothing is known but that it is a function. */
  type Keccak = seq<byte> -> Hash

  /** None is Go's nil. */
  type Amounts = a: seq<Option<int>> | |a| == 5 witness seq(5, _ => None)

  datatype Claim = Claim(id: Option<int>, account: Address, amounts: Amounts)

  datatype EncodeError = NilAmount | NegativeAmount | TooWide

  predicate FitsUint256(x: Option<int>) {
    x.Some? && 0 <= x.value < Span(WORD_SIZE)
  }

  ghost predicate Encodable(c: Claim) {
    FitsUint256(c.id) && forall i :: 0 <= i < AMOUNT_COUNT ==> FitsUint256(c.amounts[i])
  }

  /** The seven numbers a claim is encoded as. */
  function Numbers(c: Claim): (r: seq<nat>)
    requires Encodable(c)
    ensures |r| == LEAF_WORDS
  {
    [c.id.value, c.account] + seq(AMOUNT_COUNT, i requires 0 <= i < AMOUNT_COUNT => c.amounts[i].value)
  }

  /** Static ABI words, big-endian. */
  function Encoded(c: Claim): (r: seq<byte>)
    requires Encodable(c)
    ensures |r| == LEAF_SIZE
  {
    Words(Numbers(c), WORD_SIZE)
  }

  /** Word by word a claim is the id, the account and the five amounts, each a big-endian number. */
  lemma EncodedWords(c: Claim)
    requires Encodable(c)
    ensures
      var e := Encoded(c);
      && Some(FromBytes(e[0..32])) == c.id && FromBytes(e[32..64]) == c.account
      && Some(FromBytes(e[64..96])) == c.amounts[0] && Some(FromBytes(e[96..128])) == c.amounts[1]
      && Some(FromBytes(e[128..160])) == c.amounts[2] && Some(FromBytes(e[160..192])) == c.amounts[3]
      && Some(FromBytes(e[192..224])) == c.amounts[4]
  {
    forall i | 0 <= i < LEAF_WORDS ensures FromBytes(Encoded(c)[32 * i..32 * i + 32]) == Numbers(c)[i] {
      WordsReadBack(c, i);
    }
    NumbersAre(c);
    hide *;
    assert forall i :: 0 <= i < 7 ==> FromBytes(Encoded(c)[32 * i..32 * i + 32]) == Numbers(c)[i];
    assert FromBytes(Encoded(c)[32 * 0..32 * 0 + 32]) == Numbers(c)[0];
    assert FromBytes(Encoded(c)[32 * 1..32 * 1 + 32]) == Numbers(c)[1];
    assert FromBytes(Encoded(c)[32 * 2..32 * 2 + 32]) == Numbers(c)[2];
    assert FromBytes(Encoded(c)[32 * 3..32 * 3 + 32]) == Numbers(c)[3];
    assert FromBytes(Encoded(c)[32 * 4..32 * 4 + 32]) == Numbers(c)[4];
    assert FromBytes(Encoded(c)[32 * 5..32 * 5 + 32]) == Numbers(c)[5];
    assert FromBytes(Encoded(c)[32 * 6..32 * 6 + 32]) == Numbers(c)[6];
  }

  lemma NumbersAre(c: Claim)
    requires Encodable(c)
    ensures c.id == Some(Numbers(c)[0]) && c.account == Numbers(c)[1]
    ensures forall t :: 0 <= t < 5 ==> c.amounts[t] == Some(Numbers(c)[2 + t])
  {
    assert FitsUint256(c.id);
    forall t | 0 <= t < 5 ensures c.amounts[t] == Some(Numbers(c)[2 + t]) {
      assert FitsUint256(c.amounts[t]);
    }
  }

  lemma WordsReadBack(c: Claim, i: nat)
    requires Encodable(c) && i < LEAF_WORDS
    ensures WORD_SIZE * i + WORD_SIZE <= LEAF_SIZE
    ensures FromBytes(Encoded(c)[WORD_SIZE * i..WORD_SIZE * i + WORD_SIZE]) == Numbers(c)[i]
  {
    WordAt(Numbers(c), WORD_SIZE, i);
    NumberFits(c, i);
    NumberRoundTrip(Numbers(c)[i], WORD_SIZE);
  }

  /** Two claims with one encoding are one claim. */
  lemma EncodingInjective(c: Claim, d: Claim)
    requires Encodable(c) && Encodable(d) && Encoded(c) == Encoded(d)
    ensures c == d
  {
    hide ToBytes, Words, Span;
    forall i | 0 <= i < LEAF_WORDS ensures Numbers(c)[i] == Numbers(d)[i] {
      NumberFits(c, i);
      NumberFits(d, i);
      WordAt(Numbers(c), WORD_SIZE, i);
      WordAt(Numbers(d), WORD_SIZE, i);
      NumberRoundTrip(Numbers(c)[i], WORD_SIZE);
      NumberRoundTrip(Numbers(d)[i], WORD_SIZE);
    }
    assert c.id.value == Numbers(c)[0] && d.id.value == Numbers(d)[0];
    assert c.account == Numbers(c)[1] && d.account == Numbers(d)[1];
    forall i | 0 <= i < AMOUNT_COUNT ensures c.amounts[i] == d.amounts[i] {
      assert c.amounts[i].value == Numbers(c)[2 + i] && d.amounts[i].value == Numbers(d)[2 + i];
    }
    assert c.amounts == d.amounts;
  }

  lemma AddressFits(a: Address)
    ensures a < Span(ADDRESS_SIZE) == 0x1_0000000000_0000000000_0000000000_0000000000
    ensures a < Span(WORD_SIZE)
  {
    assert Span(4) == 0x1_0000_0000;
    assert Span(8) == 0x1_0000_0000_0000_0000;
    assert Span(12) == 0x1_0000_0000_0000_0000_0000_0000;
    assert Span(16) == 0x1_0000_0000_0000_0000_0000_0000_0000_0000;
    assert Span(20) == 0x1_0000_0000_0000_0000_0000_0000_0000_0000_0000_0000;
    assert Span(24) >= Span(20);
    assert Span(28) >= Span(24);
  }

  lemma NumberFits(c: Claim, i: nat)
    requires Encodable(c) && i < LEAF_WORDS
    ensures Numbers(c)[i] < Span(WORD_SIZE)
  {
    AddressFits(c.account);
    if i >= 2 {
      assert FitsUint256(c.amounts[i - 2]);
    }
  }

  /** An address right-aligned in a zeroed word is its number as a word. */
  lemma {:induction false} LeadingZeros(x: nat, n: nat, m: nat)
    requires n <= m && x < Span(n)
    ensures ToBytes(x, m) == seq(m - n, _ => 0) + ToBytes(x, n)
  {
    if n == 0 {
      AllZeros(m);
      assert x == 0;
    } else {
      LeadingZeros(x / 256, n - 1, m - 1);
    }
  }

  lemma {:induction false} AllZeros(m: nat)
    ensures ToBytes(0, m) == seq(m, _ => 0)
  {
    if m > 0 {
      AllZeros(m - 1);
    }
  }

  function WordError(x: Option<int>): Option<EncodeError> {
    match x
    case None => Some(NilAmount)
    case Some(v) => if v < 0 then Some(NegativeAmount) else if v >= Span(WORD_SIZE) then Some(TooWide) else None
  }

  /** Writes x big-endian into the word of out that starts at at. */
  method PutUint256(out: array<byte>, at: nat, x: Option<int>) returns (e: Option<EncodeError>)
    requires at + WORD_SIZE <= out.Length
    modifies out
    ensures e == WordError(x)
    ensures e.None? ==> out[at..at + WORD_SIZE] == ToBytes(x.value, WORD_SIZE)
    ensures e.Some? ==> out[..] == old(out[..])
    ensures out[..at] == old(out[..at]) && out[at + WORD_SIZE..] == old(out[at + WORD_SIZE..])
    ensures forall k :: at + WORD_SIZE <= k < out.Length ==> out[k] == old(out[k])
  {
    e := WordError(x);
    if e.None? {
      FillBytes(out, at, WORD_SIZE, x.value);
    }
  }

  /** big.Int's FillBytes. */
  method FillBytes(out: array<byte>, at: nat, n: nat, x: nat)
    requires at + n <= out.Length
    modifies out
    ensures out[at..at + n] == ToBytes(x, n)
    ensures out[..at] == old(out[..at]) && out[at + n..] == old(out[at + n..])
    ensures forall k :: at + n <= k < out.Length ==> out[k] == old(out[k])
  {
    var word := ToBytes(x, n);
    forall i | 0 <= i < n {
      out[at + i] := word[i];
    }
  }

  /** The first thing wrong with a claim's numbers, by word: 0 for the id, 2 + i for amount i. */
  function ClaimError(c: Claim): Option<(nat, EncodeError)> {
    if WordError(c.id).Some? then Some((0, WordError(c.id).value)) else AmountError(c, 0)
  }

  function AmountError(c: Claim, i: nat): Option<(nat, EncodeError)>
    requires i <= AMOUNT_COUNT
    decreases AMOUNT_COUNT - i
  {
    if i == AMOUNT_COUNT then None
    else if WordError(c.amounts[i]).Some? then Some((2 + i, WordError(c.amounts[i]).value))
    else AmountError(c, i + 1)
  }

  lemma {:induction false} NoAmountError(c: Claim, i: nat)
    requires i <= AMOUNT_COUNT
    ensures AmountError(c, i).None? <==> forall k :: i <= k < AMOUNT_COUNT ==> FitsUint256(c.amounts[k])
    decreases AMOUNT_COUNT - i
  {
    if i < AMOUNT_COUNT {
      NoAmountError(c, i + 1);
    }
  }

  /** What is wrong with a number, if it does not fit a uint256. */
  ghost predicate Wrong(x: Option<int>, e: EncodeError) {
    match e
    case NilAmount => x == None
    case NegativeAmount => x.Some? && x.value < 0
    case TooWide => x.Some? && x.value >= Span(32)
  }

  /** The number a claim's word holds: the id in word 0, and amount i in word 2 + i. */
  function WordOf(c: Claim, word: nat): Option<int>
    requires word != 1 && word < 7
  {
    if word == 0 then c.id else c.amounts[word - 2]
  }

  /** Encoding fails exactly when some number does not fit a uint256, and for the first that does not. */
  lemma ErrorIffNotEncodable(c: Claim)
    ensures ClaimError(c).None? <==> Encodable(c)
    ensures ClaimError(c).Some? ==>
      var (word, e) := ClaimError(c).value;
      && word != 1 && word < 7 && Wrong(WordOf(c, word), e)
      && forall k: nat :: k < word && k != 1 ==> FitsUint256(WordOf(c, k))
  {
    NoError(c);
    AmountErrorIs(c, 0);
  }

  lemma NoError(c: Claim)
    ensures ClaimError(c).None? <==> Encodable(c)
  {
    NoAmountError(c, 0);
  }

  lemma {:induction false} AmountErrorIs(c: Claim, i: nat)
    requires i <= AMOUNT_COUNT
    ensures AmountError(c, i).Some? ==>
      var (word, e) := AmountError(c, i).value;
      && 2 + i <= word < 7 && Wrong(c.amounts[word - 2], e)
      && forall k :: i <= k < word - 2 ==> FitsUint256(c.amounts[k])
    decreases AMOUNT_COUNT - i
  {
    if i < AMOUNT_COUNT {
      AmountErrorIs(c, i + 1);
    }
  }

  /** Copies an address right-aligned into the second word, which holds zeros. */
  method PutAccount(out: array<byte>, a: Address, ghost id: nat)
    requires out.Length == LEAF_SIZE
    requires out[..WORD_SIZE] == ToBytes(id, WORD_SIZE)
    requires forall k :: WORD_SIZE <= k < LEAF_SIZE ==> out[k] == 0
    modifies out
    ensures out[..2 * WORD_SIZE] == Words([id, a], WORD_SIZE)
  {
    ghost var head := out[..2 * WORD_SIZE - ADDRESS_SIZE];
    assert head == ToBytes(id, WORD_SIZE) + seq(WORD_SIZE - ADDRESS_SIZE, _ => 0) by {
      assert head[..WORD_SIZE] == out[..WORD_SIZE];
    }
    FillBytes(out, 2 * WORD_SIZE - ADDRESS_SIZE, ADDRESS_SIZE, a);
    assert out[..2 * WORD_SIZE] == head + ToBytes(a, ADDRESS_SIZE);
    TwoWords(id, a);
    AddressWord(id, a);
  }

  lemma AddressWord(id: nat, a: Address)
    ensures ToBytes(id, WORD_SIZE) + seq(WORD_SIZE - ADDRESS_SIZE, _ => 0) + ToBytes(a, ADDRESS_SIZE)
         == ToBytes(id, WORD_SIZE) + ToBytes(a, WORD_SIZE)
  {
    AddressFits(a);
    LeadingZeros(a, ADDRESS_SIZE, WORD_SIZE);
  }

  /** Appends one amount to the words already written. */
  method PutAmount(out: array<byte>, ghost done: seq<nat>, i: nat, x: Option<int>) returns (e: Option<EncodeError>)
    requires out.Length == LEAF_SIZE && i < AMOUNT_COUNT && |done| == 2 + i
    requires out[..(2 + i) * WORD_SIZE] == Words(done, WORD_SIZE)
    modifies out
    ensures e == WordError(x)
    ensures e.None? ==> x.Some? && x.value >= 0
    ensures e.None? ==> out[..(3 + i) * WORD_SIZE] == Words(done + [x.value], WORD_SIZE)
  {
    hide ToBytes, Span;
    var at := (2 + i) * WORD_SIZE;
    e := PutUint256(out, at, x);
    if e.None? {
      assert (done + [x.value])[..2 + i] == done;
      assert out[..at + WORD_SIZE] == out[..at] + out[at..at + WORD_SIZE];
    }
  }

  /** done is the id, the account and the first i amounts of c, all of which fit. */
  ghost predicate Leads(c: Claim, done: seq<nat>, i: nat)
    requires FitsUint256(c.id)
  {
    && i <= AMOUNT_COUNT && |done| == 2 + i && done[0] == c.id.value && done[1] == c.account
    && forall k :: 0 <= k < i ==> FitsUint256(c.amounts[k]) && done[2 + k] == c.amounts[k].value
  }

  lemma LeadsOn(c: Claim, done: seq<nat>, i: nat)
    requires FitsUint256(c.id) && Leads(c, done, i) && i < AMOUNT_COUNT
    ensures WordError(c.amounts[i]).None? ==>
      Leads(c, done + [c.amounts[i].value], i + 1) && AmountError(c, i) == AmountError(c, i + 1)
    ensures WordError(c.amounts[i]).Some? ==> AmountError(c, i) == Some((2 + i, WordError(c.amounts[i]).value))
  {
  }

  lemma LeadsToAll(c: Claim, done: seq<nat>)
    requires FitsUint256(c.id) && Leads(c, done, AMOUNT_COUNT)
    ensures Encodable(c) && done == Numbers(c)
  {
    forall i | 0 <= i < LEAF_WORDS ensures done[i] == Numbers(c)[i] {
      if i >= 2 {
        assert done[2 + (i - 2)] == c.amounts[i - 2].value;
      }
    }
  }

  method PutAmounts(out: array<byte>, c: Claim) returns (e: Option<(nat, EncodeError)>)
    requires out.Length == LEAF_SIZE && FitsUint256(c.id)
    requires out[..2 * WORD_SIZE] == Words([c.id.value, c.account], WORD_SIZE)
    modifies out
    ensures e == AmountError(c, 0)
    ensures e.None? ==> Encodable(c) && out[..] == Encoded(c)
  {
    ghost var done: seq<nat> := [c.id.value, c.account];
    assert Leads(c, done, 0);
    hide ToBytes, Words, Span, FitsUint256, Leads, WordError;
    var i := 0;
    while i < AMOUNT_COUNT
      invariant 0 <= i <= AMOUNT_COUNT && |done| == 2 + i && Leads(c, done, i)
      invariant AmountError(c, 0) == AmountError(c, i)
      invariant out[..(2 + i) * WORD_SIZE] == Words(done, WORD_SIZE)
    {
      LeadsOn(c, done, i);
      var bad := PutAmount(out, done, i, c.amounts[i]);
      if bad.Some? {
        return Some((2 + i, bad.value));
      }
      done := done + [c.amounts[i].value];
      i := i + 1;
    }
    LeadsToAll(c, done);
    assert out[..] == out[..LEAF_SIZE];
    e := None;
  }

  method Encode(c: Claim) returns (r: Result<seq<byte>, (nat, EncodeError)>)
    ensures Encodable(c) ==> r == Success(Encoded(c))
    ensures !Encodable(c) ==> ClaimError(c).Some? && r == Failure(ClaimError(c).value)
  {
    NoError(c);
    hide ToBytes, Words, Span;
    var out := new byte[LEAF_SIZE](_ => 0);
    var bad := PutUint256(out, 0, c.id);
    if bad.Some? {
      return Failure((0, bad.value));
    }
    PutAccount(out, c.account, c.id.value);
    var e := PutAmounts(out, c);
    if e.Some? {
      return Failure(e.value);
    }
    r := Success(out[..]);
  }

  lemma TwoWords(x: nat, y: nat)
    ensures Words([x, y], WORD_SIZE) == ToBytes(x, WORD_SIZE) + ToBytes(y, WORD_SIZE)
  {
    assert [x, y][..1] == [x] && [x][..0] == [];
  }

  function LeafHashOf(keccak: Keccak, encoded: seq<byte>): Hash {
    keccak(keccak(encoded))
  }

  /** bytes.Compare puts the smaller first, so a proof need not record sides. */
  function PairBytes(a: Hash, b: Hash): (r: seq<byte>)
    ensures |r| == 2 * WORD_SIZE
  {
    if Compare(a, b) > 0 then b + a else a + b
  }

  function HashPair(keccak: Keccak, a: Hash, b: Hash): Hash {
    keccak(PairBytes(a, b))
  }

  /** Read as numbers, the smaller hash goes first, on whichever side it stands. */
  lemma SmallerFirst(keccak: Keccak, a: Hash, b: Hash)
    requires FromBytes(a) <= FromBytes(b)
    ensures HashPair(keccak, a, b) == keccak(a + b) == HashPair(keccak, b, a)
  {
    CompareIsNumeric(a, b);
    PairUnordered(a, b);
  }

  lemma PairUnordered(a: Hash, b: Hash)
    ensures PairBytes(a, b) == PairBytes(b, a)
  {
    CompareIsNumeric(a, b);
    CompareIsNumeric(b, a);
    if Compare(a, b) == 0 {
      NumberInjective(a, b);
    }
  }

  /** One pair's bytes come from one unordered pair of hashes. */
  lemma PairInjective(a: Hash, b: Hash, c: Hash, d: Hash)
    requires PairBytes(a, b) == PairBytes(c, d)
    ensures (a == c && b == d) || (a == d && b == c)
  {
    var x, y := PairBytes(a, b), PairBytes(c, d);
    assert x[..WORD_SIZE] == y[..WORD_SIZE] && x[WORD_SIZE..] == y[WORD_SIZE..];
  }
}
