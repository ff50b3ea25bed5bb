/** Order hashing and order uids: crates/model/src/order.rs. */
module OrderEncoding {
  import opened Prelude
  import opened Uint256
  import opened ByteCodec

  datatype SellTokenSource = Erc20Source | ExternalSource | InternalSource
  datatype BuyTokenDestination = Erc20Destination | InternalDestination

  datatype OrderData = OrderData(
    sellToken: Address, buyToken: Address, receiver: Option<Address>, sellAmount: U256, buyAmount: U256,
    validTo: U32, appData: Word, feeAmount: U256, kind: OrderKind, partiallyFillable: bool,
    sellTokenBalance: SellTokenSource, buyTokenBalance: BuyTokenDestination)

  /** Keccak-256, about which nothing is assumed. */
  type Hash = Bytes -> Word

  type Uid = b: Bytes | |b| == 56 witness Zeros(56)

  const TYPE_HASH: Word :=
    [0xd5, 0xa2, 0x5b, 0xa2, 0xe9, 0x70, 0x94, 0xad, 0x7d, 0x83, 0xdc, 0x28, 0xa6, 0x57, 0x2d, 0xa7] +
    [0x97, 0xd6, 0xb3, 0xe7, 0xfc, 0x66, 0x63, 0xbd, 0x93, 0xef, 0xb7, 0x89, 0xfc, 0x17, 0xe4, 0x89]

  const BUY: Word :=
    [0x6e, 0xd8, 0x8e, 0x86, 0x8a, 0xf0, 0xa1, 0x98, 0x3e, 0x38, 0x86, 0xd5, 0xf3, 0xe9, 0x5a, 0x2f] +
    [0xaf, 0xbd, 0x6c, 0x34, 0x50, 0xbc, 0x22, 0x9e, 0x27, 0x34, 0x22, 0x83, 0xdc, 0x42, 0x9c, 0xcc]

  const SELL: Word :=
    [0xf3, 0xb2, 0x77, 0x72, 0x8b, 0x3f, 0xee, 0x74, 0x94, 0x81, 0xeb, 0x3e, 0x0b, 0x3b, 0x48, 0x98] +
    [0x0d, 0xbb, 0xab, 0x78, 0x65, 0x8f, 0xc4, 0x19, 0x02, 0x5c, 0xb1, 0x6e, 0xee, 0x34, 0x67, 0x75]

  const ERC20: Word :=
    [0x5a, 0x28, 0xe9, 0x36, 0x3b, 0xb9, 0x42, 0xb6, 0x39, 0x27, 0x00, 0x62, 0xaa, 0x6b, 0xb2, 0x95] +
    [0xf4, 0x34, 0xbc, 0xdf, 0xc4, 0x2c, 0x97, 0x26, 0x7b, 0xf0, 0x03, 0xf2, 0x72, 0x06, 0x0d, 0xc9]

  const EXTERNAL: Word :=
    [0xab, 0xee, 0x3b, 0x73, 0x37, 0x3a, 0xcd, 0x58, 0x3a, 0x13, 0x09, 0x24, 0xaa, 0xd6, 0xdc, 0x38] +
    [0xcf, 0xdc, 0x44, 0xba, 0x05, 0x55, 0xba, 0x94, 0xce, 0x2f, 0xf6, 0x39, 0x80, 0xea, 0x06, 0x32]

  const INTERNAL: Word :=
    [0x4a, 0xc9, 0x9a, 0xce, 0x14, 0xee, 0x0a, 0x5e, 0xf9, 0x32, 0xdc, 0x60, 0x9d, 0xf0, 0x94, 0x3a] +
    [0xb7, 0xac, 0x16, 0xb7, 0x58, 0x36, 0x34, 0x61, 0x2f, 0x8d, 0xc3, 0x5a, 0x42, 0x89, 0xa6, 0xce]

  function KindBytes(kind: OrderKind): Word {
    match kind
    case Buy => BUY
    case Sell => SELL
  }

  function SourceBytes(source: SellTokenSource): Word {
    match source
    case Erc20Source => ERC20
    case ExternalSource => EXTERNAL
    case InternalSource => INTERNAL
  }

  function DestinationBytes(destination: BuyTokenDestination): Word {
    match destination
    case Erc20Destination => SourceBytes(Erc20Source)
    case InternalDestination => SourceBytes(InternalSource)
  }

  /** The receiver, or the zero address if there is none. */
  function Receiver(o: OrderData): Address {
    UnwrapOr(o.receiver, Zeros(20))
  }

  // ---- encodeData of EIP-712 -----------------------------------------------------------------

  /** An address is encoded as the 256-bit integer with the same value. */
  function AddressWord(a: Address): Word {
    ToBigEndian(FromBigEndian(a), 32)
  }

  function BoolWord(b: bool): Word {
    ToBigEndian(if b then 1 else 0, 32)
  }

  /** The type hash followed by one 32-byte value for each of the twelve members. */
  function EncodedWords(o: OrderData): (r: seq<Word>)
    ensures |r| == 13
  {
    [ TYPE_HASH,
      AddressWord(o.sellToken), AddressWord(o.buyToken), AddressWord(Receiver(o)),
      ToBigEndian(o.sellAmount, 32), ToBigEndian(o.buyAmount, 32), ToBigEndian(o.validTo, 32),
      o.appData, ToBigEndian(o.feeAmount, 32), KindBytes(o.kind), BoolWord(o.partiallyFillable),
      SourceBytes(o.sellTokenBalance), DestinationBytes(o.buyTokenBalance) ]
  }

  function Concat(words: seq<Word>): (r: Bytes)
    ensures |r| == 32 * |words|
  {
    if words == [] then [] else Concat(words[..|words| - 1]) + words[|words| - 1]
  }

  /** The input of the struct hash. */
  function EncodeData(o: OrderData): (r: Bytes)
    ensures |r| == 416
  {
    Concat(EncodedWords(o))
  }

  // ---- Filling the buffer --------------------------------------------------------------------

  function Overwrite(b: Bytes, at: nat, src: Bytes): (r: Bytes)
    requires at + |src| <= |b|
    ensures |r| == |b|
  {
    b[..at] + src + b[at + |src|..]
  }

  /** `buffer[at..at + src.len()].copy_from_slice(src)`. */
  method CopyFromSlice(a: array<Byte>, at: nat, src: Bytes)
    requires at + |src| <= a.Length
    modifies a
    ensures a[..] == Overwrite(old(a[..]), at, src)
  {
    for i := 0 to |src|
      invariant forall k :: 0 <= k < at ==> a[k] == old(a[k])
      invariant forall k :: at <= k < at + i ==> a[k] == src[k - at]
      invariant forall k :: at + i <= k < a.Length ==> a[k] == old(a[k])
    {
      a[at + i] := src[i];
    }
    OverwriteExtensional(old(a[..]), at, src, a[..]);
  }

  lemma OverwriteExtensional(b: Bytes, at: nat, src: Bytes, r: Bytes)
    requires at + |src| <= |b| == |r|
    requires forall k :: 0 <= k < at ==> r[k] == b[k]
    requires forall k :: at <= k < at + |src| ==> r[k] == src[k - at]
    requires forall k :: at + |src| <= k < |b| ==> r[k] == b[k]
    ensures r == Overwrite(b, at, src)
  {
  }

  /** The first `k` words are in place and the rest of the buffer is still zero. */
  ghost predicate FilledUpTo(b: Bytes, words: seq<Word>, k: nat)
    requires k <= |words|
  {
    b == Concat(words[..k]) + Zeros(32 * (|words| - k))
  }

  lemma NextSlot(words: seq<Word>, b: Bytes, k: nat, pad: nat, src: Bytes)
    requires k < |words| && FilledUpTo(b, words, k)
    requires pad + |src| == 32 && words[k] == Zeros(pad) + src
    ensures FilledUpTo(Overwrite(b, 32 * k + pad, src), words, k + 1)
  {
    assert words[..k + 1][..k] == words[..k];
    SlotSplice(Concat(words[..k]), 32 * (|words| - k - 1), b, pad, src);
  }

  lemma SlotSplice(done: Bytes, left: nat, b: Bytes, pad: nat, src: Bytes)
    requires pad + |src| == 32 && b == done + Zeros(32 + left)
    ensures Overwrite(b, |done| + pad, src) == (done + (Zeros(pad) + src)) + Zeros(left)
  {
    assert b[..|done| + pad] == done + Zeros(pad);
    assert b[|done| + 32..] == Zeros(left);
    assert (done + Zeros(pad)) + src + Zeros(left) == (done + (Zeros(pad) + src)) + Zeros(left);
  }

  lemma FullSlot(w: Word)
    ensures w == Zeros(0) + w
  {
    assert Zeros(0) == [];
  }

  lemma AddressSlot(a: Address)
    ensures AddressWord(a) == Zeros(12) + a
  {
    EncodeDecode(a);
    LeftPadded(FromBigEndian(a), 12, 20);
  }

  lemma ValidToSlot(v: U32)
    ensures ToBigEndian(v, 32) == Zeros(28) + ToBigEndian(v, 4)
  {
    PowBounds();
    LeftPadded(v, 28, 4);
  }

  lemma BoolSlot(b: bool)
    ensures BoolWord(b) == Zeros(31) + [if b then 1 else 0]
  {
    var v := if b then 1 else 0;
    assert Pow256(1) == 256;
    LeftPadded(v, 31, 1);
    assert ToBigEndian(v, 1) == [v];
  }

  lemma NothingFilled(b: Bytes, words: seq<Word>)
    requires b == Zeros(32 * |words|)
    ensures FilledUpTo(b, words, 0)
  {
    assert Concat(words[..0]) == [];
    assert [] + b == b;
  }

  lemma AllFilled(b: Bytes, words: seq<Word>)
    requires FilledUpTo(b, words, |words|)
    ensures b == Concat(words)
  {
    assert words[..|words|] == words;
    assert Concat(words) + Zeros(0) == Concat(words);
  }

  /** Writes one slot whose value ends in `src` and is zero in front of it. */
  method FillSlot(a: array<Byte>, ghost words: seq<Word>, ghost k: nat, at: nat, src: Bytes)
    requires k < |words| && a.Length == 32 * |words|
    requires 32 * k <= at && at + |src| == 32 * k + 32
    requires words[k] == Zeros(at - 32 * k) + src
    requires FilledUpTo(a[..], words, k)
    modifies a
    ensures FilledUpTo(a[..], words, k + 1)
  {
    NextSlot(words, a[..], k, at - 32 * k, src);
    CopyFromSlice(a, at, src);
  }

  ghost predicate AddressesEncoded(w: seq<Word>, o: OrderData) {
    |w| == 13 && w[0] == TYPE_HASH &&
    w[1] == AddressWord(o.sellToken) && w[2] == AddressWord(o.buyToken) && w[3] == AddressWord(Receiver(o))
  }

  ghost predicate AmountsEncoded(w: seq<Word>, o: OrderData) {
    |w| == 13 &&
    w[4] == ToBigEndian(o.sellAmount, 32) && w[5] == ToBigEndian(o.buyAmount, 32) && w[6] == ToBigEndian(o.validTo, 32) &&
    w[7] == o.appData && w[8] == ToBigEndian(o.feeAmount, 32)
  }

  ghost predicate LabelsEncoded(w: seq<Word>, o: OrderData) {
    |w| == 13 &&
    w[9] == KindBytes(o.kind) && w[10] == BoolWord(o.partiallyFillable) &&
    w[11] == SourceBytes(o.sellTokenBalance) && w[12] == DestinationBytes(o.buyTokenBalance)
  }

  lemma AddressesAre(o: OrderData)
    ensures AddressesEncoded(EncodedWords(o), o)
  {
  }

  lemma AmountsAre(o: OrderData)
    ensures AmountsEncoded(EncodedWords(o), o)
  {
  }

  lemma LabelsAre(o: OrderData)
    ensures LabelsEncoded(EncodedWords(o), o)
  {
  }

  /** The buffer filled in place, slot by slot, is the encoding. */
  method HashStruct(o: OrderData, keccak: Hash) returns (h: Word)
    ensures h == keccak(EncodeData(o))
  {
    var data := new Byte[416](_ => 0);
    assert data[..] == Zeros(416);
    AddressesAre(o);
    AmountsAre(o);
    LabelsAre(o);
    Fill(data, o, EncodedWords(o));
    h := keccak(data[..]);
  }

  method Fill(data: array<Byte>, o: OrderData, ghost w: seq<Word>)
    requires AddressesEncoded(w, o) && AmountsEncoded(w, o) && LabelsEncoded(w, o)
    requires data.Length == 416 && data[..] == Zeros(416)
    modifies data
    ensures data[..] == Concat(w)
  {
    NothingFilled(data[..], w);
    FullSlot(w[0]);
    FillSlot(data, w, 0, 0, TYPE_HASH);
    FillAddresses(data, o, w);
    FillAmounts(data, o, w);
    FillLabels(data, KindBytes(o.kind), o.partiallyFillable, SourceBytes(o.sellTokenBalance), DestinationBytes(o.buyTokenBalance), w);
    AllFilled(data[..], w);
  }

  method FillAddresses(data: array<Byte>, o: OrderData, ghost w: seq<Word>)
    requires AddressesEncoded(w, o) && data.Length == 416 && FilledUpTo(data[..], w, 1)
    modifies data
    ensures FilledUpTo(data[..], w, 4)
  {
    AddressSlot(o.sellToken);
    FillSlot(data, w, 1, 44, o.sellToken);
    AddressSlot(o.buyToken);
    FillSlot(data, w, 2, 76, o.buyToken);
    AddressSlot(Receiver(o));
    FillSlot(data, w, 3, 108, Receiver(o));
  }

  method FillAmounts(data: array<Byte>, o: OrderData, ghost w: seq<Word>)
    requires AmountsEncoded(w, o) && data.Length == 416 && FilledUpTo(data[..], w, 4)
    modifies data
    ensures FilledUpTo(data[..], w, 9)
  {
    FullSlot(w[4]);
    FillSlot(data, w, 4, 128, ToBigEndian(o.sellAmount, 32));
    FullSlot(w[5]);
    FillSlot(data, w, 5, 160, ToBigEndian(o.buyAmount, 32));
    ValidToSlot(o.validTo);
    FillSlot(data, w, 6, 220, ToBigEndian(o.validTo, 4));
    FullSlot(w[7]);
    FillSlot(data, w, 7, 224, o.appData);
    FullSlot(w[8]);
    FillSlot(data, w, 8, 256, ToBigEndian(o.feeAmount, 32));
  }

  method FillLabels(data: array<Byte>, kind: Word, fillable: bool, source: Word, destination: Word, ghost w: seq<Word>)
    requires |w| == 13 && w[9] == kind && w[10] == BoolWord(fillable) && w[11] == source && w[12] == destination
    requires data.Length == 416 && FilledUpTo(data[..], w, 9)
    modifies data
    ensures FilledUpTo(data[..], w, 13)
  {
    FullSlot(kind);
    FillSlot(data, w, 9, 288, kind);
    BoolSlot(fillable);
    FillSlot(data, w, 10, 351, [if fillable then 1 else 0]);
    FullSlot(source);
    FillSlot(data, w, 11, 352, source);
    FullSlot(destination);
    FillSlot(data, w, 12, 384, destination);
  }

  // ---- What the encoding determines ----------------------------------------------------------

  lemma {:induction false} ConcatInjective(a: seq<Word>, b: seq<Word>)
    requires |a| == |b| && Concat(a) == Concat(b)
    ensures a == b
  {
    if a == [] {
    } else {
      var n := |a| - 1;
      assert Concat(a)[..32 * n] == Concat(a[..n]) && Concat(b)[..32 * n] == Concat(b[..n]);
      assert Concat(a)[32 * n..] == a[n] && Concat(b)[32 * n..] == b[n];
      ConcatInjective(a[..n], b[..n]);
      assert a == a[..n] + [a[n]] && b == b[..n] + [b[n]];
    }
  }

  lemma AddressWordInjective(a: Address, b: Address)
    ensures AddressWord(a) == AddressWord(b) <==> a == b
  {
    AddressSlot(a);
    AddressSlot(b);
    assert AddressWord(a)[12..] == a && AddressWord(b)[12..] == b;
  }

  lemma AmountInjective(v: U256, w: U256)
    ensures ToBigEndian(v, 32) == ToBigEndian(w, 32) <==> v == w
  {
    PowBounds();
    EncodingInjective(v, w, 32);
  }

  lemma LastBytes()
    ensures BUY[31] != SELL[31]
    ensures ERC20[31] != EXTERNAL[31] && ERC20[31] != INTERNAL[31] && EXTERNAL[31] != INTERNAL[31]
  {
    assert BUY[31] == 0xcc && SELL[31] == 0x75;
    assert ERC20[31] == 0xc9 && EXTERNAL[31] == 0x32 && INTERNAL[31] == 0xce;
  }

  lemma LabelsInjective(a: OrderData, b: OrderData)
    ensures KindBytes(a.kind) == KindBytes(b.kind) <==> a.kind == b.kind
    ensures SourceBytes(a.sellTokenBalance) == SourceBytes(b.sellTokenBalance) <==> a.sellTokenBalance == b.sellTokenBalance
    ensures DestinationBytes(a.buyTokenBalance) == DestinationBytes(b.buyTokenBalance) <==> a.buyTokenBalance == b.buyTokenBalance
  {
    LastBytes();
  }

  lemma BoolInjective(b: bool, c: bool)
    ensures BoolWord(b) == BoolWord(c) <==> b == c
  {
    BoolSlot(b);
    BoolSlot(c);
    assert BoolWord(b)[31] == (if b then 1 else 0) && BoolWord(c)[31] == (if c then 1 else 0);
  }

  /** The order with the receiver the contract would use. */
  function WithReceiver(o: OrderData): OrderData {
    o.(receiver := Some(Receiver(o)))
  }

  /** The hashed bytes determine the order, up to a missing receiver being the zero address. */
  lemma EncodingDetermines(a: OrderData, b: OrderData)
    ensures EncodeData(a) == EncodeData(b) <==> WithReceiver(a) == WithReceiver(b)
  {
    if WithReceiver(a) == WithReceiver(b) {
      assert EncodedWords(a) == EncodedWords(b);
    }
    if EncodeData(a) == EncodeData(b) {
      ConcatInjective(EncodedWords(a), EncodedWords(b));
      WordsDetermine(a, b);
    }
  }

  lemma WordsDetermine(a: OrderData, b: OrderData)
    requires EncodedWords(a) == EncodedWords(b)
    ensures WithReceiver(a) == WithReceiver(b)
  {
    var v, w := EncodedWords(a), EncodedWords(b);
    assert v[1] == w[1] && v[2] == w[2] && v[3] == w[3];
    AddressWordInjective(a.sellToken, b.sellToken);
    AddressWordInjective(a.buyToken, b.buyToken);
    AddressWordInjective(Receiver(a), Receiver(b));
    assert v[4] == w[4] && v[5] == w[5] && v[6] == w[6] && v[8] == w[8];
    AmountInjective(a.sellAmount, b.sellAmount);
    AmountInjective(a.buyAmount, b.buyAmount);
    AmountInjective(a.validTo, b.validTo);
    AmountInjective(a.feeAmount, b.feeAmount);
    assert v[7] == w[7] && v[9] == w[9] && v[10] == w[10] && v[11] == w[11] && v[12] == w[12];
    LabelsInjective(a, b);
    BoolInjective(a.partiallyFillable, b.partiallyFillable);
  }

  // ---- Uids ----------------------------------------------------------------------------------

  /** The message of EIP-712: two fixed bytes, the domain separator and the struct hash. */
  function SigningMessage(domain: Word, structHash: Word): Bytes {
    [0x19, 0x01] + domain + structHash
  }

  method HashedEip712Message(domain: Word, structHash: Word, keccak: Hash) returns (h: Word)
    ensures h == keccak(SigningMessage(domain, structHash))
  {
    var message := new Byte[66](_ => 0);
    CopyFromSlice(message, 0, [0x19, 0x01]);
    CopyFromSlice(message, 2, domain);
    CopyFromSlice(message, 34, structHash);
    assert message[..] == SigningMessage(domain, structHash);
    h := keccak(message[..]);
  }

  function UidOf(hash: Word, owner: Address, validTo: U32): Uid {
    hash + owner + ToBigEndian(validTo, 4)
  }

  method FromParts(hash: Word, owner: Address, validTo: U32) returns (uid: Uid)
    ensures uid == UidOf(hash, owner, validTo)
  {
    var bytes := new Byte[56](_ => 0);
    CopyFromSlice(bytes, 0, hash);
    CopyFromSlice(bytes, 32, owner);
    CopyFromSlice(bytes, 52, ToBigEndian(validTo, 4));
    assert bytes[..] == UidOf(hash, owner, validTo);
    uid := bytes[..];
  }

  /** The time is read with the other byte order than the one it was written in. */
  function Parts(uid: Uid): (Word, Address, nat) {
    (uid[..32], uid[32..52], FromLittleEndian(uid[52..]))
  }

  function SwappedBytes(v: U32): nat {
    v / 0x100_0000 + 0x100 * (v / 0x1_0000 % 256) + 0x1_0000 * (v / 256 % 256) + 0x100_0000 * (v % 256)
  }

  lemma FourBytes(v: U32)
    ensures ToBigEndian(v, 4) == [v / 0x100_0000, v / 0x1_0000 % 256, v / 256 % 256, v % 256]
  {
    assert ToBigEndian(v / 0x100_0000, 1) == [v / 0x100_0000] by {
      assert ToBigEndian(v / 0x100_0000 / 256, 0) == [];
      assert v / 0x100_0000 % 256 == v / 0x100_0000;
    }
    assert ToBigEndian(v / 0x1_0000, 2) == [v / 0x100_0000, v / 0x1_0000 % 256] by {
      assert v / 0x1_0000 / 256 == v / 0x100_0000;
    }
    assert ToBigEndian(v / 256, 3) == [v / 0x100_0000, v / 0x1_0000 % 256, v / 256 % 256] by {
      assert v / 256 / 256 == v / 0x1_0000;
    }
  }

  lemma LittleEndianOfFour(b: Bytes)
    requires |b| == 4
    ensures FromLittleEndian(b) == b[0] as int + 0x100 * b[1] as int + 0x1_0000 * b[2] as int + 0x100_0000 * b[3] as int
  {
    assert b[1..][1..] == b[2..] && b[2..][1..] == b[3..] && b[3..][1..] == [];
    assert FromLittleEndian(b[3..]) == b[3];
    assert FromLittleEndian(b[2..]) == b[2] as int + 256 * b[3] as int;
    assert FromLittleEndian(b[1..]) == b[1] + 256 * FromLittleEndian(b[2..]);
  }

  /** Splitting a uid returns the hash and the owner; the time comes back with its bytes reversed. */
  lemma PartsOfUid(hash: Word, owner: Address, validTo: U32)
    ensures Parts(UidOf(hash, owner, validTo)) == (hash, owner, SwappedBytes(validTo))
  {
    var uid := UidOf(hash, owner, validTo);
    assert uid[..32] == hash && uid[32..52] == owner && uid[52..] == ToBigEndian(validTo, 4);
    FourBytes(validTo);
    LittleEndianOfFour(ToBigEndian(validTo, 4));
  }

  /** The time survives exactly when its four bytes read the same in both directions. */
  lemma ValidToSurvives(hash: Word, owner: Address, v: U32)
    ensures Parts(UidOf(hash, owner, v)).2 == v <==> v % 256 == v / 0x100_0000 && v / 256 % 256 == v / 0x1_0000 % 256
  {
    PartsOfUid(hash, owner, v);
    Digits(v);
    DigitsUnique(v / 0x100_0000, v / 0x1_0000 % 256, v / 256 % 256, v % 256);
  }

  lemma Digits(v: U32)
    ensures v == 0x100_0000 * (v / 0x100_0000) + 0x1_0000 * (v / 0x1_0000 % 256) + 0x100 * (v / 256 % 256) + v % 256
  {
    assert v / 0x1_0000 / 256 == v / 0x100_0000;
    assert v / 256 / 256 == v / 0x1_0000;
  }

  lemma DigitsUnique(a: Byte, b: Byte, c: Byte, d: Byte)
    ensures a + 0x100 * b + 0x1_0000 * c + 0x100_0000 * d == 0x100_0000 * a + 0x1_0000 * b + 0x100 * c + d <==> a == d && b == c
  {
  }

  /** A time for which the round trip fails: 1 comes back as 2^24. */
  lemma ValidToLost()
    ensures Parts(UidOf(Zeros(32), Zeros(20), 1)).2 == 0x100_0000
  {
    PartsOfUid(Zeros(32), Zeros(20), 1);
  }

  function OrderUid(o: OrderData, domain: Word, owner: Address, keccak: Hash): Uid {
    UidOf(keccak(SigningMessage(domain, keccak(EncodeData(o)))), owner, o.validTo)
  }

  method ComputeUid(o: OrderData, domain: Word, owner: Address, keccak: Hash) returns (uid: Uid)
    ensures uid == OrderUid(o, domain, owner, keccak)
  {
    var structHash := HashStruct(o, keccak);
    var message := HashedEip712Message(domain, structHash, keccak);
    uid := FromParts(message, owner, o.validTo);
  }

  predicate Collide(keccak: Hash, x: Bytes, y: Bytes) {
    x != y && keccak(x) == keccak(y)
  }

  /** Two orders share a uid only if owner, domain and contents agree, or if the hash function collides on them. */
  lemma UidDetermines(a: OrderData, b: OrderData, domainA: Word, domainB: Word, ownerA: Address, ownerB: Address, keccak: Hash)
    requires OrderUid(a, domainA, ownerA, keccak) == OrderUid(b, domainB, ownerB, keccak)
    ensures ownerA == ownerB && a.validTo == b.validTo
    ensures (domainA == domainB && WithReceiver(a) == WithReceiver(b))
         || Collide(keccak, EncodeData(a), EncodeData(b))
         || Collide(keccak, SigningMessage(domainA, keccak(EncodeData(a))), SigningMessage(domainB, keccak(EncodeData(b))))
  {
    var messageA := SigningMessage(domainA, keccak(EncodeData(a)));
    var messageB := SigningMessage(domainB, keccak(EncodeData(b)));
    UidPieces(keccak(messageA), ownerA, a.validTo, keccak(messageB), ownerB, b.validTo);
    if messageA == messageB {
      assert messageA[2..34] == domainA && messageB[2..34] == domainB;
      assert messageA[34..] == keccak(EncodeData(a)) && messageB[34..] == keccak(EncodeData(b));
      EncodingDetermines(a, b);
    }
  }

  lemma UidPieces(h: Word, owner: Address, validTo: U32, h': Word, owner': Address, validTo': U32)
    requires UidOf(h, owner, validTo) == UidOf(h', owner', validTo')
    ensures h == h' && owner == owner' && validTo == validTo'
  {
    var u, u' := UidOf(h, owner, validTo), UidOf(h', owner', validTo');
    assert u[..32] == h && u'[..32] == h';
    assert u[32..52] == owner && u'[32..52] == owner';
    assert u[52..] == ToBigEndian(validTo, 4) && u'[52..] == ToBigEndian(validTo', 4);
    PowBounds();
    EncodingInjective(validTo, validTo', 4);
  }

  /** An order without receiver and the one that names the zero address have the same uid. */
  lemma ZeroReceiverSameUid(o: OrderData, domain: Word, owner: Address, keccak: Hash)
    ensures OrderUid(o, domain, owner, keccak) == OrderUid(WithReceiver(o), domain, owner, keccak)
  {
    EncodingDetermines(o, WithReceiver(o));
  }
}
