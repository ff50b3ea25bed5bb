/**
 * The order hash against the definition of `encodeData` in EIP-712: the typed members of the order, each encoded by its
 * type (crates/model/src/order.rs).
 */
module Eip712 {
  import opened Prelude
  import opened Uint256
  import opened ByteCodec
  import opened OrderEncoding

  datatype Member =
    | AddressMember(address: Address)
    | UintMember(value: nat)
    | Bytes32Member(word: Word)
    | BoolMember(flag: bool)
    | StringMember(text: string)

  /** Characters as bytes. */
  function Ascii(text: string): Bytes {
    seq(|text|, i requires 0 <= i < |text| => text[i] as int % 256)
  }

  const ORDER_TYPE :=
    "Order(address sellToken,address buyToken,address receiver,uint256 sellAmount,uint256 buyAmount," +
    "uint32 validTo,bytes32 appData,uint256 feeAmount,string kind,bool partiallyFillable," +
    "string sellTokenBalance,string buyTokenBalance)"

  /** A member's 32 bytes: numbers are big-endian, addresses are numbers, a string stands for its hash. */
  ghost predicate IsEncoding(m: Member, w: Word, keccak: Hash) {
    match m
    case AddressMember(a) => w == Zeros(12) + a
    case UintMember(n) => FromBigEndian(w) == n
    case Bytes32Member(x) => w == x
    case BoolMember(b) => FromBigEndian(w) == if b then 1 else 0
    case StringMember(text) => w == keccak(Ascii(text))
  }

  function KindText(kind: OrderKind): string {
    match kind case Buy => "buy" case Sell => "sell"
  }

  function SourceText(source: SellTokenSource): string {
    match source case Erc20Source => "erc20" case ExternalSource => "external" case InternalSource => "internal"
  }

  function DestinationText(destination: BuyTokenDestination): string {
    match destination case Erc20Destination => "erc20" case InternalDestination => "internal"
  }

  /** The receiver of the type is an address; an order without one has the zero address there. */
  function ReceiverAddress(o: OrderData): Address {
    match o.receiver case Some(a) => a case None => Zeros(20)
  }

  /** The members in the order of the type. */
  function Members(o: OrderData): (r: seq<Member>)
    ensures |r| == 12
  {
    [ AddressMember(o.sellToken), AddressMember(o.buyToken), AddressMember(ReceiverAddress(o)),
      UintMember(o.sellAmount), UintMember(o.buyAmount), UintMember(o.validTo), Bytes32Member(o.appData), UintMember(o.feeAmount),
      StringMember(KindText(o.kind)), BoolMember(o.partiallyFillable),
      StringMember(SourceText(o.sellTokenBalance)), StringMember(DestinationText(o.buyTokenBalance)) ]
  }

  /** The hash function takes the type and the labels to the constants of the source. */
  ghost predicate KnowsConstants(keccak: Hash) {
    && keccak(Ascii(ORDER_TYPE)) == TYPE_HASH
    && keccak(Ascii("buy")) == BUY && keccak(Ascii("sell")) == SELL
    && keccak(Ascii("erc20")) == ERC20 && keccak(Ascii("external")) == EXTERNAL && keccak(Ascii("internal")) == INTERNAL
  }

  lemma UintEncoding(n: U256, keccak: Hash)
    ensures IsEncoding(UintMember(n), ToBigEndian(n, 32), keccak)
  {
    PowBounds();
    DecodeEncode(n, 32);
  }

  lemma BoolEncoding(b: bool, keccak: Hash)
    ensures IsEncoding(BoolMember(b), BoolWord(b), keccak)
  {
    PowBounds();
    DecodeEncode(if b then 1 else 0, 32);
  }

  lemma LabelEncodings(o: OrderData, keccak: Hash)
    requires KnowsConstants(keccak)
    ensures IsEncoding(StringMember(KindText(o.kind)), KindBytes(o.kind), keccak)
    ensures IsEncoding(StringMember(SourceText(o.sellTokenBalance)), SourceBytes(o.sellTokenBalance), keccak)
    ensures IsEncoding(StringMember(DestinationText(o.buyTokenBalance)), DestinationBytes(o.buyTokenBalance), keccak)
  {
  }

  lemma AddressEncoding(a: Address, keccak: Hash)
    ensures IsEncoding(AddressMember(a), AddressWord(a), keccak)
  {
    AddressSlot(a);
  }

  ghost predicate AllEncoded(members: seq<Member>, words: seq<Word>, keccak: Hash) {
    |words| == |members| && forall i :: 0 <= i < |members| ==> IsEncoding(members[i], words[i], keccak)
  }

  lemma Encodings(o: OrderData, keccak: Hash)
    requires KnowsConstants(keccak)
    ensures AllEncoded(Members(o), EncodedWords(o)[1..], keccak)
  {
    AddressEncoding(o.sellToken, keccak);
    AddressEncoding(o.buyToken, keccak);
    AddressEncoding(Receiver(o), keccak);
    UintEncoding(o.sellAmount, keccak);
    UintEncoding(o.buyAmount, keccak);
    UintEncoding(o.validTo, keccak);
    UintEncoding(o.feeAmount, keccak);
    BoolEncoding(o.partiallyFillable, keccak);
    LabelEncodings(o, keccak);
  }

  /** What the order hash is taken of is the hash of the type, followed by the encoding of each member in its order. */
  lemma HashInputIsEncodeData(o: OrderData, keccak: Hash)
    requires KnowsConstants(keccak)
    ensures exists words: seq<Word> :: AllEncoded(Members(o), words, keccak) &&
              EncodeData(o) == Concat([keccak(Ascii(ORDER_TYPE))] + words)
  {
    Encodings(o, keccak);
    assert EncodedWords(o) == [TYPE_HASH] + EncodedWords(o)[1..];
  }

  /** The signed message is the two-byte prefix of the standard, the domain separator and the struct hash. */
  lemma MessageIs(domain: Word, structHash: Word)
    ensures var m := SigningMessage(domain, structHash);
            |m| == 66 && m[0] == 0x19 && m[1] == 0x01 && m[2..34] == domain && m[34..] == structHash
  {
  }
}
