/**
 * Signatures (crates/model/src/signature.rs) and the trades decoded from settlement calldata
 * (`DecodedTrade::new` in crates/autopilot/src/decoded_settlement.rs).
 */
module SignatureEncoding {
  import opened Prelude
  import opened Uint256
  import opened ByteCodec
  import opened OrderEncoding

  datatype EcdsaScheme = Eip712Scheme | EthSignScheme
  datatype SigningScheme = Ecdsa(scheme: EcdsaScheme) | Eip1271Scheme | PreSignScheme

  datatype EcdsaSignature = EcdsaSignature(r: Word, s: Word, v: Byte)

  /** `Eip712` and `EthSign` hold an ECDSA signature made under the given scheme. */
  datatype Signature = EcdsaSigned(scheme: EcdsaScheme, signature: EcdsaSignature) | Eip1271(bytes: Bytes) | PreSign

  /** A call returns a value, returns an error, or panics on a slice of the wrong length or a missing index. */
  datatype Outcome<+T> = Value(value: T) | Failed | Panics

  /** The signer of a message under a scheme; ECDSA recovery is foreign code. */
  type Recovery = (EcdsaScheme, EcdsaSignature, Bytes) -> Option<Address>

  function SchemeOf(s: Signature): SigningScheme {
    match s
    case EcdsaSigned(scheme, _) => Ecdsa(scheme)
    case Eip1271(_) => Eip1271Scheme
    case PreSign => PreSignScheme
  }

  function EcdsaBytes(s: EcdsaSignature): (b: Bytes)
    ensures |b| == 65
  {
    s.r + s.s + [s.v]
  }

  method EcdsaToBytes(s: EcdsaSignature) returns (b: Bytes)
    ensures b == EcdsaBytes(s)
  {
    var bytes := new Byte[65](_ => 0);
    CopyFromSlice(bytes, 0, s.r);
    CopyFromSlice(bytes, 32, s.s);
    bytes[64] := s.v;
    assert bytes[..] == EcdsaBytes(s);
    b := bytes[..];
  }

  function FromBytes(scheme: SigningScheme, bytes: Bytes): Option<Signature> {
    match scheme
    case Ecdsa(e) =>
      if |bytes| != 65 then None
      else Some(EcdsaSigned(e, EcdsaSignature(bytes[..32], bytes[32..64], bytes[64])))
    case Eip1271Scheme => Some(Eip1271(bytes))
    case PreSignScheme => if |bytes| == 0 || |bytes| == 20 then Some(PreSign) else None
  }

  function ToBytes(s: Signature): Bytes {
    match s
    case EcdsaSigned(_, signature) => EcdsaBytes(signature)
    case Eip1271(bytes) => bytes
    case PreSign => []
  }

  function EncodeForSettlement(s: Signature, owner: Address): Bytes {
    match s
    case EcdsaSigned(_, signature) => EcdsaBytes(signature)
    case Eip1271(bytes) => owner + bytes
    case PreSign => owner
  }

  function RecoverOwner(s: Signature, encoded: Bytes, domain: Word, structHash: Word, recovery: Recovery): Outcome<Address> {
    match s
    case EcdsaSigned(scheme, signature) =>
      (match recovery(scheme, signature, SigningMessage(domain, structHash))
       case Some(signer) => Value(signer)
       case None => Failed)
    case Eip1271(_) => if |encoded| < 20 then Panics else Value(encoded[..20])
    case PreSign => if |encoded| != 20 then Panics else Value(encoded)
  }

  // ---- Round trips of signatures -------------------------------------------------------------

  lemma EcdsaRoundTrip(e: EcdsaScheme, s: EcdsaSignature)
    ensures FromBytes(Ecdsa(e), EcdsaBytes(s)) == Some(EcdsaSigned(e, s))
  {
    var b := EcdsaBytes(s);
    assert b[..32] == s.r && b[32..64] == s.s && b[64] == s.v;
  }

  lemma SignatureRoundTrip(s: Signature)
    ensures FromBytes(SchemeOf(s), ToBytes(s)) == Some(s)
  {
    if s.EcdsaSigned? { EcdsaRoundTrip(s.scheme, s.signature); }
  }

  /** Parsed bytes are printed again as they were, except for the legacy owner of a presignature. */
  lemma ParsedBytesRoundTrip(scheme: SigningScheme, bytes: Bytes)
    requires FromBytes(scheme, bytes).Some?
    ensures SchemeOf(FromBytes(scheme, bytes).value) == scheme
    ensures ToBytes(FromBytes(scheme, bytes).value) == bytes <==> !(scheme.PreSignScheme? && |bytes| == 20)
  {
    if scheme.Ecdsa? { assert bytes[..32] + bytes[32..64] + [bytes[64]] == bytes; }
  }

  /** What decoding finds in the calldata: the stored signature, prefixed by the owner for EIP-1271. */
  function Settled(s: Signature, owner: Address): Signature {
    if s.Eip1271? then Eip1271(owner + s.bytes) else s
  }

  lemma SettlementRoundTrip(s: Signature, owner: Address)
    ensures FromBytes(SchemeOf(s), EncodeForSettlement(s, owner)) == Some(Settled(s, owner))
  {
    if s.EcdsaSigned? { EcdsaRoundTrip(s.scheme, s.signature); }
  }

  /** The owner read back is the one encoded, for a signature that carries no owner the one recovery returns. */
  lemma OwnerRecovered(s: Signature, owner: Address, domain: Word, structHash: Word, recovery: Recovery)
    ensures RecoverOwner(Settled(s, owner), EncodeForSettlement(s, owner), domain, structHash, recovery) == Value(owner)
       <==> (s.EcdsaSigned? ==> recovery(s.scheme, s.signature, SigningMessage(domain, structHash)) == Some(owner))
  {
    if s.Eip1271? { assert (owner + s.bytes)[..20] == owner; }
  }

  // ---- Decoding trades -----------------------------------------------------------------------

  datatype RawTrade = RawTrade(
    sellTokenIndex: nat, buyTokenIndex: nat, receiver: Address, sellAmount: U256, buyAmount: U256, validTo: U32,
    appData: Word, feeAmount: U256, kind: OrderKind, partiallyFillable: bool, sellTokenBalance: SellTokenSource,
    buyTokenBalance: BuyTokenDestination, scheme: SigningScheme, executedAmount: U256, signature: Bytes)

  datatype DecodedTrade = DecodedTrade(uid: Uid, trade: RawTrade, signature: Signature)

  function OrderOf(t: RawTrade, tokens: seq<Address>): OrderData
    requires t.sellTokenIndex < |tokens| && t.buyTokenIndex < |tokens|
  {
    OrderData(tokens[t.sellTokenIndex], tokens[t.buyTokenIndex], Some(t.receiver), t.sellAmount, t.buyAmount, t.validTo,
              t.appData, t.feeAmount, t.kind, t.partiallyFillable, t.sellTokenBalance, t.buyTokenBalance)
  }

  /** `DecodedTrade::new`: the tokens are looked up before the signature is parsed. */
  function Decode(t: RawTrade, domain: Word, tokens: seq<Address>, keccak: Hash, recovery: Recovery): Outcome<DecodedTrade> {
    if t.sellTokenIndex >= |tokens| || t.buyTokenIndex >= |tokens| then Panics
    else
      var order := OrderOf(t, tokens);
      match FromBytes(t.scheme, t.signature)
      case None => Failed
      case Some(signature) =>
        match RecoverOwner(signature, t.signature, domain, keccak(EncodeData(order)), recovery)
        case Panics => Panics
        case Failed => Failed
        case Value(owner) => Value(DecodedTrade(OrderUid(order, domain, owner, keccak), t, signature))
  }

  /** Decoding panics on a missing token, on an EIP-1271 signature too short for an owner and on an empty presignature. */
  lemma DecodePanics(t: RawTrade, domain: Word, tokens: seq<Address>, keccak: Hash, recovery: Recovery)
    ensures Decode(t, domain, tokens, keccak, recovery) == Panics <==>
            (t.sellTokenIndex >= |tokens| || t.buyTokenIndex >= |tokens|
             || (t.scheme.Eip1271Scheme? && |t.signature| < 20)
             || (t.scheme.PreSignScheme? && |t.signature| == 0))
  {
  }

  /** The trade names the order's tokens by index and repeats its other terms; a missing receiver is the zero address. */
  ghost predicate RepeatsTerms(t: RawTrade, o: OrderData, tokens: seq<Address>) {
    && t.sellTokenIndex < |tokens| && tokens[t.sellTokenIndex] == o.sellToken
    && t.buyTokenIndex < |tokens| && tokens[t.buyTokenIndex] == o.buyToken
    && t.receiver == UnwrapOr(o.receiver, Zeros(20))
    && t.sellAmount == o.sellAmount && t.buyAmount == o.buyAmount && t.feeAmount == o.feeAmount
    && t.validTo == o.validTo && t.appData == o.appData && t.kind == o.kind && t.partiallyFillable == o.partiallyFillable
    && t.sellTokenBalance == o.sellTokenBalance && t.buyTokenBalance == o.buyTokenBalance
  }

  /** The order a trade is decoded to is the one whose terms it repeats. */
  lemma OrderOfIs(t: RawTrade, o: OrderData, tokens: seq<Address>)
    ensures RepeatsTerms(t, o, tokens) <==>
              t.sellTokenIndex < |tokens| && t.buyTokenIndex < |tokens| && OrderOf(t, tokens) == WithReceiver(o)
  {
  }

  /** The trade that settles a signed order of `owner`. */
  ghost predicate Settles(t: RawTrade, o: OrderData, s: Signature, owner: Address, tokens: seq<Address>) {
    && RepeatsTerms(t, o, tokens)
    && t.scheme == SchemeOf(s)
    && t.signature == EncodeForSettlement(s, owner)
  }

  /**
   * Decoding the trade of an order gives back its uid and owner: always for the schemes that carry the owner,
   * and for ECDSA signatures when recovery returns the owner for the order's own signing message.
   */
  lemma SettledOrderIsRecovered(
    t: RawTrade, o: OrderData, s: Signature, owner: Address, domain: Word, tokens: seq<Address>, keccak: Hash, recovery: Recovery)
    requires Settles(t, o, s, owner, tokens)
    requires s.EcdsaSigned? ==>
      recovery(s.scheme, s.signature, SigningMessage(domain, keccak(EncodeData(o)))) == Some(owner)
    ensures var r := Decode(t, domain, tokens, keccak, recovery);
            && r == Value(DecodedTrade(OrderUid(o, domain, owner, keccak), t, Settled(s, owner)))
            && Parts(r.value.uid).1 == owner
  {
    OrderOfIs(t, o, tokens);
    EncodingDetermines(o, WithReceiver(o));
    SettlementRoundTrip(s, owner);
    OwnerRecovered(s, owner, domain, keccak(EncodeData(o)), recovery);
    PartsOfUid(keccak(SigningMessage(domain, keccak(EncodeData(o)))), owner, o.validTo);
  }

  /** The owner in the uid of a decoded trade is the recovered one, whatever the calldata holds. */
  lemma DecodedOwner(t: RawTrade, domain: Word, tokens: seq<Address>, keccak: Hash, recovery: Recovery)
    requires Decode(t, domain, tokens, keccak, recovery).Value?
    ensures forall o :: RepeatsTerms(t, o, tokens) ==>
              var d := Decode(t, domain, tokens, keccak, recovery).value;
              && RecoverOwner(d.signature, t.signature, domain, keccak(EncodeData(o)), recovery) == Value(Parts(d.uid).1)
              && d.uid == OrderUid(o, domain, Parts(d.uid).1, keccak) && d.trade == t
  {
    var order := OrderOf(t, tokens);
    var signature := FromBytes(t.scheme, t.signature).value;
    var owner := RecoverOwner(signature, t.signature, domain, keccak(EncodeData(order)), recovery).value;
    PartsOfUid(keccak(SigningMessage(domain, keccak(EncodeData(order)))), owner, order.validTo);
    forall o | RepeatsTerms(t, o, tokens) ensures EncodeData(o) == EncodeData(order) && o.validTo == order.validTo {
      OrderOfIs(t, o, tokens);
      EncodingDetermines(o, order);
    }
  }

  /** Re-encoding a decoded EIP-1271 signature prefixes the owner a second time. */
  lemma DecodedSignatureKeepsOwner(bytes: Bytes, owner: Address)
    ensures ToBytes(Settled(Eip1271(bytes), owner)) == EncodeForSettlement(Eip1271(bytes), owner)
    ensures EncodeForSettlement(Settled(Eip1271(bytes), owner), owner) != EncodeForSettlement(Eip1271(bytes), owner)
  {
    assert |EncodeForSettlement(Settled(Eip1271(bytes), owner), owner)| == 40 + |bytes|;
  }
}
