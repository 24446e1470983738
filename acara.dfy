/** The ACA-RA interface: the flags the RA sends the ACA, the consistency
    rules of an RaAcaCertRequest, the rule that selects the kind of
    AcaResponse, and the envelope of an encrypted individual prelinkage
    value. */
module AcaRa {
  import opened Wrappers
  import opened Asn
  import opened Envelope
  import opened Protocol

  /** RaAcaCertRequestFlags is a BitString(8). */
  const FlagsWidth: nat := 8
  const ButterflyExplicitBit: nat := 0
  const CubkBit: nat := 1

  type FlagBits = s: seq<bool> | |s| == FlagsWidth witness [false, false, false, false, false, false, false, false]

  /** The RaAcaCertRequestFlags object: an 8-bit string whose accessors read
      and write single bits of itself. */
  class RaAcaCertRequestFlags {
    const bits: array<bool>

    ghost predicate Valid()
      reads this
    {
      bits.Length == FlagsWidth
    }

    constructor (init: FlagBits)
      ensures Valid() && fresh(bits) && bits[..] == init
    {
      bits := new bool[FlagsWidth](i requires 0 <= i < FlagsWidth => init[i]);
    }

    /** The bit string's value. */
    function Value(): (r: FlagBits)
      requires Valid()
      reads this, bits
    {
      bits[..]
    }

    /** `get butterflyExplicit`: bit 0. */
    function ButterflyExplicit(): (r: bool)
      requires Valid()
      reads this, bits
      ensures r == IsButterflyExplicit(Value())
    {
      bits[ButterflyExplicitBit]
    }

    /** `get cubk`: bit 1. */
    function Cubk(): (r: bool)
      requires Valid()
      reads this, bits
      ensures r == IsCubk(Value())
    {
      bits[CubkBit]
    }

    /** `set butterflyExplicit(v)`: writes bit 0 and nothing else. */
    method SetButterflyExplicit(v: bool)
      requires Valid()
      modifies bits
      ensures Valid() && Value() == WithBit(old(Value()), ButterflyExplicitBit, v)
      ensures ButterflyExplicit() == v && Cubk() == old(Cubk())
    {
      bits[ButterflyExplicitBit] := v;
    }

    /** `set cubk(v)`: writes bit 1 and nothing else. */
    method SetCubk(v: bool)
      requires Valid()
      modifies bits
      ensures Valid() && Value() == WithBit(old(Value()), CubkBit, v)
      ensures Cubk() == v && ButterflyExplicit() == old(ButterflyExplicit())
    {
      bits[CubkBit] := v;
    }
  }

  function IsButterflyExplicit(flags: FlagBits): bool { flags[ButterflyExplicitBit] }
  function IsCubk(flags: FlagBits): bool { flags[CubkBit] }

  /** The bit string with bit `i` set to `v`. */
  function WithBit(flags: FlagBits, i: nat, v: bool): (r: FlagBits)
    requires i < FlagsWidth
  {
    flags[i := v]
  }

  /** Reading a bit after writing it gives the written value, and every
      other bit is unchanged. */
  lemma WriteThenRead(flags: FlagBits, i: nat, v: bool, j: nat)
    requires i < FlagsWidth && j < FlagsWidth
    ensures WithBit(flags, i, v)[i] == v
    ensures j != i ==> WithBit(flags, i, v)[j] == flags[j]
    ensures WithBit(WithBit(flags, i, v), i, flags[i]) == flags
  {
  }

  /** The two accessors are independent: writing one leaves the other. */
  lemma AccessorsIndependent(flags: FlagBits, v: bool)
    ensures IsButterflyExplicit(WithBit(flags, ButterflyExplicitBit, v)) == v
    ensures IsCubk(WithBit(flags, ButterflyExplicitBit, v)) == IsCubk(flags)
    ensures IsCubk(WithBit(flags, CubkBit, v)) == v
    ensures IsButterflyExplicit(WithBit(flags, CubkBit, v)) == IsButterflyExplicit(flags)
  {
  }

  // ---------------------------------------------------------------------
  // RaAcaCertRequest

  datatype CertificateType = Explicit | Implicit

  /** How the requested certificate carries its verification key. */
  datatype VerifyKeyIndicator = VerificationKey(key: Bytes) | ReconstructionValue(point: Bytes)

  /** The requested certificate's parameters; only the key indicator takes
      part in the rules here, the other fields are kept as octets. */
  datatype ToBeSignedCertificate = ToBeSignedCertificate(verifyKeyIndicator: VerifyKeyIndicator, otherFields: Bytes)

  /** `type` is spelt certType. linkageInfo and certEncKey are optional;
      their contents do not take part in the rules and are kept as octets. */
  datatype RaAcaCertRequest = RaAcaCertRequest(
    version: uint8,
    generationTime: uint32,
    certType: CertificateType,
    flags: FlagBits,
    linkageInfo: Option<Bytes>,
    certEncKey: Option<Bytes>,
    tbsCert: ToBeSignedCertificate)

  /** butterflyExplicit set: valid only for an explicit certificate. */
  predicate ButterflyExplicitRule(r: RaAcaCertRequest)
  {
    IsButterflyExplicit(r.flags) ==> r.certType == Explicit
  }

  /** cubk set: valid only without certEncKey. */
  predicate CubkRule(r: RaAcaCertRequest)
  {
    IsCubk(r.flags) ==> r.certEncKey.None?
  }

  /** The certificate type fixes the verify-key indicator. */
  predicate KeyIndicatorRule(r: RaAcaCertRequest)
  {
    match r.certType
    case Explicit => r.tbsCert.verifyKeyIndicator.VerificationKey?
    case Implicit => r.tbsCert.verifyKeyIndicator.ReconstructionValue?
  }

  predicate ValidRequest(r: RaAcaCertRequest)
  {
    ButterflyExplicitRule(r) && CubkRule(r) && KeyIndicatorRule(r)
  }

  /** A butterfly-explicit request is valid only when its certificate is
      explicit, and then carries a verification key (the cocoon key). */
  lemma ButterflyExplicitNeedsVerificationKey(r: RaAcaCertRequest)
    requires ValidRequest(r) && IsButterflyExplicit(r.flags)
    ensures r.certType == Explicit && r.tbsCert.verifyKeyIndicator.VerificationKey?
  {
  }

  /** In a valid request the certificate type and the kind of key indicator
      determine each other. */
  lemma CertTypeFixesKeyIndicator(r: RaAcaCertRequest)
    requires ValidRequest(r)
    ensures r.certType == Explicit <==> r.tbsCert.verifyKeyIndicator.VerificationKey?
    ensures r.certType == Implicit <==> r.tbsCert.verifyKeyIndicator.ReconstructionValue?
  {
  }

  // ---------------------------------------------------------------------
  // AcaResponse

  datatype AcaResponseKind = Plain | Private | CubkResponse

  const AcaResponseChoice: ChoiceTable := ChoiceTable(["plain", "private", "cubk"], true, [])

  function ResponseName(k: AcaResponseKind): string
  {
    match k
    case Plain => "plain" case Private => "private" case CubkResponse => "cubk"
  }

  /** The choice index of a response kind: the position of its name. */
  function ResponseIndex(k: AcaResponseKind): (r: nat)
    ensures r < |AcaResponseChoice.root| && Alternatives(AcaResponseChoice)[r] == ResponseName(k)
  {
    match k
    case Plain => 0 case Private => 1 case CubkResponse => 2
  }

  /** The alternatives, in order plain, private, cubk, then the marker. */
  lemma AcaResponseLayout(k: AcaResponseKind, l: AcaResponseKind)
    ensures Alternatives(AcaResponseChoice) == ["plain", "private", "cubk"]
    ensures AcaResponseChoice.extensible && WellFormed(AcaResponseChoice)
    ensures ResponseIndex(k) == ResponseIndex(l) ==> k == l
  {
  }

  /** The response the ACA gives, from certEncKey and flags.cubk, as the
      request's certEncKey field describes it; None for the combination
      with no response (certEncKey present and cubk set). */
  function ResponseKind(r: RaAcaCertRequest): Option<AcaResponseKind>
  {
    match (r.certEncKey.Some?, IsCubk(r.flags))
    case (false, false) => Some(Plain)
    case (false, true) => Some(CubkResponse)
    case (true, false) => Some(Private)
    case (true, true) => None
  }

  /** When each AcaResponse alternative is used, as AcaResponse itself
      describes it. */
  predicate UsedFor(k: AcaResponseKind, r: RaAcaCertRequest)
  {
    match k
    case Plain => r.certEncKey.None? && !IsCubk(r.flags)
    case Private => r.certEncKey.Some? && !IsCubk(r.flags)
    case CubkResponse => r.certEncKey.None? && IsCubk(r.flags)
  }

  /** The two descriptions agree: the selected kind is exactly the kind
      whose usage condition holds. */
  lemma ResponseKindMatchesUsage(r: RaAcaCertRequest, k: AcaResponseKind)
    ensures ResponseKind(r) == Some(k) <==> UsedFor(k, r)
  {
  }

  /** A request has a response kind exactly when it obeys the cubk rule;
      so every valid request selects exactly one kind. */
  lemma ValidRequestSelectsOne(r: RaAcaCertRequest, k: AcaResponseKind, l: AcaResponseKind)
    ensures ResponseKind(r).Some? <==> CubkRule(r)
    ensures ValidRequest(r) ==> ResponseKind(r).Some?
    ensures UsedFor(k, r) && UsedFor(l, r) ==> k == l
  {
  }

  /** The SPDU each response kind travels as. */
  function ResponseSpdu(k: AcaResponseKind): Spdu
  {
    match k
    case Plain => AcaEeCertResponsePlainSpdu
    case Private => AcaEeCertResponsePrivateSpdu
    case CubkResponse => AcaEeCertResponseCubkSpdu
  }

  /** Only a plain response can expose its ScmsPdu when decoded; the
      private (encrypt-then-sign) and cubk (encrypted) responses never do. */
  lemma OnlyPlainResponseExposes(r: RaAcaCertRequest)
    requires ResponseKind(r).Some?
    ensures MayExpose(SpduEnvelope(ResponseSpdu(ResponseKind(r).value)))
      <==> r.certEncKey.None? && !IsCubk(r.flags)
  {
  }

  // ---------------------------------------------------------------------
  // EncryptedIndividualPLV

  /** A prelinkage value: 9 octets. */
  type PreLinkageValue = s: Bytes | |s| == 9 witness [0, 0, 0, 0, 0, 0, 0, 0, 0]

  /** The class of EncryptedIndividualPLV.encPlv. */
  const EncPlvEnvelope: Codec := Encrypted(Leaf)

  /** encPlv decodes like the generic container: its prelinkage value is
      never decoded. */
  lemma EncPlvNeverDecoded(bytes: Bytes, outer: Decoder<Ieee1609Dot2Data<PreLinkageValue>>, leaf: Decoder<PreLinkageValue>)
    requires BareDecoder(outer) && Decode(EncPlvEnvelope, bytes, outer, leaf).Success?
    ensures Decode(EncPlvEnvelope, bytes, outer, leaf) == Decode(Base, bytes, outer, leaf)
    ensures Exposed(Decode(EncPlvEnvelope, bytes, outer, leaf).value.value).None?
  {
    NeverExposes(EncPlvEnvelope, bytes, outer, leaf);
  }
}
