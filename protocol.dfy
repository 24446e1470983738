/** The SCMS protocol layer: the top-level ScmsPdu, its closed choice of
    interface families, the table that gives each named SPDU its envelope
    composition, the ScmsSsp choice and the two PSIDs. */
module Protocol {
  import opened Wrappers
  import opened Asn
  import opened Envelope

  /** PSID of SCMS security-management messages. */
  const SecurityMgmtPsid: nat := 35
  /** PSID of the basic misbehaviour report. */
  const BaseMbrPsid: nat := 38

  // ---------------------------------------------------------------------
  // ScmsPdu

  /** The pairwise interface families ScmsPduContent selects between. */
  datatype Interface = AcaEe | AcaLa | AcaMa | AcaRa | Cert | EcaEe | EeMa | EeRa | LaMa | LaRa | MaRa

  const ScmsPduContentChoice: ChoiceTable := ChoiceTable(
    ["aca_ee", "aca_la", "aca_ma", "aca_ra", "cert", "eca_ee", "ee_ma", "ee_ra", "la_ma", "la_ra", "ma_ra"],
    true, [])

  function InterfaceName(i: Interface): string
  {
    match i
    case AcaEe => "aca_ee" case AcaLa => "aca_la" case AcaMa => "aca_ma" case AcaRa => "aca_ra"
    case Cert => "cert" case EcaEe => "eca_ee" case EeMa => "ee_ma" case EeRa => "ee_ra"
    case LaMa => "la_ma" case LaRa => "la_ra" case MaRa => "ma_ra"
  }

  /** The choice index of an interface: the position of its name in the
      table, among the root alternatives. */
  function InterfaceIndex(i: Interface): (r: nat)
    ensures r < |ScmsPduContentChoice.root|
    ensures Alternatives(ScmsPduContentChoice)[r] == InterfaceName(i)
  {
    match i
    case AcaEe => 0 case AcaLa => 1 case AcaMa => 2 case AcaRa => 3 case Cert => 4 case EcaEe => 5
    case EeMa => 6 case EeRa => 7 case LaMa => 8 case LaRa => 9 case MaRa => 10
  }

  /** The interface a choice index selects, or None past the root: the
      inverse of InterfaceIndex. */
  function InterfaceAt(index: nat): (r: Option<Interface>)
    ensures r.Some? ==> InterfaceIndex(r.value) == index
    ensures r.None? <==> index >= |ScmsPduContentChoice.root|
  {
    if index == 0 then Some(AcaEe) else if index == 1 then Some(AcaLa)
    else if index == 2 then Some(AcaMa) else if index == 3 then Some(AcaRa)
    else if index == 4 then Some(Cert) else if index == 5 then Some(EcaEe)
    else if index == 6 then Some(EeMa) else if index == 7 then Some(EeRa)
    else if index == 8 then Some(LaMa) else if index == 9 then Some(LaRa)
    else if index == 10 then Some(MaRa) else None
  }

  /** ScmsPduContent is closed: eleven root alternatives, an extension
      marker and no additions; index and interface determine each other. */
  lemma ScmsPduContentLayout(i: Interface, j: Interface)
    ensures |ScmsPduContentChoice.root| == 11 && ScmsPduContentChoice.extensible
    ensures ScmsPduContentChoice.additions == [] && WellFormed(ScmsPduContentChoice)
    ensures InterfaceAt(InterfaceIndex(i)) == Some(i)
    ensures InterfaceIndex(i) == InterfaceIndex(j) ==> i == j
  {
  }

  /** One interface family's PDU: the chosen interface and the octets of
      that interface's own PDU, whose types are outside this model. */
  datatype ScmsPduContent = ScmsPduContent(family: Interface, body: Bytes)

  /** The version octet and the content; the version is a bare Uint8. */
  datatype ScmsPdu = ScmsPdu(version: uint8, content: ScmsPduContent)

  /** ScmsPdu's decoder: one octet of version, then ScmsPduContent, with no
      check on the version value. */
  function DecodeScmsPdu(bytes: Bytes, content: Decoder<ScmsPduContent>): Result<Decoded<ScmsPdu>>
  {
    if bytes == [] then Failure(DecodeError("Uint8: no octet left"))
    else match content(bytes[1..])
      case Failure(e) => Failure(e)
      case Success(r) => Success(Decoded(ScmsPdu(bytes[0], r.value), 1 + r.consumed))
  }

  function EncodeScmsPdu(pdu: ScmsPdu, content: ScmsPduContent -> Bytes): (r: Bytes)
    ensures |r| == 1 + |content(pdu.content)| && r[0] == pdu.version
    ensures r[1..] == content(pdu.content)
  {
    [pdu.version] + content(pdu.content)
  }

  /** Decoding an encoded ScmsPdu gives it back and consumes exactly its
      encoding, whenever the content codec round-trips. */
  lemma ScmsPduRoundTrip(pdu: ScmsPdu, rest: Bytes, encode: ScmsPduContent -> Bytes, decode: Decoder<ScmsPduContent>)
    requires decode(encode(pdu.content) + rest) == Success(Decoded(pdu.content, |encode(pdu.content)|))
    ensures DecodeScmsPdu(EncodeScmsPdu(pdu, encode) + rest, decode)
      == Success(Decoded(pdu, |EncodeScmsPdu(pdu, encode)|))
  {
    var w := EncodeScmsPdu(pdu, encode) + rest;
    assert w[1..] == encode(pdu.content) + rest;
  }

  /** Every version octet is accepted: an ScmsPdu decodes exactly when its
      content does, and carries the version it was given. */
  lemma VersionNotGated(v: uint8, rest: Bytes, content: Decoder<ScmsPduContent>)
    ensures DecodeScmsPdu([v] + rest, content).Success? <==> content(rest).Success?
    ensures DecodeScmsPdu([v] + rest, content).Success? ==>
      DecodeScmsPdu([v] + rest, content).value.value == ScmsPdu(v, content(rest).value.value)
  {
    assert ([v] + rest)[1..] == rest;
  }

  // ---------------------------------------------------------------------
  // The SPDU table

  datatype Spdu =
    | AcaEeCertResponsePlainSpdu
    | AcaEeCertResponsePrivateSpdu
    | AcaEeCertResponseCubkSpdu
    | RaAcaCertRequestSpdu
    | AcaRaCertResponseSpdu
    | CompositeCrlSpdu
    | CertificateChainSpdu
    | MultiSignedCtlSpdu
    | CtlSignatureSpdu
    | CertificateManagementInformationStatusSpdu
    | EeEcaCertRequestSpdu
    | EeRaCertRequestSpdu
    | EeRa1609Dot2AuthenticatedCertRequestSpdu
    | EeRaX509AuthenticatedCertRequestSpdu
    | RaEeCertAckSpdu
    | RaEeCertInfoSpdu
    | RaEeCertAndAcpcInfoSpdu
    | EeRaDownloadRequestPlainSpdu
    | EeRaDownloadRequestSpdu
    | EeRaSuccessorEnrollmentCertRequestSpdu
    | RaEeEnrollmentCertAckSpdu
    | EeRaEncryptedSignedMisbehaviorReportSpdu
    | EeRaEncryptedMisbehaviorReportSpdu

  /** The class each SPDU extends, over the leaf type ScmsPdu_Scoped. */
  function SpduEnvelope(s: Spdu): Codec
  {
    match s
    case AcaEeCertResponsePlainSpdu => Unsecured(Leaf)
    case AcaEeCertResponsePrivateSpdu => EncryptedSigned(Leaf)
    case AcaEeCertResponseCubkSpdu => Encrypted(Leaf)
    case RaAcaCertRequestSpdu => SignedCertRequest(Leaf)
    case AcaRaCertResponseSpdu => Signed(Leaf)
    case CompositeCrlSpdu => Unsecured(Leaf)
    case CertificateChainSpdu => Unsecured(Leaf)
    case MultiSignedCtlSpdu => Unsecured(Leaf)
    case CtlSignatureSpdu => Signed(Leaf)
    case CertificateManagementInformationStatusSpdu => Signed(Leaf)
    case EeEcaCertRequestSpdu => SignedCertRequest(Leaf)
    case EeRaCertRequestSpdu => Base
    case EeRa1609Dot2AuthenticatedCertRequestSpdu => SignedEncryptedCertRequest(Leaf)
    case EeRaX509AuthenticatedCertRequestSpdu => Encrypted(Leaf)
    case RaEeCertAckSpdu => Signed(Leaf)
    case RaEeCertInfoSpdu => Unsecured(Leaf)
    case RaEeCertAndAcpcInfoSpdu => Signed(Leaf)
    case EeRaDownloadRequestPlainSpdu => Unsecured(Leaf)
    case EeRaDownloadRequestSpdu => SignedEncrypted(Leaf)
    case EeRaSuccessorEnrollmentCertRequestSpdu => SignedEncryptedCertRequest(Leaf)
    case RaEeEnrollmentCertAckSpdu => Signed(Leaf)
    case EeRaEncryptedSignedMisbehaviorReportSpdu => EncryptedSigned(Leaf)
    case EeRaEncryptedMisbehaviorReportSpdu => Base
  }

  const UnsecuredSpdus: set<Spdu> := {
    AcaEeCertResponsePlainSpdu, CompositeCrlSpdu, CertificateChainSpdu, MultiSignedCtlSpdu,
    RaEeCertInfoSpdu, EeRaDownloadRequestPlainSpdu}

  const SignedSpdus: set<Spdu> := {
    AcaRaCertResponseSpdu, CtlSignatureSpdu, CertificateManagementInformationStatusSpdu,
    RaEeCertAckSpdu, RaEeCertAndAcpcInfoSpdu, RaEeEnrollmentCertAckSpdu}

  const SignedCertRequestSpdus: set<Spdu> := {RaAcaCertRequestSpdu, EeEcaCertRequestSpdu}

  const EncryptThenSignSpdus: set<Spdu> := {AcaEeCertResponsePrivateSpdu, EeRaEncryptedSignedMisbehaviorReportSpdu}

  /** The SPDUs whose class decodes exactly like the generic container. */
  const ContainerLikeSpdus: set<Spdu> := {
    AcaEeCertResponseCubkSpdu, EeRaCertRequestSpdu, EeRa1609Dot2AuthenticatedCertRequestSpdu,
    EeRaX509AuthenticatedCertRequestSpdu, EeRaDownloadRequestSpdu,
    EeRaSuccessorEnrollmentCertRequestSpdu, EeRaEncryptedMisbehaviorReportSpdu}

  /** The five groups partition the SPDUs, each by its composition. */
  lemma SpduGroups(s: Spdu)
    ensures s in UnsecuredSpdus <==> SpduEnvelope(s) == Unsecured(Leaf)
    ensures s in SignedSpdus <==> SpduEnvelope(s) == Signed(Leaf)
    ensures s in SignedCertRequestSpdus <==> SpduEnvelope(s) == Signed(CertRequest(Leaf))
    ensures s in EncryptThenSignSpdus <==> SpduEnvelope(s) == Signed(Encrypted(Leaf))
    ensures s in ContainerLikeSpdus <==> SpduEnvelope(s).Base? || SpduEnvelope(s).Encrypted?
    ensures s in UnsecuredSpdus + SignedSpdus + SignedCertRequestSpdus + EncryptThenSignSpdus + ContainerLikeSpdus
  {
  }

  /** An SPDU class can expose a decoded ScmsPdu exactly when it is not
      encrypt-then-sign and not container-like. */
  lemma SpduMayExpose(s: Spdu)
    ensures MayExpose(SpduEnvelope(s)) <==> s !in EncryptThenSignSpdus + ContainerLikeSpdus
  {
  }

  /** With the CertRequest factory as its code reads, the two signed
      certificate request SPDUs cannot expose their ScmsPdu either: only the
      unsecured and the signed ones can. */
  lemma SpduMayExposeAsWritten(s: Spdu)
    ensures MayExpose(AsWritten(SpduEnvelope(s))) <==> s in UnsecuredSpdus + SignedSpdus
  {
  }

  /** Where an SPDU's ScmsPdu lands is fixed by its group. */
  lemma SpduLeafPath(s: Spdu)
    ensures s in UnsecuredSpdus ==> LeafPath(SpduEnvelope(s)) == [AtUnsecuredData]
    ensures s in SignedSpdus ==> LeafPath(SpduEnvelope(s)) == [AtSignedPayloadData]
    ensures s in SignedCertRequestSpdus ==>
      LeafPath(SpduEnvelope(s)) == [AtSignedPayloadData, AtSignedCertificateRequest]
  {
  }

  /** Container-like SPDUs decode exactly like Ieee1609Dot2Data. */
  lemma ContainerLikeDecode(s: Spdu, bytes: Bytes, outer: Decoder<Ieee1609Dot2Data<ScmsPdu>>, leaf: Decoder<ScmsPdu>)
    requires s in ContainerLikeSpdus
    ensures Decode(SpduEnvelope(s), bytes, outer, leaf) == Decode(Base, bytes, outer, leaf)
  {
  }

  /** Encrypt-then-sign and container-like SPDUs never yield an ScmsPdu. */
  lemma NeverYieldsScmsPdu(s: Spdu, bytes: Bytes, outer: Decoder<Ieee1609Dot2Data<ScmsPdu>>, leaf: Decoder<ScmsPdu>)
    requires s in EncryptThenSignSpdus + ContainerLikeSpdus
    requires BareDecoder(outer) && Decode(SpduEnvelope(s), bytes, outer, leaf).Success?
    ensures Exposed(Decode(SpduEnvelope(s), bytes, outer, leaf).value.value).None?
  {
    SpduMayExpose(s);
    NeverExposes(SpduEnvelope(s), bytes, outer, leaf);
  }

  /** An unsecured SPDU whose container holds unsecuredData yields the
      ScmsPdu decoded from those octets, at unsecuredData.content. */
  lemma UnsecuredSpduYieldsScmsPdu(s: Spdu, bytes: Bytes, outer: Decoder<Ieee1609Dot2Data<ScmsPdu>>, leaf: Decoder<ScmsPdu>)
    requires s in UnsecuredSpdus && outer(bytes).Success?
    requires outer(bytes).value.value.content.UnsecuredData?
    requires leaf(outer(bytes).value.value.content.unsecuredData.raw).Success?
    ensures Exposed(Decode(SpduEnvelope(s), bytes, outer, leaf).value.value)
      == Some(leaf(outer(bytes).value.value.content.unsecuredData.raw).value.value)
    ensures Chain(Decode(SpduEnvelope(s), bytes, outer, leaf).value.value) == [AtUnsecuredData]
  {
    ExposesOneLevel(SpduEnvelope(s), bytes, outer, leaf);
  }

  // ---------------------------------------------------------------------
  // ScmsSsp

  /** The service-specific permissions of the SCMS roles. */
  datatype ScmsSsp = Elector | Root | Pg | Ica | Eca | Aca | Crl | Dcm | La | Lop | Ma | Ra | Ee | Dc

  const ScmsSspChoice: ChoiceTable := ChoiceTable(
    ["elector", "root", "pg", "ica", "eca", "aca", "crl", "dcm", "la", "lop", "ma", "ra", "ee"],
    true, ["dc"])

  function SspName(s: ScmsSsp): string
  {
    match s
    case Elector => "elector" case Root => "root" case Pg => "pg" case Ica => "ica"
    case Eca => "eca" case Aca => "aca" case Crl => "crl" case Dcm => "dcm" case La => "la"
    case Lop => "lop" case Ma => "ma" case Ra => "ra" case Ee => "ee" case Dc => "dc"
  }

  /** The choice index of a role: its position in the table, additions
      numbered after the root. */
  function SspIndex(s: ScmsSsp): (r: nat)
    ensures r < |Alternatives(ScmsSspChoice)|
    ensures Alternatives(ScmsSspChoice)[r] == SspName(s)
  {
    match s
    case Elector => 0 case Root => 1 case Pg => 2 case Ica => 3 case Eca => 4 case Aca => 5
    case Crl => 6 case Dcm => 7 case La => 8 case Lop => 9 case Ma => 10 case Ra => 11 case Ee => 12
    case Dc => 13
  }

  /** A role is an extension addition when it is numbered past the root. */
  predicate IsExtensionAddition(s: ScmsSsp)
  {
    SspIndex(s) >= |ScmsSspChoice.root|
  }

  /** Thirteen root alternatives elector … ee, then the marker, and dc the
      only alternative after it, numbered 13. */
  lemma ScmsSspLayout(s: ScmsSsp, t: ScmsSsp)
    ensures |ScmsSspChoice.root| == 13 && WellFormed(ScmsSspChoice)
    ensures IsExtensionAddition(s) <==> s == Dc
    ensures SspIndex(Dc) == 13
    ensures SspIndex(s) == SspIndex(t) ==> s == t
  {
  }
}
