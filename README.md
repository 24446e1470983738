# IEEE 1609.2.1 SCMS schema: secured envelopes, SPDU table, ACA-RA and CTL rules

This project is a Dafny model of the executable core of the
`ieee1609dot2dot1js` schema library.

The library's one piece of behaviour is the secured-envelope factory family.
Each factory takes an inner payload type and returns a subclass of the
generic IEEE 1609.2 container `Ieee1609Dot2Data`. The subclass's `from_oer`
works in three steps:

1. It decodes the container; an error here propagates.
2. It tries to decode the inner type from the octets of one fixed nested
   region, and stores the result as that region's `content`.
3. It ignores any failure of step 2.

The composite factories are compositions of the four primitives `Unsecured`,
`Signed`, `CertRequest` and `Encrypted`. `Encrypted` adds no decode step.

On top of the factories the model covers:
- the SPDU table, which gives each named SPDU its envelope composition;
- the closed `ScmsPduContent` choice, the `ScmsPdu` layout and the `ScmsSsp` choice;
- the ACA-RA flags class, the request consistency rules and the response selection rule;
- the envelope of an encrypted prelinkage value;
- the fixed-width hash identifiers and the rules of multi-signed certificate trust lists (CTLs).

Modules, in dependency order:

- `Wrappers` (wrappers.dfy): octet newtypes, `Option`, `Result`, `Decoded` and the `Decoder` function type.
- `Asn` (asn.dfy): `ChoiceTable`, the declaration table the schema hands to the codec library's `Choice`.
- `Envelope` (envelope.dfy): the factories (Ieee1609Dot2Extension.mjs).
- `Protocol` (protocol.dfy): Ieee1609Dot2Dot1Protocol.mjs.
- `AcaRa` (acara.dfy): Ieee1609Dot2Dot1AcaRaInterface.mjs.
- `CertManagement` (certmgmt.dfy): Ieee1609Dot2Dot1CertManagement.mjs.

Modelling choices:

- A class produced by a factory is a value of the recursive datatype
  `Envelope.Codec`. The leaf payload type and the generic container are
  `Leaf` and `Base`.
- `Envelope.Decode` is `from_oer`. Two abstract decoders are parameters:
  - `outer`, the generic container's decoder, which lives in a library outside this model;
  - `leaf`, the leaf payload's decoder.
- A nested region is an `Opaque` value: its octets plus an optional attached
  value. The path through a container that a JavaScript property access would
  throw on becomes `None` in `SlotAt`. This covers two cases: another choice is
  active, or the optional signed payload `data` is absent.
- The "never decodes" properties assume `BareDecoder(outer)`: the generic
  container decoder attaches no inner values itself.
- `RaAcaCertRequestFlags` is a class over an 8-element `array<bool>`. Its
  setters are methods that change one element in place.
- PSIDs: `Protocol.SecurityMgmtPsid` is 35 and `Protocol.BaseMbrPsid` is 38
  (Ieee1609Dot2Dot1Protocol.mjs:25-27).

Points where the model pins down what the code does:

- **ScmsPdu version.** `version` is a bare `Uint8` with no check
  (Ieee1609Dot2Dot1Protocol.mjs:91). The model accepts every version;
  `Protocol.VersionNotGated` states this.
- **CertRequest cursor.** The CertRequest factory takes its cursor from the
  region's stored `content` rather than from the region itself
  (Ieee1609Dot2Extension.mjs:55). The model has both readings:
  `CertRequestAsWritten` as the code reads, and `CertRequest` as evidently
  intended. The SPDU table uses the intended one; see "## Findings".
- **Broken references.** Ieee1609Dot2Dot1Protocol.mjs:141,148 use
  `Ieee1609Dot2Data_SignedEncryptedCertRequest`, which that file does not
  import (lines 20-22). The model gives those two SPDUs the factory they name.
- **Inherited `innerFields`.** `innerFields` copies the static `fields` that
  JavaScript sees on the inner class. A factory-made class inherits `fields`
  from `Ieee1609Dot2Data`. So a factory applied to another factory's class
  records the container's fields, not the leaf's.

## Model

| member | source | states |
|---|---|---|
| Envelope.SiteOf | Ieee1609Dot2Extension.mjs:7-76 | exactly Unsecured, Signed and CertRequest (in both readings) override `from_oer`; Encrypted, the container and the leaf have no nesting point |
| Envelope.WithSlot | Ieee1609Dot2Extension.mjs:12-55 | the assignment to a region stores the new region at exactly that site and keeps the protocol version |
| Envelope.InnerFieldsOfPrimitive | Ieee1609Dot2Extension.mjs:19-21 | a primitive factory over the leaf type records the leaf's `fields`, and none when the leaf has none; over the container it records the container's |
| Envelope.OuterErrorPropagates | Ieee1609Dot2Extension.mjs:10-16 | a container decode error is the factory class's error, unchanged |
| Envelope.OnlyContentChanges | Ieee1609Dot2Extension.mjs:10-16 | whenever the container decodes, the factory class decodes too, with the same cursor advance, and differs from the container only in the content of its active region |
| Envelope.AttachmentOrigin | Ieee1609Dot2Extension.mjs:7-64 | an attached value appears only at the factory's own site and never for CertRequest as written, and it is exactly the inner type's decode of that region's octets |
| Envelope.AttachesOnSuccess | Ieee1609Dot2Extension.mjs:7-64 | when the region exists, its cursor can be read and the inner decode of the cursor's octets succeeds, the region keeps its octets and holds the inner value; the cursor is the region's octets for Unsecured (line 12), Signed (line 33) and CertRequest as intended, and cannot be read for CertRequest as written (line 55) |
| Envelope.InnerFailureSwallowed | Ieee1609Dot2Extension.mjs:10-16 | with no nesting point, a missing region, an unreadable cursor or a failed inner decode, the result is the container decoder's value as is |
| Envelope.EncryptedDecodesAsBase | Ieee1609Dot2Extension.mjs:70-117 | Encrypted, SignedEncrypted and SignedEncryptedCertRequest decode exactly like the container, whatever they wrap; SymmEncryptedSingleRecipient decodes like Encrypted |
| Envelope.ExposedOnlyAtLeafPath | Ieee1609Dot2Extension.mjs:7-76 | a decoded leaf payload is reachable only through a codec chain free of Encrypted and Base, and only along that codec's fixed path |
| Envelope.NeverExposes | Ieee1609Dot2Extension.mjs:82-113 | a composition cut by Encrypted or the container never yields a leaf payload |
| Envelope.ExposesOneLevel | Ieee1609Dot2Extension.mjs:7-64 | a primitive factory over the leaf whose cursor can be read exposes the leaf decoded from the cursor's octets, at its one site; such a factory is one that may expose (CertRequest as written is not) |
| Envelope.EncryptedSignedAttachesContainer | Ieee1609Dot2Extension.mjs:91-94 | EncryptedSigned attaches under the signed payload only a plain container decode of the payload octets, never a payload value |
| Envelope.SignedCertRequestExposes | Ieee1609Dot2Extension.mjs:100-103 | SignedCertRequest, with CertRequest as intended, places the payload decoded from the inner request region's octets at signedData.tbsData.payload.data.content.signedCertificateRequest.content |
| Envelope.OrderMatters | Ieee1609Dot2Extension.mjs:82-94 | over the same octets, sign-then-encrypt and encrypt-then-sign give different results |
| Envelope.InnerFieldsOfComposite | Ieee1609Dot2Extension.mjs:82-113 | a factory applied to a factory-made class records the container's inherited fields |
| Envelope.CertRequestAsWrittenNeverAttaches | Ieee1609Dot2Extension.mjs:49-64 | as written, the CertRequest class decodes exactly like the generic container, whatever it wraps |
| Envelope.SignedCertRequestAsWrittenNeverExposes | Ieee1609Dot2Extension.mjs:100-103 | as written, SignedCertRequest never yields its payload |
| Envelope.CertRequestCursorExample | Ieee1609Dot2Extension.mjs:55 | on a container holding signedCertificateRequest over octet 7, CertRequest as intended exposes the decoded payload and CertRequest as written returns the container unchanged |
| Protocol.InterfaceIndex | Ieee1609Dot2Dot1Protocol.mjs:64-77 | each interface family's choice index is inside the root and names that family |
| Protocol.InterfaceAt | Ieee1609Dot2Dot1Protocol.mjs:64-77 | an index selects a family exactly when it is inside the root, and the family selected has that index |
| Protocol.ScmsPduContentLayout | Ieee1609Dot2Dot1Protocol.mjs:64-77 | the choice has 11 root alternatives, then a marker and no additions; index and family determine each other |
| Protocol.EncodeScmsPdu | Ieee1609Dot2Dot1Protocol.mjs:90-94 | an ScmsPdu's encoding is one version octet followed by exactly the content's encoding |
| Protocol.ScmsPduRoundTrip | Ieee1609Dot2Dot1Protocol.mjs:90-94 | decoding an encoded ScmsPdu, with any trailing octets, gives it back and consumes exactly its encoding |
| Protocol.VersionNotGated | Ieee1609Dot2Dot1Protocol.mjs:91 | every version octet is accepted; the PDU decodes exactly when its content does |
| Protocol.SpduGroups | Ieee1609Dot2Dot1Protocol.mjs:129-151 | the unsecured, signed, signed-cert-request, encrypt-then-sign and container-like groups are exactly the SPDUs with those compositions, and together cover every SPDU |
| Protocol.SpduMayExpose | Ieee1609Dot2Dot1Protocol.mjs:129-151 | with CertRequest as intended, an SPDU can expose an ScmsPdu exactly when it is neither encrypt-then-sign nor container-like |
| Protocol.SpduMayExposeAsWritten | Ieee1609Dot2Dot1Protocol.mjs:129-151 | with CertRequest as written, only the unsecured and the signed SPDUs can expose an ScmsPdu; RaAcaCertRequestSpdu and EeEcaCertRequestSpdu cannot |
| Protocol.SpduLeafPath | Ieee1609Dot2Dot1Protocol.mjs:129-151 | the ScmsPdu lands at unsecuredData, at the signed payload, or at the signed payload's signedCertificateRequest, by group |
| Protocol.ContainerLikeDecode | Ieee1609Dot2Dot1Protocol.mjs:131-151 | Cubk response, X509 and 1609.2 authenticated requests, download request, successor enrolment request, EeRaCertRequest and encrypted misbehaviour report decode exactly like Ieee1609Dot2Data |
| Protocol.NeverYieldsScmsPdu | Ieee1609Dot2Dot1Protocol.mjs:129-151 | encrypt-then-sign and container-like SPDUs never yield a decoded ScmsPdu |
| Protocol.UnsecuredSpduYieldsScmsPdu | Ieee1609Dot2Dot1Protocol.mjs:129-146 | an unsecured SPDU yields the ScmsPdu decoded from unsecuredData's octets, at unsecuredData.content |
| Protocol.SspIndex | Ieee1609Dot2Dot1Protocol.mjs:191-207 | each role's choice index names that role, additions numbered after the root |
| Protocol.ScmsSspLayout | Ieee1609Dot2Dot1Protocol.mjs:191-207 | 13 root alternatives then the marker; dc, numbered 13, is the only extension addition; index and role determine each other |
| AcaRa.RaAcaCertRequestFlags.constructor | Ieee1609Dot2Dot1AcaRaInterface.mjs:46 | a fresh 8-bit string holding the given bits |
| AcaRa.RaAcaCertRequestFlags.ButterflyExplicit | Ieee1609Dot2Dot1AcaRaInterface.mjs:47 | the getter reads bit 0 of the flags |
| AcaRa.RaAcaCertRequestFlags.Cubk | Ieee1609Dot2Dot1AcaRaInterface.mjs:49 | the getter reads bit 1 of the flags |
| AcaRa.RaAcaCertRequestFlags.SetButterflyExplicit | Ieee1609Dot2Dot1AcaRaInterface.mjs:48 | the new bits are the old with bit 0 replaced; the getter then returns the written value and cubk is unchanged |
| AcaRa.RaAcaCertRequestFlags.SetCubk | Ieee1609Dot2Dot1AcaRaInterface.mjs:50 | the new bits are the old with bit 1 replaced; the getter then returns the written value and butterflyExplicit is unchanged |
| AcaRa.WriteThenRead | Ieee1609Dot2Dot1AcaRaInterface.mjs:46-51 | a read after a write returns the written bit, no other bit changes, and writing the old bit back restores the flags |
| AcaRa.AccessorsIndependent | Ieee1609Dot2Dot1AcaRaInterface.mjs:46-51 | writing either flag leaves the other flag's value |
| AcaRa.ButterflyExplicitNeedsVerificationKey | Ieee1609Dot2Dot1AcaRaInterface.mjs:136-142 | a valid butterfly-explicit request is explicit and carries a verification key (the cocoon key) |
| AcaRa.CertTypeFixesKeyIndicator | Ieee1609Dot2Dot1AcaRaInterface.mjs:175-183 | in a valid request, explicit goes with a verification key and implicit with a reconstruction value, both ways |
| AcaRa.ResponseIndex | Ieee1609Dot2Dot1AcaRaInterface.mjs:217-222 | each response kind's choice index is inside the root and names that kind |
| AcaRa.AcaResponseLayout | Ieee1609Dot2Dot1AcaRaInterface.mjs:217-222 | the alternatives are plain, private, cubk, then the marker |
| AcaRa.ResponseKindMatchesUsage | Ieee1609Dot2Dot1AcaRaInterface.mjs:159-173 | the kind selected from certEncKey and cubk is exactly the kind whose AcaResponse usage condition holds |
| AcaRa.ValidRequestSelectsOne | Ieee1609Dot2Dot1AcaRaInterface.mjs:144-173 | a request selects a kind exactly when it obeys the cubk rule; a valid request selects one, and at most one usage condition holds |
| AcaRa.OnlyPlainResponseExposes | Ieee1609Dot2Dot1AcaRaInterface.mjs:203-222 | of the selected responses only the plain one can expose its ScmsPdu, and it is selected exactly when certEncKey is absent and cubk unset |
| AcaRa.EncPlvNeverDecoded | Ieee1609Dot2Dot1AcaRaInterface.mjs:81-85 | encPlv decodes exactly like the container and never exposes its prelinkage value |
| CertManagement.Truncate | Ieee1609Dot2Dot1CertManagement.mjs:11-13 | the truncated hash has exactly the target width and is what remains after removing the hash's leading octets |
| CertManagement.TruncateIsLowOrder | Ieee1609Dot2Dot1CertManagement.mjs:11-13 | the truncated octets are the low-order part: the hash's value is the dropped part times 256 to the width plus the kept part, which is below 256 to the width |
| CertManagement.TruncateTwice | Ieee1609Dot2Dot1CertManagement.mjs:156-161 | truncating a HashedId48 to 32 octets gives the same root CA entry as truncating the full hash |
| CertManagement.SignatureMatchesIff | Ieee1609Dot2Dot1CertManagement.mjs:227-231 | a ToBeSignedCtlSignature matches a CTL exactly when it is the one formed from that CTL's group, type and sequence number |
| CertManagement.SignatureCountBound | Ieee1609Dot2Dot1CertManagement.mjs:206-209 | signatures from distinct electors of a group are no more than the group's electors |
| CertManagement.ValidCtlProperties | Ieee1609Dot2Dot1CertManagement.mjs:196-215 | in a valid multi-signed CTL the inner type is fullIeeeCtl and the signatures are no more than the electors |
| CertManagement.RemoveListsInformational | Ieee1609Dot2Dot1CertManagement.mjs:148-170 | trust in an elector or root CA is unchanged by any remove lists; an entry missing from the approve list is untrusted |
| CertManagement.SeriesProperties | Ieee1609Dot2Dot1CertManagement.mjs:136-141 | along a valid series the group is fixed, the sequence number advances by one per CTL and effective dates never decrease |
| CertManagement.NoSuccessorAtMaximum | Ieee1609Dot2Dot1CertManagement.mjs:75-79 | a CTL with sequence number 65535 has no successor in a series |
| CertManagement.AbsentQuorumInherited | Ieee1609Dot2Dot1CertManagement.mjs:172-175 | CTLs without a quorum leave the quorum of the series unchanged |
| CertManagement.LastQuorumWins | Ieee1609Dot2Dot1CertManagement.mjs:172-175 | the quorum after a series is the one set by its last CTL that carries a quorum |

## Findings

| source | as written | input that shows it | evidently intended | confidence | as-written member | corrected member |
|---|---|---|---|---|---|---|
| Ieee1609Dot2Extension.mjs:55 | the CertRequest factory asks `signedCertificateRequest.content` for its cursor; a container decode leaves `content` unset, so the call throws, the throw is swallowed and nothing is attached; RaAcaCertRequestSpdu and EeEcaCertRequestSpdu never yield their ScmsPdu | a container whose content is signedCertificateRequest over the octet 7, with a leaf decoder that accepts it | the cursor is the region's own, `signedCertificateRequest.dataCursor()`, as Unsecured (line 12) and Signed (line 33) do, so the payload is attached at `signedCertificateRequest.content` | medium; not executed | Envelope.CertRequestAsWrittenNeverAttaches | Envelope.AttachesOnSuccess |

`Envelope.CertRequestCursorExample` exhibits the input above for both
readings. `Envelope.SignedCertRequestAsWrittenNeverExposes` and
`Protocol.SpduMayExposeAsWritten` carry the as-written reading to the SPDU
table. `Envelope.SignedCertRequestExposes` and `Protocol.SpduMayExpose`
carry the intended one.

## Left out

- Envelope.Cursor: for CertRequest as written, a region whose `content` is
  already set is read as a throw as well. Only a decoder could have stored
  that value, and the container decoder stores none, so what `dataCursor()`
  of such a value would give is outside the model.

- The container codec: the OER encoding and decoding of `Ieee1609Dot2Data`,
  `Sequence`, `Choice`, `OctetString` and `BitString`, and `dataCursor()`,
  belong to libraries outside this model. The container decoder and the
  leaf decoder are parameters of `Envelope.Decode`. The interface PDUs
  inside `ScmsPduContent` are kept as octets.
- Envelope.Decode: the octets the inner decode consumes are not compared with
  the region's length, as in the source. Trailing octets in a region are
  ignored.
- Envelope.Decode: the factories update the decoded object in place. The
  model returns a functionally updated copy; there is no aliasing to model,
  since the object is fresh.
- Cryptography: signing, verification, encryption, decryption and hashing do
  not occur in the code. Encrypted has no decrypt step, and the model has none.
- Tolerance of unknown extension additions and unknown choice alternatives
  happens in the codec library, not in this code.
- The octet layout of the `BitString(8)` flags: the model has the bit indices
  the accessors use, not the mapping of bits to octets.
- CertManagement.TbsCtlSignatureFor: the tbsCtlHash is a parameter, because it
  is the hash of the C-OER encoding of tbsCtl and hashing is left out.
- CertManagement.IsSuccessor: at sequence number 65535 the source leaves the
  successor unspecified. The model uses unbounded arithmetic, so no successor
  exists there (`NoSuccessorAtMaximum`).
- CertManagement.SeriesQuorum: the model records the quorum each CTL hands to
  the next. It does not check that the next CTL is signed by that many
  electors, because the source does not say which electors count.
- CertManagement.MultiSignedCtl: a CtlSignatureSpdu is modelled by the hash
  of the signing elector's certificate and its ToBeSignedCtlSignature. The
  rest of the signed envelope is covered by the Envelope module.
- The `unsigned` certificates of a MultiSignedCtl and the contents of
  `linkageInfo` and `certEncKey` are kept as octets, because no rule depends
  on them.
- Load-time breakage: duplicate imports, and names used without an import
  (`UInt16`, `LaId`, `CrlSeries`, `Choice` and the AcaEe response SPDUs;
  in Ieee1609Dot2Dot1AcaRaInterface.mjs, which imports only the names at
  lines 33-35, also `CertificateType` (line 188), `PublicEncryptionKey`
  (line 191), `ToBeSignedCertificate` (line 192) and `HashedId8` (line 247)).
  The model gives each name its evident meaning: the `type`, `certEncKey` and
  `tbsCert` fields of `RaAcaCertRequest` take their meaning from the model,
  not from the source file.
- The pure declaration files are outside the core: the EeRa, CamRa, Acpc, CRL
  base type, EeMa, LaMa and LaRa interfaces and the re-export module. Their
  only behaviour is the factories modelled here.
