/** The secured-envelope factories of IEEE 1609.2.1 (the SPDU wrappers of
    clause 6.3): given an inner payload type, each factory yields a subclass
    of the generic container Ieee1609Dot2Data whose `from_oer` decodes the
    container, then tries to decode the inner type from one fixed nested
    region and attaches the result there, swallowing any inner failure.

    The generic container's own decoder and the leaf payload's decoder
    belong to codec libraries outside this model; they are the parameters
    `outer` and `leaf` of `Decode`. */
module Envelope {
  import opened Wrappers

  /** A payload type handed to a factory: the leaf payload type (for example
      ScmsPdu_Scoped or PreLinkageValue), the generic container itself, or a
      class returned by one of the four primitive factories. `CertRequest` is
      the CertRequest factory as evidently intended, reading its cursor from
      the signedCertificateRequest region like the other two;
      `CertRequestAsWritten` is that factory as its code reads, taking the
      cursor from the region's stored `content` (see `Cursor`). */
  datatype Codec =
    | Leaf
    | Base
    | Unsecured(inner: Codec)
    | Signed(inner: Codec)
    | CertRequest(inner: Codec)
    | CertRequestAsWritten(inner: Codec)
    | Encrypted(inner: Codec)

  /** The class the source builds: every CertRequest is the factory as its
      code reads. */
  function AsWritten(c: Codec): Codec
  {
    match c
    case Leaf => Leaf
    case Base => Base
    case Unsecured(e) => Unsecured(AsWritten(e))
    case Signed(e) => Signed(AsWritten(e))
    case CertRequest(e) => CertRequestAsWritten(AsWritten(e))
    case CertRequestAsWritten(e) => CertRequestAsWritten(AsWritten(e))
    case Encrypted(e) => Encrypted(AsWritten(e))
  }

  /** The composite factories are plain composition of the primitives. */
  function SignedEncrypted(p: Codec): Codec { Encrypted(Signed(p)) }
  function EncryptedSigned(p: Codec): Codec { Signed(Encrypted(p)) }
  function SignedCertRequest(p: Codec): Codec { Signed(CertRequest(p)) }
  function SignedEncryptedCertRequest(p: Codec): Codec { Encrypted(Signed(CertRequest(p))) }
  function SymmEncryptedSingleRecipient(p: Codec): Codec { Encrypted(p) }

  /** A decoded value: a leaf payload, or a container (possibly with an
      inner value attached somewhere inside it). */
  datatype Value<P> = LeafValue(leaf: P) | DataValue(data: Ieee1609Dot2Data<P>)

  /** An Opaque octet region of the container: the octets a cursor reads,
      and the value a factory stored as the region's `content`. */
  datatype Opaque<P> = Opaque(raw: Bytes, content: Option<Value<P>>)

  datatype Ieee1609Dot2Data<P> = Ieee1609Dot2Data(protocolVersion: uint8, content: Ieee1609Dot2Content<P>)

  datatype Ieee1609Dot2Content<P> =
    | UnsecuredData(unsecuredData: Opaque<P>)
    | SignedData(signedData: SignedDataBody<P>)
    | EncryptedData(encryptedData: Bytes)
    | SignedCertificateRequest(signedCertificateRequest: Opaque<P>)

  /** signedData: the hash algorithm, the to-be-signed data, the signer and
      the signature (the last two kept as their octets). */
  datatype SignedDataBody<P> = SignedDataBody(hashId: uint8, tbsData: ToBeSignedData<P>, signer: Bytes, signature: Bytes)

  datatype ToBeSignedData<P> = ToBeSignedData(payload: SignedDataPayload<P>, headerInfo: Bytes)

  /** `data` is optional: a signed payload may carry only an external data hash. */
  datatype SignedDataPayload<P> = SignedDataPayload(data: Option<Opaque<P>>, extDataHash: Option<Bytes>)

  /** The fixed nesting points the primitive factories write to. */
  datatype Site =
    | AtUnsecuredData             // content.unsecuredData.content
    | AtSignedPayloadData         // content.signedData.tbsData.payload.data.content
    | AtSignedCertificateRequest  // content.signedCertificateRequest.content

  /** The nesting point of a factory-made class; None for the leaf, for the
      container and for Encrypted, which override nothing. */
  function SiteOf(c: Codec): (r: Option<Site>)
    ensures r.Some? <==> c.Unsecured? || c.Signed? || c.CertRequest? || c.CertRequestAsWritten?
  {
    match c
    case Unsecured(_) => Some(AtUnsecuredData)
    case Signed(_) => Some(AtSignedPayloadData)
    case CertRequest(_) => Some(AtSignedCertificateRequest)
    case CertRequestAsWritten(_) => Some(AtSignedCertificateRequest)
    case _ => None
  }

  /** The octets an overriding `from_oer` hands the inner decoder, read from
      the region `o` at its site, or None where reading the cursor throws.
      Unsecured and Signed call the region's own `dataCursor()`, and so does
      CertRequest as intended. CertRequest as written calls `dataCursor()` on
      the region's `content`: a container decode leaves that unset, so the
      call throws. A stored value could only be one a decoder attached (the
      container decoder attaches none); that case is read as a throw too. */
  function Cursor<P>(c: Codec, o: Opaque<P>): Option<Bytes>
  {
    match c
    case CertRequestAsWritten(_) => None
    case _ => Some(o.raw)
  }

  /** Following the path of `site` through `d`: the Opaque region there, or
      None where the JavaScript property access would throw (another choice
      is active, or the optional payload data is absent). */
  function SlotAt<P>(d: Ieee1609Dot2Data<P>, site: Site): Option<Opaque<P>>
  {
    match (site, d.content)
    case (AtUnsecuredData, UnsecuredData(o)) => Some(o)
    case (AtSignedPayloadData, SignedData(sd)) => sd.tbsData.payload.data
    case (AtSignedCertificateRequest, SignedCertificateRequest(o)) => Some(o)
    case _ => None
  }

  /** The assignment to the region at `site`. */
  function WithSlot<P>(d: Ieee1609Dot2Data<P>, site: Site, o: Opaque<P>): (r: Ieee1609Dot2Data<P>)
    requires SlotAt(d, site).Some?
    ensures SlotAt(r, site) == Some(o)
    ensures r.protocolVersion == d.protocolVersion
  {
    match d.content
    case UnsecuredData(_) => d.(content := UnsecuredData(o))
    case SignedData(sd) =>
      d.(content := SignedData(sd.(tbsData := sd.tbsData.(payload := sd.tbsData.payload.(data := Some(o))))))
    case SignedCertificateRequest(_) => d.(content := SignedCertificateRequest(o))
  }

  /** `C.from_oer(dc)` for the class `c` describes. */
  function Decode<P>(c: Codec, bytes: Bytes, outer: Decoder<Ieee1609Dot2Data<P>>, leaf: Decoder<P>): Result<Decoded<Value<P>>>
    decreases c, 1
  {
    match c
    case Leaf =>
      (match leaf(bytes)
       case Failure(e) => Failure(e)
       case Success(r) => Success(Decoded(LeafValue(r.value), r.consumed)))
    case _ =>
      // step 1: super.from_oer(dc), outside the try, so its error propagates
      match outer(bytes)
      case Failure(e) => Failure(e)
      case Success(r) => Success(Decoded(DataValue(AttachInner(c, r.value, outer, leaf)), r.consumed))
  }

  /** Steps 2 and 3 of an overriding `from_oer`: the body of the try. */
  function AttachInner<P>(c: Codec, d: Ieee1609Dot2Data<P>, outer: Decoder<Ieee1609Dot2Data<P>>, leaf: Decoder<P>): Ieee1609Dot2Data<P>
    decreases c, 0
  {
    if SiteOf(c).None? then d else TryAttach(d, c, outer, leaf)
  }

  /** One unfolding of `Decode` for a container class. */
  lemma DecodeContainer<P>(c: Codec, bytes: Bytes, outer: Decoder<Ieee1609Dot2Data<P>>, leaf: Decoder<P>)
    requires c != Leaf && outer(bytes).Success?
    ensures Decode(c, bytes, outer, leaf)
      == Success(Decoded(DataValue(AttachInner(c, outer(bytes).value.value, outer, leaf)), outer(bytes).value.consumed))
  {
  }

  /** `outer.<path>.content = inner.from_oer(<cursor>)`, with every throw
      (missing path, no cursor, inner decode error) caught and ignored. The
      octets the inner decode consumed are not compared with the region. */
  function TryAttach<P>(d: Ieee1609Dot2Data<P>, c: Codec, outer: Decoder<Ieee1609Dot2Data<P>>, leaf: Decoder<P>): Ieee1609Dot2Data<P>
    requires SiteOf(c).Some?
    decreases c, -1
  {
    match SlotAt(d, SiteOf(c).value)
    case None => d
    case Some(o) =>
      match Cursor(c, o)
      case None => d
      case Some(cursor) =>
        match Decode(c.inner, cursor, outer, leaf)
        case Failure(_) => d
        case Success(r) => WithSlot(d, SiteOf(c).value, o.(content := Some(r.value)))
  }

  // ---------------------------------------------------------------------
  // Views used to state what a decode produces

  /** The container with the content of its active region cleared: every
      field a factory does not write. */
  function Skeleton<P>(d: Ieee1609Dot2Data<P>): Ieee1609Dot2Data<P>
  {
    match d.content
    case UnsecuredData(o) => d.(content := UnsecuredData(o.(content := None)))
    case SignedData(sd) =>
      (match sd.tbsData.payload.data
       case None => d
       case Some(o) => WithSlot(d, AtSignedPayloadData, o.(content := None)))
    case EncryptedData(_) => d
    case SignedCertificateRequest(o) => d.(content := SignedCertificateRequest(o.(content := None)))
  }

  /** Nothing is attached anywhere in the container. */
  predicate Bare<P>(d: Ieee1609Dot2Data<P>)
  {
    forall site :: SlotAt(d, site).Some? ==> SlotAt(d, site).value.content.None?
  }

  /** The generic container decoder never attaches inner values itself. */
  ghost predicate BareDecoder<P>(outer: Decoder<Ieee1609Dot2Data<P>>)
  {
    forall bytes :: outer(bytes).Success? ==> Bare(outer(bytes).value.value)
  }

  /** The sites followed from `v` down through the attached values. */
  function Chain<P>(v: Value<P>): seq<Site>
  {
    match v
    case LeafValue(_) => []
    case DataValue(d) =>
      match d.content
      case UnsecuredData(o) => if o.content.Some? then [AtUnsecuredData] + Chain(o.content.value) else []
      case SignedData(sd) =>
        if sd.tbsData.payload.data.Some? && sd.tbsData.payload.data.value.content.Some?
        then [AtSignedPayloadData] + Chain(sd.tbsData.payload.data.value.content.value)
        else []
      case EncryptedData(_) => []
      case SignedCertificateRequest(o) =>
        if o.content.Some? then [AtSignedCertificateRequest] + Chain(o.content.value) else []
  }

  /** The leaf payload at the end of that chain, if the chain ends in one:
      what "the inner payload was decoded" means to a caller. */
  function Exposed<P>(v: Value<P>): Option<P>
  {
    match v
    case LeafValue(p) => Some(p)
    case DataValue(d) =>
      match d.content
      case UnsecuredData(o) => if o.content.Some? then Exposed(o.content.value) else None
      case SignedData(sd) =>
        if sd.tbsData.payload.data.Some? && sd.tbsData.payload.data.value.content.Some?
        then Exposed(sd.tbsData.payload.data.value.content.value)
        else None
      case EncryptedData(_) => None
      case SignedCertificateRequest(o) => if o.content.Some? then Exposed(o.content.value) else None
  }

  /** The codec chain reaches the leaf type through overriding factories
      only; Base and Encrypted cut it. */
  function MayExpose(c: Codec): bool
  {
    match c
    case Leaf => true
    case Base => false
    case Encrypted(_) => false
    case CertRequestAsWritten(_) => false
    case Unsecured(e) => MayExpose(e)
    case Signed(e) => MayExpose(e)
    case CertRequest(e) => MayExpose(e)
  }

  /** The path, fixed by the codec alone, at which its leaf payload lands. */
  function LeafPath(c: Codec): seq<Site>
    requires MayExpose(c)
  {
    match c
    case Leaf => []
    case Unsecured(e) => [AtUnsecuredData] + LeafPath(e)
    case Signed(e) => [AtSignedPayloadData] + LeafPath(e)
    case CertRequest(e) => [AtSignedCertificateRequest] + LeafPath(e)
  }

  // ---------------------------------------------------------------------
  // The static `innerFields` a factory records

  type FieldList = seq<string>

  /** The static `fields` seen on the class `c` describes: the leaf's own,
      and for the container and every factory-made subclass the one
      inherited from Ieee1609Dot2Data (static members are inherited). */
  function StaticFields(c: Codec, leafFields: Option<FieldList>, baseFields: Option<FieldList>): Option<FieldList>
  {
    if c == Leaf then leafFields else baseFields
  }

  /** `C.innerFields`: set to `inner.fields` when that is truthy, otherwise
      absent. Any field array is truthy, so the JavaScript test comes down to
      whether `inner.fields` is present, and the result is `inner.fields`
      itself. */
  function InnerFields(c: Codec, leafFields: Option<FieldList>, baseFields: Option<FieldList>): Option<FieldList>
  {
    match c
    case Leaf => None
    case Base => None
    case _ => StaticFields(c.inner, leafFields, baseFields)
  }

  // ---------------------------------------------------------------------
  // Properties of the factories

  /** Step 1: an error of the container decoder propagates unchanged. */
  lemma OuterErrorPropagates<P>(c: Codec, bytes: Bytes, outer: Decoder<Ieee1609Dot2Data<P>>, leaf: Decoder<P>)
    requires c != Leaf && outer(bytes).Failure?
    ensures Decode(c, bytes, outer, leaf) == Failure(outer(bytes).error)
  {
  }

  /** Whenever the container decodes, so does every factory class, with the
      same cursor advance, and only the content of the active region may
      differ from the container decoder's result. */
  lemma OnlyContentChanges<P>(c: Codec, bytes: Bytes, outer: Decoder<Ieee1609Dot2Data<P>>, leaf: Decoder<P>)
    requires c != Leaf && outer(bytes).Success?
    ensures var r := Decode(c, bytes, outer, leaf);
      && r.Success? && r.value.value.DataValue?
      && r.value.consumed == outer(bytes).value.consumed
      && Skeleton(r.value.value.data) == Skeleton(outer(bytes).value.value)
  {
    DecodeContainer(c, bytes, outer, leaf);
    var d := outer(bytes).value.value;
    var site := SiteOf(c);
    if site.Some? && SlotAt(d, site.value).Some? {
      var o := SlotAt(d, site.value).value;
      if Cursor(c, o).Some? {
        match Decode(c.inner, Cursor(c, o).value, outer, leaf)
        case Failure(_) =>
        case Success(ir) =>
          WithSlotSkeleton(d, site.value, o.(content := Some(ir.value)));
      }
    }
  }

  lemma WithSlotSkeleton<P>(d: Ieee1609Dot2Data<P>, site: Site, o: Opaque<P>)
    requires SlotAt(d, site).Some? && SlotAt(d, site).value.raw == o.raw
    ensures Skeleton(WithSlot(d, site, o)) == Skeleton(d)
  {
  }

  /** Where the payload lands, and the region it comes from: an attached
      value can appear only at the codec's own site, only for a codec that
      reads the region's own octets, and it is exactly what the inner type
      decodes from those octets. */
  lemma AttachmentOrigin<P>(c: Codec, bytes: Bytes, outer: Decoder<Ieee1609Dot2Data<P>>, leaf: Decoder<P>, site: Site)
    requires c != Leaf && outer(bytes).Success? && Bare(outer(bytes).value.value)
    requires var d := Decode(c, bytes, outer, leaf).value.value.data;
      SlotAt(d, site).Some? && SlotAt(d, site).value.content.Some?
    ensures SiteOf(c) == Some(site) && !c.CertRequestAsWritten?
    ensures var o := SlotAt(Decode(c, bytes, outer, leaf).value.value.data, site).value;
      Decode(c.inner, o.raw, outer, leaf).Success? &&
      o.content == Some(Decode(c.inner, o.raw, outer, leaf).value.value)
  {
    DecodeContainer(c, bytes, outer, leaf);
    var d := outer(bytes).value.value;
    var s := SiteOf(c);
    if s.Some? && SlotAt(d, s.value).Some? {
      var o := SlotAt(d, s.value).value;
      if Cursor(c, o).Some? && Decode(c.inner, o.raw, outer, leaf).Success? {
        SlotSiteUnique(WithSlot(d, s.value, o.(content := Some(Decode(c.inner, o.raw, outer, leaf).value.value))), s.value, site);
      }
    }
  }

  /** A container has at most one region a site reaches. */
  lemma SlotSiteUnique<P>(d: Ieee1609Dot2Data<P>, s: Site, t: Site)
    requires SlotAt(d, s).Some? && SlotAt(d, t).Some?
    ensures s == t
  {
  }

  /** When the path exists, the cursor can be read and the inner decode of
      the cursor's octets succeeds, the inner value is attached there (and
      the region's octets are kept). */
  lemma AttachesOnSuccess<P>(c: Codec, bytes: Bytes, outer: Decoder<Ieee1609Dot2Data<P>>, leaf: Decoder<P>)
    requires SiteOf(c).Some? && outer(bytes).Success?
    requires SlotAt(outer(bytes).value.value, SiteOf(c).value).Some?
    requires var o := SlotAt(outer(bytes).value.value, SiteOf(c).value).value;
      Cursor(c, o).Some? && Decode(c.inner, Cursor(c, o).value, outer, leaf).Success?
    ensures var o := SlotAt(outer(bytes).value.value, SiteOf(c).value).value;
      SlotAt(Decode(c, bytes, outer, leaf).value.value.data, SiteOf(c).value)
        == Some(o.(content := Some(Decode(c.inner, Cursor(c, o).value, outer, leaf).value.value)))
  {
    DecodeContainer(c, bytes, outer, leaf);
  }

  /** Step 3: when the path is missing, the cursor cannot be read or the
      inner decode fails, the container is returned exactly as the container
      decoder produced it. */
  lemma InnerFailureSwallowed<P>(c: Codec, bytes: Bytes, outer: Decoder<Ieee1609Dot2Data<P>>, leaf: Decoder<P>)
    requires c != Leaf && outer(bytes).Success?
    requires var d := outer(bytes).value.value;
      SiteOf(c).None? || SlotAt(d, SiteOf(c).value).None? ||
      Cursor(c, SlotAt(d, SiteOf(c).value).value).None? ||
      Decode(c.inner, Cursor(c, SlotAt(d, SiteOf(c).value).value).value, outer, leaf).Failure?
    ensures Decode(c, bytes, outer, leaf) == Success(Decoded(DataValue(outer(bytes).value.value), outer(bytes).value.consumed))
  {
    DecodeContainer(c, bytes, outer, leaf);
  }

  /** Encrypted adds no `from_oer`, so whatever it wraps it decodes exactly
      like the generic container. Hence SignedEncrypted,
      SignedEncryptedCertRequest and SymmEncryptedSingleRecipient do too. */
  lemma EncryptedDecodesAsBase<P>(c: Codec, bytes: Bytes, outer: Decoder<Ieee1609Dot2Data<P>>, leaf: Decoder<P>)
    ensures Decode(Encrypted(c), bytes, outer, leaf) == Decode(Base, bytes, outer, leaf)
    ensures Decode(SignedEncrypted(c), bytes, outer, leaf) == Decode(Base, bytes, outer, leaf)
    ensures Decode(SignedEncryptedCertRequest(c), bytes, outer, leaf) == Decode(Base, bytes, outer, leaf)
    ensures Decode(SymmEncryptedSingleRecipient(c), bytes, outer, leaf) == Decode(Encrypted(c), bytes, outer, leaf)
  {
  }

  /** The container decoder attaches nothing: its result exposes nothing. */
  lemma BaseIsBare<P>(bytes: Bytes, outer: Decoder<Ieee1609Dot2Data<P>>, leaf: Decoder<P>)
    requires BareDecoder(outer) && outer(bytes).Success?
    ensures Decode(Base, bytes, outer, leaf) == Success(Decoded(DataValue(outer(bytes).value.value), outer(bytes).value.consumed))
    ensures Exposed(Decode(Base, bytes, outer, leaf).value.value).None?
    ensures Chain(Decode(Base, bytes, outer, leaf).value.value) == []
  {
    var d := outer(bytes).value.value;
    assert Bare(d);
    match d.content
    case UnsecuredData(o) => assert SlotAt(d, AtUnsecuredData).Some?;
    case SignedData(sd) => assert sd.tbsData.payload.data.Some? ==> SlotAt(d, AtSignedPayloadData).Some?;
    case EncryptedData(_) =>
    case SignedCertificateRequest(o) => assert SlotAt(d, AtSignedCertificateRequest).Some?;
  }

  /** The chain of a container that has `v` attached at `site`. */
  lemma ChainThroughSlot<P>(d: Ieee1609Dot2Data<P>, site: Site, o: Opaque<P>, v: Value<P>)
    requires SlotAt(d, site).Some? && o.content == Some(v)
    ensures Chain(DataValue(WithSlot(d, site, o))) == [site] + Chain(v)
    ensures Exposed(DataValue(WithSlot(d, site, o))) == Exposed(v)
  {
  }

  /** A leaf payload is exposed only by a codec whose chain reaches the leaf
      type, and only at that codec's fixed path. */
  lemma {:induction false} ExposedOnlyAtLeafPath<P>(c: Codec, bytes: Bytes, outer: Decoder<Ieee1609Dot2Data<P>>, leaf: Decoder<P>)
    requires BareDecoder(outer)
    requires Decode(c, bytes, outer, leaf).Success?
    requires Exposed(Decode(c, bytes, outer, leaf).value.value).Some?
    ensures MayExpose(c)
    ensures Chain(Decode(c, bytes, outer, leaf).value.value) == LeafPath(c)
    decreases c
  {
    if c == Leaf {
      return;
    }
    DecodeContainer(c, bytes, outer, leaf);
    var d := outer(bytes).value.value;
    var s := SiteOf(c);
    if s.Some? && SlotAt(d, s.value).Some? && Cursor(c, SlotAt(d, s.value).value).Some? {
      var o := SlotAt(d, s.value).value;
      var ir := Decode(c.inner, o.raw, outer, leaf);
      if ir.Success? {
        ChainThroughSlot(d, s.value, o.(content := Some(ir.value.value)), ir.value.value);
        ExposedOnlyAtLeafPath(c.inner, o.raw, outer, leaf);
        return;
      }
    }
    // otherwise the container is returned as decoded, and it is bare
    BaseIsBare(bytes, outer, leaf);
    assert false;
  }

  /** The composites that end in Encrypted (or in the container) never yield
      a leaf payload, whatever the octets and however the decoders behave. */
  lemma NeverExposes<P>(c: Codec, bytes: Bytes, outer: Decoder<Ieee1609Dot2Data<P>>, leaf: Decoder<P>)
    requires BareDecoder(outer) && !MayExpose(c)
    requires Decode(c, bytes, outer, leaf).Success?
    ensures Exposed(Decode(c, bytes, outer, leaf).value.value).None?
  {
    if Exposed(Decode(c, bytes, outer, leaf).value.value).Some? {
      ExposedOnlyAtLeafPath(c, bytes, outer, leaf);
    }
  }

  /** One factory over the leaf type: when the container has the factory's
      region, its cursor can be read and the leaf decodes from the cursor's
      octets, the leaf payload is exposed there. */
  lemma ExposesOneLevel<P>(c: Codec, bytes: Bytes, outer: Decoder<Ieee1609Dot2Data<P>>, leaf: Decoder<P>)
    requires SiteOf(c).Some? && c.inner == Leaf && outer(bytes).Success?
    requires SlotAt(outer(bytes).value.value, SiteOf(c).value).Some?
    requires var o := SlotAt(outer(bytes).value.value, SiteOf(c).value).value;
      Cursor(c, o).Some? && leaf(Cursor(c, o).value).Success?
    ensures MayExpose(c)
    ensures var o := SlotAt(outer(bytes).value.value, SiteOf(c).value).value;
      Exposed(Decode(c, bytes, outer, leaf).value.value) == Some(leaf(Cursor(c, o).value).value.value)
    ensures Chain(Decode(c, bytes, outer, leaf).value.value) == LeafPath(c)
  {
    var d := outer(bytes).value.value;
    var o := SlotAt(d, SiteOf(c).value).value;
    var v := LeafValue(leaf(o.raw).value.value);
    ChainThroughSlot(d, SiteOf(c).value, o.(content := Some(v)), v);
  }

  /** EncryptedSigned(P) = Signed(Encrypted(P)): what it attaches under the
      signed payload is a plain container decode, never a P value. */
  lemma EncryptedSignedAttachesContainer<P>(c: Codec, bytes: Bytes, outer: Decoder<Ieee1609Dot2Data<P>>, leaf: Decoder<P>)
    requires outer(bytes).Success? && Bare(outer(bytes).value.value)
    requires var d := Decode(EncryptedSigned(c), bytes, outer, leaf).value.value.data;
      SlotAt(d, AtSignedPayloadData).Some? && SlotAt(d, AtSignedPayloadData).value.content.Some?
    ensures var o := SlotAt(Decode(EncryptedSigned(c), bytes, outer, leaf).value.value.data, AtSignedPayloadData).value;
      outer(o.raw).Success? && o.content == Some(DataValue(outer(o.raw).value.value))
  {
    AttachmentOrigin(EncryptedSigned(c), bytes, outer, leaf, AtSignedPayloadData);
  }

  /** SignedCertRequest(P) = Signed(CertRequest(P)): when the signed payload
      is a container holding a signed certificate request and P decodes
      from that request's octets, P lands at
      signedData.tbsData.payload.data.content.signedCertificateRequest.content. */
  lemma SignedCertRequestExposes<P>(bytes: Bytes, outer: Decoder<Ieee1609Dot2Data<P>>, leaf: Decoder<P>)
    requires outer(bytes).Success?
    requires SlotAt(outer(bytes).value.value, AtSignedPayloadData).Some?
    requires var region := SlotAt(outer(bytes).value.value, AtSignedPayloadData).value.raw;
      outer(region).Success? && SlotAt(outer(region).value.value, AtSignedCertificateRequest).Some?
    requires var region := SlotAt(outer(bytes).value.value, AtSignedPayloadData).value.raw;
      leaf(SlotAt(outer(region).value.value, AtSignedCertificateRequest).value.raw).Success?
    ensures var region := SlotAt(outer(bytes).value.value, AtSignedPayloadData).value.raw;
      Exposed(Decode(SignedCertRequest(Leaf), bytes, outer, leaf).value.value)
        == Some(leaf(SlotAt(outer(region).value.value, AtSignedCertificateRequest).value.raw).value.value)
    ensures Chain(Decode(SignedCertRequest(Leaf), bytes, outer, leaf).value.value)
      == [AtSignedPayloadData, AtSignedCertificateRequest]
  {
    var d := outer(bytes).value.value;
    var o := SlotAt(d, AtSignedPayloadData).value;
    var d1 := outer(o.raw).value.value;
    var o1 := SlotAt(d1, AtSignedCertificateRequest).value;
    var lv := LeafValue(leaf(o1.raw).value.value);
    ChainThroughSlot(d1, AtSignedCertificateRequest, o1.(content := Some(lv)), lv);
    var inner := Decode(CertRequest(Leaf), o.raw, outer, leaf).value.value;
    ChainThroughSlot(d, AtSignedPayloadData, o.(content := Some(inner)), inner);
  }

  /** Composition order matters: over the same octets, sign-then-encrypt
      attaches nothing while encrypt-then-sign attaches the decoded inner
      container under the signed payload. */
  lemma OrderMatters<P>(bytes: Bytes, outer: Decoder<Ieee1609Dot2Data<P>>, leaf: Decoder<P>)
    requires outer(bytes).Success? && Bare(outer(bytes).value.value)
    requires SlotAt(outer(bytes).value.value, AtSignedPayloadData).Some?
    requires outer(SlotAt(outer(bytes).value.value, AtSignedPayloadData).value.raw).Success?
    ensures Decode(SignedEncrypted(Leaf), bytes, outer, leaf) != Decode(EncryptedSigned(Leaf), bytes, outer, leaf)
  {
    var d := outer(bytes).value.value;
    var o := SlotAt(d, AtSignedPayloadData).value;
    var es := Decode(EncryptedSigned(Leaf), bytes, outer, leaf).value.value.data;
    assert SlotAt(es, AtSignedPayloadData).value.content.Some?;
    assert SlotAt(d, AtSignedPayloadData).value.content.None?;
  }

  /** A factory applied to another factory's class records the generic
      container's inherited `fields`, never the leaf's. */
  lemma InnerFieldsOfComposite(c: Codec, leafFields: Option<FieldList>, baseFields: Option<FieldList>)
    requires !(c.Leaf? || c.Base?) && c.inner != Leaf
    ensures InnerFields(c, leafFields, baseFields) == baseFields
  {
  }

  /** A primitive factory applied to the leaf type records the leaf's
      `fields` (absent when the leaf has none); applied to the container it
      records the container's. */
  lemma InnerFieldsOfPrimitive(c: Codec, leafFields: Option<FieldList>, baseFields: Option<FieldList>)
    requires !(c.Leaf? || c.Base?)
    ensures c.inner == Leaf ==> InnerFields(c, leafFields, baseFields) == leafFields
    ensures c.inner == Base ==> InnerFields(c, leafFields, baseFields) == baseFields
  {
  }

  // ---------------------------------------------------------------------
  // The CertRequest factory as written

  /** CertRequest as written never attaches anything: its class decodes
      exactly like the generic container, whatever it wraps. */
  lemma CertRequestAsWrittenNeverAttaches<P>(c: Codec, bytes: Bytes, outer: Decoder<Ieee1609Dot2Data<P>>, leaf: Decoder<P>)
    ensures Decode(CertRequestAsWritten(c), bytes, outer, leaf) == Decode(Base, bytes, outer, leaf)
  {
    if outer(bytes).Success? {
      DecodeContainer(CertRequestAsWritten(c), bytes, outer, leaf);
    }
  }

  /** So SignedCertRequest as written never yields its payload either. */
  lemma SignedCertRequestAsWrittenNeverExposes<P>(bytes: Bytes, outer: Decoder<Ieee1609Dot2Data<P>>, leaf: Decoder<P>)
    requires BareDecoder(outer) && Decode(AsWritten(SignedCertRequest(Leaf)), bytes, outer, leaf).Success?
    ensures AsWritten(SignedCertRequest(Leaf)) == Signed(CertRequestAsWritten(Leaf))
    ensures Exposed(Decode(AsWritten(SignedCertRequest(Leaf)), bytes, outer, leaf).value.value).None?
  {
    NeverExposes(AsWritten(SignedCertRequest(Leaf)), bytes, outer, leaf);
  }

  /** A container decoder that always yields a signed certificate request
      over the single octet 7. */
  function ExampleContainer(bytes: Bytes): Result<Decoded<Ieee1609Dot2Data<nat>>>
  {
    Success(Decoded(Ieee1609Dot2Data(3, SignedCertificateRequest(Opaque([7], None))), |bytes|))
  }

  /** A leaf decoder that accepts any octets and yields their count. */
  function ExampleLeaf(bytes: Bytes): Result<Decoded<nat>>
  {
    Success(Decoded(|bytes|, |bytes|))
  }

  /** The input that separates the two readings of the CertRequest factory:
      a well-formed signed certificate request whose region holds a
      decodable payload. As intended, the payload is attached; as written,
      nothing is. */
  lemma CertRequestCursorExample()
    ensures Exposed(Decode(CertRequest(Leaf), [1], ExampleContainer, ExampleLeaf).value.value) == Some(1)
    ensures Decode(CertRequestAsWritten(Leaf), [1], ExampleContainer, ExampleLeaf)
      == Success(Decoded(DataValue(ExampleContainer([1]).value.value), 1))
    ensures Exposed(Decode(CertRequestAsWritten(Leaf), [1], ExampleContainer, ExampleLeaf).value.value).None?
  {
    var d := ExampleContainer([1]).value.value;
    var o: Opaque<nat> := Opaque([7], None);
    var v := LeafValue(1);
    assert SlotAt(d, AtSignedCertificateRequest) == Some(o);
    ChainThroughSlot(d, AtSignedCertificateRequest, o.(content := Some(v)), v);
  }
}
