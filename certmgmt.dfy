/** Certificate management: the fixed-width hash identifiers and the rules
    a multi-signed certificate trust list (CTL) and its series obey. */
module CertManagement {
  import opened Wrappers

  type HashedId48 = s: Bytes | |s| == 48 witness seq(48, _ => 0)
  type HashedId32 = s: Bytes | |s| == 32 witness seq(32, _ => 0)
  type ElectorGroupId = s: Bytes | |s| == 8 witness seq(8, _ => 0)

  // ---------------------------------------------------------------------
  // Hash truncation

  /** The low-order `width` octets of a hash output: as an octet string is
      read most significant octet first, its last `width` octets. */
  function Truncate(hash: Bytes, width: nat): (r: Bytes)
    requires width <= |hash|
    ensures |r| == width
    ensures hash == hash[..|hash| - width] + r
  {
    hash[|hash| - width..]
  }

  /** A HashedId48: from a hash with at least 48 octets of output. */
  function HashedId48Of(hash: Bytes): HashedId48
    requires |hash| >= 48
  {
    Truncate(hash, 48)
  }

  /** A CtlRootCaEntry: a root CA certificate's hash, a 48-octet output
      truncated to its low-order 32 octets. */
  function RootCaEntryOf(hash: Bytes): HashedId32
    requires |hash| >= 32
  {
    Truncate(hash, 32)
  }

  /** The number an octet string denotes, most significant octet first. */
  function BigEndian(s: Bytes): nat
  {
    if s == [] then 0 else BigEndian(s[..|s| - 1]) * 256 + s[|s| - 1] as nat
  }

  function Pow256(n: nat): (r: nat)
    ensures r > 0
  {
    if n == 0 then 1 else 256 * Pow256(n - 1)
  }

  lemma {:induction false} BigEndianBound(s: Bytes)
    ensures BigEndian(s) < Pow256(|s|)
  {
    if s != [] {
      var p := s[..|s| - 1];
      BigEndianBound(p);
      assert BigEndian(p) + 1 <= Pow256(|p|);
      assert (BigEndian(p) + 1) * 256 <= Pow256(|p|) * 256;
    }
  }

  lemma {:induction false} BigEndianAppend(a: Bytes, b: Bytes)
    ensures BigEndian(a + b) == BigEndian(a) * Pow256(|b|) + BigEndian(b)
  {
    if b != [] {
      var b' := b[..|b| - 1];
      assert (a + b)[..|a + b| - 1] == a + b';
      BigEndianAppend(a, b');
      assert BigEndian(a + b) == (BigEndian(a) * Pow256(|b'|) + BigEndian(b')) * 256 + b[|b| - 1] as nat;
      assert BigEndian(a) * Pow256(|b'|) * 256 == BigEndian(a) * Pow256(|b|);
    } else {
      assert a + b == a;
    }
  }

  /** Truncation keeps the low-order part: the hash's value is the value of
      the dropped high-order octets times 256 to the width, plus the value of
      the truncated identifier, which is below 256 to the width. */
  lemma TruncateIsLowOrder(hash: Bytes, width: nat)
    requires width <= |hash|
    ensures BigEndian(hash) == BigEndian(hash[..|hash| - width]) * Pow256(width) + BigEndian(Truncate(hash, width))
    ensures BigEndian(Truncate(hash, width)) < Pow256(width)
  {
    BigEndianAppend(hash[..|hash| - width], Truncate(hash, width));
    BigEndianBound(Truncate(hash, width));
  }

  /** Truncating a HashedId48 to 32 octets gives the same root CA entry as
      truncating the full hash. */
  lemma TruncateTwice(hash: Bytes)
    requires |hash| >= 48
    ensures Truncate(HashedId48Of(hash), 32) == RootCaEntryOf(hash)
  {
    var h := HashedId48Of(hash);
    forall i | 0 <= i < 32 ensures Truncate(h, 32)[i] == RootCaEntryOf(hash)[i] {
      assert h[16 + i] == hash[|hash| - 48 + 16 + i];
    }
  }

  // ---------------------------------------------------------------------
  // Multi-signed CTLs

  /** The only CTL type this version supports. */
  const FullIeeeCtl: uint8 := 1

  /** FullIeeeTbsCtl; `type` is spelt ctlType. quorum is an extension
      addition and so may be absent. */
  datatype FullIeeeTbsCtl = FullIeeeTbsCtl(
    ctlType: uint8,
    electorGroupId: ElectorGroupId,
    sequenceNumber: uint16,
    effectiveDate: uint32,
    electorApprove: seq<HashedId48>,
    electorRemove: seq<HashedId48>,
    rootCaApprove: seq<HashedId32>,
    rootCaRemove: seq<HashedId32>,
    quorum: Option<int>)

  /** What an elector signs for one CTL. */
  datatype ToBeSignedCtlSignature = ToBeSignedCtlSignature(
    electorGroupId: ElectorGroupId,
    ctlType: uint8,
    sequenceNumber: uint16,
    tbsCtlHash: HashedId48)

  /** One CtlSignatureSpdu: the hash of the signing elector's certificate and
      the ToBeSignedCtlSignature it carries. */
  datatype CtlSignature = CtlSignature(signer: HashedId48, tbs: ToBeSignedCtlSignature)

  datatype MultiSignedCtl = MultiSignedCtl(
    ctlType: uint8,
    tbsCtl: FullIeeeTbsCtl,
    unsigned: seq<Bytes>,
    signatures: seq<CtlSignature>)

  /** The ToBeSignedCtlSignature an elector forms for `m`, given the hash of
      the encoded tbsCtl (hashing is outside this model). */
  function TbsCtlSignatureFor(m: MultiSignedCtl, tbsCtlHash: HashedId48): ToBeSignedCtlSignature
  {
    ToBeSignedCtlSignature(m.tbsCtl.electorGroupId, m.ctlType, m.tbsCtl.sequenceNumber, tbsCtlHash)
  }

  /** The signed fields name the CTL being signed. */
  predicate SignatureMatches(s: ToBeSignedCtlSignature, m: MultiSignedCtl)
  {
    && s.electorGroupId == m.tbsCtl.electorGroupId
    && s.ctlType == m.ctlType
    && s.sequenceNumber == m.tbsCtl.sequenceNumber
  }

  /** A ToBeSignedCtlSignature matches a CTL exactly when it is the one
      formed for that CTL from its own hash field. */
  lemma SignatureMatchesIff(s: ToBeSignedCtlSignature, m: MultiSignedCtl)
    ensures SignatureMatches(s, m) <==> s == TbsCtlSignatureFor(m, s.tbsCtlHash)
  {
  }

  predicate DistinctSigners(sigs: seq<CtlSignature>)
  {
    forall i, j :: 0 <= i < j < |sigs| ==> sigs[i].signer != sigs[j].signer
  }

  predicate SignedByElectors(sigs: seq<CtlSignature>, electors: set<HashedId48>)
  {
    forall i :: 0 <= i < |sigs| ==> sigs[i].signer in electors
  }

  /** A well-formed multi-signed CTL over the group's `electors`: the
      supported type, the same type inside and outside, every signature on
      this CTL, each from a distinct elector. */
  predicate ValidMultiSignedCtl(m: MultiSignedCtl, electors: set<HashedId48>)
  {
    && m.ctlType == FullIeeeCtl
    && m.tbsCtl.ctlType == m.ctlType
    && (forall i :: 0 <= i < |m.signatures| ==> SignatureMatches(m.signatures[i].tbs, m))
    && DistinctSigners(m.signatures)
    && SignedByElectors(m.signatures, electors)
  }

  function Signers(sigs: seq<CtlSignature>): (r: set<HashedId48>)
    ensures forall i :: 0 <= i < |sigs| ==> sigs[i].signer in r
    ensures forall e :: e in r ==> exists i :: 0 <= i < |sigs| && sigs[i].signer == e
  {
    if sigs == [] then {} else Signers(sigs[..|sigs| - 1]) + {sigs[|sigs| - 1].signer}
  }

  lemma {:induction false} DistinctSignersCount(sigs: seq<CtlSignature>)
    requires DistinctSigners(sigs)
    ensures |Signers(sigs)| == |sigs|
  {
    if sigs != [] {
      var init := sigs[..|sigs| - 1];
      assert DistinctSigners(init);
      DistinctSignersCount(init);
    }
  }

  /** Signatures from distinct electors are no more than the electors. */
  lemma SignatureCountBound(sigs: seq<CtlSignature>, electors: set<HashedId48>)
    requires DistinctSigners(sigs) && SignedByElectors(sigs, electors)
    ensures |sigs| <= |electors|
  {
    DistinctSignersCount(sigs);
    assert Signers(sigs) <= electors;
    SubsetCardinality(Signers(sigs), electors);
  }

  lemma SubsetCardinality<T>(a: set<T>, b: set<T>)
    requires a <= b
    ensures |a| <= |b|
  {
    assert b == a + (b - a);
  }

  /** In a valid multi-signed CTL the inner type is fullIeeeCtl and there are
      no more signatures than electors. */
  lemma ValidCtlProperties(m: MultiSignedCtl, electors: set<HashedId48>)
    requires ValidMultiSignedCtl(m, electors)
    ensures m.tbsCtl.ctlType == FullIeeeCtl
    ensures |m.signatures| <= |electors|
  {
    SignatureCountBound(m.signatures, electors);
  }

  // ---------------------------------------------------------------------
  // Trust

  /** Only the approve lists confer trust. */
  predicate ElectorTrusted(ctl: FullIeeeTbsCtl, e: HashedId48)
  {
    e in ctl.electorApprove
  }

  predicate RootCaTrusted(ctl: FullIeeeTbsCtl, r: HashedId32)
  {
    r in ctl.rootCaApprove
  }

  /** The remove lists are informational: whatever they hold, trust is
      unchanged, and an entry missing from the approve list is untrusted. */
  lemma RemoveListsInformational(ctl: FullIeeeTbsCtl, e: HashedId48, r: HashedId32, er: seq<HashedId48>, rr: seq<HashedId32>)
    ensures ElectorTrusted(ctl.(electorRemove := er, rootCaRemove := rr), e) == ElectorTrusted(ctl, e)
    ensures RootCaTrusted(ctl.(electorRemove := er, rootCaRemove := rr), r) == RootCaTrusted(ctl, r)
    ensures e !in ctl.electorApprove ==> !ElectorTrusted(ctl.(electorRemove := er), e)
    ensures r !in ctl.rootCaApprove ==> !RootCaTrusted(ctl.(rootCaRemove := rr), r)
  {
  }

  // ---------------------------------------------------------------------
  // CTL series

  /** `next` follows `prev` in the series of one elector group. The rule is
      stated on unbounded integers: a CTL at sequence number 65535 has no
      successor here. */
  predicate IsSuccessor(prev: FullIeeeTbsCtl, next: FullIeeeTbsCtl)
  {
    && next.electorGroupId == prev.electorGroupId
    && next.sequenceNumber as int == prev.sequenceNumber as int + 1
    && next.effectiveDate >= prev.effectiveDate
  }

  predicate ValidSeries(s: seq<FullIeeeTbsCtl>)
  {
    forall i :: 0 < i < |s| ==> IsSuccessor(s[i - 1], s[i])
  }

  /** Along a valid series the group is fixed, sequence numbers count up by
      one and effective dates never decrease. */
  lemma {:induction false} SeriesProperties(s: seq<FullIeeeTbsCtl>, i: nat, j: nat)
    requires ValidSeries(s) && i <= j < |s|
    ensures s[j].electorGroupId == s[i].electorGroupId
    ensures s[j].sequenceNumber as int == s[i].sequenceNumber as int + (j - i)
    ensures s[i].effectiveDate <= s[j].effectiveDate
    decreases j - i
  {
    if i < j {
      SeriesProperties(s, i, j - 1);
      assert IsSuccessor(s[j - 1], s[j]);
    }
  }

  /** A CTL series never holds a successor of sequence number 65535. */
  lemma NoSuccessorAtMaximum(prev: FullIeeeTbsCtl, next: FullIeeeTbsCtl)
    requires prev.sequenceNumber == 0xFFFF
    ensures !IsSuccessor(prev, next)
  {
  }

  /** The quorum for the CTL after `ctl`: its own quorum field, or the
      current quorum when that field is absent. */
  function NextQuorum(current: int, ctl: FullIeeeTbsCtl): int
  {
    match ctl.quorum
    case None => current
    case Some(q) => q
  }

  /** The quorum in force after a series, starting from `initial`. */
  function SeriesQuorum(initial: int, s: seq<FullIeeeTbsCtl>): int
  {
    if s == [] then initial else NextQuorum(SeriesQuorum(initial, s[..|s| - 1]), s[|s| - 1])
  }

  /** CTLs without a quorum field leave the quorum alone: the quorum after
      the series is the last one any CTL set (or the initial one). */
  lemma {:induction false} AbsentQuorumInherited(initial: int, s: seq<FullIeeeTbsCtl>, k: nat)
    requires k <= |s|
    requires forall i :: k <= i < |s| ==> s[i].quorum.None?
    ensures SeriesQuorum(initial, s) == SeriesQuorum(initial, s[..k])
  {
    if |s| > k {
      var init := s[..|s| - 1];
      assert init[..k] == s[..k];
      AbsentQuorumInherited(initial, init, k);
    } else {
      assert s[..k] == s;
    }
  }

  /** The quorum after a series is set by the last CTL that carries one. */
  lemma LastQuorumWins(initial: int, s: seq<FullIeeeTbsCtl>, k: nat)
    requires k < |s| && s[k].quorum.Some?
    requires forall i :: k < i < |s| ==> s[i].quorum.None?
    ensures SeriesQuorum(initial, s) == s[k].quorum.value
  {
    AbsentQuorumInherited(initial, s, k + 1);
    assert s[..k + 1][..k] == s[..k];
  }
}
