/** Multi-level delegation: structure, signature links and capability attenuation. */
module DelegationChain {
  import opened ByteStrings
  import opened Coverage

  const DEFAULT_MAX_CHAIN_LENGTH: int := 8

  datatype Capability = Capability(id: string, parameters: Bytes)

  type Certificate = nat

  /** present: a delegation authorization is there; signed: its signature is not empty. */
  datatype AIC = AIC(version: int, present: bool, signed: bool, capabilities: seq<Capability>)

  datatype Parsed = ParseError | NoExtension | Parsed(aic: AIC)

  datatype KeyForm = NoKey | Unmarshalable | Spki(bytes: Bytes)

  datatype Check = Valid | SignatureMismatch | Rejected

  /** X.509, ASN.1 and signature arithmetic, as oracles. verifyAt answers for an
      authorization under a signer, with the agent's key and at a version's encoding. */
  datatype Oracles = Oracles(
    serial: Certificate -> nat,
    parse: Certificate -> Parsed,
    key: Certificate -> KeyForm,
    verifyAt: (AIC, Certificate, Bytes, int) -> Check
  )

  // ------------------------------------------------------ one level's authorization

  const LEGACY: int := 0
  const VERSION_1: int := 1
  const VERSION_2: int := 2

  function VerifyTBS(o: Oracles, aic: AIC, signer: Certificate, spki: Bytes, version: int): Check {
    if version == VERSION_2 then o.verifyAt(aic, signer, spki, VERSION_2)
    else
      var first := o.verifyAt(aic, signer, spki, VERSION_1);
      if first == SignatureMismatch then o.verifyAt(aic, signer, spki, LEGACY) else first
  }

  function VerifyAuth(o: Oracles, aic: AIC, signer: Certificate, agent: Option<Certificate>): Check {
    if !aic.signed then Rejected
    else
      var form := if agent.Some? then o.key(agent.value) else NoKey;
      if form == Unmarshalable then Rejected
      else
        var spki := if form.Spki? then form.bytes else [];
        if aic.version == LEGACY then
          if spki != [] && VerifyTBS(o, aic, signer, spki, VERSION_2) == Valid then Valid
          else VerifyTBS(o, aic, signer, spki, VERSION_1)
        else if aic.version == VERSION_1 then VerifyTBS(o, aic, signer, spki, VERSION_1)
        else if aic.version == VERSION_2 then
          if spki == [] then Rejected else VerifyTBS(o, aic, signer, spki, VERSION_2)
        else Rejected
  }

  /** The encodings an authorization of a declared version may be verified under. */
  predicate Admissible(declared: int, encoding: int) {
    match declared
    case 0 => encoding in {LEGACY, VERSION_1, VERSION_2}
    case 1 => encoding in {LEGACY, VERSION_1}
    case 2 => encoding == VERSION_2
    case _ => false
  }

  /** An accepted authorization verified at an encoding its version admits: version 2 is
      never accepted without its key binding, nor is an unknown version. */
  lemma {:induction false} AcceptedEncoding(o: Oracles, aic: AIC, signer: Certificate, agent: Option<Certificate>)
    requires VerifyAuth(o, aic, signer, agent) == Valid
    ensures aic.version == 0 || aic.version == 1 || aic.version == 2
    ensures exists encoding, spki :: Admissible(aic.version, encoding)
              && o.verifyAt(aic, signer, spki, encoding) == Valid
              && (encoding == VERSION_2 ==> spki != [] && agent.Some? && o.key(agent.value) == Spki(spki))
  {
    var form := if agent.Some? then o.key(agent.value) else NoKey;
    var spki := if form.Spki? then form.bytes else [];
    if aic.version != VERSION_1 && spki != [] && o.verifyAt(aic, signer, spki, VERSION_2) == Valid {
      assert Admissible(aic.version, VERSION_2);
    } else if o.verifyAt(aic, signer, spki, VERSION_1) == Valid {
      assert Admissible(aic.version, VERSION_1);
    } else {
      assert Admissible(aic.version, LEGACY);
    }
  }

  /** Which outcomes at which encodings accept: a key-bound verification for version 2, and
      for a legacy authorization too; version 1's, or after its mismatch the legacy one. */
  lemma {:induction false} AcceptedExactly(o: Oracles, aic: AIC, signer: Certificate, agent: Option<Certificate>)
    ensures var form := if agent.Some? then o.key(agent.value) else NoKey;
            var spki := if form.Spki? then form.bytes else [];
            var bound := spki != [] && o.verifyAt(aic, signer, spki, VERSION_2) == Valid;
            var first := o.verifyAt(aic, signer, spki, VERSION_1);
            var retried := first == SignatureMismatch && o.verifyAt(aic, signer, spki, LEGACY) == Valid;
            var unbound := first == Valid || retried;
            VerifyAuth(o, aic, signer, agent) == Valid <==>
              aic.signed && form != Unmarshalable
              && ((aic.version in {LEGACY, VERSION_2} && bound) || (aic.version in {LEGACY, VERSION_1} && unbound))
  {
  }

  /** The legacy encoding is tried for a mismatch only: at every version but 2 any other
      refusal at version 1 stands, and an authorization accepted all the same was bound to
      the agent's key. */
  lemma {:induction false} DefiniteRefusalStands(o: Oracles, aic: AIC, signer: Certificate, agent: Option<Certificate>,
                                                 spki: Bytes, version: int)
    requires o.verifyAt(aic, signer, spki, VERSION_1) == Rejected
    ensures version != VERSION_2 ==> VerifyTBS(o, aic, signer, spki, version) == Rejected
    ensures spki == KeyBytes(o, agent) && VerifyAuth(o, aic, signer, agent) == Valid ==>
              o.verifyAt(aic, signer, spki, VERSION_2) == Valid && agent.Some? && o.key(agent.value) == Spki(spki)
  {
  }

  /** The agent's key as it is signed over: nothing, without a certificate or a key. */
  function KeyBytes(o: Oracles, agent: Option<Certificate>): Bytes {
    if agent.Some? && o.key(agent.value).Spki? then o.key(agent.value).bytes else []
  }

  // ------------------------------------------------------------------- coverage

  predicate CoveredBySome(leaf: Capability, ancestors: seq<Capability>) {
    exists i :: 0 <= i < |ancestors| && Covered(leaf.id, ancestors[i].id)
  }

  predicate Subset(leaves: seq<Capability>, ancestors: seq<Capability>) {
    forall i :: 0 <= i < |leaves| ==> CoveredBySome(leaves[i], ancestors)
  }

  method CapabilitySubset(subset: seq<Capability>, superset: seq<Capability>) returns (ok: bool)
    ensures ok <==> Subset(subset, superset)
  {
    if |subset| == 0 {
      return true;
    }
    if |superset| == 0 {
      assert !CoveredBySome(subset[0], superset);
      return false;
    }
    for i := 0 to |subset|
      invariant forall k :: 0 <= k < i ==> CoveredBySome(subset[k], superset)
    {
      var covered := false;
      for j := 0 to |superset|
        invariant !covered && forall k :: 0 <= k < j ==> !Covered(subset[i].id, superset[k].id)
      {
        if Covered(subset[i].id, superset[j].id) {
          covered := true;
          break;
        }
      }
      if !covered {
        assert !CoveredBySome(subset[i], superset);
        return false;
      }
    }
    ok := true;
  }

  function CoveredOnly(leaves: seq<Capability>, ancestors: seq<Capability>): seq<Capability> {
    if leaves == [] then []
    else
      var n := |leaves| - 1;
      CoveredOnly(leaves[..n], ancestors) + if CoveredBySome(leaves[n], ancestors) then [leaves[n]] else []
  }

  method FilterCovered(leaf: seq<Capability>, ancestor: seq<Capability>) returns (out: seq<Capability>)
    ensures out == CoveredOnly(leaf, ancestor)
  {
    if |leaf| == 0 || |ancestor| == 0 {
      NothingCovers(leaf, ancestor);
      return [];
    }
    out := [];
    for i := 0 to |leaf|
      invariant out == CoveredOnly(leaf[..i], ancestor)
    {
      assert leaf[..i + 1][..i] == leaf[..i];
      for j := 0 to |ancestor|
        invariant forall k :: 0 <= k < j ==> !Covered(leaf[i].id, ancestor[k].id)
        invariant out == CoveredOnly(leaf[..i], ancestor)
      {
        if Covered(leaf[i].id, ancestor[j].id) {
          assert CoveredBySome(leaf[i], ancestor);
          out := out + [leaf[i]];
          break;
        }
      }
    }
    assert leaf[..|leaf|] == leaf;
  }

  lemma {:induction false} NothingCovers(leaf: seq<Capability>, ancestor: seq<Capability>)
    requires leaf == [] || ancestor == []
    ensures CoveredOnly(leaf, ancestor) == []
  {
    if leaf != [] {
      NothingCovers(leaf[..|leaf| - 1], ancestor);
    }
  }

  lemma {:induction false} SubsetOfAllButLast(leaf: seq<Capability>, ancestor: seq<Capability>)
    requires leaf != [] && Subset(leaf, ancestor)
    ensures Subset(leaf[..|leaf| - 1], ancestor) && CoveredBySome(leaf[|leaf| - 1], ancestor)
  {
    var before := leaf[..|leaf| - 1];
    forall i | 0 <= i < |before| ensures CoveredBySome(before[i], ancestor) {
      assert before[i] == leaf[i];
    }
  }

  /** Filtering a subset keeps it whole: attenuation never drops a declared capability. */
  lemma {:induction false} SubsetIsKept(leaf: seq<Capability>, ancestor: seq<Capability>)
    requires Subset(leaf, ancestor)
    ensures CoveredOnly(leaf, ancestor) == leaf
    decreases |leaf|
  {
    if leaf != [] {
      SubsetOfAllButLast(leaf, ancestor);
      SubsetIsKept(leaf[..|leaf| - 1], ancestor);
      assert leaf == leaf[..|leaf| - 1] + [leaf[|leaf| - 1]];
    }
  }

  // ---------------------------------------------------------------- the structure

  type Chain = seq<Option<Certificate>>

  predicate NoNil(chain: Chain) {
    forall i :: 0 <= i < |chain| ==> chain[i].Some?
  }

  predicate DistinctSerials(o: Oracles, chain: Chain)
    requires NoNil(chain)
  {
    forall i, j :: 0 <= i < j < |chain| ==> o.serial(chain[i].value) != o.serial(chain[j].value)
  }

  /** A limit that is not positive does not limit here; both callers pass a positive one. */
  predicate WellStructured(o: Oracles, chain: Chain, maxChainLen: int) {
    && chain != [] && (maxChainLen > 0 ==> |chain| <= maxChainLen)
    && NoNil(chain) && DistinctSerials(o, chain)
  }

  method VerifyChainStructure(o: Oracles, chain: Chain, maxChainLen: int) returns (ok: bool)
    ensures ok <==> WellStructured(o, chain, maxChainLen)
  {
    if |chain| == 0 {
      return false;
    }
    if maxChainLen > 0 && |chain| > maxChainLen {
      return false;
    }
    var seen: set<nat> := {};
    for i := 0 to |chain|
      invariant NoNil(chain[..i]) && DistinctSerials(o, chain[..i])
      invariant forall s :: s in seen <==> exists k :: 0 <= k < i && o.serial(chain[..i][k].value) == s
    {
      assert forall k :: 0 <= k < i ==> chain[..i][k] == chain[k];
      if chain[i].None? {
        return false;
      }
      var serial := o.serial(chain[i].value);
      if serial in seen {
        return false;
      }
      seen := seen + {serial};
      assert chain[..i + 1] == chain[..i] + [chain[i]];
    }
    assert chain[..|chain|] == chain;
    ok := true;
  }

  // ---------------------------------------------------------------- the signatures

  /** Level i is signed by level i - 1, level 0 by the top principal. */
  function Signer(chain: Chain, top: Certificate, i: nat): Certificate
    requires i < |chain| && NoNil(chain)
  {
    if i == 0 then top else chain[i - 1].value
  }

  predicate LevelSigned(o: Oracles, chain: Chain, top: Certificate, i: nat)
    requires i < |chain| && NoNil(chain)
  {
    var parsed := o.parse(chain[i].value);
    parsed.Parsed? && parsed.aic.present && VerifyAuth(o, parsed.aic, Signer(chain, top, i), chain[i]) == Valid
  }

  predicate AllSigned(o: Oracles, chain: Chain, top: Certificate)
    requires NoNil(chain)
  {
    forall i :: 0 <= i < |chain| ==> LevelSigned(o, chain, top, i)
  }

  function EffectiveLimit(maxChainLen: int): int {
    if maxChainLen <= 0 then DEFAULT_MAX_CHAIN_LENGTH else maxChainLen
  }

  predicate Verified(o: Oracles, chain: Chain, top: Option<Certificate>, maxDepth: int, maxChainLen: int) {
    && top.Some? && |chain| <= maxDepth
    && WellStructured(o, chain, EffectiveLimit(maxChainLen))
    && AllSigned(o, chain, top.value)
  }

  /** A depth of zero or less is not "no limit": it admits no chain at all. */
  lemma {:induction false} NoDepthNoChain(o: Oracles, chain: Chain, top: Option<Certificate>, maxDepth: int,
                                          maxChainLen: int)
    requires maxDepth <= 0
    ensures !Verified(o, chain, top, maxDepth, maxChainLen)
  {
  }

  /** The verifier object's two limits. A depth of zero or less admits no chain. */
  class ChainVerifier {
    const o: Oracles
    const maxDepth: int
    const maxChainLength: int

    constructor (o: Oracles, maxDepth: int, maxChainLength: int)
      ensures this.o == o && this.maxDepth == maxDepth && this.maxChainLength == maxChainLength
    {
      this.o, this.maxDepth, this.maxChainLength := o, maxDepth, maxChainLength;
    }

    /** Bottom-up over the levels. */
    method Verify(chain: Chain, top: Option<Certificate>) returns (ok: bool)
      ensures ok <==> Verified(o, chain, top, maxDepth, maxChainLength)
    {
      if |chain| == 0 {
        return false;
      }
      if top.None? {
        return false;
      }
      if |chain| > maxDepth {
        return false;
      }
      var limit := maxChainLength;
      if limit <= 0 {
        limit := DEFAULT_MAX_CHAIN_LENGTH;
      }
      var structured := VerifyChainStructure(o, chain, limit);
      if !structured {
        return false;
      }
      var i := |chain| - 1;
      while i >= 0
        invariant -1 <= i < |chain|
        invariant forall k :: i < k < |chain| ==> LevelSigned(o, chain, top.value, k)
      {
        var parsed := o.parse(chain[i].value);
        if !parsed.Parsed? || !parsed.aic.present {
          assert !LevelSigned(o, chain, top.value, i);
          return false;
        }
        var signer;
        if i == 0 {
          signer := top.value;
        } else {
          signer := chain[i - 1].value;
        }
        if VerifyAuth(o, parsed.aic, signer, chain[i]) != Valid {
          assert !LevelSigned(o, chain, top.value, i);
          return false;
        }
        i := i - 1;
      }
      ok := true;
    }
  }

  // --------------------------------------------------------------- the attenuation

  function CapsOf(o: Oracles, c: Certificate): seq<Capability> {
    var parsed := o.parse(c);
    if parsed.Parsed? then parsed.aic.capabilities else []
  }

  /** Level i's capabilities; -1 stands for the principal's. */
  function LevelCaps(o: Oracles, chain: Chain, principal: seq<Capability>, i: int): seq<Capability>
    requires -1 <= i < |chain| && NoNil(chain)
  {
    if i == -1 then principal else CapsOf(o, chain[i].value)
  }

  /** A level parses, declares something, and only what its parent covers. */
  predicate Narrows(o: Oracles, cert: Certificate, parentCaps: seq<Capability>) {
    o.parse(cert).Parsed? && CapsOf(o, cert) != [] && Subset(CapsOf(o, cert), parentCaps)
  }

  predicate LevelNarrows(o: Oracles, chain: Chain, principal: seq<Capability>, i: nat)
    requires i < |chain| && NoNil(chain)
  {
    Narrows(o, chain[i].value, LevelCaps(o, chain, principal, i - 1))
  }

  predicate AllNarrow(o: Oracles, chain: Chain, principal: seq<Capability>)
    requires NoNil(chain)
  {
    forall i :: 0 <= i < |chain| ==> LevelNarrows(o, chain, principal, i)
  }

  /** One round of the loop: this level's effective capabilities, if it narrows. */
  method NarrowOnce(o: Oracles, cert: Certificate, eff: seq<Capability>) returns (next: Option<seq<Capability>>)
    ensures next == if Narrows(o, cert, eff) then Some(CapsOf(o, cert)) else None
  {
    var parsed := o.parse(cert);
    if !parsed.Parsed? {
      return None;
    }
    var subset := CapabilitySubset(parsed.aic.capabilities, eff);
    if !subset {
      return None;
    }
    SubsetIsKept(parsed.aic.capabilities, eff);
    var kept := FilterCovered(parsed.aic.capabilities, eff);
    next := if |kept| == 0 then None else Some(kept);
  }

  method EffectiveCapabilities(o: Oracles, chain: Chain, principalCaps: seq<Capability>, maxChainLen: int)
    returns (eff: Option<seq<Capability>>)
    ensures eff.Some? <==> WellStructured(o, chain, maxChainLen) && AllNarrow(o, chain, principalCaps)
    ensures eff.Some? ==> eff.value == CapsOf(o, chain[|chain| - 1].value)
  {
    var structured := VerifyChainStructure(o, chain, maxChainLen);
    if !structured {
      return None;
    }
    var caps := principalCaps;
    for i := 0 to |chain|
      invariant caps == LevelCaps(o, chain, principalCaps, i - 1)
      invariant forall k :: 0 <= k < i ==> LevelNarrows(o, chain, principalCaps, k)
    {
      var next := NarrowOnce(o, chain[i].value, caps);
      if next.None? {
        assert !LevelNarrows(o, chain, principalCaps, i);
        return None;
      }
      caps := next.value;
    }
    eff := Some(caps);
  }

  /** What an accepted chain is. */
  predicate Accepted(o: Oracles, chain: Chain, top: Option<Certificate>, principalCaps: seq<Capability>,
                     maxDepth: int, maxChainLen: int) {
    Verified(o, chain, top, maxDepth, maxChainLen) && AllNarrow(o, chain, principalCaps)
  }

  /** Exactly those chains are accepted, and the result is the last level's list. */
  method VerifyDelegationChainWithCaps(o: Oracles, chain: Chain, topPrincipal: Option<Certificate>,
                                       principalCaps: seq<Capability>, maxDepth: int, maxChainLen: int)
    returns (eff: Option<seq<Capability>>)
    ensures eff.Some? <==> Accepted(o, chain, topPrincipal, principalCaps, maxDepth, maxChainLen)
    ensures eff.Some? ==> eff.value == CapsOf(o, chain[|chain| - 1].value)
  {
    var limit := maxChainLen;
    if limit <= 0 {
      limit := DEFAULT_MAX_CHAIN_LENGTH;
    }
    var v := new ChainVerifier(o, maxDepth, limit);
    var ok := v.Verify(chain, topPrincipal);
    if !ok {
      return None;
    }
    eff := EffectiveCapabilities(o, chain, principalCaps, limit);
  }

  /** What an accepted chain rests on: every level is there and declares an authorization that
      verifies under the level before it, the first under the top principal, at an encoding
      its version admits; and the chain is within the depth and the length given, or eight
      levels if no positive length is. */
  lemma {:induction false} AcceptedIsSigned(o: Oracles, chain: Chain, top: Option<Certificate>,
                                            principalCaps: seq<Capability>, maxDepth: int, maxChainLen: int, i: nat)
    returns (encoding: int, spki: Bytes)
    requires Accepted(o, chain, top, principalCaps, maxDepth, maxChainLen) && i < |chain|
    ensures |chain| <= maxDepth && |chain| <= if maxChainLen > 0 then maxChainLen else 8
    ensures forall j :: 0 <= j < |chain| ==> chain[j].Some?
    ensures forall j :: 0 <= j < |chain| && j != i ==> o.serial(chain[j].value) != o.serial(chain[i].value)
    ensures top.Some? && o.parse(chain[i].value).Parsed?
    ensures var aic := o.parse(chain[i].value).aic;
            && aic.present && aic.signed && Admissible(aic.version, encoding)
            && o.verifyAt(aic, if i > 0 then chain[i - 1].value else top.value, spki, encoding) == Valid
            && (encoding == VERSION_2 ==> spki != [] && o.key(chain[i].value) == Spki(spki))
  {
    assert LevelSigned(o, chain, top.value, i);
    var aic, signer := o.parse(chain[i].value).aic, if i > 0 then chain[i - 1].value else top.value;
    AcceptedEncoding(o, aic, signer, chain[i]);
    encoding, spki :| Admissible(aic.version, encoding)
      && o.verifyAt(aic, signer, spki, encoding) == Valid
      && (encoding == VERSION_2 ==> spki != [] && o.key(chain[i].value) == Spki(spki));
  }

  predicate AllSimple(caps: seq<Capability>) {
    forall i :: 0 <= i < |caps| ==> Simple(caps[i].id)
  }

  /** Narrowing twice is narrowing, over simple ancestors. */
  lemma {:induction false} SubsetComposes(a: seq<Capability>, b: seq<Capability>, c: seq<Capability>)
    requires AllSimple(a) && Subset(b, a) && Subset(c, b)
    ensures Subset(c, a)
  {
    forall i | 0 <= i < |c|
      ensures CoveredBySome(c[i], a)
    {
      assert CoveredBySome(c[i], b);
      var j :| 0 <= j < |b| && Covered(c[i].id, b[j].id);
      assert CoveredBySome(b[j], a);
      var k :| 0 <= k < |a| && Covered(b[j].id, a[k].id);
      SimpleIsTransitive(a[k].id, b[j].id, c[i].id);
    }
  }

  lemma {:induction false} ParentCovers(o: Oracles, chain: Chain, principalCaps: seq<Capability>, i: nat)
    requires NoNil(chain) && AllNarrow(o, chain, principalCaps) && i < |chain|
    ensures Subset(LevelCaps(o, chain, principalCaps, i), LevelCaps(o, chain, principalCaps, i - 1))
  {
    assert LevelNarrows(o, chain, principalCaps, i);
  }

  /** Attenuation: what an accepted chain ends with is covered at every level whose
      capabilities are simple, however far up, the principal's (-1) included. */
  lemma {:induction false} Attenuation(o: Oracles, chain: Chain, top: Option<Certificate>,
                                       principalCaps: seq<Capability>,
                                       maxDepth: int, maxChainLen: int, level: int, i: nat)
    requires Accepted(o, chain, top, principalCaps, maxDepth, maxChainLen)
    requires -1 <= level < i < |chain|
    requires AllSimple(LevelCaps(o, chain, principalCaps, level))
    ensures Subset(LevelCaps(o, chain, principalCaps, i), LevelCaps(o, chain, principalCaps, level))
    decreases i
  {
    ParentCovers(o, chain, principalCaps, i);
    if level < i - 1 {
      Attenuation(o, chain, top, principalCaps, maxDepth, maxChainLen, level, i - 1);
      SubsetComposes(LevelCaps(o, chain, principalCaps, level), LevelCaps(o, chain, principalCaps, i - 1),
                     LevelCaps(o, chain, principalCaps, i));
    }
  }

  /** Every accepted chain under a principal's list ends inside that list. */
  ghost predicate EndsInside(principalCaps: seq<Capability>) {
    forall o: Oracles, chain: Chain, top: Option<Certificate>, maxDepth: int, maxChainLen: int ::
      Accepted(o, chain, top, principalCaps, maxDepth, maxChainLen) ==>
        Subset(CapsOf(o, chain[|chain| - 1].value), principalCaps)
  }

  /** Certificates 0 and 1 declare one capability each, and every signature verifies. */
  function TwoLevels(b: Capability, c: Capability): Oracles {
    Oracles(cert => cert, cert => Parsed(AIC(VERSION_1, true, true, [if cert == 0 then b else c])),
            _ => NoKey, (_, _, _, _) => Valid)
  }

  lemma {:induction false} OneCovers(b: Capability, a: Capability)
    ensures Subset([b], [a]) <==> Covered(b.id, a.id)
  {
    if Covered(b.id, a.id) {
      assert Covered(b.id, [a][0].id);
    }
    assert CoveredBySome([b][0], [a]) ==> Covered(b.id, a.id);
  }

  /** Two narrowing levels below one capability make an accepted chain. */
  lemma {:induction false} TwoLevelsAccepted(a: Capability, b: Capability, c: Capability, top: Certificate)
    requires Covered(b.id, a.id) && Covered(c.id, b.id)
    ensures Accepted(TwoLevels(b, c), [Some(0), Some(1)], Some(top), [a], 2, DEFAULT_MAX_CHAIN_LENGTH)
    ensures CapsOf(TwoLevels(b, c), 1) == [c]
  {
    OneCovers(b, a);
    OneCovers(c, b);
    var o, chain := TwoLevels(b, c), [Some(0), Some(1)];
    assert LevelNarrows(o, chain, [a], 0) && LevelNarrows(o, chain, [a], 1);
  }

  /** One step further the direct parent's cover is all there is: below any ancestor with
      a "?" or an inner "*", an accepted chain of two levels can end outside it. */
  lemma {:induction false} AttenuationEscapes(a: Capability, top: Certificate)
    requires NoBrackets(a.id) && !Simple(a.id)
    ensures exists o: Oracles, chain: Chain :: |chain| == 2
              && Accepted(o, chain, Some(top), [a], 2, DEFAULT_MAX_CHAIN_LENGTH)
              && !Subset(CapsOf(o, chain[1].value), [a])
  {
    StrayIsBelowInstance(a.id);
    StrayIsNotCovered(a.id);
    var b, c := Capability(Instance(a.id), []), Capability(Stray(a.id), []);
    TwoLevelsAccepted(a, b, c, top);
    OneCovers(c, a);
  }

  /** Below one capability without classes and escapes every accepted chain ends inside it
      exactly when it is simple. */
  lemma {:induction false} EndsInsideIffSimple(a: Capability)
    requires NoBrackets(a.id)
    ensures EndsInside([a]) <==> Simple(a.id)
  {
    if Simple(a.id) {
      forall o: Oracles, chain: Chain, top: Option<Certificate>, maxDepth: int, maxChainLen: int |
        Accepted(o, chain, top, [a], maxDepth, maxChainLen)
        ensures Subset(CapsOf(o, chain[|chain| - 1].value), [a])
      {
        Attenuation(o, chain, top, [a], maxDepth, maxChainLen, -1, |chain| - 1);
      }
    } else {
      AttenuationEscapes(a, 0);
    }
  }
}
