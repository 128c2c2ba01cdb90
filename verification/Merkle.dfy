/** The Merkle audit tree: the level-by-level construction, its audit paths, and
    the recursive definitions of section 2.1 of RFC 6962 they are measured against. */
module Merkle {
  import opened ByteStrings
  import opened TreeShape

  type ProofStep = Step<Bytes>

  // ---------------------------------------------------------------- hashing

  function HashLeaf(h: Hasher, data: Bytes): Digest { h([0] + data) }

  function HashNode(h: Hasher, left: Bytes, right: Bytes): Digest { h([1] + left + right) }

  /** HashNode as the node operation of a tree shape. */
  function NodeOp(h: Hasher): (Bytes, Bytes) -> Bytes { (left, right) => HashNode(h, left, right) }

  function LeafHashes(h: Hasher, leaves: seq<Bytes>): seq<Bytes> {
    seq(|leaves|, i requires 0 <= i < |leaves| => HashLeaf(h, leaves[i]))
  }

  /** A leaf's hash input read back. */
  lemma {:induction false} LeafInputInjective(data: Bytes, data': Bytes)
    requires [0] + data == [0] + data'
    ensures data == data'
  {
    assert data == ([0] + data)[1..] && data' == ([0] + data')[1..];
  }

  /** Domain separation and fixed-width digests make a node's hash input readable back. */
  lemma {:induction false} NodeInputInjective(l: Bytes, r: Bytes, l': Bytes, r': Bytes)
    requires [1] + l + r == [1] + l' + r'
    requires |l| == |l'| || |r| == |r'|
    ensures l == l' && r == r'
  {
    assert |l| + |r| == |l'| + |r'|;
    assert l == ([1] + l + r)[1..1 + |l|];
    assert l' == ([1] + l' + r')[1..1 + |l'|];
    assert r == ([1] + l + r)[1 + |l|..];
    assert r' == ([1] + l' + r')[1 + |l'|..];
  }

  // --------------------------------------------- RFC 6962, section 2.1

  /** The Merkle Tree Hash of section 2.1, byte for byte. */
  function MTH(h: Hasher, d: seq<Bytes>): Digest
    requires d != []
  {
    if |d| == 1 then h([0] + d[0])
    else
      var k := Split(|d|);
      h([1] + MTH(h, d[..k]) + MTH(h, d[k..]))
  }

  /** The audit path PATH(m, D) of section 2.1.1, deepest sibling first, each step
      with the side its sibling stands on. */
  function Path(h: Hasher, m: nat, d: seq<Bytes>): seq<ProofStep>
    requires m < |d|
  {
    if |d| == 1 then []
    else
      var k := Split(|d|);
      if m < k then Path(h, m, d[..k]) + [Step(MTH(h, d[k..]), false)]
      else Path(h, m - k, d[k..]) + [Step(MTH(h, d[..k]), true)]
  }

  lemma {:induction false} LeafHashesSplit(h: Hasher, d: seq<Bytes>, k: nat)
    requires k <= |d|
    ensures LeafHashes(h, d) == LeafHashes(h, d[..k]) + LeafHashes(h, d[k..])
  {
  }

  /** Stacking levels ends at the Merkle Tree Hash. */
  lemma {:induction false} TopIsMTH(h: Hasher, d: seq<Bytes>)
    requires d != []
    ensures Top(NodeOp(h), LeafHashes(h, d)) == MTH(h, d)
  {
    if |d| > 1 {
      var k := Split(|d|);
      LeafHashesSplit(h, d, k);
      TopIsMTH(h, d[..k]);
      TopIsMTH(h, d[k..]);
      TopJoins(NodeOp(h), LeafHashes(h, d[..k]), LeafHashes(h, d[k..]));
    }
  }

  lemma {:induction false} PathUnfolds(h: Hasher, m: nat, d: seq<Bytes>, k: nat)
    requires m < |d| && |d| > 1 && k == Split(|d|)
    ensures m < k ==> Path(h, m, d) == Path(h, m, d[..k]) + [Step(MTH(h, d[k..]), false)]
    ensures m >= k ==> Path(h, m, d) == Path(h, m - k, d[k..]) + [Step(MTH(h, d[..k]), true)]
  {
  }

  lemma {:induction false} ClimbsLeft(h: Hasher, m: nat, d: seq<Bytes>, k: nat)
    requires |d| > 1 && k == Split(|d|) && m < k
    requires Climbing(NodeOp(h), m, LeafHashes(h, d[..k])) == Path(h, m, d[..k])
    ensures Climbing(NodeOp(h), m, LeafHashes(h, d)) == Path(h, m, d)
  {
    PathUnfolds(h, m, d, k);
    LeafHashesSplit(h, d, k);
    TopIsMTH(h, d[k..]);
    LeftClimbJoins(NodeOp(h), m, LeafHashes(h, d[..k]), LeafHashes(h, d[k..]));
  }

  lemma {:induction false} ClimbsRight(h: Hasher, m: nat, d: seq<Bytes>, k: nat)
    requires |d| > 1 && k == Split(|d|) && k <= m < |d|
    requires Climbing(NodeOp(h), m - k, LeafHashes(h, d[k..])) == Path(h, m - k, d[k..])
    ensures Climbing(NodeOp(h), m, LeafHashes(h, d)) == Path(h, m, d)
  {
    PathUnfolds(h, m, d, k);
    LeafHashesSplit(h, d, k);
    TopIsMTH(h, d[..k]);
    RightClimbJoins(NodeOp(h), m, m - k, LeafHashes(h, d[..k]), LeafHashes(h, d[k..]));
  }

  /** Halving the index level by level collects the audit path. */
  lemma {:induction false} ClimbingIsPath(h: Hasher, m: nat, d: seq<Bytes>)
    requires m < |d|
    ensures Climbing(NodeOp(h), m, LeafHashes(h, d)) == Path(h, m, d)
  {
    if |d| > 1 {
      var k := Split(|d|);
      if m < k {
        ClimbingIsPath(h, m, d[..k]);
        ClimbsLeft(h, m, d, k);
      } else {
        ClimbingIsPath(h, m - k, d[k..]);
        ClimbsRight(h, m, d, k);
      }
    }
  }

  // ------------------------------------------------------------ checking proofs

  function StepInput(d: Digest, step: ProofStep): Bytes {
    if step.left then [1] + step.sibling + d else [1] + d + step.sibling
  }

  /** The hash a proof leads to from the hash d. */
  function Climb(h: Hasher, d: Digest, proof: seq<ProofStep>): Digest {
    if proof == [] then d
    else h(StepInput(Climb(h, d, proof[..|proof| - 1]), proof[|proof| - 1]))
  }

  method VerifyProof(h: Hasher, leaf: Bytes, proof: seq<ProofStep>, root: Bytes) returns (ok: bool)
    ensures ok <==> Climb(h, h([0] + leaf), proof) == root
  {
    var hash := HashLeaf(h, leaf);
    for i := 0 to |proof|
      invariant hash == Climb(h, h([0] + leaf), proof[..i])
    {
      var step := proof[i];
      assert proof[..i + 1][..i] == proof[..i];
      if step.left {
        hash := HashNode(h, step.sibling, hash);
      } else {
        hash := HashNode(h, hash, step.sibling);
      }
    }
    assert proof[..|proof|] == proof;
    ok := |hash| > 0 && |root| > 0 && hash == root;
  }

  /** A negative bound switches the length check off. */
  method VerifyProofBounded(h: Hasher, leaf: Bytes, proof: seq<ProofStep>, root: Bytes, maxProofLen: int)
    returns (ok: bool)
    ensures ok <==> (maxProofLen < 0 || |proof| <= maxProofLen) && Climb(h, h([0] + leaf), proof) == root
  {
    if maxProofLen >= 0 && |proof| > maxProofLen {
      return false;
    }
    ok := VerifyProof(h, leaf, proof, root);
  }

  /** Completeness: every leaf's audit path leads to the root. */
  lemma {:induction false} PathReachesRoot(h: Hasher, m: nat, d: seq<Bytes>)
    requires m < |d|
    ensures Climb(h, h([0] + d[m]), Path(h, m, d)) == MTH(h, d)
  {
    if |d| > 1 {
      var k := Split(|d|);
      var path := Path(h, m, d);
      if m < k {
        PathReachesRoot(h, m, d[..k]);
        assert path[..|path| - 1] == Path(h, m, d[..k]);
      } else {
        PathReachesRoot(h, m - k, d[k..]);
        assert path[..|path| - 1] == Path(h, m - k, d[k..]);
      }
    }
  }

  /** What an accepted proof amounts to: membership, or two inputs with one hash. */
  datatype Finding = Member(index: nat) | Collision(x: Bytes, y: Bytes)

  /** The root's own hash input. */
  function RootInput(h: Hasher, d: seq<Bytes>): Bytes
    requires d != []
  {
    if |d| == 1 then [0] + d[0]
    else [1] + MTH(h, d[..Split(|d|)]) + MTH(h, d[Split(|d|)..])
  }

  /** The last hash input a verifier computes. */
  function LastInput(h: Hasher, leaf: Bytes, proof: seq<ProofStep>): Bytes {
    if proof == [] then [0] + leaf
    else StepInput(Climb(h, h([0] + leaf), proof[..|proof| - 1]), proof[|proof| - 1])
  }

  /** Walks tree and proof down from the root together. The first input that differs
      from the tree's own is a collision; if none does, the directions spell an index. */
  ghost function Explain(h: Hasher, d: seq<Bytes>, leaf: Bytes, proof: seq<ProofStep>): Finding
    requires d != []
    decreases |proof|
  {
    if LastInput(h, leaf, proof) != RootInput(h, d) then
      Collision(LastInput(h, leaf, proof), RootInput(h, d))
    else if proof == [] || |d| == 1 then Member(0)
    else
      var k := Split(|d|);
      var rest := proof[..|proof| - 1];
      if proof[|proof| - 1].left then
        match Explain(h, d[k..], leaf, rest)
        case Member(i) => Member(k + i)
        case Collision(x, y) => Collision(x, y)
      else Explain(h, d[..k], leaf, rest)
  }

  /** Soundness: whatever the leaf and the steps are, an accepted proof is the audit
      path of a leaf of the tree, or the two inputs found collide. */
  lemma {:induction false} AcceptedProofIsAuditPath(h: Hasher, d: seq<Bytes>, leaf: Bytes, proof: seq<ProofStep>)
    requires d != []
    requires Climb(h, h([0] + leaf), proof) == MTH(h, d)
    ensures match Explain(h, d, leaf, proof)
            case Member(i) => i < |d| && leaf == d[i] && proof == Path(h, i, d)
            case Collision(x, y) => Collides(h, x, y)
    decreases |proof|
  {
    if LastInput(h, leaf, proof) == RootInput(h, d) {
      if proof == [] {
        assert RootInput(h, d)[0] == 0;
        LeafInputInjective(leaf, d[0]);
      } else {
        assert LastInput(h, leaf, proof)[0] == 1;
        assert |d| > 1;
        var k := Split(|d|);
        var last, rest := proof[|proof| - 1], proof[..|proof| - 1];
        var below := Climb(h, h([0] + leaf), rest);
        assert proof == rest + [last];
        if last.left {
          NodeInputInjective(last.sibling, below, MTH(h, d[..k]), MTH(h, d[k..]));
          AcceptedProofIsAuditPath(h, d[k..], leaf, rest);
        } else {
          NodeInputInjective(below, last.sibling, MTH(h, d[..k]), MTH(h, d[k..]));
          AcceptedProofIsAuditPath(h, d[..k], leaf, rest);
        }
      }
    }
  }

  /** Two leaf lists' first differing hash inputs, walking both trees down together. */
  ghost function Differ(h: Hasher, a: seq<Bytes>, b: seq<Bytes>): (Bytes, Bytes)
    requires a != [] && b != []
  {
    if RootInput(h, a) != RootInput(h, b) || |a| == 1 || |b| == 1 then (RootInput(h, a), RootInput(h, b))
    else if a[..Split(|a|)] != b[..Split(|b|)] then Differ(h, a[..Split(|a|)], b[..Split(|b|)])
    else Differ(h, a[Split(|a|)..], b[Split(|b|)..])
  }

  /** Binding: one root for two lists of any lengths means one list, or a collision. */
  lemma {:induction false} RootBindsLeaves(h: Hasher, a: seq<Bytes>, b: seq<Bytes>)
    requires a != [] && b != []
    requires MTH(h, a) == MTH(h, b)
    ensures a == b || Collides(h, Differ(h, a, b).0, Differ(h, a, b).1)
    decreases |a|
  {
    if RootInput(h, a) == RootInput(h, b) {
      if |a| == 1 || |b| == 1 {
        assert RootInput(h, a)[0] == 0 <==> |a| == 1;
        assert RootInput(h, b)[0] == 0 <==> |b| == 1;
        LeafInputInjective(a[0], b[0]);
        assert a == [a[0]] && b == [b[0]];
      } else {
        var a0, a1 := a[..Split(|a|)], a[Split(|a|)..];
        var b0, b1 := b[..Split(|b|)], b[Split(|b|)..];
        assert a == a0 + a1 && b == b0 + b1;
        NodeInputInjective(MTH(h, a0), MTH(h, a1), MTH(h, b0), MTH(h, b1));
        if a0 != b0 {
          RootBindsLeaves(h, a0, b0);
        } else if a1 != b1 {
          RootBindsLeaves(h, a1, b1);
        }
      }
    }
  }

  lemma {:induction false} PathLength(h: Hasher, m: nat, d: seq<Bytes>)
    requires m < |d|
    ensures |Path(h, m, d)| <= CeilLog2(|d|)
  {
    ClimbingIsPath(h, m, d);
    ClimbingLength(NodeOp(h), m, LeafHashes(h, d));
  }

  // ------------------------------------------------------------- the tree object

  /** The root's text form: empty for a tree without leaves. */
  function RootHex(h: Hasher, leaves: seq<Bytes>): string {
    if leaves == [] then "" else HexEncode(MTH(h, leaves))
  }

  lemma {:induction false} RootHexBinds(h: Hasher, a: seq<Bytes>, b: seq<Bytes>)
    requires RootHex(h, a) == RootHex(h, b)
    ensures a == b || (a != [] && b != [] && Collides(h, Differ(h, a, b).0, Differ(h, a, b).1))
  {
    if a != [] { HexLength(MTH(h, a)); }
    if b != [] { HexLength(MTH(h, b)); }
    if a != [] && b != [] {
      HexInjective(MTH(h, a), MTH(h, b));
      RootBindsLeaves(h, a, b);
    }
  }

  lemma {:induction false} NextLevelFollows(h: Hasher, nodes: seq<Bytes>)
    requires |nodes| > 1
    ensures var next := NextLevel(NodeOp(h), nodes);
            LevelsFrom(NodeOp(h), nodes)[1..] == [next] + LevelsFrom(NodeOp(h), next)[1..]
  {
  }

  lemma {:induction false} RowAt(h: Hasher, levels: seq<seq<Bytes>>, level: nat, nodes: seq<Bytes>)
    requires nodes != [] && level + 1 < |levels| && levels[level..] == LevelsFrom(NodeOp(h), nodes)
    ensures levels[level] == nodes && |nodes| > 1
    ensures levels[level + 1..] == LevelsFrom(NodeOp(h), NextLevel(NodeOp(h), nodes))
  {
    assert levels[level] == levels[level..][0];
    assert levels[level + 1..] == levels[level..][1..];
  }

  lemma {:induction false} TopRow(h: Hasher, levels: seq<seq<Bytes>>, nodes: seq<Bytes>)
    requires nodes != [] && levels != [] && levels[|levels| - 1..] == LevelsFrom(NodeOp(h), nodes)
    ensures |nodes| == 1
  {
    assert |LevelsFrom(NodeOp(h), nodes)| == 1;
  }

  /** The first loop of the construction: the hashes of the leaves. */
  method HashLeaves(h: Hasher, leaves: seq<Bytes>) returns (hashes: seq<Bytes>)
    ensures hashes == LeafHashes(h, leaves)
  {
    hashes := [];
    for i := 0 to |leaves|
      invariant hashes == LeafHashes(h, leaves)[..i]
    {
      hashes := hashes + [HashLeaf(h, leaves[i])];
    }
  }

  /** Its inner loop: one level from the level below. */
  method PairUp(h: Hasher, current: seq<Bytes>) returns (next: seq<Bytes>)
    ensures next == NextLevel(NodeOp(h), current)
  {
    next := [];
    var i := 0;
    while i < |current|
      invariant 0 <= i <= |current| + 1 && i % 2 == 0
      invariant next == NextLevel(NodeOp(h), current)[..i / 2]
    {
      if i + 1 < |current| {
        next := next + [HashNode(h, current[i], current[i + 1])];
      } else {
        next := next + [current[i]];
      }
      i := i + 2;
    }
  }

  /** Its outer loop: level upon level, until one node is left. */
  method StackLevels(h: Hasher, hashes: seq<Bytes>) returns (levels: seq<seq<Bytes>>, top: Bytes)
    requires hashes != []
    ensures levels == LevelsFrom(NodeOp(h), hashes) && top == Top(NodeOp(h), hashes)
  {
    var current := hashes;
    levels := [current];
    while |current| > 1
      invariant current != []
      invariant levels + LevelsFrom(NodeOp(h), current)[1..] == LevelsFrom(NodeOp(h), hashes)
      invariant Top(NodeOp(h), current) == Top(NodeOp(h), hashes)
      decreases |current|
    {
      var next := PairUp(h, current);
      NextLevelFollows(h, current);
      levels := levels + [next];
      current := next;
    }
    assert LevelsFrom(NodeOp(h), current)[1..] == [];
    top := current[0];
  }

  class MerkleTree {
    const h: Hasher
    var leaves: seq<Bytes>
    var levels: seq<seq<Bytes>>
    var root: Option<Bytes>

    /** The stored levels are those of the leaves, and the root is RFC 6962's. */
    ghost predicate Valid()
      reads this
    {
      if leaves == [] then levels == [] && root == None
      else levels == LevelsFrom(NodeOp(h), LeafHashes(h, leaves)) && root == Some(MTH(h, leaves))
    }

    constructor (h: Hasher, data: seq<Bytes>)
      ensures Valid() && this.h == h && leaves == data
    {
      this.h := h;
      leaves, levels, root := data, [], None;
      new;
      if |data| == 0 {
        return;
      }
      var hashes := HashLeaves(h, data);
      TopIsMTH(h, data);
      var rows, top := StackLevels(h, hashes);
      levels, root := rows, Some(top);
    }

    /** The audit path of section 2.1.1, or nothing for an index out of range. */
    method Proof(leafIndex: int) returns (proof: Option<seq<ProofStep>>)
      requires Valid()
      ensures proof == if 0 <= leafIndex < |leaves| then Some(Path(h, leafIndex, leaves)) else None
    {
      if leafIndex < 0 || leafIndex >= |leaves| {
        return None;
      }
      var steps: seq<ProofStep> := [];
      var idx: nat := leafIndex;
      ghost var nodes := LeafHashes(h, leaves);
      ClimbingIsPath(h, leafIndex, leaves);
      for level := 0 to |levels| - 1
        invariant idx < |nodes|
        invariant levels == LevelsFrom(NodeOp(h), LeafHashes(h, leaves))
        invariant levels[level..] == LevelsFrom(NodeOp(h), nodes)
        invariant steps + Climbing(NodeOp(h), idx, nodes) == Path(h, leafIndex, leaves)
      {
        ghost var before, rest := steps, Climbing(NodeOp(h), idx / 2, NextLevel(NodeOp(h), nodes));
        RowAt(h, levels, level, nodes);
        var row := levels[level];
        if idx % 2 == 0 {
          if idx + 1 < |row| {
            steps := steps + [Step(row[idx + 1], false)];
          }
        } else {
          steps := steps + [Step(row[idx - 1], true)];
        }
        assert steps == before + StepAt(row, idx);
        ConcatAssociative(before, StepAt(row, idx), rest);
        idx, nodes := idx / 2, NextLevel(NodeOp(h), nodes);
      }
      TopRow(h, levels, nodes);
      assert steps + [] == steps;
      proof := Some(steps);
    }

    method RootText() returns (text: string)
      requires Valid()
      ensures text == RootHex(h, leaves)
    {
      text := match root case None => "" case Some(r) => HexEncode(r);
    }
  }
}
