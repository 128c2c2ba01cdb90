/** Sealed batches: each names the root of the batch before it. */
module AuditChain {
  import opened ByteStrings
  import opened Merkle
  import opened TreeShape

  datatype SealedTree = SealedTree(batchNumber: int, timestamp: string, previous: string, root: string, size: nat)

  /** The trees are the sealed records of the batches, in order. */
  predicate Records(h: Hasher, trees: seq<SealedTree>, batches: seq<seq<Bytes>>) {
    && |trees| == |batches|
    && forall i :: 0 <= i < |trees| ==>
         trees[i].batchNumber == i && trees[i].root == RootHex(h, batches[i]) && trees[i].size == |batches[i]|
  }

  /** Every batch after the first links to its predecessor. */
  predicate Continuous(trees: seq<SealedTree>) {
    forall i :: 0 < i < |trees| ==> trees[i].previous == trees[i - 1].root
  }

  /** What SealChecked keeps: continuity, and no batch behind an empty one. */
  predicate Linked(h: Hasher, trees: seq<SealedTree>, batches: seq<seq<Bytes>>) {
    && Records(h, trees, batches)
    && Continuous(trees)
    && forall i :: 0 <= i < |batches| - 1 ==> batches[i] != []
  }

  function Latest(trees: seq<SealedTree>): string {
    if trees == [] then "" else trees[|trees| - 1].root
  }

  /** SealChecked's two guards. */
  predicate Accepts(trees: seq<SealedTree>, previousRoot: string) {
    trees == [] || (previousRoot != "" && previousRoot == Latest(trees))
  }

  function NewBatch(h: Hasher, trees: seq<SealedTree>, entries: seq<Bytes>, previousRoot: string,
                    now: string): SealedTree {
    SealedTree(|trees|, now, previousRoot, RootHex(h, entries), |entries|)
  }

  lemma {:induction false} SealingKeepsLinked(h: Hasher, trees: seq<SealedTree>, batches: seq<seq<Bytes>>,
                                              st: SealedTree, entries: seq<Bytes>)
    requires Linked(h, trees, batches) && Accepts(trees, st.previous)
    requires st.batchNumber == |trees| && st.root == RootHex(h, entries) && st.size == |entries|
    ensures Linked(h, trees + [st], batches + [entries])
  {
  }

  class Chain {
    const h: Hasher
    var trees: seq<SealedTree>
    ghost var batches: seq<seq<Bytes>>

    ghost predicate Valid()
      reads this
    {
      Records(h, trees, batches)
    }

    constructor (h: Hasher)
      ensures this.h == h && trees == [] && batches == [] && Valid()
    {
      this.h := h;
      trees, batches := [], [];
    }

    method Seal(entries: seq<Bytes>, previousRoot: string, now: string) returns (st: SealedTree)
      requires Valid()
      modifies this
      ensures Valid() && batches == old(batches) + [entries]
      ensures trees == old(trees) + [st] && st.previous == previousRoot && st.timestamp == now
    {
      var tree := new MerkleTree(h, entries);
      var root := tree.RootText();
      st := SealedTree(|trees|, now, previousRoot, root, |entries|);
      trees := trees + [st];
      batches := batches + [entries];
    }

    /** Refused exactly when the guards fail, and then nothing changes. */
    method SealChecked(entries: seq<Bytes>, previousRoot: string, now: string) returns (st: Option<SealedTree>)
      requires Valid()
      modifies this
      ensures Valid() && (old(Linked(h, trees, batches)) ==> Linked(h, trees, batches))
      ensures st.Some? <==> Accepts(old(trees), previousRoot)
      ensures st.Some? ==> st.value == NewBatch(h, old(trees), entries, previousRoot, now)
      ensures st.Some? ==> trees == old(trees) + [st.value] && batches == old(batches) + [entries]
      ensures st.Some? ==> st.value.previous == previousRoot && st.value.timestamp == now
      ensures st.None? ==> trees == old(trees) && batches == old(batches)
      ensures State(trees, batches) == SealedBy(h, old(State(trees, batches)), Call(entries, previousRoot, now))
    {
      if |trees| > 0 {
        var last := trees[|trees| - 1].root;
        if previousRoot == "" {
          return None;
        }
        if previousRoot != last {
          return None;
        }
      }
      var tree := new MerkleTree(h, entries);
      var root := tree.RootText();
      var batch := SealedTree(|trees|, now, previousRoot, root, |entries|);
      if Linked(h, trees, batches) {
        SealingKeepsLinked(h, trees, batches, batch, entries);
      }
      trees := trees + [batch];
      batches := batches + [entries];
      st := Some(batch);
    }

    method VerifyContinuity() returns (ok: bool)
      ensures ok <==> Continuous(trees)
    {
      for i := 0 to |trees|
        invariant forall j :: 0 < j < i ==> trees[j].previous == trees[j - 1].root
      {
        if i == 0 {
          continue;
        }
        if trees[i].previous != trees[i - 1].root {
          return false;
        }
      }
      ok := true;
    }

    /** No such batch is an error; otherwise the length bound and the hashes decide. */
    method Verify(batchNumber: int, leaf: Bytes, proof: seq<ProofStep>) returns (ok: Option<bool>)
      requires Valid()
      ensures ok == if 0 <= batchNumber < |batches| then Some(ProofAccepted(h, batches[batchNumber], leaf, proof))
                    else None
      ensures 0 <= batchNumber < |batches| && batches[batchNumber] == [] ==> ok == Some(false)
    {
      if batchNumber < 0 || batchNumber >= |trees| {
        return None;
      }
      var st := trees[batchNumber];
      ghost var batch := batches[batchNumber];
      if batch != [] { HexRoundTrip(MTH(h, batch)); }
      match HexDecode(st.root) {
        case None => return None;
        case Some(root) =>
          var maxProof := 0;
          if st.size > 1 {
            maxProof := CeilLog2(st.size);
          }
          var accepted := VerifyProofBounded(h, leaf, proof, root, maxProof);
          ok := Some(accepted);
      }
    }

    method LatestRoot() returns (root: string)
      ensures root == Latest(trees)
    {
      if |trees| == 0 {
        return "";
      }
      root := trees[|trees| - 1].root;
    }
  }

  predicate ProofAccepted(h: Hasher, batch: seq<Bytes>, leaf: Bytes, proof: seq<ProofStep>) {
    batch != [] && |proof| <= CeilLog2(|batch|) && Climb(h, h([0] + leaf), proof) == MTH(h, batch)
  }

  /** An entry of a sealed batch is accepted with its audit path, the length bound
      notwithstanding; and whatever is accepted is that, or exhibits a collision. */
  lemma {:induction false} VerifyMeansMembership(h: Hasher, batch: seq<Bytes>, leaf: Bytes, proof: seq<ProofStep>)
    requires batch != []
    ensures (exists i: nat :: i < |batch| && leaf == batch[i] && proof == Path(h, i, batch)) ==>
              ProofAccepted(h, batch, leaf, proof)
    ensures ProofAccepted(h, batch, leaf, proof) ==>
              match Explain(h, batch, leaf, proof)
              case Member(i) => i < |batch| && leaf == batch[i] && proof == Path(h, i, batch)
              case Collision(x, y) => Collides(h, x, y)
  {
    if i: nat :| i < |batch| && leaf == batch[i] && proof == Path(h, i, batch) {
      PathReachesRoot(h, i, batch);
      PathLength(h, i, batch);
    }
    if ProofAccepted(h, batch, leaf, proof) {
      AcceptedProofIsAuditPath(h, batch, leaf, proof);
    }
  }

  // ------------------------------------------------------------------ whole runs

  datatype Call = Call(entries: seq<Bytes>, previousRoot: string, now: string)

  datatype State = State(trees: seq<SealedTree>, batches: seq<seq<Bytes>>)

  /** One SealChecked call, accepted or refused. */
  function SealedBy(h: Hasher, s: State, c: Call): State {
    if Accepts(s.trees, c.previousRoot) then
      State(s.trees + [NewBatch(h, s.trees, c.entries, c.previousRoot, c.now)], s.batches + [c.entries])
    else s
  }

  function Run(h: Hasher, calls: seq<Call>): State {
    if calls == [] then State([], []) else SealedBy(h, Run(h, calls[..|calls| - 1]), calls[|calls| - 1])
  }

  lemma {:induction false} RunStaysLinked(h: Hasher, calls: seq<Call>)
    ensures var s := Run(h, calls); Linked(h, s.trees, s.batches)
  {
    if calls != [] {
      var c, s := calls[|calls| - 1], Run(h, calls[..|calls| - 1]);
      RunStaysLinked(h, calls[..|calls| - 1]);
      if Accepts(s.trees, c.previousRoot) {
        SealingKeepsLinked(h, s.trees, s.batches, NewBatch(h, s.trees, c.entries, c.previousRoot, c.now), c.entries);
      }
    }
  }

  /** The only acceptable link is the latest root, and an empty last batch leaves none. */
  lemma {:induction false} AcceptableLinks(h: Hasher, trees: seq<SealedTree>, batches: seq<seq<Bytes>>,
                                           previousRoot: string)
    requires Records(h, trees, batches)
    ensures Accepts(trees, previousRoot) <==>
              trees == [] || (batches[|batches| - 1] != [] && previousRoot == Latest(trees))
  {
    if trees != [] && batches[|batches| - 1] != [] {
      HexLength(MTH(h, batches[|batches| - 1]));
    }
  }

  /** Each call passes LatestRoot() on. */
  predicate FollowsLatest(h: Hasher, calls: seq<Call>) {
    forall i :: 0 <= i < |calls| ==> calls[i].previousRoot == Latest(Run(h, calls[..i]).trees)
  }

  function EntriesOf(calls: seq<Call>): seq<seq<Bytes>> {
    seq(|calls|, i requires 0 <= i < |calls| => calls[i].entries)
  }

  lemma {:induction false} FollowsLatestBefore(h: Hasher, calls: seq<Call>)
    requires FollowsLatest(h, calls) && calls != []
    ensures FollowsLatest(h, calls[..|calls| - 1])
    ensures calls[|calls| - 1].previousRoot == Latest(Run(h, calls[..|calls| - 1]).trees)
  {
    var before := calls[..|calls| - 1];
    forall i | 0 <= i < |before|
      ensures before[i].previousRoot == Latest(Run(h, before[..i]).trees)
    {
      assert before[..i] == calls[..i];
    }
  }

  lemma {:induction false} LatestIsAccepted(h: Hasher, before: seq<Call>, c: Call)
    requires Run(h, before).batches == EntriesOf(before) && c.previousRoot == Latest(Run(h, before).trees)
    requires forall i :: 0 <= i < |before| ==> before[i].entries != []
    ensures Accepts(Run(h, before).trees, c.previousRoot)
  {
    var s := Run(h, before);
    RunStaysLinked(h, before);
    assert s.batches != [] ==> s.batches[|s.batches| - 1] == before[|before| - 1].entries;
    AcceptableLinks(h, s.trees, s.batches, c.previousRoot);
  }

  lemma {:induction false} OneMoreSealed(h: Hasher, before: seq<Call>, c: Call)
    requires Run(h, before).batches == EntriesOf(before) && Accepts(Run(h, before).trees, c.previousRoot)
    ensures Run(h, before + [c]).batches == EntriesOf(before + [c])
  {
    assert (before + [c])[..|before|] == before;
    assert EntriesOf(before + [c]) == EntriesOf(before) + [c.entries];
  }

  /** With non-empty batches and the latest root passed on, every call seals its batch. */
  lemma {:induction false} FollowingLatestNeverFails(h: Hasher, calls: seq<Call>)
    requires FollowsLatest(h, calls)
    requires forall i :: 0 <= i < |calls| ==> calls[i].entries != []
    ensures Run(h, calls).batches == EntriesOf(calls)
    decreases |calls|
  {
    if calls != [] {
      var before, c := calls[..|calls| - 1], calls[|calls| - 1];
      assert calls == before + [c];
      FollowsLatestBefore(h, calls);
      FollowingLatestNeverFails(h, before);
      LatestIsAccepted(h, before, c);
      OneMoreSealed(h, before, c);
    }
  }

  /** A batch without entries is the chain's last: whatever is tried after it, nothing is
      sealed any more. */
  lemma {:induction false} EmptyBatchEndsTheChain(h: Hasher, calls: seq<Call>, more: seq<Call>)
    requires var s := Run(h, calls); s.batches != [] && s.batches[|s.batches| - 1] == []
    ensures Run(h, calls + more) == Run(h, calls)
    decreases |more|
  {
    if more == [] {
      assert calls + more == calls;
    } else {
      var n := |more| - 1;
      var s := Run(h, calls);
      EmptyBatchEndsTheChain(h, calls, more[..n]);
      assert (calls + more)[..|calls| + n] == calls + more[..n];
      RunStaysLinked(h, calls);
      AcceptableLinks(h, s.trees, s.batches, more[n].previousRoot);
    }
  }

  /** The first batch may be such a one. */
  lemma {:induction false} EmptyFirstBatch(h: Hasher, now: string, more: seq<Call>)
    ensures Run(h, [Call([], "", now)] + more).batches == [[]]
  {
    var calls := [Call([], "", now)];
    assert calls[..0] == [];
    assert Run(h, calls).batches == [] + [[]];
    EmptyBatchEndsTheChain(h, calls, more);
  }

  // --------------------------------------------------------------- tampering

  /** Continuity says nothing about the ends: any contiguous stretch passes. */
  lemma {:induction false} EndsMayBeCut(trees: seq<SealedTree>, a: nat, b: nat)
    requires Continuous(trees) && a <= b <= |trees|
    ensures Continuous(trees[a..b])
  {
  }

  /** Deleting the interior block a..b goes unnoticed exactly when the batch before it
      and the last batch in it have one root: the same entries, or a collision. */
  lemma {:induction false} DeletionUnnoticed(h: Hasher, trees: seq<SealedTree>, batches: seq<seq<Bytes>>, a: nat,
                                             b: nat)
    requires Linked(h, trees, batches) && 0 < a <= b < |trees| - 1
    ensures batches[a - 1] == batches[b] ==> Continuous(trees[..a] + trees[b + 1..])
    ensures Continuous(trees[..a] + trees[b + 1..]) ==>
              batches[a - 1] == batches[b]
              || Collides(h, Differ(h, batches[a - 1], batches[b]).0, Differ(h, batches[a - 1], batches[b]).1)
  {
    var left := trees[..a] + trees[b + 1..];
    assert left[a] == trees[b + 1] && left[a - 1] == trees[a - 1];
    assert trees[b + 1].previous == trees[b].root;
    if batches[a - 1] == batches[b] {
      forall i | 0 < i < |left|
        ensures left[i].previous == left[i - 1].root
      {
        if i > a {
          assert left[i] == trees[i + b + 1 - a] && left[i - 1] == trees[i + b - a];
        }
      }
    }
    if Continuous(left) {
      RootHexBinds(h, batches[a - 1], batches[b]);
    }
  }

  /** The records that remain after deleting, reordering or repeating batches. */
  function Selection(trees: seq<SealedTree>, order: seq<nat>): seq<SealedTree>
    requires forall k :: 0 <= k < |order| ==> order[k] < |trees|
  {
    seq(|order|, k requires 0 <= k < |order| => trees[order[k]])
  }

  predicate Contiguous(order: seq<nat>) {
    forall k :: 0 < k < |order| ==> order[k] == order[k - 1] + 1
  }

  /** Differ exhibits a collision between two batches' trees. */
  ghost predicate RootsCollide(h: Hasher, a: seq<Bytes>, b: seq<Bytes>) {
    a != [] && b != [] && Collides(h, Differ(h, a, b).0, Differ(h, a, b).1)
  }

  /** Batch q may stand behind batch p: p's entries are those of q's own predecessor, or q
      is the first batch and was sealed with p's root for its link. */
  predicate MayFollow(trees: seq<SealedTree>, batches: seq<seq<Bytes>>, p: nat, q: nat)
    requires p < |trees| == |batches| && q < |trees|
  {
    if q == 0 then trees[0].previous == trees[p].root else batches[q - 1] == batches[p]
  }

  lemma {:induction false} LinkMeansMayFollow(h: Hasher, trees: seq<SealedTree>, batches: seq<seq<Bytes>>, p: nat,
                                              q: nat)
    requires Linked(h, trees, batches) && p < |trees| && q < |trees|
    ensures MayFollow(trees, batches, p, q) ==> trees[q].previous == trees[p].root
    ensures trees[q].previous == trees[p].root ==>
              MayFollow(trees, batches, p, q) || (q > 0 && RootsCollide(h, batches[q - 1], batches[p]))
  {
    if q > 0 && trees[q].previous == trees[p].root {
      RootHexBinds(h, batches[q - 1], batches[p]);
    }
  }

  /** Deleting, reordering and repeating go unnoticed exactly when every batch kept may
      stand behind the one before it, unless the hash collides. */
  lemma {:induction false} SelectionUnnoticed(h: Hasher, trees: seq<SealedTree>, batches: seq<seq<Bytes>>,
                                              order: seq<nat>)
    requires Linked(h, trees, batches)
    requires forall k :: 0 <= k < |order| ==> order[k] < |trees|
    ensures (forall k :: 0 < k < |order| ==> MayFollow(trees, batches, order[k - 1], order[k])) ==>
              Continuous(Selection(trees, order))
    ensures Continuous(Selection(trees, order)) ==>
              forall k :: 0 < k < |order| ==>
                MayFollow(trees, batches, order[k - 1], order[k])
                || (order[k] > 0 && RootsCollide(h, batches[order[k] - 1], batches[order[k - 1]]))
  {
    var kept := Selection(trees, order);
    forall k | 0 < k < |order|
      ensures MayFollow(trees, batches, order[k - 1], order[k]) ==> kept[k].previous == kept[k - 1].root
      ensures kept[k].previous == kept[k - 1].root ==>
                MayFollow(trees, batches, order[k - 1], order[k])
                || (order[k] > 0 && RootsCollide(h, batches[order[k] - 1], batches[order[k - 1]]))
    {
      LinkMeansMayFollow(h, trees, batches, order[k - 1], order[k]);
    }
  }

  /** So where no two batches agree and the first links to none of them, only contiguous
      stretches pass. */
  lemma {:induction false} SelectionIsContiguous(h: Hasher, trees: seq<SealedTree>, batches: seq<seq<Bytes>>,
                                                 order: seq<nat>)
    requires Linked(h, trees, batches)
    requires forall i, j :: 0 <= i < j < |batches| ==> batches[i] != batches[j]
    requires forall i :: 0 <= i < |trees| ==> trees[0].previous != trees[i].root
    requires forall k :: 0 <= k < |order| ==> order[k] < |trees|
    ensures Contiguous(order) ==> Continuous(Selection(trees, order))
    ensures Continuous(Selection(trees, order)) ==>
              Contiguous(order) || exists i, j :: 0 <= i < |batches| && 0 <= j < |batches|
                                                  && RootsCollide(h, batches[i], batches[j])
  {
    SelectionUnnoticed(h, trees, batches, order);
    if Contiguous(order) {
      forall k | 0 < k < |order|
        ensures MayFollow(trees, batches, order[k - 1], order[k])
      {
        assert order[k] == order[k - 1] + 1;
      }
    } else {
      var k :| 0 < k < |order| && order[k] != order[k - 1] + 1;
      OnlyTheNextMayFollow(trees, batches, order[k - 1], order[k]);
    }
  }

  lemma {:induction false} OnlyTheNextMayFollow(trees: seq<SealedTree>, batches: seq<seq<Bytes>>, p: nat, q: nat)
    requires p < |trees| == |batches| && q < |trees| && q != p + 1
    requires forall i, j :: 0 <= i < j < |batches| ==> batches[i] != batches[j]
    requires forall i :: 0 <= i < |trees| ==> trees[0].previous != trees[i].root
    ensures !MayFollow(trees, batches, p, q)
  {
    if q > 0 {
      assert p < q - 1 || q - 1 < p;
    }
  }
}
