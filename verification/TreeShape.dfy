/** The shape of a Merkle tree, whatever its node operation: the recursive form of
    section 2.1 of RFC 6962 and the level-by-level form agree. */
module TreeShape {
  import opened ByteStrings

  datatype Step<T> = Step(sibling: T, left: bool)

  predicate IsPowerOfTwo(k: nat) {
    k == 1 || (k > 0 && k % 2 == 0 && IsPowerOfTwo(k / 2))
  }

  /** Doubling from k while the double is still smaller than n. */
  function SplitFrom(k: nat, n: nat): (split: nat)
    requires 0 < k < n
    ensures k <= split < n <= 2 * split
    decreases n - k
  {
    if 2 * k < n then SplitFrom(2 * k, n) else k
  }

  /** The largest power of two smaller than n. */
  function Split(n: nat): nat
    requires n > 1
  {
    SplitFrom(1, n)
  }

  lemma {:induction false} SplitFromIsPowerOfTwo(k: nat, n: nat)
    requires 0 < k < n && IsPowerOfTwo(k)
    ensures IsPowerOfTwo(SplitFrom(k, n))
    decreases n - k
  {
    if 2 * k < n {
      assert 2 * k / 2 == k && 2 * k % 2 == 0;
      SplitFromIsPowerOfTwo(2 * k, n);
    }
  }

  lemma {:induction false} PowersOfTwoAreApart(p: nat, q: nat)
    requires IsPowerOfTwo(p) && IsPowerOfTwo(q) && p < q
    ensures 2 * p <= q
  {
    if p > 1 {
      PowersOfTwoAreApart(p / 2, q / 2);
    }
  }

  lemma {:induction false} SplitIsLargestPowerOfTwo(n: nat, k: nat)
    requires n > 1 && k < n
    ensures k == Split(n) <==> IsPowerOfTwo(k) && n <= 2 * k
  {
    SplitFromIsPowerOfTwo(1, n);
    if IsPowerOfTwo(k) && k < Split(n) {
      PowersOfTwoAreApart(k, Split(n));
    } else if IsPowerOfTwo(k) && Split(n) < k {
      PowersOfTwoAreApart(Split(n), k);
    }
  }

  lemma {:induction false} SplitHalves(k: nat, n: nat, half: nat)
    requires 0 < k < half && n <= 2 * half <= n + 1
    ensures 2 * k < n && SplitFrom(2 * k, n) == 2 * SplitFrom(k, half)
    decreases n - k
  {
    if 2 * k < half {
      SplitHalves(2 * k, n, half);
    }
  }

  function PairAt<T>(op: (T, T) -> T, nodes: seq<T>, j: nat): T
    requires 2 * j < |nodes|
  {
    if 2 * j + 1 < |nodes| then op(nodes[2 * j], nodes[2 * j + 1]) else nodes[2 * j]
  }

  /** Neighbours are combined; an odd last node is promoted. */
  function NextLevel<T>(op: (T, T) -> T, nodes: seq<T>): (next: seq<T>)
    ensures |next| == (|nodes| + 1) / 2
  {
    seq((|nodes| + 1) / 2, j requires 0 <= j < (|nodes| + 1) / 2 => PairAt(op, nodes, j))
  }

  function LevelsFrom<T>(op: (T, T) -> T, nodes: seq<T>): (levels: seq<seq<T>>)
    requires nodes != []
    ensures levels != [] && levels[0] == nodes && |levels[|levels| - 1]| == 1
    decreases |nodes|
  {
    if |nodes| == 1 then [nodes] else [nodes] + LevelsFrom(op, NextLevel(op, nodes))
  }

  /** An even prefix is paired on its own. */
  lemma {:induction false} NextLevelSplits<T>(op: (T, T) -> T, a: seq<T>, b: seq<T>)
    requires |a| % 2 == 0
    ensures NextLevel(op, a + b) == NextLevel(op, a) + NextLevel(op, b)
  {
    var s, t := NextLevel(op, a + b), NextLevel(op, a) + NextLevel(op, b);
    forall j | 0 <= j < |s|
      ensures s[j] == t[j]
    {
      assert s[j] == PairAt(op, a + b, j);
      if j >= |a| / 2 {
        assert t[j] == PairAt(op, b, j - |a| / 2);
      }
    }
  }

  /** The node left when levels are stacked up to the last. */
  function Top<T>(op: (T, T) -> T, nodes: seq<T>): T
    requires nodes != []
    decreases |nodes|
  {
    if |nodes| == 1 then nodes[0] else Top(op, NextLevel(op, nodes))
  }

  /** The step an index takes at one level: its pair's other node, if it has one. */
  function StepAt<T>(nodes: seq<T>, idx: nat): seq<Step<T>>
    requires idx < |nodes|
  {
    if idx % 2 == 1 then [Step(nodes[idx - 1], true)]
    else if idx + 1 < |nodes| then [Step(nodes[idx + 1], false)]
    else []
  }

  /** The steps of an index on its way up: it halves with every level. */
  function Climbing<T>(op: (T, T) -> T, idx: nat, nodes: seq<T>): seq<Step<T>>
    requires idx < |nodes|
    decreases |nodes|
  {
    if |nodes| == 1 then [] else StepAt(nodes, idx) + Climbing(op, idx / 2, NextLevel(op, nodes))
  }

  // ------------------------------------------- levels against the recursive split

  /** a and b are the two halves of their concatenation. */
  predicate Halves<T>(a: seq<T>, b: seq<T>) {
    a != [] && b != [] && |a| == Split(|a| + |b|)
  }

  /** Above two nodes the split point is even, and halves with the level. */
  lemma {:induction false} HalvesRise<T>(op: (T, T) -> T, a: seq<T>, b: seq<T>)
    requires Halves(a, b) && |a| > 1
    ensures |a| == 2 * |NextLevel(op, a)| && Halves(NextLevel(op, a), NextLevel(op, b))
  {
    var n := |a| + |b|;
    SplitHalves(1, n, (n + 1) / 2);
  }

  lemma {:induction false} NextLevelKeepsTop<T>(op: (T, T) -> T, s: seq<T>)
    requires s != []
    ensures Top(op, NextLevel(op, s)) == Top(op, s)
  {
    if |s| == 1 {
      assert NextLevel(op, s) == s;
    }
  }

  lemma {:induction false} TopJoins<T>(op: (T, T) -> T, a: seq<T>, b: seq<T>)
    requires Halves(a, b)
    ensures Top(op, a + b) == op(Top(op, a), Top(op, b))
    decreases |a|
  {
    if |a| == 1 {
      assert NextLevel(op, a + b) == [op(a[0], b[0])];
    } else {
      HalvesRise(op, a, b);
      NextLevelSplits(op, a, b);
      NextLevelKeepsTop(op, a);
      NextLevelKeepsTop(op, b);
      TopJoins(op, NextLevel(op, a), NextLevel(op, b));
    }
  }

  lemma {:induction false} StepAtJoins<T>(a: seq<T>, b: seq<T>, idx: nat, k: nat)
    requires |a| == 2 * k && idx < |a| + |b|
    ensures idx < |a| ==> StepAt(a + b, idx) == StepAt(a, idx)
    ensures idx >= |a| ==> StepAt(a + b, idx) == StepAt(b, idx - |a|) && idx / 2 == k + (idx - |a|) / 2
  {
    if idx >= |a| {
      assert (idx - |a|) % 2 == idx % 2;
    }
  }

  lemma {:induction false} LeftClimbJoins<T>(op: (T, T) -> T, i: nat, a: seq<T>, b: seq<T>)
    requires Halves(a, b) && i < |a|
    ensures Climbing(op, i, a + b) == Climbing(op, i, a) + [Step(Top(op, b), false)]
    decreases |a|
  {
    if |a| > 1 {
      var na, nb := NextLevel(op, a), NextLevel(op, b);
      HalvesRise(op, a, b);
      NextLevelSplits(op, a, b);
      NextLevelKeepsTop(op, b);
      StepAtJoins(a, b, i, |na|);
      LeftClimbJoins(op, i / 2, na, nb);
      ConcatAssociative(StepAt(a, i), Climbing(op, i / 2, na), [Step(Top(op, b), false)]);
    }
  }

  lemma {:induction false} RightClimbJoins<T>(op: (T, T) -> T, idx: nat, i: nat, a: seq<T>, b: seq<T>)
    requires Halves(a, b) && i < |b| && idx == |a| + i
    ensures Climbing(op, idx, a + b) == Climbing(op, i, b) + [Step(Top(op, a), true)]
    decreases |a|
  {
    if |a| > 1 {
      var na, nb, last := NextLevel(op, a), NextLevel(op, b), [Step(Top(op, a), true)];
      HalvesRise(op, a, b);
      NextLevelSplits(op, a, b);
      NextLevelKeepsTop(op, a);
      StepAtJoins(a, b, idx, |na|);
      RightClimbJoins(op, idx / 2, i / 2, na, nb);
      assert Climbing(op, idx, a + b) == StepAt(b, i) + (Climbing(op, i / 2, nb) + last);
      ConcatAssociative(StepAt(b, i), Climbing(op, i / 2, nb), last);
      ClimbingUnfolds(op, i, b);
    }
  }

  /** A single node climbs without a step. */
  lemma {:induction false} ClimbingUnfolds<T>(op: (T, T) -> T, i: nat, s: seq<T>)
    requires i < |s|
    ensures Climbing(op, i, s) == StepAt(s, i) + Climbing(op, i / 2, NextLevel(op, s))
  {
    if |s| == 1 {
      assert NextLevel(op, s) == s;
    }
  }

  // ------------------------------------------------------------- proof length

  /** ceil(log2 n), as an exact integer. */
  function CeilLog2(n: nat): nat {
    if n <= 1 then 0 else 1 + CeilLog2((n + 1) / 2)
  }

  function Pow2(k: nat): nat {
    if k == 0 then 1 else 2 * Pow2(k - 1)
  }

  /** It is the least k with n <= 2^k. */
  lemma {:induction false} CeilLog2IsLeast(n: nat, k: nat)
    requires n > 0
    ensures CeilLog2(n) <= k <==> n <= Pow2(k)
    decreases k
  {
    if n > 1 && k > 0 {
      CeilLog2IsLeast((n + 1) / 2, k - 1);
    } else if k > 0 {
      CeilLog2IsLeast(n, k - 1);
    }
  }

  lemma {:induction false} ClimbingLength<T>(op: (T, T) -> T, idx: nat, nodes: seq<T>)
    requires idx < |nodes|
    ensures |Climbing(op, idx, nodes)| <= CeilLog2(|nodes|)
    decreases |nodes|
  {
    if |nodes| > 1 {
      ClimbingLength(op, idx / 2, NextLevel(op, nodes));
    }
  }
}
