/** The audit part of an exported evidence bundle: the digest chain over the raw
    lines, and the Merkle root over the digests. */
module EvidenceExport {
  import opened ByteStrings
  import opened Merkle

  const PREFIX: string := "sha256:"

  datatype ChainEntry = ChainEntry(number: nat, entryHash: string, prevHash: string)

  function EntryHash(h: Hasher, line: Bytes): string { PREFIX + HexEncode(h(line)) }

  /** Each entry carries its line's digest and its predecessor's. */
  function EntryAt(h: Hasher, lines: seq<Bytes>, i: nat): ChainEntry
    requires i < |lines|
  {
    ChainEntry(i + 1, EntryHash(h, lines[i]), if i == 0 then "" else EntryHash(h, lines[i - 1]))
  }

  predicate Chains(h: Hasher, lines: seq<Bytes>, chain: seq<ChainEntry>) {
    |chain| == |lines| && forall i :: 0 <= i < |lines| ==> chain[i] == EntryAt(h, lines, i)
  }

  method FillChain(h: Hasher, lines: seq<Bytes>) returns (chain: seq<ChainEntry>)
    ensures Chains(h, lines, chain)
  {
    chain := [];
    var prevHash := "";
    for i := 0 to |lines|
      invariant |chain| == i && forall j :: 0 <= j < i ==> chain[j] == EntryAt(h, lines, j)
      invariant prevHash == if i == 0 then "" else EntryHash(h, lines[i - 1])
    {
      var entryHash := EntryHash(h, lines[i]);
      var entry := ChainEntry(i + 1, entryHash, prevHash);
      assert entry == EntryAt(h, lines, i);
      chain := chain + [entry];
      prevHash := entryHash;
    }
  }

  /** Entry i has number i + 1, the digest of its line in lower-case hexadecimal, and its
      predecessor's digest text; the first has none. */
  lemma {:induction false} ChainLinks(h: Hasher, lines: seq<Bytes>, chain: seq<ChainEntry>, i: nat)
    requires Chains(h, lines, chain) && i < |lines|
    ensures |chain| == |lines| && chain[i].number == i + 1
    ensures chain[i].entryHash == "sha256:" + HexEncode(h(lines[i]))
    ensures chain[i].prevHash == if i == 0 then "" else chain[i - 1].entryHash
  {
    assert chain[i] == EntryAt(h, lines, i);
    if i > 0 {
      assert chain[i - 1] == EntryAt(h, lines, i - 1);
    }
  }

  lemma {:induction false} EqualHashesEqualLines(h: Hasher, a: Bytes, b: Bytes)
    requires EntryHash(h, a) == EntryHash(h, b)
    ensures a == b || Collides(h, a, b)
  {
    assert HexEncode(h(a)) == EntryHash(h, a)[|PREFIX|..];
    assert HexEncode(h(b)) == EntryHash(h, b)[|PREFIX|..];
    HexInjective(h(a), h(b));
  }

  /** What a chain's last entry speaks for: how many lines there are, the last of them and
      the one before. Two exports with one last entry agree on these, or a collision is at
      hand. */
  lemma {:induction false} LastEntrySpeaksForTwoLines(h: Hasher, a: seq<Bytes>, b: seq<Bytes>,
                                                      chain: seq<ChainEntry>, other: seq<ChainEntry>, n: nat, m: nat)
    requires Chains(h, a, chain) && Chains(h, b, other) && n < |a| && m < |b| && chain[n] == other[m]
    ensures n == m && (a[n] == b[n] || Collides(h, a[n], b[n]))
    ensures n > 0 ==> a[n - 1] == b[n - 1] || Collides(h, a[n - 1], b[n - 1])
  {
    assert EntryAt(h, a, n) == EntryAt(h, b, m);
    EqualHashesEqualLines(h, a[n], b[n]);
    if n > 0 {
      EqualHashesEqualLines(h, a[n - 1], b[n - 1]);
    }
  }

  /** And for nothing more: whatever agrees on these has one last entry, however the lines
      before them differ. */
  lemma {:induction false} EarlierLinesAreSilent(h: Hasher, a: seq<Bytes>, b: seq<Bytes>, chain: seq<ChainEntry>,
                                                 other: seq<ChainEntry>, n: nat)
    requires Chains(h, a, chain) && Chains(h, b, other) && n < |a| && n < |b|
    requires a[n] == b[n] && (n > 0 ==> a[n - 1] == b[n - 1])
    ensures chain[n] == other[n]
  {
    assert chain[n] == EntryAt(h, a, n) && other[n] == EntryAt(h, b, n);
  }

  function TrimPrefix(s: string): string {
    if PREFIX <= s then s[|PREFIX|..] else s
  }

  lemma {:induction false} EntryHashDecodes(h: Hasher, line: Bytes)
    ensures HexDecode(TrimPrefix(EntryHash(h, line))) == Some(h(line))
  {
    HexRoundTrip(h(line));
    assert EntryHash(h, line)[|PREFIX|..] == HexEncode(h(line));
  }

  function LineDigests(h: Hasher, lines: seq<Bytes>): seq<Bytes> {
    seq(|lines|, i requires 0 <= i < |lines| => h(lines[i]))
  }

  /** The bundle's merkleRoot; a bundle without lines has none. */
  function MerkleRoot(h: Hasher, lines: seq<Bytes>): string {
    if lines == [] then "" else PREFIX + HexEncode(MTH(h, LineDigests(h, lines)))
  }

  lemma {:induction false} DigestDecodes(h: Hasher, lines: seq<Bytes>, chain: seq<ChainEntry>, i: nat)
    requires Chains(h, lines, chain) && i < |lines|
    ensures HexDecode(TrimPrefix(chain[i].entryHash)) == Some(h(lines[i]))
    ensures LineDigests(h, lines)[..i + 1] == LineDigests(h, lines)[..i] + [h(lines[i])]
  {
    EntryHashDecodes(h, lines[i]);
    assert chain[i] == EntryAt(h, lines, i);
  }

  /** An entry whose digest text does not decode is left out of the tree; none is. */
  method CollectDigests(h: Hasher, lines: seq<Bytes>, chain: seq<ChainEntry>) returns (leaves: seq<Bytes>)
    requires Chains(h, lines, chain)
    ensures leaves == LineDigests(h, lines)
  {
    leaves := [];
    for i := 0 to |chain|
      invariant leaves == LineDigests(h, lines)[..i]
    {
      DigestDecodes(h, lines, chain, i);
      match HexDecode(TrimPrefix(chain[i].entryHash)) {
        case Some(d) => leaves := leaves + [d];
        case None =>
      }
    }
  }

  method ExportRoot(h: Hasher, lines: seq<Bytes>, chain: seq<ChainEntry>) returns (root: string)
    requires Chains(h, lines, chain)
    ensures root == MerkleRoot(h, lines)
    ensures lines != [] ==> root == "sha256:" + HexEncode(MTH(h, LineDigests(h, lines)))
  {
    root := "";
    if |chain| > 0 {
      var leaves := CollectDigests(h, lines, chain);
      var tree := new MerkleTree(h, leaves);
      var text := tree.RootText();
      HexLength(MTH(h, leaves));
      if text != "" {
        root := PREFIX + text;
      }
    }
  }

  /** The inputs that collide when two exports agree on the root but not the lines. */
  ghost function ExportCollision(h: Hasher, a: seq<Bytes>, b: seq<Bytes>): (Bytes, Bytes) {
    if a == [] || b == [] then ([], [])
    else if LineDigests(h, a) != LineDigests(h, b) then Differ(h, LineDigests(h, a), LineDigests(h, b))
    else if i :| 0 <= i < |a| && i < |b| && a[i] != b[i] then (a[i], b[i])
    else ([], [])
  }

  /** Equal roots: the same raw lines in the same order, or a collision. */
  lemma {:induction false} EqualRootsEqualLines(h: Hasher, a: seq<Bytes>, b: seq<Bytes>)
    requires MerkleRoot(h, a) == MerkleRoot(h, b)
    ensures a == b || Collides(h, ExportCollision(h, a, b).0, ExportCollision(h, a, b).1)
  {
    if a != [] && b != [] {
      var da, db := LineDigests(h, a), LineDigests(h, b);
      assert HexEncode(MTH(h, da)) == MerkleRoot(h, a)[|PREFIX|..];
      assert HexEncode(MTH(h, db)) == MerkleRoot(h, b)[|PREFIX|..];
      HexInjective(MTH(h, da), MTH(h, db));
      RootBindsLeaves(h, da, db);
      if da == db && a != b {
        assert |a| == |da| == |db| == |b|;
        var i :| 0 <= i < |a| && a[i] != b[i];
        forall j | 0 <= j < |a|
          ensures h(a[j]) == h(b[j])
        {
          assert da[j] == db[j];
        }
      }
    }
  }
}
