/** The Merkle tree of section 2.1 of RFC 6962: the tree hash as the RFC defines it, the cached
    tree the ledger materializes, and what an equal root says about what was hashed. */
module Merkle {
  import opened Options
  import opened ByteCodes

  function LeafPreimage(payload: Bytes): Bytes {
    [0x00] + payload
  }

  function NodePreimage(left: Bytes, right: Bytes): Bytes {
    [0x01] + left + right
  }

  lemma NodePreimageSplits(l: Bytes, r: Bytes, l': Bytes, r': Bytes)
    requires |l| == |l'| && NodePreimage(l, r) == NodePreimage(l', r')
    ensures l == l' && r == r'
  {
    assert NodePreimage(l, r) == ([0x01] + l) + r;
    assert NodePreimage(l', r') == ([0x01] + l') + r';
    PeelFixed([0x01] + l, [0x01] + l', r, r');
    assert ([0x01] + l)[1..] == l && ([0x01] + l')[1..] == l';
  }

  // ---------------------------------------------------------------- the split point

  ghost predicate IsPow2(k: nat) {
    k == 1 || (k > 0 && k % 2 == 0 && IsPow2(k / 2))
  }

  function Doubled(k: nat, n: nat): (r: nat)
    requires 0 < k < n
    requires IsPow2(k)
    ensures IsPow2(r) && r < n <= 2 * r
    decreases n - k
  {
    assert 2 * k / 2 == k;
    if 2 * k < n then Doubled(2 * k, n) else k
  }

  /** The largest power of two below n. */
  function Split(n: nat): (k: nat)
    requires n > 1
    ensures IsPow2(k) && 0 < k < n <= 2 * k
  {
    Doubled(1, n)
  }

  lemma {:induction false} Pow2Gap(j: nat, k: nat)
    requires IsPow2(j) && IsPow2(k) && j < k
    ensures 2 * j <= k
  {
    if j > 1 {
      Pow2Gap(j / 2, k / 2);
    }
  }

  /** The split is the only power of two in its range, hence the largest one below n. */
  lemma SplitUnique(n: nat, k: nat)
    requires n > 1 && IsPow2(k) && k < n
    ensures k <= Split(n)
    ensures n <= 2 * k ==> k == Split(n)
  {
    if k > Split(n) {
      Pow2Gap(Split(n), k);
    } else if k < Split(n) {
      Pow2Gap(k, Split(n));
    }
  }

  const TWO_62: int := 0x4000_0000_0000_0000

  method LargestPowerOfTwoLessThan(n: int) returns (k: int)
    requires 1 < n <= TWO_62
    ensures k == Split(n)
  {
    k := 1;
    while 2 * k < n
      invariant 0 < k < n && IsPow2(k)
    {
      Pow2Doubles(k);
      k := 2 * k;
    }
    SplitUnique(n, k);
  }

  lemma Pow2Doubles(k: nat)
    requires IsPow2(k)
    ensures IsPow2(2 * k)
  {
    assert 2 * k / 2 == k && 2 * k % 2 == 0;
  }

  // The same loop on 64-bit integers, where doubling wraps.

  function Wrap64(x: int): (r: int) {
    (x + 0x8000_0000_0000_0000) % TWO_64 - 0x8000_0000_0000_0000
  }

  /** k after t rounds of the loop body, had the guard held that long. */
  function WrappedDoubling(t: nat): (k: int) {
    if t == 0 then 1 else Wrap64(2 * WrappedDoubling(t - 1))
  }

  /** The loop is about to run round t+1 unless the wrapped double has reached n. */
  ghost predicate ExitsAt(t: nat, n: int) {
    WrappedDoubling(t + 1) >= n
  }

  function Pow2(n: nat): (p: nat)
    ensures p > 0
  {
    if n == 0 then 1 else 2 * Pow2(n - 1)
  }

  lemma {:induction false} Pow2Monotone(a: nat, b: nat)
    requires a <= b
    ensures Pow2(a) <= Pow2(b)
  {
    if a < b { Pow2Monotone(a, b - 1); }
  }

  lemma Pow2At62()
    ensures Pow2(62) == TWO_62
  {
    assert Pow2(8) == 256;
    assert Pow2(16) == 0x1_0000;
    assert Pow2(24) == 0x100_0000;
    assert Pow2(32) == 0x1_0000_0000;
    assert Pow2(40) == 0x100_0000_0000;
    assert Pow2(48) == 0x1_0000_0000_0000;
    assert Pow2(56) == 0x100_0000_0000_0000;
  }

  lemma Wrap64Small(x: int)
    requires 0 <= x < 0x8000_0000_0000_0000
    ensures Wrap64(x) == x
  {
  }

  lemma {:induction false} WrappedDoublingBelow63(t: nat)
    requires t <= 62
    ensures WrappedDoubling(t) == Pow2(t) <= TWO_62
  {
    Pow2Monotone(t, 62);
    Pow2At62();
    if t > 0 {
      WrappedDoublingBelow63(t - 1);
      Wrap64Small(2 * Pow2(t - 1));
    }
  }

  lemma WrappedDoublingAt63()
    ensures WrappedDoubling(63) == -0x8000_0000_0000_0000
  {
    WrappedDoublingBelow63(62);
    Pow2At62();
    assert WrappedDoubling(63) == Wrap64(2 * TWO_62);
  }

  lemma {:induction false} WrappedDoublingAbove63(t: nat)
    requires t > 63
    ensures WrappedDoubling(t) == 0
  {
    if t == 64 {
      WrappedDoublingAt63();
      assert WrappedDoubling(64) == Wrap64(-TWO_64);
    } else {
      WrappedDoublingAbove63(t - 1);
    }
  }

  /** The int64 loop returns exactly for sizes up to 2^62; above that it never exits. */
  lemma SplitLoopTerminatesIff(n: Int64)
    requires n > 1
    ensures (exists t: nat :: ExitsAt(t, n)) <==> n <= TWO_62
  {
    if n <= TWO_62 {
      WrappedDoublingBelow63(62);
      Pow2At62();
      assert ExitsAt(61, n);
    } else {
      forall t: nat ensures !ExitsAt(t, n) {
        if t < 62 {
          WrappedDoublingBelow63(t + 1);
        } else if t == 62 {
          WrappedDoublingAt63();
        } else {
          WrappedDoublingAbove63(t + 1);
        }
      }
    }
  }

  // ---------------------------------------------------------------- tree hashes

  /** MTH of section 2.1 of RFC 6962 over entry payloads. */
  function MTH(sha: HashFn, ds: seq<Bytes>): Digest
    decreases |ds|
  {
    if |ds| == 0 then sha([])
    else if |ds| == 1 then sha(LeafPreimage(ds[0]))
    else
      var k := Split(|ds|);
      sha(NodePreimage(MTH(sha, ds[..k]), MTH(sha, ds[k..])))
  }

  /** The same recursion over leaf hashes that are already computed. */
  function TreeHash(sha: HashFn, hs: seq<Digest>): Digest
    requires |hs| > 0
    decreases |hs|
  {
    if |hs| == 1 then hs[0]
    else
      var k := Split(|hs|);
      sha(NodePreimage(TreeHash(sha, hs[..k]), TreeHash(sha, hs[k..])))
  }

  function LeafHashes(sha: HashFn, ds: seq<Bytes>): (hs: seq<Digest>)
    ensures |hs| == |ds|
  {
    seq<Digest>(|ds|, i requires 0 <= i < |ds| => sha(LeafPreimage(ds[i])))
  }

  lemma {:induction false} MTHOfPayloads(sha: HashFn, ds: seq<Bytes>)
    requires |ds| > 0
    ensures MTH(sha, ds) == TreeHash(sha, LeafHashes(sha, ds))
    decreases |ds|
  {
    if |ds| > 1 {
      var k, hs := Split(|ds|), LeafHashes(sha, ds);
      MTHOfPayloads(sha, ds[..k]);
      MTHOfPayloads(sha, ds[k..]);
      assert LeafHashes(sha, ds[..k]) == hs[..k];
      assert LeafHashes(sha, ds[k..]) == hs[k..];
    }
  }

  /** The equations of section 2.1 of RFC 6962, byte by byte: the hash of nothing, of a leaf and of a node
      over its left and its right part, cut at the power of two k. */
  lemma {:induction false} TreeHashOfRFC(sha: HashFn, ds: seq<Bytes>, k: nat)
    ensures |ds| == 0 ==> MTH(sha, ds) == sha([])
    ensures |ds| == 1 ==> MTH(sha, ds) == sha([0x00] + ds[0])
    ensures IsPow2(k) && k < |ds| <= 2 * k ==>
              MTH(sha, ds) == sha([0x01] + MTH(sha, ds[..k]) + MTH(sha, ds[k..]))
  {
    if IsPow2(k) && k < |ds| <= 2 * k { SplitUnique(|ds|, k); }
  }

  /** The same over leaf hashes. */
  lemma {:induction false} LeafTreeHashOfRFC(sha: HashFn, hs: seq<Digest>, k: nat)
    requires |hs| > 0
    ensures |hs| == 1 ==> TreeHash(sha, hs) == hs[0]
    ensures IsPow2(k) && k < |hs| <= 2 * k ==>
              TreeHash(sha, hs) == sha([0x01] + TreeHash(sha, hs[..k]) + TreeHash(sha, hs[k..]))
  {
    if IsPow2(k) && k < |hs| <= 2 * k { SplitUnique(|hs|, k); }
  }

  // ---------------------------------------------------------------- the cached tree

  /** merkleNode: leaves have no children. */
  datatype Node =
    | Tip(hash: Digest, leafCount: nat)
    | Branch(hash: Digest, left: Node, right: Node, leafCount: nat)

  datatype MerkleTree = MerkleTree(root: Node, leaves: seq<Node>)

  function BuildMTH(sha: HashFn, nodes: seq<Node>): Node
    requires |nodes| > 0
    decreases |nodes|
  {
    if |nodes| == 1 then nodes[0]
    else
      var k := Split(|nodes|);
      var left, right := BuildMTH(sha, nodes[..k]), BuildMTH(sha, nodes[k..]);
      Branch(sha(NodePreimage(left.hash, right.hash)), left, right, left.leafCount + right.leafCount)
  }

  function Tips(hs: seq<Digest>): (ns: seq<Node>)
    ensures |ns| == |hs|
  {
    seq(|hs|, i requires 0 <= i < |hs| => Tip(hs[i], 1))
  }

  /** The cached subtree over a run of leaf hashes. */
  function Subtree(sha: HashFn, hs: seq<Digest>): Node
    requires |hs| > 0
  {
    BuildMTH(sha, Tips(hs))
  }

  lemma SubtreeSplits(sha: HashFn, hs: seq<Digest>)
    requires |hs| > 1
    ensures var k := Split(|hs|);
            var l, r := Subtree(sha, hs[..k]), Subtree(sha, hs[k..]);
            Subtree(sha, hs) == Branch(sha(NodePreimage(l.hash, r.hash)), l, r, l.leafCount + r.leafCount)
  {
    var k := Split(|hs|);
    assert Tips(hs)[..k] == Tips(hs[..k]);
    assert Tips(hs)[k..] == Tips(hs[k..]);
  }

  /** Cached hashes are tree hashes and cached counts are sizes. */
  lemma {:induction false} SubtreeCaches(sha: HashFn, hs: seq<Digest>)
    requires |hs| > 0
    ensures Subtree(sha, hs).hash == TreeHash(sha, hs)
    ensures Subtree(sha, hs).leafCount == |hs|
    ensures Subtree(sha, hs).Tip? <==> |hs| == 1
    decreases |hs|
  {
    if |hs| > 1 {
      var k := Split(|hs|);
      SubtreeSplits(sha, hs);
      SubtreeCaches(sha, hs[..k]);
      SubtreeCaches(sha, hs[k..]);
    }
  }

  /** The tree built over leaf hashes; the empty one caches the hash of the empty string. */
  function TreeOver(sha: HashFn, hs: seq<Digest>): MerkleTree {
    if |hs| == 0 then MerkleTree(Tip(sha([]), 0), [])
    else MerkleTree(Subtree(sha, hs), Tips(hs))
  }

  method BuildMerkleTreeFromLeafHashes(sha: HashFn, leafHashes: seq<Bytes>) returns (r: Result<MerkleTree>)
    ensures r.Ok? <==> forall i :: 0 <= i < |leafHashes| ==> |leafHashes[i]| == 32
    ensures r.Ok? ==>
              && r.value == TreeOver(sha, leafHashes)
              && r.value.root.leafCount == |leafHashes|
              && (|leafHashes| > 0 ==> r.value.root.hash == TreeHash(sha, leafHashes))
  {
    if |leafHashes| == 0 {
      return Ok(MerkleTree(Tip(sha([]), 0), []));
    }
    var leaves: seq<Node> := [];
    for i := 0 to |leafHashes|
      invariant forall j :: 0 <= j < i ==> |leafHashes[j]| == 32
      invariant |leaves| == i && forall j :: 0 <= j < i ==> leaves[j] == Tip(leafHashes[j], 1)
    {
      if |leafHashes[i]| != 32 {
        return Err;
      }
      leaves := leaves + [Tip(leafHashes[i], 1)];
    }
    assert leaves == Tips(leafHashes);
    SubtreeCaches(sha, leafHashes);
    r := Ok(MerkleTree(BuildMTH(sha, leaves), leaves));
  }

  /** The cached root is the RFC's tree hash of the payloads. */
  method BuildMerkleTreeFromPayloads(sha: HashFn, payloads: seq<Bytes>) returns (t: MerkleTree)
    ensures t.root.hash == MTH(sha, payloads)
    ensures t.root.leafCount == |payloads|
    ensures t == TreeOver(sha, LeafHashes(sha, payloads))
  {
    if |payloads| == 0 {
      return MerkleTree(Tip(sha([]), 0), []);
    }
    var leaves: seq<Node> := [];
    for i := 0 to |payloads|
      invariant |leaves| == i
      invariant forall j :: 0 <= j < i ==> leaves[j] == Tip(sha(LeafPreimage(payloads[j])), 1)
    {
      leaves := leaves + [Tip(sha(LeafPreimage(payloads[i])), 1)];
    }
    assert leaves == Tips(LeafHashes(sha, payloads));
    SubtreeCaches(sha, LeafHashes(sha, payloads));
    MTHOfPayloads(sha, payloads);
    t := MerkleTree(BuildMTH(sha, leaves), leaves);
  }

  // ---------------------------------------------------------------- root binding

  /** The string whose hash is the root. */
  function RootPreimage(sha: HashFn, ds: seq<Bytes>): Bytes {
    if |ds| == 0 then []
    else if |ds| == 1 then LeafPreimage(ds[0])
    else var k := Split(|ds|); NodePreimage(MTH(sha, ds[..k]), MTH(sha, ds[k..]))
  }

  /** Every string hashed on the way to the root. */
  ghost function Preimages(sha: HashFn, ds: seq<Bytes>): set<Bytes>
    decreases |ds|
  {
    {RootPreimage(sha, ds)} +
    if |ds| <= 1 then {}
    else var k := Split(|ds|); Preimages(sha, ds[..k]) + Preimages(sha, ds[k..])
  }

  lemma PreimagesNest(sha: HashFn, ds: seq<Bytes>)
    requires |ds| > 1
    ensures Preimages(sha, ds[..Split(|ds|)]) <= Preimages(sha, ds)
    ensures Preimages(sha, ds[Split(|ds|)..]) <= Preimages(sha, ds)
  {
  }

  /** Lists of any two lengths with one root are equal, or two of the strings hashed for them
      collide. */
  lemma {:induction false} RootBinding(sha: HashFn, xs: seq<Bytes>, ys: seq<Bytes>)
    requires MTH(sha, xs) == MTH(sha, ys)
    ensures xs == ys || Collides(sha, Preimages(sha, xs), Preimages(sha, ys))
    decreases |xs|, 1
  {
    var p, q := RootPreimage(sha, xs), RootPreimage(sha, ys);
    if p != q {
      CollidesWith(sha, Preimages(sha, xs), Preimages(sha, ys), p, q);
    } else {
      SameShape(sha, xs, ys);
      if |xs| > 1 { ChildrenBinding(sha, xs, ys, Split(|xs|), Split(|ys|)); }
    }
  }

  lemma {:induction false} ChildrenBinding(sha: HashFn, xs: seq<Bytes>, ys: seq<Bytes>, j: nat, k: nat)
    requires |xs| > 1 && |ys| > 1 && j == Split(|xs|) && k == Split(|ys|)
    requires MTH(sha, xs[..j]) == MTH(sha, ys[..k]) && MTH(sha, xs[j..]) == MTH(sha, ys[k..])
    ensures xs == ys || Collides(sha, Preimages(sha, xs), Preimages(sha, ys))
    decreases |xs|, 0
  {
    var a, b, c, d := xs[..j], xs[j..], ys[..k], ys[k..];
    assert xs == a + b && ys == c + d;
    PreimagesNest(sha, xs);
    PreimagesNest(sha, ys);
    RootBinding(sha, a, c);
    RootBinding(sha, b, d);
    JoinBindings(sha, a, b, c, d, Preimages(sha, xs), Preimages(sha, ys));
  }

  lemma JoinBindings(sha: HashFn, a: seq<Bytes>, b: seq<Bytes>, c: seq<Bytes>, d: seq<Bytes>,
                     hashedX: set<Bytes>, hashedY: set<Bytes>)
    requires a == c || Collides(sha, Preimages(sha, a), Preimages(sha, c))
    requires b == d || Collides(sha, Preimages(sha, b), Preimages(sha, d))
    requires Preimages(sha, a) <= hashedX && Preimages(sha, b) <= hashedX
    requires Preimages(sha, c) <= hashedY && Preimages(sha, d) <= hashedY
    ensures (a == c && b == d) || Collides(sha, hashedX, hashedY)
  {
    if a != c {
      CollidesWiden(sha, Preimages(sha, a), Preimages(sha, c), hashedX, hashedY);
    } else if b != d {
      CollidesWiden(sha, Preimages(sha, b), Preimages(sha, d), hashedX, hashedY);
    }
  }

  /** One root preimage means the same kind of root over the same children. */
  lemma SameShape(sha: HashFn, xs: seq<Bytes>, ys: seq<Bytes>)
    requires RootPreimage(sha, xs) == RootPreimage(sha, ys)
    ensures |xs| <= 1 ==> xs == ys
    ensures |xs| > 1 ==>
              && |ys| > 1
              && MTH(sha, xs[..Split(|xs|)]) == MTH(sha, ys[..Split(|ys|)])
              && MTH(sha, xs[Split(|xs|)..]) == MTH(sha, ys[Split(|ys|)..])
  {
    var p := RootPreimage(sha, xs);
    assert p == [] <==> |xs| == 0;
    assert p != [] ==> (p[0] == 0 <==> |xs| == 1);
    assert p != [] ==> (p[0] == 0 <==> |ys| == 1);
    if |xs| == 1 {
      assert LeafPreimage(xs[0])[1..] == xs[0] && LeafPreimage(ys[0])[1..] == ys[0];
    } else if |xs| > 1 {
      var j, k := Split(|xs|), Split(|ys|);
      NodePreimageSplits(MTH(sha, xs[..j]), MTH(sha, xs[j..]), MTH(sha, ys[..k]), MTH(sha, ys[k..]));
    }
  }
}
