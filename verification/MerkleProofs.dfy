/** Inclusion proofs: the audit paths of section 2.1.1 of RFC 6962, their generation from the
    cached tree and their stateless verification. */
module MerkleProofs {
  import opened Options
  import opened ByteCodes
  import opened Merkle

  datatype InclusionProof = InclusionProof(leafIndex: int, treeSize: int, path: seq<Bytes>)

  /** PATH(i, D[n]), leaf level first. */
  function AuditPath(sha: HashFn, hs: seq<Digest>, i: nat): seq<Digest>
    requires i < |hs|
    decreases |hs|
  {
    if |hs| == 1 then []
    else
      var k := Split(|hs|);
      if i < k then AuditPath(sha, hs[..k], i) + [TreeHash(sha, hs[k..])]
      else AuditPath(sha, hs[k..], i - k) + [TreeHash(sha, hs[..k])]
  }

  /** The left(true)/right(false) turns from the root split down to leaf i. */
  function Directions(i: nat, n: nat): seq<bool>
    requires i < n
    decreases n
  {
    if n == 1 then []
    else
      var k := Split(n);
      if i < k then [true] + Directions(i, k) else [false] + Directions(i - k, n - k)
  }

  method ComputeMerkleDirections(index: int, treeSize: int) returns (dirs: seq<bool>)
    requires 0 <= index < treeSize <= TWO_62
    ensures dirs == Directions(index, treeSize)
  {
    dirs := [];
    var i, n := index, treeSize;
    while n > 1
      invariant 0 <= i < n <= TWO_62
      invariant dirs + Directions(i, n) == Directions(index, treeSize)
    {
      var k := LargestPowerOfTwoLessThan(n);
      NextDirection(dirs, i, n);
      if i < k {
        dirs := dirs + [true];
        n := k;
      } else {
        dirs := dirs + [false];
        i := i - k;
        n := n - k;
      }
    }
  }

  lemma NextDirection(dirs: seq<bool>, i: nat, n: nat)
    requires i < n && n > 1
    ensures var k := Split(n);
            && (i < k ==> dirs + Directions(i, n) == (dirs + [true]) + Directions(i, k))
            && (i >= k ==> dirs + Directions(i, n) == (dirs + [false]) + Directions(i - k, n - k))
  {
  }

  /** The root recomputed from a starting hash; `dirs` is root first, `path` leaf first. */
  function RootFrom(sha: HashFn, start: Bytes, dirs: seq<bool>, path: seq<Bytes>): Bytes
    requires |dirs| == |path|
    decreases |dirs|
  {
    if |dirs| == 0 then start else sha(StepPreimage(sha, start, dirs, path))
  }

  /** The string hashed last on the way up. */
  function StepPreimage(sha: HashFn, start: Bytes, dirs: seq<bool>, path: seq<Bytes>): Bytes
    requires |dirs| == |path| > 0
    decreases |dirs|, 0
  {
    var below := RootFrom(sha, start, dirs[1..], path[..|path| - 1]);
    var sibling := path[|path| - 1];
    if dirs[0] then NodePreimage(below, sibling) else NodePreimage(sibling, below)
  }

  /** One step of the recomputation, byte by byte: the sibling goes to the right of a left turn and to the
      left of a right turn. */
  lemma {:induction false} FoldOfRFC(sha: HashFn, start: Bytes, left: bool, dirs: seq<bool>, path: seq<Bytes>, sibling: Bytes)
    requires |dirs| == |path|
    ensures RootFrom(sha, start, [], []) == start
    ensures var below := RootFrom(sha, start, dirs, path);
            RootFrom(sha, start, [left] + dirs, path + [sibling])
            == if left then sha([0x01] + below + sibling) else sha([0x01] + sibling + below)
  {
    assert ([left] + dirs)[1..] == dirs && (path + [sibling])[..|path|] == path;
  }

  /** The turns to leaf i of n: left below the cut, right from the cut on. */
  lemma {:induction false} TurnsOfRFC(i: nat, n: nat, k: nat)
    requires i < n
    ensures n == 1 ==> Directions(i, n) == []
    ensures IsPow2(k) && k < n <= 2 * k ==>
              Directions(i, n) == if i < k then [true] + Directions(i, k) else [false] + Directions(i - k, n - k)
  {
    if IsPow2(k) && k < n <= 2 * k { SplitUnique(n, k); }
  }

  /** What it means for a proof to verify. */
  ghost predicate Verifies(sha: HashFn, leafHash: Bytes, proof: InclusionProof, root: Bytes) {
    && 0 <= proof.leafIndex < proof.treeSize
    && |proof.path| == |Directions(proof.leafIndex, proof.treeSize)|
    && RootFrom(sha, leafHash, Directions(proof.leafIndex, proof.treeSize), proof.path) == root
  }

  lemma NextFold(sha: HashFn, start: Bytes, dirs: seq<bool>, path: seq<Bytes>, i: nat)
    requires |dirs| == |path| && i < |path|
    ensures var n := |dirs|;
            var below := RootFrom(sha, start, dirs[n - i..], path[..i]);
            RootFrom(sha, start, dirs[n - 1 - i..], path[..i + 1])
            == sha(if dirs[n - 1 - i] then NodePreimage(below, path[i]) else NodePreimage(path[i], below))
  {
    var n := |dirs|;
    assert dirs[n - 1 - i..] == [dirs[n - 1 - i]] + dirs[n - i..] && path[..i + 1] == path[..i] + [path[i]];
    FoldOfRFC(sha, start, dirs[n - 1 - i], dirs[n - i..], path[..i], path[i]);
  }

  method VerifyInclusion(sha: HashFn, leafHash: Bytes, proof: InclusionProof, root: Bytes) returns (ok: bool)
    requires 0 <= proof.leafIndex < proof.treeSize ==> proof.treeSize <= TWO_62
    ensures ok <==> Verifies(sha, leafHash, proof, root)
  {
    if proof.treeSize <= 0 || proof.leafIndex < 0 || proof.leafIndex >= proof.treeSize {
      return false;
    }
    var directions := ComputeMerkleDirections(proof.leafIndex, proof.treeSize);
    if |directions| != |proof.path| {
      return false;
    }
    var current := leafHash;
    var i := 0;
    while i < |proof.path|
      invariant 0 <= i <= |proof.path|
      invariant current == RootFrom(sha, leafHash, directions[|directions| - i..], proof.path[..i])
    {
      var sibling := proof.path[i];
      var dir := directions[|directions| - 1 - i];
      NextFold(sha, leafHash, directions, proof.path, i);
      if dir {
        current := sha(NodePreimage(current, sibling));
      } else {
        current := sha(NodePreimage(sibling, current));
      }
      i := i + 1;
    }
    assert proof.path[..|proof.path|] == proof.path && directions[0..] == directions;
    return current == root;
  }

  /** One level of the walk down the cached tree. */
  lemma Descend(sha: HashFn, hs: seq<Digest>, i: nat, path: seq<Digest>)
    requires i < |hs| && Subtree(sha, hs).Branch?
    ensures |hs| > 1
    ensures var k, node := Split(|hs|), Subtree(sha, hs);
            && node.left == Subtree(sha, hs[..k]) && node.left.leafCount == k
            && node.right == Subtree(sha, hs[k..])
            && AuditPath(sha, hs, i) + path
               == if i < k then AuditPath(sha, hs[..k], i) + ([node.right.hash] + path)
                  else AuditPath(sha, hs[k..], i - k) + ([node.left.hash] + path)
  {
    SubtreeCaches(sha, hs);
    SubtreeSplits(sha, hs);
    SubtreeCaches(sha, hs[..Split(|hs|)]);
    SubtreeCaches(sha, hs[Split(|hs|)..]);
  }

  method GenerateInclusionProof(ghost sha: HashFn, ghost hs: seq<Digest>, t: MerkleTree, index: int)
    returns (r: Result<InclusionProof>)
    requires t == TreeOver(sha, hs)
    ensures r.Ok? <==> 0 <= index < |hs|
    ensures r.Ok? ==> r.value == InclusionProof(index, |hs|, AuditPath(sha, hs, index))
  {
    if |hs| > 0 { SubtreeCaches(sha, hs); }
    var n := t.root.leafCount;
    if n == 0 {
      return Err;
    }
    if index < 0 || index >= n {
      return Err;
    }
    var path: seq<Digest> := [];
    var node, i := t.root, index;
    ghost var under := hs;
    while node.Branch?
      invariant |under| > 0 && node == Subtree(sha, under)
      invariant 0 <= i < |under|
      invariant AuditPath(sha, under, i) + path == AuditPath(sha, hs, index)
      decreases |under|
    {
      Descend(sha, under, i, path);
      ghost var cut := Split(|under|);
      var k := node.left.leafCount;
      if i < k {
        path := [node.right.hash] + path;
        node := node.left;
        under := under[..cut];
      } else {
        path := [node.left.hash] + path;
        node := node.right;
        under := under[cut..];
        i := i - k;
      }
    }
    SubtreeCaches(sha, under);
    r := Ok(InclusionProof(index, n, path));
  }

  // ---------------------------------------------------------------- completeness

  /** Every leaf's audit path recomputes the root. */
  lemma {:induction false} AuditPathRecomputes(sha: HashFn, hs: seq<Digest>, i: nat)
    requires i < |hs|
    ensures |AuditPath(sha, hs, i)| == |Directions(i, |hs|)|
    ensures RootFrom(sha, hs[i], Directions(i, |hs|), AuditPath(sha, hs, i)) == TreeHash(sha, hs)
    decreases |hs|
  {
    if |hs| > 1 {
      var k, dirs, path := Split(|hs|), Directions(i, |hs|), AuditPath(sha, hs, i);
      if i < k {
        AuditPathRecomputes(sha, hs[..k], i);
        assert dirs[1..] == Directions(i, k);
        assert path[..|path| - 1] == AuditPath(sha, hs[..k], i);
      } else {
        AuditPathRecomputes(sha, hs[k..], i - k);
        assert dirs[1..] == Directions(i - k, |hs| - k);
        assert path[..|path| - 1] == AuditPath(sha, hs[k..], i - k);
      }
    }
  }

  lemma {:induction false} Pow2IsPow2(d: nat)
    ensures IsPow2(Pow2(d))
  {
    if d > 0 { Pow2IsPow2(d - 1); }
  }

  /** Splitting a tree that fits in depth d leaves two trees that fit in depth d-1. */
  lemma SplitFits(n: nat, d: nat)
    requires 1 < n <= Pow2(d)
    ensures d > 0 && n - Split(n) <= Split(n) <= Pow2(d - 1)
  {
    Pow2IsPow2(d);
    Pow2Gap(Split(n), Pow2(d));
  }

  lemma {:induction false} DirectionsFit(i: nat, n: nat, d: nat)
    requires i < n <= Pow2(d)
    ensures |Directions(i, n)| <= d
    decreases n
  {
    if n > 1 {
      SplitFits(n, d);
      var k := Split(n);
      if i < k { DirectionsFit(i, k, d - 1); } else { DirectionsFit(i - k, n - k, d - 1); }
    }
  }

  function CeilLog2(n: nat): (d: nat)
    requires n > 0
    ensures n <= Pow2(d)
    ensures d > 0 ==> Pow2(d - 1) < n
  {
    if n == 1 then 0 else 1 + CeilLog2((n + 1) / 2)
  }

  /** The generated path verifies against the root and has at most ceil(log2 n) siblings. */
  lemma InclusionComplete(sha: HashFn, hs: seq<Digest>, i: nat)
    requires i < |hs|
    ensures Verifies(sha, hs[i], InclusionProof(i, |hs|, AuditPath(sha, hs, i)), TreeHash(sha, hs))
    ensures |AuditPath(sha, hs, i)| <= CeilLog2(|hs|)
  {
    AuditPathRecomputes(sha, hs, i);
    DirectionsFit(i, |hs|, CeilLog2(|hs|));
  }

  // ---------------------------------------------------------------- soundness

  /** Every string hashed to compute a tree hash from leaf hashes. */
  ghost function NodePreimages(sha: HashFn, hs: seq<Digest>): set<Bytes>
    requires |hs| > 0
    decreases |hs|
  {
    if |hs| == 1 then {}
    else
      var k := Split(|hs|);
      {NodePreimage(TreeHash(sha, hs[..k]), TreeHash(sha, hs[k..]))}
      + NodePreimages(sha, hs[..k]) + NodePreimages(sha, hs[k..])
  }

  /** Every string hashed while verifying. */
  ghost function WalkPreimages(sha: HashFn, start: Bytes, dirs: seq<bool>, path: seq<Bytes>): set<Bytes>
    requires |dirs| == |path|
    decreases |dirs|
  {
    if |dirs| == 0 then {}
    else {StepPreimage(sha, start, dirs, path)} + WalkPreimages(sha, start, dirs[1..], path[..|path| - 1])
  }

  lemma StepForces(sha: HashFn, start: Bytes, dirs: seq<bool>, path: seq<Bytes>, l: Digest, r: Digest)
    requires |dirs| == |path| > 0 && (|start| == 32 || |dirs| > 1)
    requires StepPreimage(sha, start, dirs, path) == NodePreimage(l, r)
    ensures RootFrom(sha, start, dirs[1..], path[..|path| - 1]) == if dirs[0] then l else r
  {
    var below, sibling := RootFrom(sha, start, dirs[1..], path[..|path| - 1]), path[|path| - 1];
    assert |below| == 32;
    assert |StepPreimage(sha, start, dirs, path)| == 1 + |below| + |sibling|;
    assert |NodePreimage(l, r)| == 65;
    if dirs[0] {
      NodePreimageSplits(below, sibling, l, r);
    } else {
      NodePreimageSplits(sibling, below, l, r);
    }
  }

  /** With the last hashed string the tree's own, the rest of the proof verifies in the half it points to. */
  lemma {:induction false} StepDown(sha: HashFn, hs: seq<Digest>, leafHash: Bytes, i: nat, path: seq<Bytes>)
    requires i < |hs| && |hs| > 1 && |path| == |Directions(i, |hs|)| && (|leafHash| == 32 || |path| > 1)
    requires var k := Split(|hs|);
             StepPreimage(sha, leafHash, Directions(i, |hs|), path)
             == NodePreimage(TreeHash(sha, hs[..k]), TreeHash(sha, hs[k..]))
    ensures var k := Split(|hs|);
            var sub, j := if i < k then hs[..k] else hs[k..], if i < k then i else i - k;
            && Directions(i, |hs|)[1..] == Directions(j, |sub|)
            && Verifies(sha, leafHash, InclusionProof(j, |sub|, path[..|path| - 1]), TreeHash(sha, sub))
  {
    var k, dirs := Split(|hs|), Directions(i, |hs|);
    StepForces(sha, leafHash, dirs, path, TreeHash(sha, hs[..k]), TreeHash(sha, hs[k..]));
    if i < k {
      assert dirs[1..] == Directions(i, k);
    } else {
      assert dirs[1..] == Directions(i - k, |hs| - k);
    }
  }

  /** A verified 32-byte hash is the leaf at the claimed index, whatever siblings were supplied,
      or two strings really hashed collide. */
  lemma {:induction false} InclusionSound(sha: HashFn, hs: seq<Digest>, leafHash: Bytes, i: nat, path: seq<Bytes>)
    requires i < |hs| && |leafHash| == 32
    requires Verifies(sha, leafHash, InclusionProof(i, |hs|, path), TreeHash(sha, hs))
    ensures leafHash == hs[i]
         || Collides(sha, WalkPreimages(sha, leafHash, Directions(i, |hs|), path), NodePreimages(sha, hs))
    decreases |hs|, 1
  {
    if |hs| > 1 {
      var k, dirs := Split(|hs|), Directions(i, |hs|);
      var p, q := StepPreimage(sha, leafHash, dirs, path), NodePreimage(TreeHash(sha, hs[..k]), TreeHash(sha, hs[k..]));
      if p != q {
        CollidesWith(sha, WalkPreimages(sha, leafHash, dirs, path), NodePreimages(sha, hs), p, q);
      } else {
        InclusionBelow(sha, hs, leafHash, i, path);
      }
    }
  }

  lemma {:induction false} InclusionBelow(sha: HashFn, hs: seq<Digest>, leafHash: Bytes, i: nat, path: seq<Bytes>)
    requires i < |hs| && |hs| > 1 && |leafHash| == 32 && |path| == |Directions(i, |hs|)|
    requires var k := Split(|hs|);
             StepPreimage(sha, leafHash, Directions(i, |hs|), path)
             == NodePreimage(TreeHash(sha, hs[..k]), TreeHash(sha, hs[k..]))
    ensures leafHash == hs[i]
         || Collides(sha, WalkPreimages(sha, leafHash, Directions(i, |hs|), path), NodePreimages(sha, hs))
    decreases |hs|, 0
  {
    var k, path' := Split(|hs|), path[..|path| - 1];
    var sub, j := if i < k then hs[..k] else hs[k..], if i < k then i else i - k;
    StepDown(sha, hs, leafHash, i, path);
    InclusionSound(sha, sub, leafHash, j, path');
    if leafHash != sub[j] {
      StringsNest(sha, hs, leafHash, i, path);
      CollidesWiden(sha, WalkPreimages(sha, leafHash, Directions(j, |sub|), path'), NodePreimages(sha, sub),
                    WalkPreimages(sha, leafHash, Directions(i, |hs|), path), NodePreimages(sha, hs));
    }
  }

  /** What is hashed in the half a path leads into is hashed for the whole. */
  lemma {:induction false} StringsNest(sha: HashFn, hs: seq<Digest>, start: Bytes, i: nat, path: seq<Bytes>)
    requires i < |hs| && |hs| > 1 && |path| == |Directions(i, |hs|)|
    ensures var k := Split(|hs|);
            var sub, j := if i < k then hs[..k] else hs[k..], if i < k then i else i - k;
            && |path| - 1 == |Directions(j, |sub|)|
            && WalkPreimages(sha, start, Directions(j, |sub|), path[..|path| - 1])
               <= WalkPreimages(sha, start, Directions(i, |hs|), path)
            && NodePreimages(sha, sub) <= NodePreimages(sha, hs)
  {
    var k, dirs := Split(|hs|), Directions(i, |hs|);
    assert dirs[1..] == if i < k then Directions(i, k) else Directions(i - k, |hs| - k);
  }

  lemma {:induction false} HashedForPayloads(sha: HashFn, ds: seq<Bytes>, i: nat)
    requires i < |ds|
    ensures LeafPreimage(ds[i]) in Preimages(sha, ds)
    decreases |ds|
  {
    if |ds| > 1 {
      var k := Split(|ds|);
      PreimagesNest(sha, ds);
      if i < k { HashedForPayloads(sha, ds[..k], i); } else { HashedForPayloads(sha, ds[k..], i - k); }
    }
  }

  lemma {:induction false} NodesOfHalves(sha: HashFn, ds: seq<Bytes>, k: nat)
    requires |ds| > 1 && k == Split(|ds|)
    ensures var a, b := LeafHashes(sha, ds[..k]), LeafHashes(sha, ds[k..]);
            NodePreimages(sha, LeafHashes(sha, ds))
            == {NodePreimage(TreeHash(sha, a), TreeHash(sha, b))} + NodePreimages(sha, a) + NodePreimages(sha, b)
  {
    var hs := LeafHashes(sha, ds);
    assert hs[..k] == LeafHashes(sha, ds[..k]) && hs[k..] == LeafHashes(sha, ds[k..]);
  }

  lemma {:induction false} NodesHashedForPayloads(sha: HashFn, ds: seq<Bytes>)
    requires |ds| > 0
    ensures NodePreimages(sha, LeafHashes(sha, ds)) <= Preimages(sha, ds)
    decreases |ds|
  {
    if |ds| > 1 {
      var k := Split(|ds|);
      var a, b := ds[..k], ds[k..];
      NodesHashedForPayloads(sha, a);
      NodesHashedForPayloads(sha, b);
      MTHOfPayloads(sha, a);
      MTHOfPayloads(sha, b);
      PreimagesNest(sha, ds);
      NodesOfHalves(sha, ds, k);
      assert NodePreimage(MTH(sha, a), MTH(sha, b)) in Preimages(sha, ds);
    }
  }

  /** For a third party holding only a payload, a proof and a trusted root: the payload is the
      batch's entry at that index, or hashed strings collide. */
  lemma PayloadInclusionSound(sha: HashFn, ds: seq<Bytes>, payload: Bytes, i: nat, path: seq<Bytes>)
    requires i < |ds|
    requires Verifies(sha, sha(LeafPreimage(payload)), InclusionProof(i, |ds|, path), MTH(sha, ds))
    ensures var leafHash := sha(LeafPreimage(payload));
            || payload == ds[i]
            || Collides(sha, WalkPreimages(sha, leafHash, Directions(i, |ds|), path) + {LeafPreimage(payload)},
                        Preimages(sha, ds))
  {
    var leafHash, hs := sha(LeafPreimage(payload)), LeafHashes(sha, ds);
    var walk := WalkPreimages(sha, leafHash, Directions(i, |ds|), path);
    MTHOfPayloads(sha, ds);
    HashedForPayloads(sha, ds, i);
    NodesHashedForPayloads(sha, ds);
    InclusionSound(sha, hs, leafHash, i, path);
    if leafHash != hs[i] {
      CollidesWiden(sha, walk, NodePreimages(sha, hs), walk + {LeafPreimage(payload)}, Preimages(sha, ds));
    } else if payload != ds[i] {
      assert LeafPreimage(payload)[1..] == payload && LeafPreimage(ds[i])[1..] == ds[i];
      CollidesWith(sha, walk + {LeafPreimage(payload)}, Preimages(sha, ds), LeafPreimage(payload), LeafPreimage(ds[i]));
    }
  }

  // ---------------------------------------------------------------- starting hashes of other lengths

  // The verifier leaves the length of the leaf hash to its caller.

  /** A starting hash longer than two digests cannot verify in a tree of two or more leaves unless two
      strings really hashed collide. */
  lemma {:induction false} LongLeafCollides(sha: HashFn, hs: seq<Digest>, leafHash: Bytes, i: nat, path: seq<Bytes>)
    requires |hs| > 1 && i < |hs| && |leafHash| > 64
    requires Verifies(sha, leafHash, InclusionProof(i, |hs|, path), TreeHash(sha, hs))
    ensures Collides(sha, WalkPreimages(sha, leafHash, Directions(i, |hs|), path), NodePreimages(sha, hs))
    decreases |hs|
  {
    var k, dirs := Split(|hs|), Directions(i, |hs|);
    var walk, nodes := WalkPreimages(sha, leafHash, dirs, path), NodePreimages(sha, hs);
    var p, q := StepPreimage(sha, leafHash, dirs, path), NodePreimage(TreeHash(sha, hs[..k]), TreeHash(sha, hs[k..]));
    if p != q {
      CollidesWith(sha, walk, nodes, p, q);
    } else {
      assert |q| == 65;
      LastStepIsLong(sha, leafHash, dirs, path);
      StepDown(sha, hs, leafHash, i, path);
      var sub, j := if i < k then hs[..k] else hs[k..], if i < k then i else i - k;
      var path' := path[..|path| - 1];
      LongLeafCollides(sha, sub, leafHash, j, path');
      CollidesWiden(sha, WalkPreimages(sha, leafHash, dirs[1..], path'), NodePreimages(sha, sub), walk, nodes);
    }
  }

  lemma LastStepIsLong(sha: HashFn, start: Bytes, dirs: seq<bool>, path: seq<Bytes>)
    requires |dirs| == |path| > 0
    ensures |dirs| == 1 ==> |StepPreimage(sha, start, dirs, path)| > |start|
  {
    if |dirs| == 1 { assert RootFrom(sha, start, dirs[1..], path[..0]) == start; }
  }

  /** For every tree of two or more leaves, every index and every length up to two digests, a starting
      hash of that length verifies with the very strings the tree itself hashes: the leaf and its
      neighbour cut at another place. */
  lemma {:induction false} ShortLeafVerifies(sha: HashFn, hs: seq<Digest>, i: nat, length: nat)
    returns (start: Bytes, path: seq<Bytes>)
    requires |hs| > 1 && i < |hs| && length <= 64
    ensures |start| == length && |path| == |Directions(i, |hs|)|
    ensures RootFrom(sha, start, Directions(i, |hs|), path) == TreeHash(sha, hs)
    ensures WalkPreimages(sha, start, Directions(i, |hs|), path) <= NodePreimages(sha, hs)
    decreases |hs|
  {
    var k, dirs := Split(|hs|), Directions(i, |hs|);
    var l, r := TreeHash(sha, hs[..k]), TreeHash(sha, hs[k..]);
    var sub, j := if i < k then hs[..k] else hs[k..], if i < k then i else i - k;
    if |sub| == 1 {
      start, path := CutPair(sha, l, r, dirs, length);
      assert dirs == [i < k];
    } else {
      var path';
      start, path' := ShortLeafVerifies(sha, sub, j, length);
      path := path' + [if i < k then r else l];
      assert dirs[1..] == Directions(j, |sub|) && path[..|path| - 1] == path';
      assert StepPreimage(sha, start, dirs, path) == NodePreimage(l, r);
    }
  }

  lemma CutPair(sha: HashFn, l: Digest, r: Digest, dirs: seq<bool>, length: nat) returns (start: Bytes, path: seq<Bytes>)
    requires |dirs| == 1 && length <= 64
    ensures |start| == length && |path| == 1
    ensures StepPreimage(sha, start, dirs, path) == NodePreimage(l, r)
    ensures WalkPreimages(sha, start, dirs, path) == {NodePreimage(l, r)}
  {
    var pair := l + r;
    var cut := if dirs[0] then length else 64 - length;
    var a, b := pair[..cut], pair[cut..];
    start, path := if dirs[0] then a else b, [if dirs[0] then b else a];
    assert NodePreimage(a, b) == [0x01] + (a + b) && a + b == pair && [0x01] + pair == NodePreimage(l, r);
    assert dirs[1..] == [] && path[..0] == [];
    assert RootFrom(sha, start, [], []) == start;
    assert WalkPreimages(sha, start, [], []) == {};
  }

  /** A proof that verifies something other than the leaf without any collision. */
  ghost predicate Misverifies(sha: HashFn, hs: seq<Digest>, i: nat, start: Bytes, path: seq<Bytes>)
    requires i < |hs|
  {
    && Verifies(sha, start, InclusionProof(i, |hs|, path), TreeHash(sha, hs)) && start != hs[i]
    && !Collides(sha, WalkPreimages(sha, start, Directions(i, |hs|), path), NodePreimages(sha, hs))
  }

  /** In every tree whose own strings do not collide and at every index, a starting hash of a given length
      can stand in for the leaf without a collision if and only if there are two or more leaves, the
      length is at most 64 and it is not 32. */
  lemma UnsizedLeafExact(sha: HashFn, hs: seq<Digest>, i: nat, length: nat)
    requires i < |hs| && !Collides(sha, NodePreimages(sha, hs), NodePreimages(sha, hs))
    ensures (exists start: Bytes, path: seq<Bytes> :: |start| == length && Misverifies(sha, hs, i, start, path))
       <==> |hs| > 1 && length <= 64 && length != 32
  {
    if start: Bytes, path: seq<Bytes> :| |start| == length && Misverifies(sha, hs, i, start, path) {
      if |hs| > 1 && length > 64 {
        LongLeafCollides(sha, hs, start, i, path);
      } else if length == 32 {
        InclusionSound(sha, hs, start, i, path);
      }
    }
    if |hs| > 1 && length <= 64 && length != 32 {
      var start, path := ShortLeafVerifies(sha, hs, i, length);
      var walk := WalkPreimages(sha, start, Directions(i, |hs|), path);
      if Collides(sha, walk, NodePreimages(sha, hs)) {
        CollidesWiden(sha, walk, NodePreimages(sha, hs), NodePreimages(sha, hs), NodePreimages(sha, hs));
      }
      assert Misverifies(sha, hs, i, start, path);
    }
  }

  // ---------------------------------------------------------------- leaf-hash trees

  /** Two lists agree down to where one of them ends in a ready-made hash: wherever both trees hash
      something, it is the same string. The empty list stands for the hash of nothing. */
  ghost predicate Shared(sha: HashFn, hs: seq<Digest>, gs: seq<Digest>)
    decreases |hs|
  {
    if |hs| == 0 || |gs| == 0 then hs == gs || (hs == [] && gs == [sha([])]) || (gs == [] && hs == [sha([])])
    else if |hs| == 1 then hs[0] == TreeHash(sha, gs)
    else if |gs| == 1 then gs[0] == TreeHash(sha, hs)
    else
      var j, k := Split(|hs|), Split(|gs|);
      Shared(sha, hs[..j], gs[..k]) && Shared(sha, hs[j..], gs[k..])
  }

  /** Lists that share their strings share their root. */
  lemma {:induction false} SharedRoots(sha: HashFn, hs: seq<Digest>, gs: seq<Digest>)
    requires Shared(sha, hs, gs)
    ensures TreeOver(sha, hs).root.hash == TreeOver(sha, gs).root.hash
    decreases |hs|
  {
    if |hs| > 0 { SubtreeCaches(sha, hs); }
    if |gs| > 0 { SubtreeCaches(sha, gs); }
    if |hs| > 0 && |gs| > 0 { SharedHashes(sha, hs, gs); }
  }

  lemma {:induction false} SharedHashes(sha: HashFn, hs: seq<Digest>, gs: seq<Digest>)
    requires Shared(sha, hs, gs) && |hs| > 0 && |gs| > 0
    ensures TreeHash(sha, hs) == TreeHash(sha, gs)
    decreases |hs|
  {
    if |hs| > 1 && |gs| > 1 {
      var j, k := Split(|hs|), Split(|gs|);
      SharedHashes(sha, hs[..j], gs[..k]);
      SharedHashes(sha, hs[j..], gs[k..]);
    }
  }

  lemma {:induction false} SharedAlike(sha: HashFn, hs: seq<Digest>, gs: seq<Digest>)
    requires Shared(sha, hs, gs) && |hs| == |gs|
    ensures hs == gs
    decreases |hs|
  {
    if |hs| > 1 {
      var k := Split(|hs|);
      SharedAlike(sha, hs[..k], gs[..k]);
      SharedAlike(sha, hs[k..], gs[k..]);
      assert hs == hs[..k] + hs[k..] && gs == gs[..k] + gs[k..];
    }
  }

  /** A collision inside two halves is a collision of the wholes. */
  lemma NodeCollisionLifts(sha: HashFn, hs: seq<Digest>, gs: seq<Digest>)
    requires |hs| > 1 && |gs| > 1
    ensures var j, k := Split(|hs|), Split(|gs|);
            || Collides(sha, NodePreimages(sha, hs[..j]), NodePreimages(sha, gs[..k]))
            || Collides(sha, NodePreimages(sha, hs[j..]), NodePreimages(sha, gs[k..]))
            ==> Collides(sha, NodePreimages(sha, hs), NodePreimages(sha, gs))
  {
    var j, k := Split(|hs|), Split(|gs|);
    var nodesH, nodesG := NodePreimages(sha, hs), NodePreimages(sha, gs);
    if Collides(sha, NodePreimages(sha, hs[..j]), NodePreimages(sha, gs[..k])) {
      CollidesWiden(sha, NodePreimages(sha, hs[..j]), NodePreimages(sha, gs[..k]), nodesH, nodesG);
    } else if Collides(sha, NodePreimages(sha, hs[j..]), NodePreimages(sha, gs[k..])) {
      CollidesWiden(sha, NodePreimages(sha, hs[j..]), NodePreimages(sha, gs[k..]), nodesH, nodesG);
    }
  }

  lemma {:induction false} EqualHashesShared(sha: HashFn, hs: seq<Digest>, gs: seq<Digest>)
    requires |hs| > 0 && |gs| > 0 && TreeHash(sha, hs) == TreeHash(sha, gs)
    ensures Shared(sha, hs, gs) || Collides(sha, NodePreimages(sha, hs), NodePreimages(sha, gs))
    decreases |hs|
  {
    if |hs| > 1 && |gs| > 1 {
      var j, k := Split(|hs|), Split(|gs|);
      var p := NodePreimage(TreeHash(sha, hs[..j]), TreeHash(sha, hs[j..]));
      var q := NodePreimage(TreeHash(sha, gs[..k]), TreeHash(sha, gs[k..]));
      if p != q {
        CollidesWith(sha, NodePreimages(sha, hs), NodePreimages(sha, gs), p, q);
      } else {
        NodePreimageSplits(TreeHash(sha, hs[..j]), TreeHash(sha, hs[j..]), TreeHash(sha, gs[..k]), TreeHash(sha, gs[k..]));
        EqualHashesShared(sha, hs[..j], gs[..k]);
        EqualHashesShared(sha, hs[j..], gs[k..]);
        NodeCollisionLifts(sha, hs, gs);
      }
    }
  }

  /** Every string hashed for the root of a leaf-hash tree; the root of the empty one is the hash of nothing. */
  ghost function RootPreimages(sha: HashFn, hs: seq<Digest>): set<Bytes> {
    if |hs| == 0 then {[]} else NodePreimages(sha, hs)
  }

  /** The empty tree and one of two or more leaves share a root only through a collision. */
  lemma EmptyAgainstMany(sha: HashFn, hs: seq<Digest>)
    requires |hs| > 1 && TreeHash(sha, hs) == sha([])
    ensures Collides(sha, {[]}, NodePreimages(sha, hs)) && Collides(sha, NodePreimages(sha, hs), {[]})
  {
    var k := Split(|hs|);
    var p := NodePreimage(TreeHash(sha, hs[..k]), TreeHash(sha, hs[k..]));
    assert |p| > 0;
    CollidesWith(sha, {[]}, NodePreimages(sha, hs), [], p);
    CollidesWith(sha, NodePreimages(sha, hs), {[]}, p, []);
  }

  /** Lists of any sizes with one root share their strings, or two strings really hashed collide. */
  lemma {:induction false} EqualRootsShared(sha: HashFn, hs: seq<Digest>, gs: seq<Digest>)
    requires TreeOver(sha, hs).root.hash == TreeOver(sha, gs).root.hash
    ensures Shared(sha, hs, gs) || Collides(sha, RootPreimages(sha, hs), RootPreimages(sha, gs))
  {
    if |hs| > 0 { SubtreeCaches(sha, hs); }
    if |gs| > 0 { SubtreeCaches(sha, gs); }
    if |hs| > 0 && |gs| > 0 {
      EqualHashesShared(sha, hs, gs);
    } else if |hs| > 1 {
      EmptyAgainstMany(sha, hs);
    } else if |gs| > 1 {
      EmptyAgainstMany(sha, gs);
    }
  }

  /** Two equally long lists of leaf hashes with one root are equal, or hashed strings collide. */
  lemma {:induction false} LeafHashBinding(sha: HashFn, hs: seq<Digest>, gs: seq<Digest>)
    requires |hs| == |gs| > 0 && TreeHash(sha, hs) == TreeHash(sha, gs)
    ensures hs == gs || Collides(sha, NodePreimages(sha, hs), NodePreimages(sha, gs))
  {
    EqualHashesShared(sha, hs, gs);
    if Shared(sha, hs, gs) { SharedAlike(sha, hs, gs); }
  }

  /** Lists of any two sizes that share their strings. */
  lemma {:induction false} SharedOfSizes(sha: HashFn, m: nat, n: nat) returns (hs: seq<Digest>, gs: seq<Digest>)
    requires m > 0 && n > 0
    ensures |hs| == m && |gs| == n && Shared(sha, hs, gs)
    decreases m
  {
    if m == 1 {
      gs := seq(n, _ => Zeros(32));
      hs := [TreeHash(sha, gs)];
    } else if n == 1 {
      hs := seq(m, _ => Zeros(32));
      gs := [TreeHash(sha, hs)];
    } else {
      var j, k := Split(m), Split(n);
      var a, b := SharedOfSizes(sha, j, k);
      var c, d := SharedOfSizes(sha, m - j, n - k);
      hs, gs := a + c, b + d;
      assert hs[..j] == a && hs[j..] == c && gs[..k] == b && gs[k..] == d;
    }
  }

  ghost predicate Confusable(sha: HashFn, m: nat, n: nat) {
    exists hs: seq<Digest>, gs: seq<Digest> :: |hs| == m && |gs| == n && hs != gs && Shared(sha, hs, gs)
  }

  /** Different lists of leaf hashes of two sizes can share a root through the same hashed strings if and
      only if the sizes differ, an empty list being confused only with a single leaf. */
  lemma LeafHashRootsConfuseSizes(sha: HashFn, m: nat, n: nat)
    ensures Confusable(sha, m, n) <==> m != n && (m == 0 ==> n == 1) && (n == 0 ==> m == 1)
  {
    if hs: seq<Digest>, gs: seq<Digest> :| |hs| == m && |gs| == n && hs != gs && Shared(sha, hs, gs) {
      if m == n { SharedAlike(sha, hs, gs); }
    }
    if m != n && m > 0 && n > 0 {
      var hs, gs := SharedOfSizes(sha, m, n);
    } else if m == 0 && n == 1 {
      assert Shared(sha, [], [sha([])]) && |[sha([])]| == 1;
    } else if m == 1 && n == 0 {
      assert Shared(sha, [sha([])], []) && |[sha([])]| == 1;
    }
  }
}
