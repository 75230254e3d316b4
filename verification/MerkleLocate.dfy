/** LocateMismatches: the pruned walk over two cached trees of one size. */
module MerkleLocate {
  import opened Options
  import opened ByteCodes
  import opened Merkle
  import opened MerkleProofs

  /** The two nodes branch alike all the way down, so a walk over both never meets a missing child. */
  ghost predicate SameTopology(a: Node, b: Node) {
    match a
    case Tip(_, _) => b.Tip?
    case Branch(_, l, r, _) => b.Branch? && l.leafCount == b.left.leafCount
                               && SameTopology(l, b.left) && SameTopology(r, b.right)
  }

  lemma {:induction false} EqualSizesShareTopology(sha: HashFn, hs: seq<Digest>, gs: seq<Digest>)
    requires |hs| == |gs| > 0
    ensures SameTopology(Subtree(sha, hs), Subtree(sha, gs))
    decreases |hs|
  {
    if |hs| > 1 {
      var k := Split(|hs|);
      SubtreeSplits(sha, hs);
      SubtreeSplits(sha, gs);
      EqualSizesShareTopology(sha, hs[..k], gs[..k]);
      EqualSizesShareTopology(sha, hs[k..], gs[k..]);
      SubtreeCaches(sha, hs[..k]);
      SubtreeCaches(sha, gs[..k]);
    }
  }

  /** What the walk appends, left to right. */
  function Located(ref: Node, act: Node, offset: nat): seq<nat>
    requires SameTopology(ref, act)
    decreases ref
  {
    if ref.hash == act.hash then []
    else if ref.Tip? then [offset]
    else Located(ref.left, act.left, offset) + Located(ref.right, act.right, offset + ref.left.leafCount)
  }

  /** How many node pairs the walk compares. */
  function Visits(ref: Node, act: Node): nat
    requires SameTopology(ref, act)
    decreases ref
  {
    if ref.hash == act.hash || ref.Tip? then 1
    else 1 + Visits(ref.left, act.left) + Visits(ref.right, act.right)
  }

  method Walk(ref: Node, act: Node, offset: nat, mismatched: seq<nat>) returns (found: seq<nat>, compared: nat)
    requires SameTopology(ref, act)
    ensures found == mismatched + Located(ref, act, offset)
    ensures compared == Visits(ref, act)
    decreases ref
  {
    if ref.hash == act.hash {
      return mismatched, 1;
    }
    if ref.Tip? {
      return mismatched + [offset], 1;
    }
    var l, r;
    found, l := Walk(ref.left, act.left, offset, mismatched);
    found, r := Walk(ref.right, act.right, offset + ref.left.leafCount, found);
    compared := 1 + l + r;
  }

  method LocateMismatches(ghost sha: HashFn, ghost hs: seq<Digest>, ghost gs: seq<Digest>,
                          reference: MerkleTree, actual: MerkleTree)
    returns (r: Result<seq<nat>>, compared: nat)
    requires reference == TreeOver(sha, hs) && actual == TreeOver(sha, gs)
    ensures r.Ok? <==> |hs| == |gs|
    ensures r.Ok? ==> Ascending(r.value, |hs|)
    ensures r.Ok? ==> forall i :: i in r.value ==> hs[i] != gs[i]
    ensures r.Ok? && |hs| > 0 && !Collides(sha, NodePreimages(sha, hs), NodePreimages(sha, gs)) ==>
              forall i :: 0 <= i < |hs| && hs[i] != gs[i] ==> i in r.value
    ensures r.Ok? && |hs| > 0 ==> compared <= Budget(Differing(hs, gs), CeilLog2(|hs|))
  {
    if |hs| > 0 { SubtreeCaches(sha, hs); }
    if |gs| > 0 { SubtreeCaches(sha, gs); }
    if reference.root.leafCount != actual.root.leafCount {
      return Err, 0;
    }
    if reference.root.leafCount == 0 {
      return Ok([]), 0;
    }
    EqualSizesShareTopology(sha, hs, gs);
    var found;
    found, compared := Walk(reference.root, actual.root, 0, []);
    assert found == Located(reference.root, actual.root, 0);
    WalkOnHashes(sha, hs, gs, 0);
    LocatedExactly(sha, hs, gs, 0);
    forall i | 0 <= i < |hs| && hs[i] != gs[i] && i !in found
      ensures Collides(sha, NodePreimages(sha, hs), NodePreimages(sha, gs))
    {
      MissedMeansCollision(sha, hs, gs, 0, i);
    }
    VisitsBound(sha, hs, gs, CeilLog2(|hs|));
    r := Ok(found);
  }

  // ---------------------------------------------------------------- what the walk finds

  ghost predicate Ascending(s: seq<nat>, bound: nat) {
    && (forall i, j :: 0 <= i < j < |s| ==> s[i] < s[j])
    && (forall i :: 0 <= i < |s| ==> s[i] < bound)
  }

  ghost predicate GenuineFrom(found: seq<nat>, hs: seq<Digest>, gs: seq<Digest>, offset: nat)
    requires |hs| == |gs|
  {
    && (forall i, j :: 0 <= i < j < |found| ==> found[i] < found[j])
    && (forall i :: 0 <= i < |found| ==> offset <= found[i] < offset + |hs|)
    && (forall i :: 0 <= i < |found| ==> hs[found[i] - offset] != gs[found[i] - offset])
  }

  lemma GenuineJoin(a: seq<nat>, b: seq<nat>, hs: seq<Digest>, gs: seq<Digest>, offset: nat, k: nat)
    requires |hs| == |gs| && k <= |hs|
    requires GenuineFrom(a, hs[..k], gs[..k], offset)
    requires GenuineFrom(b, hs[k..], gs[k..], offset + k)
    ensures GenuineFrom(a + b, hs, gs, offset)
  {
    var ab := a + b;
    forall i | 0 <= i < |ab| ensures offset <= ab[i] < offset + |hs| && hs[ab[i] - offset] != gs[ab[i] - offset] {
      if i < |a| {
        assert ab[i] == a[i];
      } else {
        assert ab[i] == b[i - |a|];
      }
    }
  }

  /** The walk stated on leaf hashes alone. */
  ghost function Found(sha: HashFn, hs: seq<Digest>, gs: seq<Digest>, offset: nat): seq<nat>
    requires |hs| == |gs| > 0
    decreases |hs|
  {
    if TreeHash(sha, hs) == TreeHash(sha, gs) then []
    else if |hs| == 1 then [offset]
    else
      var k := Split(|hs|);
      Found(sha, hs[..k], gs[..k], offset) + Found(sha, hs[k..], gs[k..], offset + k)
  }

  ghost function Compared(sha: HashFn, hs: seq<Digest>, gs: seq<Digest>): nat
    requires |hs| == |gs| > 0
    decreases |hs|
  {
    if TreeHash(sha, hs) == TreeHash(sha, gs) || |hs| == 1 then 1
    else
      var k := Split(|hs|);
      1 + Compared(sha, hs[..k], gs[..k]) + Compared(sha, hs[k..], gs[k..])
  }

  /** The walk over cached nodes finds and compares what the walk over leaf hashes does. */
  lemma {:induction false} WalkOnHashes(sha: HashFn, hs: seq<Digest>, gs: seq<Digest>, offset: nat)
    requires |hs| == |gs| > 0
    requires SameTopology(Subtree(sha, hs), Subtree(sha, gs))
    ensures Located(Subtree(sha, hs), Subtree(sha, gs), offset) == Found(sha, hs, gs, offset)
    ensures Visits(Subtree(sha, hs), Subtree(sha, gs)) == Compared(sha, hs, gs)
    decreases |hs|
  {
    SubtreeCaches(sha, hs);
    SubtreeCaches(sha, gs);
    if |hs| > 1 {
      var k := Split(|hs|);
      SubtreeSplits(sha, hs);
      SubtreeSplits(sha, gs);
      SubtreeCaches(sha, hs[..k]);
      WalkOnHashes(sha, hs[..k], gs[..k], offset);
      WalkOnHashes(sha, hs[k..], gs[k..], offset + k);
    }
  }

  /** Only differing positions are reported, in ascending order and once each. */
  lemma {:induction false} LocatedExactly(sha: HashFn, hs: seq<Digest>, gs: seq<Digest>, offset: nat)
    requires |hs| == |gs| > 0
    ensures GenuineFrom(Found(sha, hs, gs, offset), hs, gs, offset)
    decreases |hs|
  {
    if |hs| > 1 && TreeHash(sha, hs) != TreeHash(sha, gs) {
      var k := Split(|hs|);
      LocatedExactly(sha, hs[..k], gs[..k], offset);
      LocatedExactly(sha, hs[k..], gs[k..], offset + k);
      GenuineJoin(Found(sha, hs[..k], gs[..k], offset), Found(sha, hs[k..], gs[k..], offset + k), hs, gs, offset, k);
    }
  }

  /** A differing position the walk does not report exhibits a collision of hashed strings. */
  lemma {:induction false} MissedMeansCollision(sha: HashFn, hs: seq<Digest>, gs: seq<Digest>, offset: nat, i: nat)
    requires |hs| == |gs| && i < |hs| && hs[i] != gs[i]
    requires offset + i !in Found(sha, hs, gs, offset)
    ensures Collides(sha, NodePreimages(sha, hs), NodePreimages(sha, gs))
    decreases |hs|
  {
    if TreeHash(sha, hs) == TreeHash(sha, gs) {
      LeafHashBinding(sha, hs, gs);
    } else {
      assert |hs| > 1;
      var k := Split(|hs|);
      if i < k {
        MissedMeansCollision(sha, hs[..k], gs[..k], offset, i);
      } else {
        MissedMeansCollision(sha, hs[k..], gs[k..], offset + k, i - k);
      }
      NodeCollisionLifts(sha, hs, gs);
    }
  }

  // ---------------------------------------------------------------- what the walk costs

  function Differing(hs: seq<Digest>, gs: seq<Digest>): (k: nat)
    requires |hs| == |gs|
  {
    if |hs| == 0 then 0 else (if hs[0] != gs[0] then 1 else 0) + Differing(hs[1..], gs[1..])
  }

  lemma {:induction false} DifferingSplits(hs: seq<Digest>, gs: seq<Digest>, k: nat)
    requires |hs| == |gs| && k <= |hs|
    ensures Differing(hs, gs) == Differing(hs[..k], gs[..k]) + Differing(hs[k..], gs[k..])
  {
    if k > 0 {
      DifferingSplits(hs[1..], gs[1..], k - 1);
      assert hs[..k][1..] == hs[1..][..k - 1] && gs[..k][1..] == gs[1..][..k - 1];
      assert hs[1..][k - 1..] == hs[k..] && gs[1..][k - 1..] == gs[k..];
    } else {
      assert hs[0..] == hs && gs[0..] == gs;
    }
  }

  lemma {:induction false} NoDifferenceNoBranch(hs: seq<Digest>, gs: seq<Digest>)
    requires |hs| == |gs| && Differing(hs, gs) == 0
    ensures hs == gs
  {
    if |hs| > 0 {
      NoDifferenceNoBranch(hs[1..], gs[1..]);
      assert hs == [hs[0]] + hs[1..] && gs == [gs[0]] + gs[1..];
    }
  }

  /** Node pairs a walk may compare: two at every level above each of k differing leaves, and the root. */
  function Budget(k: nat, d: nat): (r: nat)
    ensures r >= 1
  {
    assert k * d >= 0;
    1 + 2 * (k * d)
  }

  lemma BudgetAdds(a: nat, b: nat, d: nat)
    requires a + b >= 1 && d >= 1
    ensures 1 + Budget(a, d - 1) + Budget(b, d - 1) <= Budget(a + b, d)
  {
    assert a * (d - 1) + b * (d - 1) == (a + b) * d - (a + b);
  }

  /** At most 1 + 2 * (differing leaves) * depth node pairs are compared. */
  lemma {:induction false} VisitsBound(sha: HashFn, hs: seq<Digest>, gs: seq<Digest>, d: nat)
    requires |hs| == |gs| > 0 && |hs| <= Pow2(d)
    ensures Compared(sha, hs, gs) <= Budget(Differing(hs, gs), d)
    decreases |hs|
  {
    if TreeHash(sha, hs) != TreeHash(sha, gs) && |hs| > 1 {
      if Differing(hs, gs) == 0 { NoDifferenceNoBranch(hs, gs); }
      var k := Split(|hs|);
      SplitFits(|hs|, d);
      DifferingSplits(hs, gs, k);
      VisitsBound(sha, hs[..k], gs[..k], d - 1);
      VisitsBound(sha, hs[k..], gs[k..], d - 1);
      BudgetAdds(Differing(hs[..k], gs[..k]), Differing(hs[k..], gs[k..]), d);
    }
  }
}
