/**
 The Merkle tree over ledger entry hashes: built level by level, an odd node at the end of a level
 promoted unchanged. Digests are a free algebra, so no two different inputs ever collide.
 */
module Merkle {
  import opened Prelude
  import opened Binary

  datatype Digest =
    | Zero                                  // 32 zero bytes
    | Entry(bytes: Bytes)                   // SHA-256 of a row's canonical encoding
    | Chain(prev: Digest, entry: Digest)    // SHA-256 of prev ++ entry
    | Node(left: Digest, right: Digest)     // SHA-256 of 0x01 ++ left ++ right

  /** A proof step carries a hex string, which need not decode to 32 bytes. */
  datatype Sibling = Hash(digest: Digest) | Malformed

  datatype ProofStep = ProofStep(sibling: Sibling, isLeft: bool)

  // ---- what the loops compute ----

  /** One level up: neighbours paired, a last odd node kept. */
  function NextLevel(level: seq<Digest>): (next: seq<Digest>)
    ensures |next| == (|level| + 1) / 2
  {
    if |level| == 0 then []
    else if |level| == 1 then level
    else [Node(level[0], level[1])] + NextLevel(level[2..])
  }

  function Root(level: seq<Digest>): Digest
    decreases |level|
  {
    if |level| == 0 then Zero
    else if |level| == 1 then level[0]
    else Root(NextLevel(level))
  }

  function SiblingIndex(index: nat): nat {
    if index % 2 == 0 then index + 1 else index - 1
  }

  /** The step of one level: none for a promoted node. */
  function LevelStep(level: seq<Digest>, index: nat): seq<ProofStep> {
    if SiblingIndex(index) < |level|
    then [ProofStep(Hash(level[SiblingIndex(index)]), index % 2 == 1)]
    else []
  }

  function Path(level: seq<Digest>, index: nat): seq<ProofStep>
    requires index < |level|
    decreases |level|
  {
    if |level| == 1 then []
    else LevelStep(level, index) + Path(NextLevel(level), index / 2)
  }

  function Climb(running: Digest, step: ProofStep): Option<Digest> {
    match step.sibling
    case Malformed => None
    case Hash(s) => Some(if step.isLeft then Node(s, running) else Node(running, s))
  }

  /** The hash a proof folds to, None if a sibling does not decode. */
  function Fold(running: Digest, proof: seq<ProofStep>): Option<Digest>
    decreases |proof|
  {
    if proof == [] then Some(running)
    else match Climb(running, proof[0])
      case None => None
      case Some(d) => Fold(d, proof[1..])
  }

  // ---- the loops ----

  /** The inner loop of root and proof construction. */
  method PairUp(level: seq<Digest>) returns (next: seq<Digest>)
    ensures next == NextLevel(level)
  {
    next := [];
    var i := 0;
    while i < |level|
      invariant 0 <= i <= |level| + 1
      invariant i <= |level| ==> next + NextLevel(level[i..]) == NextLevel(level)
      invariant i > |level| ==> next == NextLevel(level)
    {
      if i + 1 < |level| {
        assert level[i..][2..] == level[i + 2..];
        next := next + [Node(level[i], level[i + 1])];
      } else {
        next := next + [level[i]];
      }
      i := i + 2;
    }
  }

  method MerkleRoot(leaves: seq<Digest>) returns (root: Digest)
    ensures root == Root(leaves)
  {
    if |leaves| == 0 {
      return Zero;
    }
    var level := leaves;
    while |level| > 1
      invariant |level| >= 1 && Root(level) == Root(leaves)
      decreases |level|
    {
      level := PairUp(level);
    }
    return level[0];
  }

  method MerkleProof(leaves: seq<Digest>, index: nat) returns (steps: seq<ProofStep>)
    requires index < |leaves|
    ensures steps == Path(leaves, index)
  {
    hide Path, NextLevel;
    steps := [];
    var level := leaves;
    var idx: nat := index;
    while |level| > 1
      invariant idx < |level| && steps + Path(level, idx) == Path(leaves, index)
      decreases |level|
    {
      PathUnfolds(steps, level, idx);
      var siblingIndex := SiblingIndex(idx);
      if siblingIndex < |level| {
        steps := steps + [ProofStep(Hash(level[siblingIndex]), idx % 2 == 1)];
      }
      level := PairUp(level);
      idx := idx / 2;
    }
    PathOfOne(level, idx);
  }

  lemma {:induction false} PathOfOne(level: seq<Digest>, index: nat)
    requires |level| == 1 && index == 0
    ensures Path(level, index) == []
  {}

  method VerifyProof(leaf: Digest, proof: seq<ProofStep>, expectedRoot: Digest) returns (ok: bool)
    ensures ok <==> Fold(leaf, proof) == Some(expectedRoot)
  {
    var running := leaf;
    for i := 0 to |proof|
      invariant Fold(running, proof[i..]) == Fold(leaf, proof)
    {
      assert proof[i..][1..] == proof[i + 1..];
      if proof[i].sibling.Malformed? {
        return false;
      }
      var sibling := proof[i].sibling.digest;
      running := if proof[i].isLeft then Node(sibling, running) else Node(running, sibling);
    }
    return running == expectedRoot;
  }

  // ---- the tree of section 2.1 of RFC 6962, leaf hashes given ----

  /** The largest power of two smaller than n. */
  function Split(n: nat): (k: nat)
    requires n > 1
    ensures 0 < k < n <= 2 * k
  {
    if n == 2 then 1 else 2 * Split((n + 1) / 2)
  }

  function TreeHash(leaves: seq<Digest>): Digest
    requires leaves != []
    decreases |leaves|
  {
    if |leaves| == 1 then leaves[0]
    else
      var k := Split(|leaves|);
      Node(TreeHash(leaves[..k]), TreeHash(leaves[k..]))
  }

  /** The audit path of section 2.1.1 of RFC 6962. */
  function TreePath(leaves: seq<Digest>, index: nat): seq<ProofStep>
    requires index < |leaves|
    decreases |leaves|
  {
    if |leaves| == 1 then []
    else
      var k := Split(|leaves|);
      if index < k then TreePath(leaves[..k], index) + [ProofStep(Hash(TreeHash(leaves[k..])), false)]
      else TreePath(leaves[k..], index - k) + [ProofStep(Hash(TreeHash(leaves[..k])), true)]
  }

  /** Split really is a power of two, so it is the largest one below n. */
  lemma {:induction false} SplitIsPowerOfTwo(n: nat)
    requires n > 1
    ensures PowerOfTwo(Split(n))
  {
    if n > 2 {
      SplitIsPowerOfTwo((n + 1) / 2);
    }
  }

  lemma {:induction false} NextLevelAppend(a: seq<Digest>, b: seq<Digest>)
    requires |a| % 2 == 0
    ensures NextLevel(a + b) == NextLevel(a) + NextLevel(b)
    decreases |a|
  {
    if a == [] {
      assert a + b == b;
    } else {
      assert (a + b)[2..] == a[2..] + b;
      NextLevelAppend(a[2..], b);
    }
  }

  /** A full left subtree keeps to itself all the way up. */
  lemma {:induction false} RootOfSplit(a: seq<Digest>, b: seq<Digest>)
    requires PowerOfTwo(|a|) && 0 < |b| <= |a|
    ensures Root(a + b) == Node(Root(a), Root(b))
    decreases |a|
  {
    if |a| == 1 {
      assert a + b == [a[0], b[0]];
      assert NextLevel(a + b) == [Node(a[0], b[0])];
    } else {
      NextLevelAppend(a, b);
      RootOfSplit(NextLevel(a), NextLevel(b));
    }
  }

  /** The level-by-level root is the RFC 6962 tree hash, for every nonempty leaf list. */
  lemma {:induction false} RootIsTreeHash(leaves: seq<Digest>)
    requires leaves != []
    ensures Root(leaves) == TreeHash(leaves)
    decreases |leaves|
  {
    hide Root, Split, PowerOfTwo;
    if |leaves| == 1 {
      RootOfOne(leaves);
    } else {
      var k := Split(|leaves|);
      SplitIsPowerOfTwo(|leaves|);
      RootIsTreeHash(leaves[..k]);
      RootIsTreeHash(leaves[k..]);
      RootOfSplit(leaves[..k], leaves[k..]);
      assert leaves[..k] + leaves[k..] == leaves;
    }
  }

  lemma {:induction false} RootOfOne(leaves: seq<Digest>)
    requires |leaves| == 1
    ensures Root(leaves) == leaves[0]
  {
  }

  // ---- completeness ----

  lemma {:induction false} NextLevelAt(level: seq<Digest>, i: nat)
    requires i < |level|
    ensures var s := SiblingIndex(i);
      NextLevel(level)[i / 2]
      == if s >= |level| then level[i] else if i % 2 == 0 then Node(level[i], level[s]) else Node(level[s], level[i])
    decreases |level|
  {
    if |level| > 1 && i >= 2 {
      NextLevelAt(level[2..], i - 2);
      assert level[2..][i - 2] == level[i];
    }
  }

  /** The proof of any leaf folds to the root. */
  lemma {:induction false} ProofsVerify(leaves: seq<Digest>, index: nat)
    requires index < |leaves|
    ensures Fold(leaves[index], Path(leaves, index)) == Some(Root(leaves))
    decreases |leaves|
  {
    if |leaves| > 1 {
      ProofsVerify(NextLevel(leaves), index / 2);
      NextLevelAt(leaves, index);
      if SiblingIndex(index) < |leaves| {
        assert Path(leaves, index)[1..] == Path(NextLevel(leaves), index / 2);
      } else {
        assert Path(leaves, index) == Path(NextLevel(leaves), index / 2);
      }
    }
  }

  /** The least k with n <= 2^k. */
  function CeilLog2(n: nat): nat {
    if n <= 1 then 0 else 1 + CeilLog2((n + 1) / 2)
  }

  function Pow2(k: nat): nat { if k == 0 then 1 else 2 * Pow2(k - 1) }

  lemma {:induction false} CeilLog2IsLeast(n: nat)
    requires n > 0
    ensures n <= Pow2(CeilLog2(n))
    ensures n > 1 ==> Pow2(CeilLog2(n) - 1) < n
  {
    if n > 1 {
      CeilLog2IsLeast((n + 1) / 2);
    }
  }

  lemma {:induction false} ProofLength(leaves: seq<Digest>, index: nat)
    requires index < |leaves|
    ensures |Path(leaves, index)| <= CeilLog2(|leaves|)
    decreases |leaves|
  {
    if |leaves| > 1 {
      ProofLength(NextLevel(leaves), index / 2);
    }
  }

  // ---- binding ----

  lemma {:induction false} TreeHashBindsLeaves(a: seq<Digest>, b: seq<Digest>)
    requires a != [] && |a| == |b| && TreeHash(a) == TreeHash(b)
    ensures a == b
    decreases |a|
  {
    hide Split;
    if |a| > 1 {
      var k := Split(|a|);
      TreeHashBindsLeaves(a[..k], b[..k]);
      TreeHashBindsLeaves(a[k..], b[k..]);
      assert a == a[..k] + a[k..] && b == b[..k] + b[k..];
    } else {
      assert a == [a[0]] && b == [b[0]];
    }
  }

  /** Two leaf lists of one length with one root are the same list. */
  lemma {:induction false} RootBindsLeaves(a: seq<Digest>, b: seq<Digest>)
    requires a != [] && |a| == |b| && Root(a) == Root(b)
    ensures a == b
  {
    hide Root, TreeHash;
    RootIsTreeHash(a);
    RootIsTreeHash(b);
    TreeHashBindsLeaves(a, b);
  }

  lemma {:induction false} Assoc(a: seq<ProofStep>, b: seq<ProofStep>, c: seq<ProofStep>)
    ensures a + (b + c) == a + b + c
  {}

  lemma {:induction false} PathUnfolds(prefix: seq<ProofStep>, level: seq<Digest>, index: nat)
    requires index < |level| && |level| > 1
    ensures Path(level, index) == LevelStep(level, index) + Path(NextLevel(level), index / 2)
    ensures prefix + Path(level, index) == prefix + LevelStep(level, index) + Path(NextLevel(level), index / 2)
  {
    Assoc(prefix, LevelStep(level, index), Path(NextLevel(level), index / 2));
  }

  lemma {:induction false} PathOfPair(x: Digest, y: Digest)
    ensures Path([x, y], 0) == [ProofStep(Hash(y), false)] && Path([x, y], 1) == [ProofStep(Hash(x), true)]
  {
    assert NextLevel([x, y]) == [Node(x, y)];
  }

  /** The step at the lowest level sees only its own side of an even split. */
  lemma {:induction false} LevelStepOfSplit(a: seq<Digest>, b: seq<Digest>, i: nat)
    requires |a| % 2 == 0 && i < |a| + |b|
    ensures LevelStep(a + b, i) == if i < |a| then LevelStep(a, i) else LevelStep(b, i - |a|)
  {
    var s := SiblingIndex(i);
    if i < |a| {
      assert s < |a| && (a + b)[s] == a[s];
    } else {
      assert s >= |a| && SiblingIndex(i - |a|) == s - |a|;
      assert s < |a + b| ==> (a + b)[s] == b[s - |a|];
    }
  }

  lemma {:induction false} PathStepLeft(a: seq<Digest>, b: seq<Digest>, i: nat, last: ProofStep)
    requires |a| % 2 == 0 && i < |a| && b != []
    requires Path(NextLevel(a) + NextLevel(b), i / 2) == Path(NextLevel(a), i / 2) + [last]
    ensures Path(a + b, i) == Path(a, i) + [last]
  {
    NextLevelAppend(a, b);
    LevelStepOfSplit(a, b, i);
    Assoc(LevelStep(a, i), Path(NextLevel(a), i / 2), [last]);
  }

  /** A path, one level at a time, with something to follow it. */
  lemma {:induction false} PathThen(level: seq<Digest>, index: nat, last: ProofStep)
    requires index < |level|
    ensures Path(level, index) + [last] == LevelStep(level, index) + (Path(NextLevel(level), index / 2) + [last])
  {
    if |level| == 1 {
      assert NextLevel(level) == level && LevelStep(level, index) == [];
    } else {
      Assoc(LevelStep(level, index), Path(NextLevel(level), index / 2), [last]);
    }
  }

  lemma {:induction false} PathOnce(level: seq<Digest>, index: nat)
    requires index < |level| && |level| > 1
    ensures Path(level, index) == LevelStep(level, index) + Path(NextLevel(level), index / 2)
  {}

  lemma {:induction false} PathOnRight(a: seq<Digest>, b: seq<Digest>, j: nat, i: nat)
    requires |a| % 2 == 0 && a != [] && j < |b| && i == |a| + j
    ensures Path(a + b, i) == LevelStep(b, j) + Path(NextLevel(a) + NextLevel(b), i / 2)
  {
    hide Path, NextLevel;
    PathOnce(a + b, i);
    NextLevelAppend(a, b);
    LevelStepOfSplit(a, b, i);
  }

  lemma {:induction false} PathStepRight(a: seq<Digest>, b: seq<Digest>, j: nat, i: nat, last: ProofStep)
    requires |a| % 2 == 0 && a != [] && j < |b| && i == |a| + j
    requires Path(NextLevel(a) + NextLevel(b), i / 2) == Path(NextLevel(b), j / 2) + [last]
    ensures Path(a + b, i) == Path(b, j) + [last]
  {
    calc {
      Path(a + b, i);
      { PathOnRight(a, b, j, i); }
      LevelStep(b, j) + Path(NextLevel(a) + NextLevel(b), i / 2);
      LevelStep(b, j) + (Path(NextLevel(b), j / 2) + [last]);
      { PathThen(b, j, last); }
      Path(b, j) + [last];
    }
  }

  /** The last step of a leaf's proof joins the two subtrees of the root: a leaf on the left. */
  lemma {:induction false} PathOfLeft(a: seq<Digest>, b: seq<Digest>, i: nat)
    requires PowerOfTwo(|a|) && 0 < |b| <= |a| && i < |a|
    ensures Path(a + b, i) == Path(a, i) + [ProofStep(Hash(Root(b)), false)]
    decreases |a|
  {
    if |a| == 1 {
      assert a + b == [a[0], b[0]];
      PathOfPair(a[0], b[0]);
    } else {
      PathOfLeft(NextLevel(a), NextLevel(b), i / 2);
      PathStepLeft(a, b, i, ProofStep(Hash(Root(b)), false));
    }
  }

  /** And a leaf on the right. */
  lemma {:induction false} PathOfRight(a: seq<Digest>, b: seq<Digest>, j: nat, i: nat)
    requires PowerOfTwo(|a|) && 0 < |b| <= |a| && j < |b| && i == |a| + j
    ensures Path(a + b, i) == Path(b, j) + [ProofStep(Hash(Root(a)), true)]
    decreases |a|
  {
    if |a| == 1 {
      assert a == [a[0]] && b == [b[0]] && a + b == [a[0], b[0]];
      PathOfPair(a[0], b[0]);
    } else {
      assert |a| % 2 == 0 && Root(a) == Root(NextLevel(a));
      var last := ProofStep(Hash(Root(NextLevel(a))), true);
      PathOfRight(NextLevel(a), NextLevel(b), j / 2, i / 2);
      PathStepRight(a, b, j, i, last);
    }
  }

  lemma {:induction false} FoldSnoc(leaf: Digest, proof: seq<ProofStep>)
    requires proof != [] && Fold(leaf, proof).Some?
    ensures var n := |proof| - 1;
      && Fold(leaf, proof[..n]).Some?
      && Fold(leaf, proof) == Climb(Fold(leaf, proof[..n]).value, proof[n])
    decreases |proof|
  {
    var n := |proof| - 1;
    if n > 0 {
      FoldSnoc(Climb(leaf, proof[0]).value, proof[1..]);
      assert proof[1..][..n - 1] == proof[..n][1..];
    }
  }

  ghost predicate Leafy(leaves: seq<Digest>) {
    forall i :: 0 <= i < |leaves| ==> !leaves[i].Node?
  }

  lemma {:induction false} NoProofAboveALeaf(leaf: Digest, proof: seq<ProofStep>, root: Digest)
    requires Fold(leaf, proof) == Some(root) && !root.Node?
    ensures proof == [] && leaf == root
  {
    if proof != [] {
      FoldSnoc(leaf, proof);
      assert false;
    }
  }

  /** A proof of an internal node ends with a step into one of its two children. */
  lemma {:induction false} ProofIntoChild(leaf: Digest, proof: seq<ProofStep>, left: Digest, right: Digest)
    returns (init: seq<ProofStep>, onRight: bool)
    requires Fold(leaf, proof) == Some(Node(left, right)) && !leaf.Node?
    ensures onRight ==> proof == init + [ProofStep(Hash(left), true)] && Fold(leaf, init) == Some(right)
    ensures !onRight ==> proof == init + [ProofStep(Hash(right), false)] && Fold(leaf, init) == Some(left)
  {
    FoldSnoc(leaf, proof);
    var last := proof[|proof| - 1];
    init, onRight := proof[..|proof| - 1], last.isLeft;
    assert proof == init + [last];
  }

  /**
   Whatever verifies against a root is a leaf of that tree with exactly that leaf's audit path,
   provided neither the claimed leaf nor the real ones are internal nodes.
   */
  lemma {:induction false} OnlyLeavesVerify(leaves: seq<Digest>, leaf: Digest, proof: seq<ProofStep>) returns (index: nat)
    requires leaves != [] && Leafy(leaves) && !leaf.Node?
    requires Fold(leaf, proof) == Some(TreeHash(leaves))
    ensures index < |leaves| && leaves[index] == leaf && proof == TreePath(leaves, index)
    decreases |leaves|
  {
    if |leaves| == 1 {
      index := 0;
      NoProofAboveALeaf(leaf, proof, leaves[0]);
    } else {
      var k := Split(|leaves|);
      var init, onRight := ProofIntoChild(leaf, proof, TreeHash(leaves[..k]), TreeHash(leaves[k..]));
      if onRight {
        index := OnlyLeavesVerify(leaves[k..], leaf, init);
        index := index + k;
      } else {
        index := OnlyLeavesVerify(leaves[..k], leaf, init);
      }
    }
  }

  lemma {:induction false} SplitTree(leaves: seq<Digest>, a: seq<Digest>, b: seq<Digest>)
    requires |leaves| > 1 && a == leaves[..Split(|leaves|)] && b == leaves[Split(|leaves|)..]
    ensures leaves == a + b && PowerOfTwo(|a|) && 0 < |b| <= |a|
    ensures Root(a) == TreeHash(a) && Root(b) == TreeHash(b)
  {
    SplitIsPowerOfTwo(|leaves|);
    RootIsTreeHash(a);
    RootIsTreeHash(b);
  }

  lemma {:induction false} JoinLeft(leaves: seq<Digest>, index: nat)
    requires |leaves| > 1 && index < Split(|leaves|)
    requires var a := leaves[..Split(|leaves|)]; Path(a, index) == TreePath(a, index)
    ensures Path(leaves, index) == TreePath(leaves, index)
  {
    var a, b := leaves[..Split(|leaves|)], leaves[Split(|leaves|)..];
    calc {
      Path(leaves, index);
      { SplitTree(leaves, a, b); PathOfLeft(a, b, index); }
      TreePath(a, index) + [ProofStep(Hash(TreeHash(b)), false)];
    }
  }

  lemma {:induction false} JoinRight(leaves: seq<Digest>, b: seq<Digest>, j: nat, index: nat)
    requires |leaves| > 1 && b == leaves[Split(|leaves|)..] && j < |b| && index == Split(|leaves|) + j
    requires Path(b, j) == TreePath(b, j)
    ensures Path(leaves, index) == TreePath(leaves, index)
  {
    var a := leaves[..Split(|leaves|)];
    SplitTree(leaves, a, b);
    PathOfRight(a, b, j, index);
    assert Path(leaves, index) == TreePath(b, j) + [ProofStep(Hash(TreeHash(a)), true)];
  }

  /** The proofs of the source are the audit paths, for every leaf of every tree. */
  lemma {:induction false} PathIsTreePath(leaves: seq<Digest>, index: nat)
    requires index < |leaves|
    ensures Path(leaves, index) == TreePath(leaves, index)
    decreases |leaves|
  {
    if |leaves| > 1 {
      var k := Split(|leaves|);
      if index < k {
        PathIsTreePath(leaves[..k], index);
        JoinLeft(leaves, index);
      } else {
        PathIsTreePath(leaves[k..], index - k);
        JoinRight(leaves, leaves[k..], index - k, index);
      }
    }
  }
}
