/** merkle.rs `Proof::create` and utils.rs `compute_merkle`: building and checking Merkle branches. */
module Merkle {
  import opened Results

  // ---------------------------------------------------------------- the tree, level by level

  /** A level with its last node repeated when it is odd. */
  function Padded<D>(hashes: seq<D>): (r: seq<D>)
    requires hashes != []
    ensures |r| == (|hashes| + 1) / 2 * 2
  {
    if |hashes| % 2 != 0 then hashes + [hashes[|hashes| - 1]] else hashes
  }

  /** The level above: the hashes of neighbouring pairs. */
  function Above<D>(h: (D, D) -> D, hashes: seq<D>): (r: seq<D>)
    requires hashes != []
    ensures |r| == (|hashes| + 1) / 2
  {
    var p := Padded(hashes);
    seq(|p| / 2, i requires 0 <= i < |p| / 2 => h(p[2 * i], p[2 * i + 1]))
  }

  function Sibling(offset: nat): nat {
    if offset % 2 == 0 then offset + 1 else offset - 1
  }

  /** The root obtained by climbing level by level. */
  function Root<D>(h: (D, D) -> D, hashes: seq<D>): D
    requires hashes != []
    decreases |hashes|
  {
    if |hashes| == 1 then hashes[0] else Root(h, Above(h, hashes))
  }

  /** The siblings met when climbing from a position to the root. */
  function Branch<D>(h: (D, D) -> D, hashes: seq<D>, offset: nat): seq<D>
    requires offset < |hashes|
    decreases |hashes|
  {
    if |hashes| == 1 then [] else [Padded(hashes)[Sibling(offset)]] + Branch(h, Above(h, hashes), offset / 2)
  }

  /** How many levels lie below the root of a tree with n leaves. */
  function Height(n: nat): nat
    requires n > 0
  {
    if n == 1 then 0 else 1 + Height((n + 1) / 2)
  }

  /** compute_merkle: fold a proof onto a leaf, the index bits choosing the side. */
  function Fold<D>(h: (D, D) -> D, leaf: D, index: nat, proof: seq<D>): D
    decreases |proof|
  {
    if proof == [] then leaf
    else if index % 2 == 0 then Fold(h, h(leaf, proof[0]), index / 2, proof[1..])
    else Fold(h, h(proof[0], leaf), index / 2, proof[1..])
  }

  // ---------------------------------------------------------------- the two programs

  /** Proof::create; None when its assertion on the position fails. */
  method Create<D>(h: (D, D) -> D, txids: seq<D>, position: nat) returns (r: Option<seq<D>>)
    ensures r == if position < |txids| then Some(Branch(h, txids, position)) else None
  {
    if position >= |txids| {
      return None;
    }
    var offset := position;
    var hashes := txids;
    var proof := [];
    while |hashes| > 1
      invariant 0 <= offset < |hashes|
      invariant proof + Branch(h, hashes, offset) == Branch(h, txids, position)
      decreases |hashes|
    {
      ghost var level, at, soFar := hashes, offset, proof;
      BranchStep(h, level, at, soFar);
      if |hashes| % 2 != 0 {
        var last := hashes[|hashes| - 1];
        hashes := hashes + [last];
      }
      assert hashes == Padded(level);
      hide Padded, Branch;
      offset := Sibling(offset);
      proof := proof + [hashes[offset]];
      offset := offset / 2;
      hashes := seq(|hashes| / 2, i requires 0 <= i < |hashes| / 2 => h(hashes[2 * i], hashes[2 * i + 1]));
      assert hashes == Above(h, level);
    }
    assert proof + [] == proof;
    r := Some(proof);
  }

  lemma BranchStep<D>(h: (D, D) -> D, hashes: seq<D>, offset: nat, soFar: seq<D>)
    requires offset < |hashes| && |hashes| > 1
    ensures Sibling(offset) < |Padded(hashes)| && Sibling(offset) / 2 == offset / 2
    ensures soFar + Branch(h, hashes, offset) ==
            (soFar + [Padded(hashes)[Sibling(offset)]]) + Branch(h, Above(h, hashes), offset / 2)
  {
    hide Padded, Sibling, Above;
    ParentOf(h, hashes, offset);
    var piece, rest := Padded(hashes)[Sibling(offset)], Branch(h, Above(h, hashes), offset / 2);
    assert Branch(h, hashes, offset) == [piece] + rest;
    assert soFar + ([piece] + rest) == (soFar + [piece]) + rest;
  }

  method ComputeMerkle<D>(h: (D, D) -> D, txid: D, txIndex: nat, proof: seq<D>) returns (r: D)
    ensures r == Fold(h, txid, txIndex, proof)
  {
    if proof == [] {
      return txid;
    }
    r := txid;
    var index := txIndex;
    for i := 0 to |proof|
      invariant Fold(h, txid, txIndex, proof) == Fold(h, r, index, proof[i..])
    {
      assert proof[i..][1..] == proof[i + 1..];
      if index % 2 == 0 {
        r := h(r, proof[i]);
      } else {
        r := h(proof[i], r);
      }
      index := index / 2;
    }
  }

  // ---------------------------------------------------------------- completeness and binding

  lemma ParentOf<D>(h: (D, D) -> D, hashes: seq<D>, pos: nat)
    requires pos < |hashes|
    ensures Sibling(pos) < |Padded(hashes)| && Sibling(pos) / 2 == pos / 2
    ensures var sibling := Padded(hashes)[Sibling(pos)];
            Above(h, hashes)[pos / 2] == if pos % 2 == 0 then h(hashes[pos], sibling) else h(sibling, hashes[pos])
  {}

  lemma FoldStep<D>(h: (D, D) -> D, leaf: D, index: nat, piece: D, rest: seq<D>)
    ensures Fold(h, leaf, index, [piece] + rest) ==
            Fold(h, if index % 2 == 0 then h(leaf, piece) else h(piece, leaf), index / 2, rest)
  {
    assert ([piece] + rest)[1..] == rest;
  }

  /** A created proof folds back to the root. */
  lemma {:induction false} CreatedProofFolds<D>(h: (D, D) -> D, txids: seq<D>, pos: nat)
    requires pos < |txids|
    ensures Fold(h, txids[pos], pos, Branch(h, txids, pos)) == Root(h, txids)
    ensures |Branch(h, txids, pos)| == Height(|txids|)
    decreases |txids|
  {
    if |txids| > 1 {
      var up := Above(h, txids);
      var sibling := Padded(txids)[Sibling(pos)];
      var rest := Branch(h, up, pos / 2);
      ParentOf(h, txids, pos);
      CreatedProofFolds(h, up, pos / 2);
      FoldStep(h, txids[pos], pos, sibling, rest);
    }
  }

  ghost predicate InjectivePair<D(!new)>(h: (D, D) -> D) {
    forall a, b, c, d :: h(a, b) == h(c, d) ==> a == c && b == d
  }

  // ---------------------------------------------------------------- Bitcoin's own definition

  /** How many nodes the tree over n leaves has at a height above the leaves. */
  function Width(n: nat, height: nat): nat {
    if height == 0 then n else (Width(n, height - 1) + 1) / 2
  }

  /** The node at a height and position, defined from the leaves: an absent right child repeats the left. */
  function Node<D>(h: (D, D) -> D, leaves: seq<D>, height: nat, pos: nat): D
    requires pos < Width(|leaves|, height)
    decreases height
  {
    if height == 0 then leaves[pos] else
      var left := Node(h, leaves, height - 1, 2 * pos);
      if 2 * pos + 1 < Width(|leaves|, height - 1)
      then h(left, Node(h, leaves, height - 1, 2 * pos + 1))
      else h(left, left)
  }

  lemma {:induction false} WidthAbove(n: nat, height: nat)
    ensures Width((n + 1) / 2, height) == Width(n, height + 1)
  {
    if height > 0 {
      WidthAbove(n, height - 1);
    }
  }

  lemma {:induction false} NodeAbove<D>(h: (D, D) -> D, leaves: seq<D>, height: nat, pos: nat)
    requires leaves != [] && pos < Width(|Above(h, leaves)|, height)
    ensures pos < Width(|leaves|, height + 1)
    ensures Node(h, Above(h, leaves), height, pos) == Node(h, leaves, height + 1, pos)
    decreases height
  {
    WidthAbove(|leaves|, height);
    if height == 0 {
      assert Node(h, leaves, 1, pos) == Above(h, leaves)[pos];
    } else {
      hide Above, Padded;
      var up, below := Above(h, leaves), Width(|leaves|, height);
      WidthAbove(|leaves|, height - 1);
      assert below == Width(|up|, height - 1) && pos < (below + 1) / 2;
      hide Width;
      NodeAbove(h, leaves, height - 1, 2 * pos);
      if 2 * pos + 1 < below {
        NodeAbove(h, leaves, height - 1, 2 * pos + 1);
      }
    }
  }

  /** Climbing the levels computes the top node of that definition. */
  lemma {:induction false} RootIsTopNode<D>(h: (D, D) -> D, leaves: seq<D>, height: nat)
    requires leaves != [] && height == Height(|leaves|)
    ensures Width(|leaves|, height) == 1
    ensures Root(h, leaves) == Node(h, leaves, height, 0)
    decreases height
  {
    if |leaves| > 1 {
      var up, k := Above(h, leaves), height - 1;
      RootIsTopNode(h, up, k);
      WidthAbove(|leaves|, k);
      NodeAbove(h, leaves, k, 0);
      assert Root(h, leaves) == Root(h, up);
    }
  }

  /** Proof::create and compute_merkle together reach Bitcoin's root from every position. */
  lemma MerkleCompleteness<D>(h: (D, D) -> D, txids: seq<D>, pos: nat)
    requires pos < |txids|
    ensures Width(|txids|, Height(|txids|)) == 1
    ensures Fold(h, txids[pos], pos, Branch(h, txids, pos)) == Node(h, txids, Height(|txids|), 0)
  {
    CreatedProofFolds(h, txids, pos);
    RootIsTopNode(h, txids, Height(|txids|));
  }

  // ---------------------------------------------------------------- what the verifier accepts

  /** The position an index leads to among n leaves: where its bits name the repeated last node of an odd level, the
      original is meant, and bits above the root are ignored. */
  function Meant(n: nat, index: nat): (pos: nat)
    requires n > 0
    ensures pos < n
  {
    if n == 1 then 0 else
      var pos := 2 * Meant((n + 1) / 2, index / 2) + index % 2;
      if pos < n then pos else pos - 1
  }

  /** An index that is in range is meant literally. */
  lemma {:induction false} MeantInRange(n: nat, index: nat)
    requires index < n
    ensures Meant(n, index) == index
    decreases n
  {
    if n > 1 {
      MeantInRange((n + 1) / 2, index / 2);
    }
  }

  /** A proof of the tree's height is accepted for an index exactly when the leaf is the one meant, and the proof the
      one created for it. */
  lemma {:induction false} AcceptsFullProofsExactly<D(!new)>(h: (D, D) -> D, txids: seq<D>, leaf: D, index: nat,
                                                      proof: seq<D>)
    requires InjectivePair(h) && txids != [] && |proof| == Height(|txids|)
    ensures Fold(h, leaf, index, proof) == Root(h, txids)
            <==> leaf == txids[Meant(|txids|, index)] && proof == Branch(h, txids, Meant(|txids|, index))
    decreases |txids|
  {
    if |txids| > 1 {
      var up, piece, rest := Above(h, txids), proof[0], proof[1..];
      var parent := if index % 2 == 0 then h(leaf, piece) else h(piece, leaf);
      assert proof == [piece] + rest;
      FoldStep(h, leaf, index, piece, rest);
      AcceptsFullProofsExactly(h, up, parent, index / 2, rest);
      MeantStep(h, txids, leaf, piece, index);
      BranchStep(h, txids, Meant(|txids|, index), []);
      assert Branch(h, txids, Meant(|txids|, index))
          == [Padded(txids)[Sibling(Meant(|txids|, index))]] + Branch(h, up, Meant(|up|, index / 2));
    }
  }

  lemma MeantParent(n: nat, index: nat)
    requires n > 1
    ensures var (pos, up) := (Meant(n, index), Meant((n + 1) / 2, index / 2));
            pos / 2 == up && (if index % 2 == 1 && 2 * up + 1 < n then pos == 2 * up + 1 else pos == 2 * up)
  {}

  /** One level: the pair hashes to the meant parent exactly when leaf and piece are the meant node and its sibling. */
  lemma MeantStep<D(!new)>(h: (D, D) -> D, hashes: seq<D>, leaf: D, piece: D, index: nat)
    requires InjectivePair(h) && |hashes| > 1
    ensures var (pos, up) := (Meant(|hashes|, index), Above(h, hashes));
            && pos / 2 == Meant(|up|, index / 2) && Sibling(pos) < |Padded(hashes)|
            && ((if index % 2 == 0 then h(leaf, piece) else h(piece, leaf)) == up[pos / 2]
                <==> leaf == hashes[pos] && piece == Padded(hashes)[Sibling(pos)])
  {
    hide Meant, Above, Padded, Sibling, InjectivePair;
    var pos, up := Meant(|hashes|, index), Above(h, hashes);
    MeantParent(|hashes|, index);
    ParentOf(h, hashes, pos);
    var sibling := Padded(hashes)[Sibling(pos)];
    if index % 2 == 0 {
      InjectiveAt(h, leaf, piece, hashes[pos], sibling);
    } else if pos % 2 == 1 {
      InjectiveAt(h, piece, leaf, sibling, hashes[pos]);
    } else {
      LastIsRepeated(hashes, pos);
      InjectiveAt(h, piece, leaf, hashes[pos], sibling);
    }
  }

  lemma InjectiveAt<D(!new)>(h: (D, D) -> D, a: D, b: D, c: D, d: D)
    requires InjectivePair(h)
    ensures h(a, b) == h(c, d) <==> a == c && b == d
  {}

  lemma LastIsRepeated<D>(hashes: seq<D>, pos: nat)
    requires pos % 2 == 0 && pos + 1 == |hashes|
    ensures Sibling(pos) < |Padded(hashes)| && Padded(hashes)[Sibling(pos)] == hashes[pos]
  {}

  /** The level some steps above. */
  function Climbed<D>(h: (D, D) -> D, hashes: seq<D>, levels: nat): (r: seq<D>)
    requires hashes != []
    ensures r != []
    decreases levels
  {
    if levels == 0 then hashes else Climbed(h, Above(h, hashes), levels - 1)
  }

  /** It has the same root. */
  lemma {:induction false} ClimbedRoot<D>(h: (D, D) -> D, leaves: seq<D>, levels: nat)
    requires leaves != [] && levels <= Height(|leaves|)
    ensures var r := Climbed(h, leaves, levels);
            Height(|r|) == Height(|leaves|) - levels && Root(h, r) == Root(h, leaves)
    decreases levels
  {
    hide Above, Padded;
    if levels > 0 {
      var up := Above(h, leaves);
      assert Climbed(h, leaves, levels) == Climbed(h, up, levels - 1);
      assert Height(|leaves|) == Height(|up|) + 1 && Root(h, leaves) == Root(h, up);
      ClimbedRoot(h, up, levels - 1);
    }
  }

  lemma {:induction false} ClimbedWidth<D>(h: (D, D) -> D, leaves: seq<D>, levels: nat)
    requires leaves != []
    ensures |Climbed(h, leaves, levels)| == Width(|leaves|, levels)
    decreases levels
  {
    hide Above;
    if levels > 0 {
      WidthAbove(|leaves|, levels - 1);
      assert Climbed(h, leaves, levels) == Climbed(h, Above(h, leaves), levels - 1);
      ClimbedWidth(h, Above(h, leaves), levels - 1);
    }
  }

  /** It consists of the nodes of that height. */
  lemma {:induction false} ClimbedNodes<D>(h: (D, D) -> D, leaves: seq<D>, levels: nat, pos: nat)
    requires leaves != [] && pos < Width(|leaves|, levels)
    ensures |Climbed(h, leaves, levels)| == Width(|leaves|, levels)
    ensures Climbed(h, leaves, levels)[pos] == Node(h, leaves, levels, pos)
    decreases levels
  {
    hide Width, Above;
    ClimbedWidth(h, leaves, levels);
    if levels > 0 {
      var up := Above(h, leaves);
      WidthAbove(|leaves|, levels - 1);
      ClimbedNodes(h, up, levels - 1, pos);
      NodeAbove(h, leaves, levels - 1, pos);
    }
  }

  function Shifted(index: nat, bits: nat): nat {
    if bits == 0 then index else Shifted(index / 2, bits - 1)
  }

  lemma {:induction false} FoldParts<D>(h: (D, D) -> D, leaf: D, index: nat, proof: seq<D>, k: nat)
    requires k <= |proof|
    ensures Fold(h, leaf, index, proof) == Fold(h, Fold(h, leaf, index, proof[..k]), Shifted(index, k), proof[k..])
    decreases k
  {
    if k == 0 {
      assert proof[..0] == [] && proof[0..] == proof;
    } else {
      var piece, rest := proof[0], proof[1..];
      assert proof == [piece] + rest && proof[..k] == [piece] + rest[..k - 1] && proof[k..] == rest[k - 1..];
      var parent := if index % 2 == 0 then h(leaf, piece) else h(piece, leaf);
      FoldStep(h, leaf, index, piece, rest);
      FoldStep(h, leaf, index, piece, rest[..k - 1]);
      FoldParts(h, parent, index / 2, rest, k - 1);
    }
  }

  /** A short proof names a node: the one meant on the level its length names, with that node's branch. A long proof
      folds up to a listed txid first, and goes on with that txid's branch. */
  ghost predicate Names<D>(h: (D, D) -> D, txids: seq<D>, leaf: D, index: nat, proof: seq<D>)
    requires txids != []
  {
    var height := Height(|txids|);
    if |proof| <= height then
      var level := Climbed(h, txids, height - |proof|);
      var pos := Meant(|level|, index);
      leaf == level[pos] && proof == Branch(h, level, pos)
    else
      var k := |proof| - height;
      var pos := Meant(|txids|, Shifted(index, k));
      Fold(h, leaf, index, proof[..k]) == txids[pos] && proof[k..] == Branch(h, txids, pos)
  }

  lemma AcceptsShortExactly<D(!new)>(h: (D, D) -> D, txids: seq<D>, leaf: D, index: nat, proof: seq<D>)
    requires InjectivePair(h) && txids != [] && |proof| <= Height(|txids|)
    ensures Fold(h, leaf, index, proof) == Root(h, txids) <==> Names(h, txids, leaf, index, proof)
  {
    hide Fold, Root, Branch, Climbed, Meant, InjectivePair, Shifted, Above, Padded;
    var levels := Height(|txids|) - |proof|;
    ClimbedRoot(h, txids, levels);
    hide Height;
    AcceptsFullProofsExactly(h, Climbed(h, txids, levels), leaf, index, proof);
  }

  lemma AcceptsLongExactly<D(!new)>(h: (D, D) -> D, txids: seq<D>, leaf: D, index: nat, proof: seq<D>)
    requires InjectivePair(h) && txids != [] && |proof| > Height(|txids|)
    ensures Fold(h, leaf, index, proof) == Root(h, txids) <==> Names(h, txids, leaf, index, proof)
  {
    hide Fold, Root, Branch, Climbed, Meant, Height, InjectivePair, Shifted, Above, Padded;
    var k := |proof| - Height(|txids|);
    FoldParts(h, leaf, index, proof, k);
    AcceptsFullProofsExactly(h, txids, Fold(h, leaf, index, proof[..k]), Shifted(index, k), proof[k..]);
  }

  /** What compute_merkle accepts, for proofs of any length and any index. */
  lemma AcceptsExactly<D(!new)>(h: (D, D) -> D, txids: seq<D>, leaf: D, index: nat, proof: seq<D>)
    requires InjectivePair(h) && txids != []
    ensures Fold(h, leaf, index, proof) == Root(h, txids) <==> Names(h, txids, leaf, index, proof)
  {
    hide Fold, Root, InjectivePair, Height, Names;
    if |proof| <= Height(|txids|) {
      AcceptsShortExactly(h, txids, leaf, index, proof);
    } else {
      AcceptsLongExactly(h, txids, leaf, index, proof);
    }
  }

  /** In particular, a proof of the tree's height for an index in range binds the listed txid and the created proof. */
  lemma MerkleBinding<D(!new)>(h: (D, D) -> D, txids: seq<D>, leaf: D, index: nat, proof: seq<D>)
    requires InjectivePair(h)
    requires index < |txids| && |proof| == Height(|txids|)
    ensures Fold(h, leaf, index, proof) == Root(h, txids)
            <==> leaf == txids[index] && proof == Branch(h, txids, index)
  {
    AcceptsFullProofsExactly(h, txids, leaf, index, proof);
    MeantInRange(|txids|, index);
  }
}
