/** The k-way merge of dedup_merge.cpp: record buffers, tournament and merge loop. */
module Merge {
  import opened Gf2
  import opened Bytes
  import opened TraceTypes
  import opened LoserTree

  // ---------- comparing stream heads ----------

  /** A 32-bit pattern read as a signed integer. */
  function Signed(x: u32): int {
    if x < 0x8000_0000 then x else x - TWO_32
  }

  /** A zero size marks an exhausted stream. */
  function BlockCompare(b1: Block, b2: Block): int {
    if b1.size == 0 || b2.size == 0 then Signed((b2.size - b1.size) % TWO_32)
    else Memcmp(b1.cksum, b2.cksum)
  }

  const INFINITY: nat := Pow2(8 * CKSUM_LEN)

  /** The position of a head in the merge order: its checksum's number, or beyond all of them. */
  function Rank(b: Block): nat {
    if b.size == 0 then INFINITY else Key(b.cksum)
  }

  predicate Comparable(b: Block) {
    b.size < 0x8000_0000
  }

  lemma CompareByRank(b1: Block, b2: Block)
    requires Comparable(b1) && Comparable(b2)
    ensures BlockCompare(b1, b2) < 0 <==> Rank(b1) < Rank(b2)
    ensures BlockCompare(b1, b2) == 0 <==> Rank(b1) == Rank(b2)
  {
    hide Memcmp, Value, Pow2;
    MemcmpOrdersByValue(b1.cksum, b2.cksum);
    ChecksumOrder(b1.cksum, b2.cksum);
    ChecksumOrder(b2.cksum, b1.cksum);
  }

  /** Two heads compare equal when both are end markers or both are blocks of the same checksum. */
  lemma CompareEqual(b1: Block, b2: Block)
    requires Comparable(b1) && Comparable(b2)
    ensures BlockCompare(b1, b2) == 0 <==>
            if b1.size == 0 || b2.size == 0 then b1.size == b2.size else b1.cksum == b2.cksum
  {
    MemcmpOrdersByValue(b1.cksum, b2.cksum);
  }

  /** The size limit is needed: only below 2^31 does a block compare correctly with the end marker. */
  lemma CompareNeedsSmallSizes(b: Block, end: Block)
    requires b.size > 0 && end.size == 0
    ensures BlockCompare(b, end) < 0 < BlockCompare(end, b) <==> Comparable(b)
  {
  }

  class Tournament {
    const n: nat
    const tree: array<nat>
    const bls: array<Block>
    ghost var w: seq<nat>

    ghost function Ranks(): (r: seq<nat>)
      reads bls
      ensures |r| == bls.Length && forall i :: 0 <= i < |r| ==> r[i] == Rank(bls[i])
    {
      seq(bls.Length, i requires 0 <= i < bls.Length reads bls => Rank(bls[i]))
    }

    ghost predicate HeadsComparable()
      reads bls
    {
      forall i :: 0 <= i < bls.Length ==> Comparable(bls[i])
    }

    ghost predicate Shape()
      reads `w
    {
      n > 0 && tree.Length == n && bls.Length == n && |w| == 2 * n && Leaves(w, n)
    }

    ghost predicate Valid()
      reads `w, tree, bls
    {
      Shape() && HeadsComparable() && IsLoserTree(tree[..], w, Ranks())
    }

    constructor (n: nat, head: Block)
      requires n > 0
      ensures this.n == n && Shape() && fresh(tree) && fresh(bls)
      ensures forall i :: 0 <= i < n ==> bls[i] == head
    {
      this.n := n;
      tree := new nat[n](_ => 0);
      bls := new Block[n](_ => head);
      w := seq(2 * n, i => if i >= n then i - n else 0);
    }

    /** The winner at a node: the stream of a leaf, or the result of playing an internal node. */
    method PlayChild(node: nat) returns (winner: nat)
      requires Shape() && HeadsComparable() && 1 <= node < 2 * n
      modifies `w, tree
      ensures Shape() && winner == w[node] < n
      ensures SameOutside(old(w), w, node) && SameOutside(old(tree[..]), tree[..], node)
      ensures Played(tree[..], w, Ranks(), node)
      decreases 2 * n - node, 1
    {
      hide Match, Played;
      if node >= n {
        winner := node - n;
        LeafIsPlayed(tree[..], w, Ranks(), node);
      } else {
        winner := PlayBelow(node);
      }
    }

    /** Plays all matches at node root and below, and returns the winner. */
    method PlayBelow(root: nat) returns (winner: nat)
      requires Shape() && HeadsComparable() && 1 <= root < n
      modifies `w, tree
      ensures Shape() && winner == w[root] < n
      ensures SameOutside(old(w), w, root) && SameOutside(old(tree[..]), tree[..], root)
      ensures Played(tree[..], w, Ranks(), root)
      decreases 2 * n - root, 0
    {
      hide Played, SameOutside, Anc, Rank, BlockCompare;
      var left := PlayChild(2 * root);
      SameOutsideWider(old(w), w, root, 2 * root);
      SameOutsideWider(old(tree[..]), tree[..], root, 2 * root);
      ghost var t0, w0 := tree[..], w;
      var right := PlayChild(2 * root + 1);
      ghost var t1, w1 := tree[..], w;
      SameOutsideWider(w0, w1, root, 2 * root + 1);
      SameOutsideWider(t0, t1, root, 2 * root + 1);
      SameOutsideTrans(old(w), w0, w1, root);
      SameOutsideTrans(old(tree[..]), t0, t1, root);
      PlayedElsewhere(t0, w0, t1, w1, Ranks(), root);
      LeftWinnerKept(w0, w1, root);
      CompareByRank(bls[left], bls[right]);
      if BlockCompare(bls[left], bls[right]) > 0 {
        tree[root] := left;
        winner := right;
      } else {
        tree[root] := right;
        winner := left;
      }
      w := w[root := winner];
      assert tree[..] == t1[root := tree[root]];
      SameOutsideUpdate(w1, root, winner);
      SameOutsideUpdate(t1, root, tree[root]);
      SameOutsideTrans(old(w), w1, w, root);
      SameOutsideTrans(old(tree[..]), t1, tree[..], root);
      PlayedRoot(t1, w1, tree[..], w, Ranks(), root);
    }

    /** Sets up the tree; a single stream needs no match. */
    method InitTree() returns (winner: nat)
      requires Shape() && HeadsComparable()
      modifies `w, tree
      ensures Valid() && winner == tree[0]
    {
      if n == 1 {
        tree[0] := 0;
      } else {
        var first := PlayBelow(1);
        tree[0] := first;
        forall k | 1 <= k < n
          ensures Match(tree[..], w, Ranks(), k)
        {
          RootIsAncestor(k);
        }
      }
      winner := tree[0];
    }

    /** Replays the matches on the way up from the leaf of newItem, the winner whose head was replaced. */
    method AdjustTree(newItem: nat, ghost r0: seq<nat>)
      requires Shape() && HeadsComparable() && IsLoserTree(tree[..], w, r0)
      requires newItem == tree[0] < n
      requires forall i :: 0 <= i < n && i != newItem ==> r0[i] == Ranks()[i]
      modifies `w, tree
      ensures Valid()
    {
      hide IsLoserTree, Match, Rank, BlockCompare, Anc;
      ghost var t0, w0, ranks := tree[..], w, Ranks();
      ghost var leaf := n + newItem;
      var parent := (newItem + n) / 2;
      var small: nat := newItem;
      ghost var c: nat := leaf;
      ClimbStarts(t0, w0, r0, ranks);
      while parent > 0
        invariant Shape() && HeadsComparable() && Ranks() == ranks
        invariant parent == c / 2 && Climbing(tree[..], w, t0, w0, ranks, leaf, c)
        invariant small == w[c] < n
        decreases parent
      {
        ParentHoldsSibling(t0, w0, r0, c);
        ghost var t: seq<nat> := tree[..];
        var loser: nat := tree[parent];
        CompareByRank(bls[small], bls[loser]);
        if BlockCompare(bls[small], bls[loser]) >= 0 {
          tree[parent] := small;
          small := loser;
        }
        ClimbStep(t, w, t0, w0, r0, ranks, c, tree[parent], small);
        assert tree[..] == t[parent := tree[parent]];
        w := w[parent := small];
        c := parent;
        parent := parent / 2;
      }
      ClimbEnds(tree[..], w, t0, w0, ranks, leaf);
      ghost var t: seq<nat> := tree[..];
      tree[0] := small;
      assert tree[..] == t[0 := small];
    }
  }
}
