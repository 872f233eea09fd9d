/** The tournament of dedup_merge.cpp: internal nodes 1..n-1 hold losers, leaf n+i stands for stream i. */
module LoserTree {

  /** Node a is k or one of its ancestors. */
  predicate Anc(a: nat, k: nat)
    decreases k
  {
    a == k || (a < k && Anc(a, k / 2))
  }

  lemma {:induction false} AncTransitive(a: nat, b: nat, c: nat)
    requires Anc(a, b) && Anc(b, c)
    ensures Anc(a, c)
    decreases c
  {
    if b != c {
      AncTransitive(a, b, c / 2);
      AncLe(b, c / 2);
      AncLe(a, b);
    }
  }

  lemma {:induction false} AncLe(a: nat, k: nat)
    requires Anc(a, k)
    ensures a <= k
  {
  }

  lemma {:induction false} RootIsAncestor(k: nat)
    requires k > 0
    ensures Anc(1, k)
  {
    if k > 1 {
      RootIsAncestor(k / 2);
    }
  }

  /** Below an internal node lie the node itself and its two disjoint subtrees. */
  lemma {:induction false} AncSplits(a: nat, k: nat)
    requires a > 0
    ensures Anc(a, k) <==> a == k || Anc(2 * a, k) || Anc(2 * a + 1, k)
    ensures !(Anc(2 * a, k) && Anc(2 * a + 1, k))
    ensures Anc(2 * a, k) || Anc(2 * a + 1, k) ==> a != k
    decreases k
  {
    if k > a {
      AncSplits(a, k / 2);
    }
  }

  // ---------- the invariant ----------

  /** At internal node k, w[k] won the match between the winners of the children and tree[k] lost it. */
  ghost predicate Match(tree: seq<nat>, w: seq<nat>, ranks: seq<nat>, k: nat)
    requires |w| == 2 * |tree| && |ranks| == |tree| && 1 <= k < |tree|
  {
    && w[k] < |tree| && tree[k] < |tree|
    && ((w[k] == w[2 * k] && tree[k] == w[2 * k + 1]) || (w[k] == w[2 * k + 1] && tree[k] == w[2 * k]))
    && ranks[w[k]] <= ranks[tree[k]]
  }

  ghost predicate Leaves(w: seq<nat>, n: nat)
    requires |w| == 2 * n
  {
    forall i :: n <= i < 2 * n ==> w[i] == i - n
  }

  /** Every internal node holds the loser of its match, and node 0 the overall winner. */
  ghost predicate IsLoserTree(tree: seq<nat>, w: seq<nat>, ranks: seq<nat>) {
    && |tree| > 0 && |w| == 2 * |tree| && |ranks| == |tree|
    && Leaves(w, |tree|)
    && (forall k :: 1 <= k < |tree| ==> Match(tree, w, ranks, k))
    && tree[0] == w[1]
  }

  // ---------- consequences ----------

  /** The winner of a subtree is the stream of one of its leaves. */
  lemma {:induction false} WinnerBelow(tree: seq<nat>, w: seq<nat>, ranks: seq<nat>, k: nat)
    requires IsLoserTree(tree, w, ranks) && 1 <= k < 2 * |tree|
    ensures w[k] < |tree| && Anc(k, |tree| + w[k])
    decreases 2 * |tree| - k
  {
    if k < |tree| {
      WinnerBelow(tree, w, ranks, 2 * k);
      WinnerBelow(tree, w, ranks, 2 * k + 1);
      assert Match(tree, w, ranks, k);
      AncSplits(k, |tree| + w[k]);
    }
  }

  /** The winner of the tree has the least rank of all. */
  lemma {:induction false} WinnerBeats(tree: seq<nat>, w: seq<nat>, ranks: seq<nat>, k: nat)
    requires IsLoserTree(tree, w, ranks) && 1 <= k < 2 * |tree|
    ensures w[1] < |tree| && w[k] < |tree| && ranks[w[1]] <= ranks[w[k]]
  {
    WinnerBelow(tree, w, ranks, 1);
    WinnerBelow(tree, w, ranks, k);
    if k > 1 {
      WinnerBeats(tree, w, ranks, k / 2);
      assert Match(tree, w, ranks, k / 2);
      assert k == 2 * (k / 2) || k == 2 * (k / 2) + 1;
    }
  }

  lemma WinnerIsMinimum(tree: seq<nat>, w: seq<nat>, ranks: seq<nat>)
    requires IsLoserTree(tree, w, ranks)
    ensures tree[0] < |tree| && forall i :: 0 <= i < |tree| ==> ranks[tree[0]] <= ranks[i]
  {
    WinnerBeats(tree, w, ranks, 1);
    forall i | 0 <= i < |tree|
      ensures ranks[tree[0]] <= ranks[i]
    {
      WinnerBeats(tree, w, ranks, |tree| + i);
    }
  }

  /** The losers from node k on, with the winners of the nodes k..2k-1, are the winners of all leaves. */
  lemma {:induction false} LosersAndWinners(tree: seq<nat>, w: seq<nat>, ranks: seq<nat>, k: nat)
    requires IsLoserTree(tree, w, ranks) && 1 <= k <= |tree|
    ensures multiset(tree[k..]) + multiset(w[k..2 * k]) == multiset(w[|tree|..])
    decreases |tree| - k
  {
    if k == |tree| {
      assert tree[k..] == [] && w[k..2 * k] == w[|tree|..];
    } else {
      LosersAndWinners(tree, w, ranks, k + 1);
      assert Match(tree, w, ranks, k);
      OneMatchMore(tree, w, k);
    }
  }

  lemma OneMatchMore(tree: seq<nat>, w: seq<nat>, k: nat)
    requires 1 <= k < |tree| && |w| == 2 * |tree|
    requires multiset{tree[k], w[k]} == multiset{w[2 * k], w[2 * k + 1]}
    ensures multiset(tree[k..]) + multiset(w[k..2 * k]) ==
            multiset(tree[k + 1..]) + multiset(w[k + 1..2 * (k + 1)])
  {
    var losers, winners := tree[k + 1..], w[k + 1..2 * k];
    assert tree[k..] == [tree[k]] + losers;
    assert w[k..2 * k] == [w[k]] + winners;
    assert w[k + 1..2 * k + 2] == winners + [w[2 * k], w[2 * k + 1]];
  }

  /** Each stream occurs exactly once in the tree. */
  lemma TreeIsPermutation(tree: seq<nat>, w: seq<nat>, ranks: seq<nat>)
    requires IsLoserTree(tree, w, ranks)
    ensures multiset(tree) == multiset(seq(|tree|, i => i))
  {
    LosersAndWinners(tree, w, ranks, 1);
    assert tree == [tree[0]] + tree[1..];
    assert w[1..2] == [tree[0]];
    assert w[|tree|..] == seq(|tree|, i => i);
  }

  /** All nodes between the winner's leaf and the root were won by it. */
  lemma {:induction false} WinnersPath(tree: seq<nat>, w: seq<nat>, ranks: seq<nat>, k: nat)
    requires IsLoserTree(tree, w, ranks) && 1 <= k < 2 * |tree|
    requires Anc(k, |tree| + tree[0])
    ensures w[k] == tree[0]
    decreases k
  {
    if k > 1 {
      var p := k / 2;
      var s := if k == 2 * p then k + 1 else k - 1;
      RootIsAncestor(k);
      assert Anc(p, k) by { assert Anc(p, k / 2); }
      AncTransitive(p, k, |tree| + tree[0]);
      WinnersPath(tree, w, ranks, p);
      assert Match(tree, w, ranks, p);
      AncSplits(p, |tree| + tree[0]);
      WinnerBelow(tree, w, ranks, s);
    }
  }

  // ---------- playing the matches ----------

  predicate Sized(tree: seq<nat>, w: seq<nat>, ranks: seq<nat>) {
    |w| == 2 * |tree| && |ranks| == |tree|
  }

  /** All matches at and below node root are decided. */
  ghost predicate Played(tree: seq<nat>, w: seq<nat>, ranks: seq<nat>, root: nat)
    requires Sized(tree, w, ranks) && root > 0
  {
    forall k :: 1 <= k < |tree| && Anc(root, k) ==> Match(tree, w, ranks, k)
  }

  /** a and b differ at most at node root and below. */
  predicate SameOutside(a: seq<nat>, b: seq<nat>, root: nat) {
    |a| == |b| && forall k :: 0 <= k < |a| && !Anc(root, k) ==> a[k] == b[k]
  }

  lemma LeafIsPlayed(tree: seq<nat>, w: seq<nat>, ranks: seq<nat>, root: nat)
    requires Sized(tree, w, ranks) && 0 < |tree| <= root
    ensures Played(tree, w, ranks, root)
  {
    forall k | 1 <= k < |tree|
      ensures !Anc(root, k)
    {
      if Anc(root, k) {
        AncLe(root, k);
      }
    }
  }

  lemma SameOutsideWider(a: seq<nat>, b: seq<nat>, root: nat, child: nat)
    requires root > 0 && child / 2 == root && SameOutside(a, b, child)
    ensures SameOutside(a, b, root)
  {
    forall k | 0 <= k < |a| && !Anc(root, k)
      ensures a[k] == b[k]
    {
      AncSplits(root, k);
      assert child == 2 * root || child == 2 * root + 1;
    }
  }

  /** Playing the right subtree leaves the matches of the left one alone. */
  lemma PlayedElsewhere(t0: seq<nat>, w0: seq<nat>, t1: seq<nat>, w1: seq<nat>, ranks: seq<nat>, root: nat)
    requires Sized(t0, w0, ranks) && Sized(t1, w1, ranks) && root > 0
    requires Played(t0, w0, ranks, 2 * root)
    requires SameOutside(t0, t1, 2 * root + 1) && SameOutside(w0, w1, 2 * root + 1)
    ensures Played(t1, w1, ranks, 2 * root)
  {
    forall k | 1 <= k < |t1| && Anc(2 * root, k)
      ensures Match(t1, w1, ranks, k)
    {
      AncSplits(root, k);
      AncSplits(root, 2 * k);
      AncSplits(root, 2 * k + 1);
      AncSplits(2 * root, 2 * k);
      assert Anc(2 * root, 2 * k) && Anc(2 * root, 2 * k + 1) by {
        assert (2 * k) / 2 == k && (2 * k + 1) / 2 == k;
        AncLe(2 * root, k);
      }
      assert Match(t0, w0, ranks, k);
    }
  }

  /** Deciding the match at root once both subtrees are played. */
  lemma PlayedRoot(t0: seq<nat>, w0: seq<nat>, t1: seq<nat>, w1: seq<nat>, ranks: seq<nat>, root: nat)
    requires Sized(t0, w0, ranks) && Sized(t1, w1, ranks) && 1 <= root < |t0|
    requires Played(t0, w0, ranks, 2 * root) && Played(t0, w0, ranks, 2 * root + 1)
    requires t1 == t0[root := t1[root]] && w1 == w0[root := w1[root]]
    requires Match(t1, w1, ranks, root)
    ensures Played(t1, w1, ranks, root)
  {
    forall k | 1 <= k < |t1| && Anc(root, k)
      ensures Match(t1, w1, ranks, k)
    {
      AncSplits(root, k);
      if k != root {
        AncLe(root, k);
        assert Match(t0, w0, ranks, k);
      }
    }
  }

  lemma SameOutsideTrans(a: seq<nat>, b: seq<nat>, c: seq<nat>, root: nat)
    requires SameOutside(a, b, root) && SameOutside(b, c, root)
    ensures SameOutside(a, c, root)
  {
  }

  lemma SameOutsideUpdate(a: seq<nat>, root: nat, x: nat)
    requires root < |a|
    ensures SameOutside(a, a[root := x], root)
  {
  }

  /** The winner of the left subtree survives the playing of the right one. */
  lemma LeftWinnerKept(w0: seq<nat>, w1: seq<nat>, root: nat)
    requires root > 0 && 2 * root < |w0| && SameOutside(w0, w1, 2 * root + 1)
    ensures w1[2 * root] == w0[2 * root]
  {
    AncSplits(root, 2 * root);
    assert Anc(2 * root, 2 * root);
  }

  // ---------- replaying the path of a changed leaf ----------

  /**
   * The path from leaf up to node c has been replayed for the new ranks; above c and off the path
   * everything is as in the tree t0 with winners w0.
   */
  ghost predicate Climbing(t: seq<nat>, w: seq<nat>, t0: seq<nat>, w0: seq<nat>, ranks: seq<nat>, leaf: nat, c: nat)
  {
    && Sized(t, w, ranks) && |t0| == |t| && |w0| == |w|
    && 1 <= c <= leaf < 2 * |t| && Anc(c, leaf) && w[c] < |t|
    && (forall k :: 1 <= k < |t| && (!Anc(k, leaf) || c <= k) ==> Match(t, w, ranks, k))
    && (forall k :: 1 <= k < 2 * |t| && (!Anc(k, leaf) || k < c) ==> w[k] == w0[k])
    && (forall k :: 1 <= k < |t| && (!Anc(k, leaf) || k < c) ==> t[k] == t0[k])
  }

  /** A match off the winner's path does not involve the winner. */
  lemma OffPath(tree: seq<nat>, w: seq<nat>, r0: seq<nat>, r1: seq<nat>, k: nat)
    requires IsLoserTree(tree, w, r0) && |r1| == |tree| && 1 <= k < |tree|
    requires forall i :: 0 <= i < |tree| && i != tree[0] ==> r1[i] == r0[i]
    requires !Anc(k, |tree| + tree[0])
    ensures Match(tree, w, r1, k)
  {
    assert Match(tree, w, r0, k);
    WinnerBelow(tree, w, r0, k);
    WinnerBelow(tree, w, r0, 2 * k);
    WinnerBelow(tree, w, r0, 2 * k + 1);
    AncSplits(k, |tree| + tree[k]);
  }

  lemma ClimbStarts(tree: seq<nat>, w: seq<nat>, r0: seq<nat>, r1: seq<nat>)
    requires IsLoserTree(tree, w, r0) && |r1| == |tree|
    requires forall i :: 0 <= i < |tree| && i != tree[0] ==> r1[i] == r0[i]
    ensures tree[0] < |tree|
    ensures Climbing(tree, w, tree, w, r1, |tree| + tree[0], |tree| + tree[0])
  {
    WinnerBelow(tree, w, r0, 1);
    forall k | 1 <= k < |tree| && (!Anc(k, |tree| + tree[0]) || |tree| + tree[0] <= k)
      ensures Match(tree, w, r1, k)
    {
      OffPath(tree, w, r0, r1, k);
    }
  }

  /** The loser stored at the parent of a path node is the winner of the node's sibling. */
  lemma ParentHoldsSibling(t0: seq<nat>, w0: seq<nat>, r0: seq<nat>, c: nat)
    requires IsLoserTree(t0, w0, r0) && 1 < c < 2 * |t0| && Anc(c, |t0| + t0[0])
    ensures var p, s := c / 2, if c % 2 == 0 then c + 1 else c - 1;
            Anc(p, |t0| + t0[0]) && t0[p] == w0[s] < |t0| && !Anc(s, |t0| + t0[0])
  {
    var leaf, p := |t0| + t0[0], c / 2;
    var s := if c % 2 == 0 then c + 1 else c - 1;
    assert Anc(p, c) by { assert Anc(p, c / 2); }
    AncTransitive(p, c, leaf);
    WinnersPath(t0, w0, r0, c);
    WinnersPath(t0, w0, r0, p);
    assert Match(t0, w0, r0, p);
    AncSplits(p, leaf);
    WinnerBelow(t0, w0, r0, s);
  }

  /** One comparison with the loser at the parent: the better of the two climbs on. */
  lemma ClimbStep(t: seq<nat>, w: seq<nat>, t0: seq<nat>, w0: seq<nat>, r0: seq<nat>, ranks: seq<nat>, c: nat,
                  loser: nat, winner: nat)
    requires IsLoserTree(t0, w0, r0) && c > 1
    requires Climbing(t, w, t0, w0, ranks, |t0| + t0[0], c)
    requires var p := c / 2; t[p] < |t| && multiset{loser, winner} == multiset{w[c], t[p]}
    requires loser < |t| && winner < |t| && ranks[winner] <= ranks[loser]
    ensures var p := c / 2; Climbing(t[p := loser], w[p := winner], t0, w0, ranks, |t0| + t0[0], p)
  {
    hide Match, IsLoserTree, Anc;
    var p, leaf := c / 2, |t0| + t0[0];
    var s := if c % 2 == 0 then c + 1 else c - 1;
    ParentHoldsSibling(t0, w0, r0, c);
    assert t[p] == t0[p] && w[s] == w0[s];
    var t', w' := t[p := loser], w[p := winner];
    AncLe(c, leaf);
    MatchAtParent(t', w', ranks, c, w[c], t[p]);
    forall k | 1 <= k < |t| && (!Anc(k, leaf) || p <= k)
      ensures Match(t', w', ranks, k)
    {
      if k != p {
        OnPathBetween(k, c, leaf);
        NotChildOf(k, p, leaf);
        MatchFrame(t, w, t', w', ranks, k);
      }
    }
  }

  lemma MatchAtParent(t: seq<nat>, w: seq<nat>, ranks: seq<nat>, c: nat, a: nat, b: nat)
    requires Sized(t, w, ranks) && 1 < c < 2 * |t|
    requires var p := c / 2; multiset{t[p], w[p]} == multiset{a, b}
    requires a < |t| && b < |t|
    requires ranks[if w[c / 2] < |t| then w[c / 2] else 0] <= ranks[if t[c / 2] < |t| then t[c / 2] else 0]
    requires w[c] == a && w[if c % 2 == 0 then c + 1 else c - 1] == b
    ensures Match(t, w, ranks, c / 2)
  {
    var p := c / 2;
    assert t[p] in multiset{a, b} && w[p] in multiset{a, b};
    if a != b {
      assert multiset{a, b}[a] == 1;
    }
  }

  lemma ParentIsAncestor(k: nat)
    requires k > 1
    ensures Anc(k / 2, k)
  {
    assert Anc(k / 2, k / 2);
  }

  lemma MatchFrame(t: seq<nat>, w: seq<nat>, t': seq<nat>, w': seq<nat>, ranks: seq<nat>, k: nat)
    requires Sized(t, w, ranks) && Sized(t', w', ranks) && 1 <= k < |t|
    requires Match(t, w, ranks, k)
    requires t'[k] == t[k] && w'[k] == w[k] && w'[2 * k] == w[2 * k] && w'[2 * k + 1] == w[2 * k + 1]
    ensures Match(t', w', ranks, k)
  {
  }

  /** A node that is off the path, or below p, is not the parent of the path node p. */
  lemma NotChildOf(k: nat, p: nat, leaf: nat)
    requires Anc(p, leaf) && 1 <= k && k != p && (!Anc(k, leaf) || p <= k)
    ensures 2 * k != p && 2 * k + 1 != p
  {
    if p > 1 {
      ParentIsAncestor(p);
      AncTransitive(p / 2, p, leaf);
    }
  }

  /** When the root is reached the tree is a loser tree for the new ranks. */
  lemma ClimbEnds(t: seq<nat>, w: seq<nat>, t0: seq<nat>, w0: seq<nat>, ranks: seq<nat>, leaf: nat)
    requires Climbing(t, w, t0, w0, ranks, leaf, 1) && Leaves(w, |t|)
    ensures IsLoserTree(t[0 := w[1]], w, ranks)
  {
    var t' := t[0 := w[1]];
    forall k | 1 <= k < |t|
      ensures Match(t', w, ranks, k)
    {
      assert Match(t, w, ranks, k);
    }
  }

  /** No path node lies strictly between c and its parent. */
  lemma {:induction false} OnPathBetween(k: nat, c: nat, leaf: nat)
    requires Anc(c, leaf) && c > 0 && k > 0
    ensures Anc(k, leaf) && k < c ==> Anc(k, c / 2) && k <= c / 2
    decreases leaf
  {
    if c < leaf {
      AncLe(c, leaf / 2);
      OnPathBetween(k, c, leaf / 2);
    } else if Anc(k, leaf) && k < c {
      AncLe(k, leaf / 2);
    }
  }
}
