/** Maximum bipartite matching between container elements (left) and matchers (right), and the
    verdicts that the unordered container matchers draw from it. */
module BipartiteMatching {

  /** Connectivity of elements x matchers: one row per element, one flag per matcher. */
  datatype MatchMatrix = MatchMatrix(rows: seq<seq<bool>>, rhsSize: nat) {
    ghost predicate Valid() {
      forall l :: 0 <= l < |rows| ==> |rows[l]| == rhsSize
    }

    function LhsSize(): nat { |rows| }

    function RhsSize(): nat { rhsSize }

    predicate HasEdge(l: nat, r: nat)
      requires Valid() && l < LhsSize() && r < RhsSize()
    {
      rows[l][r]
    }

    ghost predicate Edge(l: int, r: int)
      requires Valid()
    {
      0 <= l < LhsSize() && 0 <= r < RhsSize() && HasEdge(l, r)
    }
  }

  /** Marks a node that carries no flow. */
  const UNUSED := -1

  /** An (element, matcher) pair. */
  datatype Pair = Pair(left: nat, right: nat)

  /** Distinct lefts, distinct rights, every pair an edge. */
  ghost predicate IsMatching(g: MatchMatrix, pairs: seq<Pair>)
    requires g.Valid()
  {
    && (forall k :: 0 <= k < |pairs| ==> g.Edge(pairs[k].left, pairs[k].right))
    && (forall j, k :: 0 <= j < k < |pairs| ==> pairs[j].left != pairs[k].left && pairs[j].right != pairs[k].right)
  }

  ghost predicate IsMaximum(g: MatchMatrix, pairs: seq<Pair>)
    requires g.Valid()
  {
    IsMatching(g, pairs) && forall other: seq<Pair> :: IsMatching(g, other) ==> |other| <= |pairs|
  }

  // ---------- the flow: `left` and `right` as sequences ----------

  ghost predicate Shaped(g: MatchMatrix, left: seq<int>, right: seq<int>) {
    && g.Valid() && |left| == g.LhsSize() && |right| == g.RhsSize()
    && (forall l :: 0 <= l < |left| ==> UNUSED <= left[l] < g.RhsSize())
    && (forall r :: 0 <= r < |right| ==> UNUSED <= right[r] < g.LhsSize())
  }

  /** Entries of `left` and `right` are either UNUSED or mutually referent along an edge. */
  ghost predicate Consistent(g: MatchMatrix, left: seq<int>, right: seq<int>) {
    && Shaped(g, left, right)
    && (forall l :: 0 <= l < |left| && left[l] != UNUSED ==> right[left[l]] == l && g.Edge(l, left[l]))
    && (forall r :: 0 <= r < |right| && right[r] != UNUSED ==> left[right[r]] == r)
  }

  /** Consistent once the stale entry of `right` at index `stale` (if any) is cleared. */
  ghost predicate ConsistentBut(g: MatchMatrix, left: seq<int>, right: seq<int>, stale: int) {
    && Shaped(g, left, right)
    && UNUSED <= stale < |right|
    && Consistent(g, left, if stale == UNUSED then right else right[stale := UNUSED])
  }

  /** Every edge out of left node `l` leads into `d`. */
  ghost predicate NeighboursIn(g: MatchMatrix, l: int, d: set<int>)
    requires g.Valid()
  {
    forall r :: g.Edge(l, r) ==> r in d
  }

  /** `d` is a dead region: all of it is matched, and its partners' edges do not leave it. */
  ghost predicate Dead(g: MatchMatrix, right: seq<int>, d: set<int>)
    requires g.Valid()
  {
    forall r :: r in d ==> 0 <= r < |right| && 0 <= right[r] < g.LhsSize() && NeighboursIn(g, right[r], d)
  }

  ghost function Seen(seen: seq<bool>): set<int> {
    set r | 0 <= r < |seen| && seen[r]
  }

  ghost function Unseen(seen: seq<bool>): set<int> {
    set r | 0 <= r < |seen| && !seen[r]
  }

  /** What a failed search has marked: it grew from `before`, and every newly marked right node is
      matched to a left node all of whose edges lead to marked nodes. */
  ghost predicate Exhausted(g: MatchMatrix, right: seq<int>, before: set<int>, after: set<int>)
    requires g.Valid()
  {
    && before <= after
    && (forall r :: r in after && r !in before ==>
         0 <= r < |right| && 0 <= right[r] < g.LhsSize() && NeighboursIn(g, right[r], after))
  }

  /** What a successful search from `root` may have changed: `root` now carries flow along a right
      node that was neither marked before nor dead; left nodes keep their matched/unmatched status;
      marked and dead right nodes, and the left nodes at them, keep their partners; and the one
      entry of `right` that still names `root` from before is the only inconsistency. */
  ghost predicate Augmented(g: MatchMatrix, left0: seq<int>, right0: seq<int>, seen0: set<int>,
                            left: seq<int>, right: seq<int>, root: int, dead: set<int>) {
    && |left0| == |left| && |right0| == |right| && 0 <= root < |left|
    && ConsistentBut(g, left, right, left0[root])
    && left[root] != UNUSED && left[root] !in seen0
    && (forall l :: 0 <= l < |left| && l != root ==> (left[l] == UNUSED <==> left0[l] == UNUSED))
    && (forall l :: 0 <= l < |left| && l != root && left0[l] in seen0 ==> left[l] == left0[l])
    && (forall r :: 0 <= r < |right| && (r in seen0 || r in dead) ==> right[r] == right0[r])
  }

  lemma LinkConsistent(g: MatchMatrix, left0: seq<int>, right0: seq<int>, left1: seq<int>, right1: seq<int>,
      root: int, r: int)
    requires Consistent(g, left0, right0) && g.Edge(root, r) && right0[r] != UNUSED && right0[r] != root
    requires |left1| == |left0| && |right1| == |right0| && ConsistentBut(g, left1, right1, r)
    requires left1[root] == left0[root] != r
    ensures ConsistentBut(g, left1[root := r], right1[r := root], left0[root])
  {
    var stale := left0[root];
    var left2, right2 := left1[root := r], right1[r := root];
    var fixed1 := right1[r := UNUSED];
    var fixed2 := if stale == UNUSED then right2 else right2[stale := UNUSED];
    assert Consistent(g, left1, fixed1);
    forall l | 0 <= l < |left2| && left2[l] != UNUSED
      ensures fixed2[left2[l]] == l && g.Edge(l, left2[l])
    {
      if l != root {
        assert fixed1[left1[l]] == l;
      }
    }
    forall q | 0 <= q < |fixed2| && fixed2[q] != UNUSED
      ensures left2[fixed2[q]] == q
    {
      if q != r {
        assert left1[fixed1[q]] == q;
      }
    }
  }

  /** Linking `root` to `r`, freed by a successful search from its former partner, completes the path. */
  lemma LinkExtends(g: MatchMatrix, left0: seq<int>, right0: seq<int>, seen0: set<int>, seen1: set<int>,
                    left1: seq<int>, right1: seq<int>, root: int, r: int, dead: set<int>)
    requires Consistent(g, left0, right0) && g.Edge(root, r)
    requires r !in seen0 && r !in dead && seen0 + {r} <= seen1
    requires left0[root] == UNUSED || left0[root] in seen0
    requires right0[r] != UNUSED && Augmented(g, left0, right0, seen1, left1, right1, right0[r], dead)
    ensures Augmented(g, left0, right0, seen0, left1[root := r], right1[r := root], root, dead)
  {
    var mate := right0[r];
    assert left0[mate] == r && mate != root;
    assert left1[root] == left0[root];
    LinkConsistent(g, left0, right0, left1, right1, root, r);
    hide ConsistentBut;
  }

  lemma LinkToSink(g: MatchMatrix, left0: seq<int>, right0: seq<int>, seen0: set<int>, root: int, r: int,
      dead: set<int>)
    requires Consistent(g, left0, right0) && g.Edge(root, r) && r !in seen0 && r !in dead
    requires right0[r] == UNUSED
    requires left0[root] == UNUSED || left0[root] in seen0
    ensures Augmented(g, left0, right0, seen0, left0[root := r], right0[r := root], root, dead)
  {
    var stale := left0[root];
    var left2, right2 := left0[root := r], right0[r := root];
    var fixed2 := if stale == UNUSED then right2 else right2[stale := UNUSED];
    forall l | 0 <= l < |left2| && left2[l] != UNUSED
      ensures fixed2[left2[l]] == l && g.Edge(l, left2[l])
    {
      if l != root {
        assert right0[left0[l]] == l;
      }
    }
    forall q | 0 <= q < |fixed2| && fixed2[q] != UNUSED
      ensures left2[fixed2[q]] == q
    {
      if q != r {
        assert left0[right0[q]] == q;
      }
    }
  }

  lemma UnseenShrinks(before: seq<bool>, after: seq<bool>)
    requires |before| == |after| && Seen(before) <= Seen(after)
    ensures Unseen(after) <= Unseen(before)
  {
    forall r | r in Unseen(after)
      ensures r in Unseen(before)
    {
      assert r !in Seen(after);
    }
  }

  lemma FailedStep(g: MatchMatrix, right: seq<int>, seen0: seq<bool>, seen1: seq<bool>, seen2: seq<bool>,
      seen3: seq<bool>, r: int)
    requires g.Valid() && 0 <= r < |right| && 0 <= right[r] < g.LhsSize()
    requires Exhausted(g, right, Seen(seen0), Seen(seen1)) && Seen(seen2) == Seen(seen1) + {r}
    requires Exhausted(g, right, Seen(seen2), Seen(seen3)) && NeighboursIn(g, right[r], Seen(seen3))
    ensures Exhausted(g, right, Seen(seen0), Seen(seen3))
  {
  }

  class MaxBipartiteMatchState {
    const graph: MatchMatrix
    const left: array<int>
    const right: array<int>

    ghost predicate Distinct(seen: array<bool>) {
      left != right && seen.Length == graph.RhsSize()
    }

    constructor (g: MatchMatrix)
      requires g.Valid()
      ensures graph == g && fresh(left) && fresh(right) && left != right
      ensures Consistent(graph, left[..], right[..])
      ensures forall l :: 0 <= l < left.Length ==> left[l] == UNUSED
    {
      graph := g;
      left := new int[g.LhsSize()](_ => UNUSED);
      right := new int[g.RhsSize()](_ => UNUSED);
    }

    /** Depth-first search from `root` to the sink. `dead` is any dead region of the flow: a search
        that starts inside it fails, and a search that succeeds leaves it as it was. */
    method TryAugment(root: nat, seen: array<bool>, ghost dead: set<int>) returns (found: bool)
      requires Distinct(seen) && root < left.Length
      requires Consistent(graph, left[..], right[..]) && Dead(graph, right[..], dead)
      requires left[root] == UNUSED || left[root] in Seen(seen[..])
      modifies left, right, seen
      ensures Seen(old(seen[..])) <= Seen(seen[..])
      ensures found ==>
        Augmented(graph, old(left[..]), old(right[..]), Seen(old(seen[..])), left[..], right[..], root, dead)
      ensures NeighboursIn(graph, root, dead) ==> !found
      ensures !found ==> left[..] == old(left[..]) && right[..] == old(right[..])
      ensures !found ==> NeighboursIn(graph, root, Seen(seen[..]))
      ensures !found ==> Exhausted(graph, right[..], Seen(old(seen[..])), Seen(seen[..]))
      decreases Unseen(seen[..])
    {
      ghost var left0, right0, seen0 := left[..], right[..], seen[..];
      for r := 0 to graph.RhsSize()
        invariant left[..] == left0 && right[..] == right0
        invariant Seen(seen0) <= Seen(seen[..])
        invariant forall q :: 0 <= q < r && graph.Edge(root, q) ==> q in Seen(seen[..])
        invariant Exhausted(graph, right0, Seen(seen0), Seen(seen[..]))
      {
        if seen[r] { continue; }
        if !graph.HasEdge(root, r) { continue; }
        ghost var seen1 := seen[..];
        seen[r] := true;
        ghost var seen2 := seen[..];
        assert Seen(seen2) == Seen(seen1) + {r};
        UnseenShrinks(seen0, seen1);
        UnseenShrinks(seen1, seen2);
        assert r in Unseen(seen1) && r !in Unseen(seen2);
        var linked := right[r] == UNUSED;
        if linked {
          LinkToSink(graph, left0, right0, Seen(seen0), root, r, dead);
        } else {
          assert left0[right0[r]] == r;
          linked := TryAugment(right[r], seen, dead);
          if linked {
            assert r !in dead;
            LinkExtends(graph, left0, right0, Seen(seen0), Seen(seen2), left[..], right[..], root, r, dead);
          } else {
            FailedStep(graph, right0, seen0, seen1, seen2, seen[..], r);
          }
        }
        if linked {
          left[root] := r;
          right[r] := root;
          return true;
        }
      }
      return false;
    }

    /** One search per left node, in order, then the pairs read off `left`. */
    method Compute() returns (pairs: seq<Pair>)
      requires left != right && Consistent(graph, left[..], right[..])
      requires forall l :: 0 <= l < left.Length ==> left[l] == UNUSED
      modifies left, right
      ensures IsMaximum(graph, pairs)
    {
      ghost var dead: set<int> := {};
      for l := 0 to graph.LhsSize()
        invariant SearchedUpTo(graph, left[..], right[..], l, dead)
      {
        assert left[..][l] == UNUSED;
        var seen := new bool[graph.RhsSize()](_ => false);
        ghost var left0, right0 := left[..], right[..];
        assert Seen(seen[..]) == {};
        var found := TryAugment(l, seen, dead);
        if found {
          SearchSucceeded(graph, left0, right0, left[..], right[..], l, dead);
        } else {
          SearchFailed(graph, left0, right0, l, dead, Seen(seen[..]));
          dead := dead + Seen(seen[..]);
        }
      }
      CertificateMaximum(graph, left[..], right[..], dead);
      pairs := ReadPairs();
    }

    method ReadPairs() returns (pairs: seq<Pair>)
      requires forall l :: 0 <= l < left.Length ==> UNUSED <= left[l]
      ensures pairs == Pairs(left[..])
    {
      pairs := [];
      for l := 0 to left.Length
        invariant pairs == Pairs(left[..l])
      {
        assert left[..l + 1][..l] == left[..l];
        if left[l] == UNUSED { continue; }
        pairs := pairs + [Pair(l, left[l])];
      }
      assert left[..left.Length] == left[..];
    }
  }

  /** The lefts below `n` have been searched, and `dead` explains every one left unmatched. */
  ghost predicate SearchedUpTo(g: MatchMatrix, left: seq<int>, right: seq<int>, n: int, dead: set<int>) {
    && Consistent(g, left, right) && Dead(g, right, dead)
    && (forall k :: 0 <= n <= k < |left| ==> left[k] == UNUSED)
    && (forall k :: 0 <= k < n && k < |left| && left[k] == UNUSED ==> NeighboursIn(g, k, dead))
  }

  /** After a successful search from an unmatched root nothing is stale, dead regions stay dead,
      and lefts found unmatchable before stay unmatched. */
  lemma SearchSucceeded(g: MatchMatrix, left0: seq<int>, right0: seq<int>, left: seq<int>, right: seq<int>, root: nat,
      dead: set<int>)
    requires SearchedUpTo(g, left0, right0, root, dead) && root < |left0| && left0[root] == UNUSED
    requires Augmented(g, left0, right0, {}, left, right, root, dead)
    ensures SearchedUpTo(g, left, right, root + 1, dead)
  {
  }

  /** A failed search adds what it marked to the dead region. */
  lemma SearchFailed(g: MatchMatrix, left: seq<int>, right: seq<int>, root: nat, dead: set<int>, marked: set<int>)
    requires SearchedUpTo(g, left, right, root, dead) && root < |left|
    requires Exhausted(g, right, {}, marked) && NeighboursIn(g, root, marked)
    ensures SearchedUpTo(g, left, right, root + 1, dead + marked)
  {
  }

  /** The matching of a matrix, found with a fresh search state. */
  method FindMaxBipartiteMatching(g: MatchMatrix) returns (pairs: seq<Pair>)
    requires g.Valid()
    ensures IsMaximum(g, pairs)
  {
    var state := new MaxBipartiteMatchState(g);
    pairs := state.Compute();
  }

  // ---------- why one search per left node is enough ----------

  /** A dead region together with the live matched lefts covers every edge. */
  ghost predicate Certificate(g: MatchMatrix, left: seq<int>, right: seq<int>, dead: set<int>) {
    && Consistent(g, left, right)
    && Dead(g, right, dead)
    && (forall l :: 0 <= l < |left| && left[l] == UNUSED ==> NeighboursIn(g, l, dead))
  }

  ghost function LiveLefts(left: seq<int>, dead: set<int>): set<int> {
    set l | 0 <= l < |left| && left[l] != UNUSED && left[l] !in dead
  }

  /** An edge is covered by its right end if that is dead, otherwise by its left end. */
  lemma EdgeCovered(g: MatchMatrix, left: seq<int>, right: seq<int>, dead: set<int>, l: int, r: int)
    requires Certificate(g, left, right, dead) && g.Edge(l, r)
    ensures r in dead || l in LiveLefts(left, dead)
  {
    if left[l] in dead {
      assert right[left[l]] == l;
    }
  }

  /** Weak duality: no matching is larger than the cover. */
  lemma {:induction false} MatchingBounded(g: MatchMatrix, left: seq<int>, right: seq<int>, dead: set<int>,
      pairs: seq<Pair>,
                        d: set<int>, ls: set<int>)
    requires Certificate(g, left, right, dead) && IsMatching(g, pairs)
    requires d <= dead && ls <= LiveLefts(left, dead)
    requires forall k :: 0 <= k < |pairs| ==> (pairs[k].right in dead ==> pairs[k].right in d)
    requires forall k :: 0 <= k < |pairs| ==> (pairs[k].right !in dead ==> pairs[k].left in ls)
    ensures |pairs| <= |d| + |ls|
    decreases |pairs|
  {
    if pairs != [] {
      var p, rest := pairs[|pairs| - 1], pairs[..|pairs| - 1];
      EdgeCovered(g, left, right, dead, p.left, p.right);
      if p.right in dead {
        MatchingBounded(g, left, right, dead, rest, d - {p.right as int}, ls);
      } else {
        MatchingBounded(g, left, right, dead, rest, d, ls - {p.left as int});
      }
    }
  }

  /** The pairs of the flow, in the order of the left nodes. */
  function Pairs(left: seq<int>): (pairs: seq<Pair>)
    requires forall l :: 0 <= l < |left| ==> UNUSED <= left[l]
  {
    if left == [] then []
    else
      var l := |left| - 1;
      Pairs(left[..l]) + if left[l] == UNUSED then [] else [Pair(l, left[l])]
  }

  lemma {:induction false} PairsMember(left: seq<int>, p: Pair)
    requires forall l :: 0 <= l < |left| ==> UNUSED <= left[l]
    ensures p in Pairs(left) <==> p.left < |left| && left[p.left] == p.right
  {
    if left != [] {
      PairsMember(left[..|left| - 1], p);
    }
  }

  lemma {:induction false} PairsOrdered(left: seq<int>)
    requires forall l :: 0 <= l < |left| ==> UNUSED <= left[l]
    ensures forall j, k :: 0 <= j < k < |Pairs(left)| ==> Pairs(left)[j].left < Pairs(left)[k].left
  {
    if left != [] {
      var init := left[..|left| - 1];
      PairsOrdered(init);
      forall j | 0 <= j < |Pairs(init)|
        ensures Pairs(init)[j].left < |left| - 1
      {
        PairsMember(init, Pairs(init)[j]);
      }
    }
  }

  lemma {:induction false} FlowSize(left: seq<int>, d: set<int>)
    requires forall l :: 0 <= l < |left| ==> UNUSED <= left[l]
    requires forall r :: r in d ==> r in left && r != UNUSED
    requires forall j, k :: 0 <= j < k < |left| && left[j] != UNUSED ==> left[j] != left[k]
    ensures |Pairs(left)| == |d| + |LiveLefts(left, d)|
  {
    assert forall r :: r in d ==> r in left;
    if left == [] {
      assert d == {};
      assert LiveLefts(left, d) == {};
    } else {
      var last := |left| - 1;
      var init := left[..last];
      assert left == init + [left[last]];
      FlowSize(init, d - {left[last]});
      LiveLeftsInit(left, d);
    }
  }

  lemma LiveLeftsInit(left: seq<int>, d: set<int>)
    requires left != [] && forall j, k :: 0 <= j < k < |left| && left[j] != UNUSED ==> left[j] != left[k]
    ensures LiveLefts(left[..|left| - 1], d - {left[|left| - 1]}) == LiveLefts(left, d) - {|left| - 1}
  {
  }

  lemma FlowIsMatching(g: MatchMatrix, left: seq<int>, right: seq<int>)
    requires Consistent(g, left, right)
    ensures IsMatching(g, Pairs(left))
  {
    var pairs := Pairs(left);
    PairsOrdered(left);
    forall k | 0 <= k < |pairs|
      ensures g.Edge(pairs[k].left, pairs[k].right) && right[pairs[k].right] == pairs[k].left
    {
      PairsMember(left, pairs[k]);
    }
  }

  lemma FlowAtLeastCover(g: MatchMatrix, left: seq<int>, right: seq<int>, dead: set<int>)
    requires Certificate(g, left, right, dead)
    ensures |Pairs(left)| == |dead| + |LiveLefts(left, dead)|
  {
    forall r | r in dead
      ensures r in left
    {
      assert left[right[r]] == r;
    }
    FlowSize(left, dead);
  }

  /** A flow with a certificate is a maximum matching. */
  lemma CertificateMaximum(g: MatchMatrix, left: seq<int>, right: seq<int>, dead: set<int>)
    requires Certificate(g, left, right, dead)
    ensures IsMaximum(g, Pairs(left))
  {
    FlowIsMatching(g, left, right);
    FlowAtLeastCover(g, left, right, dead);
    forall other: seq<Pair> | IsMatching(g, other)
      ensures |other| <= |Pairs(left)|
    {
      forall k | 0 <= k < |other|
        ensures other[k].right in dead || other[k].left in LiveLefts(left, dead)
      {
        EdgeCovered(g, left, right, dead, other[k].left, other[k].right);
      }
      MatchingBounded(g, left, right, dead, other, dead, LiveLefts(left, dead));
    }
  }
}
