/** The verdicts of the unordered container matchers, decided from a maximum matching. */
module UnorderedMatch {
  import opened BipartiteMatching

  datatype Require = Superset | Subset | ExactMatch {
    predicate EveryMatcher() { this != Subset }

    predicate EveryElement() { this != Superset }
  }

  /** `f` gives every matcher an element of its own. */
  ghost predicate MatcherInjection(g: MatchMatrix, f: seq<nat>)
    requires g.Valid()
  {
    && |f| == g.RhsSize()
    && (forall r :: 0 <= r < |f| ==> g.Edge(f[r], r))
    && (forall j, k :: 0 <= j < k < |f| ==> f[j] != f[k])
  }

  /** `f` gives every element a matcher of its own. */
  ghost predicate ElementInjection(g: MatchMatrix, f: seq<nat>)
    requires g.Valid()
  {
    && |f| == g.LhsSize()
    && (forall l :: 0 <= l < |f| ==> g.Edge(l, f[l]))
    && (forall j, k :: 0 <= j < k < |f| ==> f[j] != f[k])
  }

  /** What each kind of unordered matcher asks for. */
  ghost predicate Acceptable(g: MatchMatrix, flags: Require)
    requires g.Valid()
  {
    match flags
    case Superset => exists f :: MatcherInjection(g, f)
    case Subset => exists f :: ElementInjection(g, f)
    case ExactMatch => (exists f :: MatcherInjection(g, f)) && exists f :: ElementInjection(g, f)
  }

  // ---------- pigeonhole ----------

  ghost function Range(n: nat): (s: set<nat>)
    ensures |s| == n && forall i: nat :: i in s <==> i < n
  {
    if n == 0 then {} else Range(n - 1) + {n - 1}
  }

  ghost function Elements(xs: seq<nat>): set<nat> {
    set x | x in xs
  }

  lemma {:induction false} DistinctCount(xs: seq<nat>)
    requires forall j, k :: 0 <= j < k < |xs| ==> xs[j] != xs[k]
    ensures |Elements(xs)| == |xs|
  {
    if xs == [] {
      assert Elements(xs) == {};
    } else {
      var init, last := xs[..|xs| - 1], xs[|xs| - 1];
      DistinctCount(init);
      assert xs == init + [last];
      assert Elements(xs) == Elements(init) + {last};
    }
  }

  /** Distinct numbers below n: at most n of them, and if n of them then all of them. */
  lemma Pigeonhole(xs: seq<nat>, n: nat)
    requires forall j, k :: 0 <= j < k < |xs| ==> xs[j] != xs[k]
    requires forall k :: 0 <= k < |xs| ==> xs[k] < n
    ensures |xs| <= n
    ensures |xs| == n ==> forall i: nat :: i < n ==> i in xs
  {
    DistinctCount(xs);
    var s := Elements(xs);
    assert s * Range(n) == s;
    assert |Range(n) - s| == n - |xs|;
    if |xs| == n {
      assert Range(n) - s == {};
      forall i: nat | i < n
        ensures i in xs
      {
        assert i in Range(n) && i !in Range(n) - s;
        assert i in s;
      }
    }
  }

  // ---------- matchings that cover a side are injections ----------

  ghost function Lefts(pairs: seq<Pair>): (xs: seq<nat>)
    ensures |xs| == |pairs| && forall k :: 0 <= k < |xs| ==> xs[k] == pairs[k].left
  {
    seq(|pairs|, k requires 0 <= k < |pairs| => pairs[k].left)
  }

  ghost function Rights(pairs: seq<Pair>): (xs: seq<nat>)
    ensures |xs| == |pairs| && forall k :: 0 <= k < |xs| ==> xs[k] == pairs[k].right
  {
    seq(|pairs|, k requires 0 <= k < |pairs| => pairs[k].right)
  }

  ghost function IndexOf(xs: seq<nat>, x: nat): (k: nat)
    requires x in xs
    ensures k < |xs| && xs[k] == x
  {
    var k: nat :| k < |xs| && xs[k] == x;
    k
  }

  lemma CoversMatchers(g: MatchMatrix, pairs: seq<Pair>)
    requires g.Valid() && IsMatching(g, pairs)
    ensures |pairs| <= g.RhsSize()
    ensures |pairs| == g.RhsSize() ==> exists f :: MatcherInjection(g, f)
  {
    var xs := Rights(pairs);
    Pigeonhole(xs, g.RhsSize());
    if |pairs| == g.RhsSize() {
      var f := seq(|pairs|, r requires 0 <= r < |pairs| => pairs[IndexOf(xs, r)].left);
      forall j, k | 0 <= j < k < |f|
        ensures f[j] != f[k]
      {
        assert IndexOf(xs, j) != IndexOf(xs, k);
      }
      assert MatcherInjection(g, f);
    }
  }

  lemma CoversElements(g: MatchMatrix, pairs: seq<Pair>)
    requires g.Valid() && IsMatching(g, pairs)
    ensures |pairs| <= g.LhsSize()
    ensures |pairs| == g.LhsSize() ==> exists f :: ElementInjection(g, f)
  {
    var xs := Lefts(pairs);
    Pigeonhole(xs, g.LhsSize());
    if |pairs| == g.LhsSize() {
      var f := seq(|pairs|, l requires 0 <= l < |pairs| => pairs[IndexOf(xs, l)].right);
      forall j, k | 0 <= j < k < |f|
        ensures f[j] != f[k]
      {
        assert IndexOf(xs, j) != IndexOf(xs, k);
      }
      assert ElementInjection(g, f);
    }
  }

  /** A maximum matching reaches the size of a side exactly when that side can be injected. */
  lemma MaximumDecides(g: MatchMatrix, pairs: seq<Pair>)
    requires g.Valid() && IsMaximum(g, pairs)
    ensures |pairs| >= g.RhsSize() <==> exists f :: MatcherInjection(g, f)
    ensures |pairs| >= g.LhsSize() <==> exists f :: ElementInjection(g, f)
  {
    CoversMatchers(g, pairs);
    CoversElements(g, pairs);
    forall f | MatcherInjection(g, f)
      ensures |pairs| >= g.RhsSize()
    {
      var other := seq(|f|, r requires 0 <= r < |f| => Pair(f[r], r));
      assert IsMatching(g, other);
    }
    forall f | ElementInjection(g, f)
      ensures |pairs| >= g.LhsSize()
    {
      var other := seq(|f|, l requires 0 <= l < |f| => Pair(l, f[l]));
      assert IsMatching(g, other);
    }
  }

  /** Accepts exactly the matrices along whose edges the required injections exist. */
  method FindPairing(g: MatchMatrix, flags: Require) returns (accepted: bool)
    requires g.Valid()
    ensures accepted <==> Acceptable(g, flags)
    ensures flags == Superset ==> (accepted <==> exists f :: MatcherInjection(g, f))
    ensures flags == Subset ==> (accepted <==> exists f :: ElementInjection(g, f))
    ensures flags == ExactMatch ==>
      (accepted <==> (exists f :: MatcherInjection(g, f)) && exists f :: ElementInjection(g, f))
  {
    var matches := FindMaxBipartiteMatching(g);
    MaximumDecides(g, matches);
    var maxFlow := |matches|;
    if flags.EveryMatcher() && maxFlow < g.RhsSize() {
      return false;
    }
    if flags.EveryElement() && maxFlow < g.LhsSize() {
      return false;
    }
    return true;
  }

  // ---------- the quick rejection ----------

  ghost predicate MatcherMatched(g: MatchMatrix, r: int)
    requires g.Valid()
  {
    exists l :: g.Edge(l, r)
  }

  ghost predicate ElementMatched(g: MatchMatrix, l: int)
    requires g.Valid()
  {
    exists r :: g.Edge(l, r)
  }

  /** No required node is isolated. */
  ghost predicate NoneIsolated(g: MatchMatrix, flags: Require)
    requires g.Valid()
  {
    && (flags != Subset ==> forall r :: 0 <= r < g.RhsSize() ==> MatcherMatched(g, r))
    && (flags != Superset ==> forall l :: 0 <= l < g.LhsSize() ==> ElementMatched(g, l))
  }

  /** Looks for isolated nodes only; rejects nothing that a pairing search would accept. */
  method VerifyMatchMatrix(g: MatchMatrix, flags: Require) returns (result: bool)
    requires g.Valid()
    ensures result <==> NoneIsolated(g, flags)
    ensures Acceptable(g, flags) ==> result
  {
    result := true;
    var elementMatched := new bool[g.LhsSize()](_ => false);
    var matcherMatched := new bool[g.RhsSize()](_ => false);
    for l := 0 to g.LhsSize()
      invariant forall k :: 0 <= k < l ==> (elementMatched[k] <==> ElementMatched(g, k))
      invariant forall k :: l <= k < elementMatched.Length ==> !elementMatched[k]
      invariant forall r :: 0 <= r < g.RhsSize() ==> (matcherMatched[r] <==> exists k :: 0 <= k < l && g.Edge(k, r))
    {
      for r := 0 to g.RhsSize()
        invariant forall k :: 0 <= k < l ==> (elementMatched[k] <==> ElementMatched(g, k))
        invariant forall k :: l < k < elementMatched.Length ==> !elementMatched[k]
        invariant elementMatched[l] <==> exists q :: 0 <= q < r && g.Edge(l, q)
        invariant forall q :: 0 <= q < g.RhsSize() ==>
          (matcherMatched[q] <==> (exists k :: 0 <= k < l && g.Edge(k, q)) || (q < r && g.Edge(l, q)))
      {
        var matched := g.HasEdge(l, r);
        assert matched == g.Edge(l, r);
        elementMatched[l] := elementMatched[l] || matched;
        matcherMatched[r] := matcherMatched[r] || matched;
      }
    }
    assert forall r :: 0 <= r < g.RhsSize() ==> (matcherMatched[r] <==> MatcherMatched(g, r));
    if flags.EveryMatcher() {
      for r := 0 to matcherMatched.Length
        invariant result <==> forall q :: 0 <= q < r ==> MatcherMatched(g, q)
      {
        if matcherMatched[r] { continue; }
        result := false;
      }
    }
    if flags.EveryElement() {
      for l := 0 to elementMatched.Length
        invariant result <==> NoneIsolatedMatcher(g, flags) && forall k :: 0 <= k < l ==> ElementMatched(g, k)
      {
        if elementMatched[l] { continue; }
        result := false;
      }
    }
    if Acceptable(g, flags) {
      NeverRejectsPairing(g, flags);
    }
  }

  ghost predicate NoneIsolatedMatcher(g: MatchMatrix, flags: Require)
    requires g.Valid()
  {
    flags != Subset ==> forall r :: 0 <= r < g.RhsSize() ==> MatcherMatched(g, r)
  }

  lemma NeverRejectsPairing(g: MatchMatrix, flags: Require)
    requires g.Valid() && Acceptable(g, flags)
    ensures NoneIsolated(g, flags)
  {
    if flags.EveryMatcher() {
      var f :| MatcherInjection(g, f);
      forall r | 0 <= r < g.RhsSize()
        ensures MatcherMatched(g, r)
      {
        assert g.Edge(f[r], r);
      }
    }
    if flags.EveryElement() {
      var f :| ElementInjection(g, f);
      forall l | 0 <= l < g.LhsSize()
        ensures ElementMatched(g, l)
      {
        assert g.Edge(l, f[l]);
      }
    }
  }

  /** An exact match needs as many elements as matchers. */
  lemma ExactNeedsEqualSizes(g: MatchMatrix)
    requires g.Valid() && Acceptable(g, ExactMatch)
    ensures g.LhsSize() == g.RhsSize()
  {
    var f :| MatcherInjection(g, f);
    var h :| ElementInjection(g, h);
    Pigeonhole(f, g.LhsSize());
    Pigeonhole(h, g.RhsSize());
  }

  /** The whole verdict: the short cuts before the pairing search do not change it. */
  method MatchAndExplain(g: MatchMatrix, flags: Require) returns (accepted: bool)
    requires g.Valid()
    ensures accepted <==> Acceptable(g, flags)
    ensures flags == Superset ==> (accepted <==> exists f :: MatcherInjection(g, f))
    ensures flags == Subset ==> (accepted <==> exists f :: ElementInjection(g, f))
    ensures flags == ExactMatch ==>
      (accepted <==> (exists f :: MatcherInjection(g, f)) && exists f :: ElementInjection(g, f))
  {
    if g.LhsSize() == 0 && g.RhsSize() == 0 {
      assert MatcherInjection(g, []) && ElementInjection(g, []);
      return true;
    }
    if flags == ExactMatch && g.LhsSize() != g.RhsSize() {
      if Acceptable(g, flags) {
        ExactNeedsEqualSizes(g);
      }
      return false;
    }
    var verified := VerifyMatchMatrix(g, flags);
    if !verified {
      return false;
    }
    accepted := FindPairing(g, flags);
  }
}
