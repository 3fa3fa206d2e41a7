/** A rank exists exactly where no path is longer than the limit: what the order of a
    plan needs can be read off the dependencies alone. */
module PriorityRank {
  import opened PrioritySpec

  /** Some package of m's uid lists x in the other direction. */
  ghost predicate Mirrored(g: Graph, del: bool, x: nat, m: nat)
  {
    exists y: nat :: y < |g.items| && Mirrors(g, del, y, m, x)
  }

  /** Package m must be given a larger priority than x. */
  ghost predicate Edge(g: Graph, del: bool, x: nat, m: nat)
  {
    && x < |g.items| && m < |g.items|
    && (NamesOneOf(g, Down(g.items[x], del), m) || Ousts(g, del, x, m) || Mirrored(g, del, x, m))
  }

  ghost predicate IsPath(g: Graph, del: bool, path: seq<nat>)
  {
    && (forall i :: 0 <= i < |path| ==> path[i] < |g.items|)
    && forall i :: 0 < i < |path| ==> Edge(g, del, path[i - 1], path[i])
  }

  /** No path has more edges than the limit; a cycle would make paths of any length. */
  ghost predicate NoLongPath(g: Graph, del: bool)
  {
    forall path :: IsPath(g, del, path) ==> |path| <= RECURSION_LIMIT + 1
  }

  /** Some path of k edges ends at x. */
  ghost predicate EndsPath(g: Graph, del: bool, x: nat, k: nat)
  {
    exists path :: IsPath(g, del, path) && |path| == k + 1 && path[k] == x
  }

  /** The edges of the longest path to x, of those with at most `bound`. */
  ghost function Depth(g: Graph, del: bool, x: nat, bound: nat): (k: nat)
    ensures k <= bound
    ensures k > 0 ==> EndsPath(g, del, x, k)
    ensures forall j: nat :: k < j <= bound ==> !EndsPath(g, del, x, j)
  {
    if bound == 0 || EndsPath(g, del, x, bound) then bound else Depth(g, del, x, bound - 1)
  }

  ghost function DepthRank(g: Graph, del: bool): (h: seq<nat>)
    ensures |h| == |g.items|
    ensures forall x :: 0 <= x < |h| ==> h[x] == Depth(g, del, x, RECURSION_LIMIT)
  {
    seq(|g.items|, x requires 0 <= x < |g.items| => Depth(g, del, x, RECURSION_LIMIT))
  }

  lemma PathGoesOn(g: Graph, del: bool, x: nat, m: nat, k: nat)
    requires Edge(g, del, x, m) && (k > 0 ==> EndsPath(g, del, x, k))
    ensures EndsPath(g, del, m, k + 1)
  {
    hide Edge;
    if k == 0 {
      assert x < |g.items| && m < |g.items| by { EdgeInside(g, del, x, m); }
      assert IsPath(g, del, [x, m]) && [x, m][1] == m;
    } else {
      var path :| IsPath(g, del, path) && |path| == k + 1 && path[k] == x;
      assert m < |g.items| by { EdgeInside(g, del, x, m); }
      var longer := path + [m];
      forall i | 0 < i < |longer|
        ensures Edge(g, del, longer[i - 1], longer[i])
      {
        if i < |path| {
          assert longer[i - 1] == path[i - 1] && longer[i] == path[i];
        }
      }
      assert IsPath(g, del, longer) && longer[k + 1] == m;
    }
  }

  lemma EdgeInside(g: Graph, del: bool, x: nat, m: nat)
    requires Edge(g, del, x, m)
    ensures x < |g.items| && m < |g.items|
  {
  }

  lemma DeeperAlongEdges(g: Graph, del: bool, x: nat, m: nat)
    requires NoLongPath(g, del) && Edge(g, del, x, m)
    ensures Depth(g, del, x, RECURSION_LIMIT) < Depth(g, del, m, RECURSION_LIMIT)
  {
    hide Edge, Depth;
    var k := Depth(g, del, x, RECURSION_LIMIT);
    PathGoesOn(g, del, x, m, k);
    var path :| IsPath(g, del, path) && |path| == k + 2 && path[k + 1] == m;
    assert k + 1 <= RECURSION_LIMIT;
  }

  /** A rank goes up along every edge. */
  lemma RankedIsAlongEdges(g: Graph, del: bool, h: seq<nat>)
    ensures Ranked(g, del, h) <==>
      && |h| == |g.items| && (forall x :: 0 <= x < |h| ==> h[x] <= RECURSION_LIMIT)
      && forall x: nat, m: nat :: Edge(g, del, x, m) ==> h[x] < h[m]
  {
    if Ranked(g, del, h) {
      forall x: nat, m: nat | Edge(g, del, x, m)
        ensures h[x] < h[m]
      {
        if Mirrored(g, del, x, m) {
          var y: nat :| y < |g.items| && Mirrors(g, del, y, m, x);
          assert h[x] < h[m];
        }
      }
    }
    if |h| == |g.items| && (forall x :: 0 <= x < |h| ==> h[x] <= RECURSION_LIMIT) &&
       (forall x: nat, m: nat :: Edge(g, del, x, m) ==> h[x] < h[m]) {
      forall x: nat, m: nat | x < |h| && m < |h| && (NamesOneOf(g, Down(g.items[x], del), m) || Ousts(g, del, x, m))
        ensures h[x] < h[m]
      {
        assert Edge(g, del, x, m);
      }
      forall x: nat, m: nat, y: nat | x < |h| && m < |h| && y < |h| && Mirrors(g, del, x, m, y)
        ensures h[y] < h[m]
      {
        assert Mirrored(g, del, y, m) && Edge(g, del, y, m);
      }
    }
  }

  lemma {:induction false} RankAlongPath(g: Graph, del: bool, h: seq<nat>, path: seq<nat>)
    requires |h| == |g.items| && forall x: nat, m: nat :: Edge(g, del, x, m) ==> h[x] < h[m]
    requires IsPath(g, del, path) && path != []
    ensures path[|path| - 1] < |h| && h[path[|path| - 1]] >= |path| - 1
  {
    hide Edge;
    if |path| > 1 {
      var init := path[..|path| - 1];
      assert forall i :: 0 <= i < |init| ==> init[i] == path[i];
      RankAlongPath(g, del, h, init);
      assert Edge(g, del, path[|path| - 2], path[|path| - 1]);
    }
  }

  /** There is a rank if and only if no path is longer than the limit. */
  lemma RankExistsIff(g: Graph, del: bool)
    ensures (exists h :: Ranked(g, del, h)) <==> NoLongPath(g, del)
    ensures NoLongPath(g, del) <==> forall path :: IsPath(g, del, path) ==> |path| <= 1025
  {
    hide Edge, Ranked;
    if h :| Ranked(g, del, h) {
      RankedIsAlongEdges(g, del, h);
      forall path | IsPath(g, del, path)
        ensures |path| <= RECURSION_LIMIT + 1
      {
        if path != [] {
          RankAlongPath(g, del, h, path);
        }
      }
    }
    if NoLongPath(g, del) {
      DepthIsRank(g, del);
    }
  }

  lemma DepthIsRank(g: Graph, del: bool)
    requires NoLongPath(g, del)
    ensures Ranked(g, del, DepthRank(g, del))
  {
    hide Edge, Ranked, Depth, NoLongPath;
    var h := DepthRank(g, del);
    forall x: nat, m: nat | Edge(g, del, x, m)
      ensures x < |h| && m < |h| && h[x] < h[m]
    {
      EdgeInside(g, del, x, m);
      DeeperAlongEdges(g, del, x, m);
    }
    RankedIsAlongEdges(g, del, h);
  }
}
