/** Priorities of the packages in the universe (libpkg/pkg_jobs_universe.c:637-785):
    what it means for a package to be scheduled after everything it waits for. */
module PrioritySpec {

  /** A package of the universe, at place `pos` of the chain of its uid. */
  datatype Item = Item(uid: string, installed: bool, deps: seq<string>, rdeps: seq<string>,
                       conflicts: seq<string>, pos: nat)

  datatype Graph = Graph(items: seq<Item>, chains: map<string, seq<nat>>)

  datatype Update = Request | Conflict | Delete

  const RECURSION_LIMIT := 1024

  type Priorities = seq<nat>

  ghost predicate GoodGraph(g: Graph)
  {
    && (forall x :: 0 <= x < |g.items| ==> g.items[x].uid in g.chains && OnChain(g, g.items[x].uid, g.items[x].pos, x))
    && (forall u, i :: u in g.chains && 0 <= i < |g.chains[u]| ==> InChain(g, u, i))
  }

  ghost predicate OnChain(g: Graph, u: string, i: nat, x: nat)
    requires u in g.chains
  {
    i < |g.chains[u]| && g.chains[u][i] == x
  }

  ghost predicate InChain(g: Graph, u: string, i: nat)
    requires u in g.chains && i < |g.chains[u]|
  {
    var x := g.chains[u][i];
    x < |g.items| && g.items[x].uid == u && g.items[x].pos == i
  }

  function ChainOf(g: Graph, u: string): seq<nat>
  {
    if u in g.chains then g.chains[u] else []
  }

  /** Is the package one of the uid's chain? */
  ghost predicate Named(g: Graph, u: string, x: nat)
  {
    x < |g.items| && g.items[x].uid == u
  }

  lemma ChainNamed(g: Graph, u: string)
    requires GoodGraph(g)
    ensures forall i :: 0 <= i < |ChainOf(g, u)| ==> Named(g, u, ChainOf(g, u)[i])
    ensures forall x: nat :: Named(g, u, x) ==> x in ChainOf(g, u)
  {
    if u in g.chains {
      forall i | 0 <= i < |g.chains[u]|
        ensures Named(g, u, g.chains[u][i])
      {
        assert InChain(g, u, i);
      }
    }
    forall x: nat | Named(g, u, x)
      ensures x in ChainOf(g, u)
    {
      assert OnChain(g, u, g.items[x].pos, x);
    }
  }

  /** What is raised with a package: its dependencies, or for a deletion the packages
      that depend on it. */
  function Down(item: Item, del: bool): seq<string>
  {
    if del then item.rdeps else item.deps
  }

  function Up(item: Item, del: bool): seq<string>
  {
    if del then item.deps else item.rdeps
  }

  ghost predicate NamesOneOf(g: Graph, uids: seq<string>, x: nat)
  {
    x < |g.items| && g.items[x].uid in uids
  }

  /** Must package m be given a larger priority than x? */
  ghost predicate Waits(g: Graph, del: bool, x: nat, m: nat)
    requires x < |g.items|
  {
    if del then NamesOneOf(g, g.items[x].rdeps, m) && g.items[x].installed && g.items[m].installed
    else NamesOneOf(g, g.items[x].deps, m) && (g.items[x].installed ==> g.items[m].installed)
  }

  /** A package to install conflicts with an installed one. */
  ghost predicate Ousts(g: Graph, del: bool, x: nat, m: nat)
    requires x < |g.items|
  {
    !del && NamesOneOf(g, g.items[x].conflicts, m) && !g.items[x].installed && g.items[m].installed
  }

  /** Everything that must come before package x has a larger priority. */
  ghost predicate Settled(g: Graph, del: bool, pri: Priorities, x: nat)
    requires |pri| == |g.items| && x < |pri|
  {
    forall m: nat :: m < |pri| && (Waits(g, del, x, m) || Ousts(g, del, x, m)) ==> pri[x] < pri[m]
  }

  /** Package x lists y in the other direction, so y waits for every package m of x's uid. */
  ghost predicate Mirrors(g: Graph, del: bool, x: nat, m: nat, y: nat)
    requires x < |g.items|
  {
    NamesOneOf(g, Up(g.items[x], del), y) && Named(g, g.items[x].uid, m)
  }

  /** The graph has no cycle, and no path longer than the limit: a rank goes up along
      the edges to follow, and down along those the other way, which mirror them. */
  ghost predicate Ranked(g: Graph, del: bool, h: seq<nat>)
  {
    && |h| == |g.items|
    && (forall x :: 0 <= x < |h| ==> h[x] <= RECURSION_LIMIT)
    && (forall x, m :: 0 <= x < |h| && 0 <= m < |h| && NamesOneOf(g, Down(g.items[x], del), m) ==> h[x] < h[m])
    && (forall x, m, y :: 0 <= x < |h| && 0 <= m < |h| && 0 <= y < |h| && Mirrors(g, del, x, m, y) ==> h[y] < h[m])
    && (forall x, m :: 0 <= x < |h| && 0 <= m < |h| && Ousts(g, del, x, m) ==> h[x] < h[m])
  }

  ghost predicate AtMost(pri: Priorities, h: seq<nat>)
  {
    |pri| == |h| && forall x :: 0 <= x < |h| ==> pri[x] <= h[x]
  }

  ghost predicate NeverLower(before: Priorities, after: Priorities)
  {
    |before| == |after| && forall x :: 0 <= x < |before| ==> before[x] <= after[x]
  }

  /** What an update keeps: priorities stay below the rank, only packages of rank at
      least `low` change, and whatever was settled or has changed is settled. */
  ghost predicate Kept(g: Graph, del: bool, h: seq<nat>, low: nat, before: Priorities, after: Priorities)
  {
    && |before| == |after| == |h| == |g.items|
    && AtMost(after, h)
    && (forall x :: 0 <= x < |h| && before[x] != after[x] ==> low <= h[x])
    && (forall x :: 0 <= x < |h| && (before[x] != after[x] || Settled(g, del, before, x)) ==> Settled(g, del, after, x))
  }

  lemma KeptSelf(g: Graph, del: bool, h: seq<nat>, low: nat, pri: Priorities)
    requires |pri| == |h| == |g.items| && AtMost(pri, h)
    ensures Kept(g, del, h, low, pri, pri)
  {
  }

  lemma KeptTwice(g: Graph, del: bool, h: seq<nat>, low: nat, a: Priorities, b: Priorities, c: Priorities)
    requires Kept(g, del, h, low, a, b) && Kept(g, del, h, low, b, c)
    ensures Kept(g, del, h, low, a, c)
  {
    hide Settled;
  }

  lemma KeptLower(g: Graph, del: bool, h: seq<nat>, low: nat, low': nat, a: Priorities, b: Priorities)
    requires Kept(g, del, h, low, a, b) && low' <= low
    ensures Kept(g, del, h, low', a, b)
  {
    hide Settled;
  }

  lemma SettledStays(g: Graph, del: bool, a: Priorities, b: Priorities, x: nat)
    requires |a| == |g.items| && NeverLower(a, b) && x < |a| && a[x] == b[x] && Settled(g, del, a, x)
    ensures Settled(g, del, b, x)
  {
    hide Waits, Ousts;
  }

  /** A package is raised to p, the packages after it follow, and it is settled in the end. */
  lemma KeptRaise(g: Graph, del: bool, h: seq<nat>, low: nat, a: Priorities, x: nat, p: nat, c: Priorities)
    requires |a| == |g.items| && x < |a| && a[x] <= p
    requires Kept(g, del, h, low, a[x := p], c) && Settled(g, del, c, x) && low <= h[x]
    ensures Kept(g, del, h, low, a, c)
  {
    var b := a[x := p];
    assert forall i :: 0 <= i < |a| && i != x ==> a[i] == b[i];
    forall i | 0 <= i < |h| && i != x && Settled(g, del, a, i)
      ensures Settled(g, del, b, i)
    {
      SettledStays(g, del, a, b, i);
    }
    hide Settled;
  }

  /** Updates for conflicts and deletions pass over packages that are not installed. */
  predicate Skipped(item: Item, t: Update)
  {
    !item.installed && (t == Conflict || t == Delete)
  }

  /** The packages of a list, but for those passed over, have room up to p. */
  ghost predicate Fits(g: Graph, t: Update, h: seq<nat>, low: nat, tail: seq<nat>, p: nat)
    requires |h| == |g.items|
  {
    forall i :: 0 <= i < |tail| ==>
      tail[i] < |h| && (Skipped(g.items[tail[i]], t) || (p <= h[tail[i]] && low <= h[tail[i]]))
  }

  /** The packages of a list, but for those passed over, are raised to p, and settled. */
  ghost predicate Raised(g: Graph, t: Update, tail: seq<nat>, p: nat, before: Priorities, after: Priorities)
    requires |before| == |after| == |g.items|
  {
    forall i :: 0 <= i < |tail| ==> tail[i] < |after| && RaisedOne(g, t, tail[i], p, before, after)
  }

  ghost predicate RaisedOne(g: Graph, t: Update, x: nat, p: nat, before: Priorities, after: Priorities)
    requires |before| == |after| == |g.items| && x < |after|
  {
    Skipped(g.items[x], t) || (p <= after[x] && (before[x] <= p ==> Settled(g, t == Delete, after, x)))
  }

  lemma RaisedStays(g: Graph, t: Update, h: seq<nat>, low: nat, tail: seq<nat>, p: nat, a: Priorities, b: Priorities,
                    c: Priorities)
    requires |a| == |b| == |g.items| && Raised(g, t, tail, p, a, b) && Kept(g, t == Delete, h, low, b, c) &&
      NeverLower(b, c)
    ensures Raised(g, t, tail, p, a, c)
  {
    hide Settled, Skipped;
  }

  function Tail(g: Graph, x: nat): seq<nat>
    requires GoodGraph(g) && x < |g.items|
  {
    assert OnChain(g, g.items[x].uid, g.items[x].pos, x);
    g.chains[g.items[x].uid][g.items[x].pos..]
  }

  lemma TailNamed(g: Graph, x: nat)
    requires GoodGraph(g) && x < |g.items|
    ensures forall i :: 0 <= i < |Tail(g, x)| ==> Named(g, g.items[x].uid, Tail(g, x)[i])
    ensures Tail(g, x) != [] && Tail(g, x)[0] == x
  {
    var u, pos := g.items[x].uid, g.items[x].pos;
    assert OnChain(g, u, pos, x);
    forall i | 0 <= i < |Tail(g, x)|
      ensures Named(g, u, Tail(g, x)[i])
    {
      assert InChain(g, u, pos + i);
    }
  }

  /** The tail of a package further down a tail is a part of that tail. */
  lemma TailOfTail(g: Graph, x: nat, i: nat)
    requires GoodGraph(g) && x < |g.items| && i < |Tail(g, x)|
    ensures Tail(g, x)[i] < |g.items| && Tail(g, Tail(g, x)[i]) == Tail(g, x)[i..]
  {
    assert InChain(g, g.items[x].uid, g.items[x].pos + i);
  }
}
