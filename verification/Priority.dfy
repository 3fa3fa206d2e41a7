/** Raising priorities along the dependencies (libpkg/pkg_jobs_universe.c:637-785). */
module Priority {
  import opened PrioritySpec

  /** Room for a package that has to come before x. */
  lemma FitsDown(g: Graph, t: Update, h: seq<nat>, x: nat, p: nat, y: nat)
    requires GoodGraph(g) && Ranked(g, t == Delete, h) && x < |h| && y < |h| && p <= h[x]
    requires NamesOneOf(g, Down(g.items[x], t == Delete), y)
    ensures Fits(g, t, h, h[x] + 1, Tail(g, y), p + 1)
  {
    TailNamed(g, y);
    var tail := Tail(g, y);
    forall i | 0 <= i < |tail|
      ensures tail[i] < |h| && h[x] < h[tail[i]]
    {
      assert Named(g, g.items[y].uid, tail[i]);
      assert NamesOneOf(g, Down(g.items[x], t == Delete), tail[i]);
    }
  }

  /** Room above a package that lists x, for x and those after it. */
  lemma FitsSelf(g: Graph, t: Update, h: seq<nat>, low: nat, x: nat, y: nat, p: nat)
    requires GoodGraph(g) && Ranked(g, t == Delete, h) && x < |h| && y < |h| && p <= h[y]
    requires NamesOneOf(g, Up(g.items[x], t == Delete), y) && Fits(g, t, h, low, Tail(g, x), 0)
    ensures Fits(g, t, h, low, Tail(g, x), p + 1)
  {
    TailNamed(g, x);
    var tail := Tail(g, x);
    forall i | 0 <= i < |tail|
      ensures tail[i] < |h| && h[y] < h[tail[i]]
    {
      assert Named(g, g.items[x].uid, tail[i]);
      assert Mirrors(g, t == Delete, x, tail[i], y);
    }
  }

  /** Room for an installed package that x conflicts with. */
  lemma FitsOusted(g: Graph, h: seq<nat>, x: nat, p: nat, y: nat)
    requires GoodGraph(g) && Ranked(g, false, h) && x < |h| && y < |h| && p <= h[x]
    requires Ousts(g, false, x, y)
    ensures Fits(g, Conflict, h, h[x] + 1, Tail(g, y), p + 1)
  {
    TailNamed(g, y);
    var tail := Tail(g, y);
    forall i | 0 <= i < |tail|
      ensures tail[i] < |h| && (Skipped(g.items[tail[i]], Conflict) || h[x] < h[tail[i]])
    {
      assert Named(g, g.items[y].uid, tail[i]);
      assert g.items[tail[i]].installed ==> Ousts(g, false, x, tail[i]);
    }
  }

  // ----- steps of an update -----

  /** All packages of some uids, but for those passed over, are above p. */
  ghost predicate AllAbove(g: Graph, t: Update, uids: seq<string>, p: nat, pri: Priorities)
    requires |pri| == |g.items|
  {
    forall m: nat :: NamesOneOf(g, uids, m) && !Skipped(g.items[m], t) ==> p < pri[m]
  }

  /** All installed packages of some uids are above x. */
  ghost predicate AllOusted(g: Graph, x: nat, uids: seq<string>, pri: Priorities)
    requires |pri| == |g.items| && x < |pri|
  {
    forall m: nat :: NamesOneOf(g, uids, m) && g.items[m].installed ==> pri[x] < pri[m]
  }

  lemma KeptAtMost(g: Graph, del: bool, h: seq<nat>, low: nat, a: Priorities, b: Priorities)
    requires Kept(g, del, h, low, a, b)
    ensures |b| == |h| && AtMost(b, h)
  {
  }

  lemma AtMostAt(pri: Priorities, h: seq<nat>, x: nat)
    requires AtMost(pri, h) && x < |pri|
    ensures pri[x] <= h[x]
  {
  }

  /** A package of a lower rank has not moved. */
  lemma KeptBelow(g: Graph, del: bool, h: seq<nat>, low: nat, a: Priorities, b: Priorities, x: nat)
    requires Kept(g, del, h, low, a, b) && x < |h| && h[x] < low
    ensures a[x] == b[x]
  {
  }

  lemma MoreAbove(g: Graph, t: Update, uids: seq<string>, a: nat, p: nat, before: Priorities, after: Priorities)
    requires |before| == |g.items| && NeverLower(before, after) && a < |uids|
    requires AllAbove(g, t, uids[..a], p, before) && AllAbove(g, t, [uids[a]], p, after)
    ensures AllAbove(g, t, uids[..a + 1], p, after)
  {
    assert uids[..a + 1] == uids[..a] + [uids[a]];
    forall m: nat | NamesOneOf(g, uids[..a + 1], m) && !Skipped(g.items[m], t)
      ensures p < after[m]
    {
      assert NamesOneOf(g, uids[..a], m) || NamesOneOf(g, [uids[a]], m);
    }
  }

  lemma ChainAbove(g: Graph, t: Update, uid: string, p: nat, pri: Priorities)
    requires GoodGraph(g) && |pri| == |g.items|
    requires forall i :: 0 <= i < |ChainOf(g, uid)| ==>
      ChainOf(g, uid)[i] < |pri| && (Skipped(g.items[ChainOf(g, uid)[i]], t) || p < pri[ChainOf(g, uid)[i]])
    ensures AllAbove(g, t, [uid], p, pri)
  {
    ChainNamed(g, uid);
    forall m: nat | NamesOneOf(g, [uid], m) && !Skipped(g.items[m], t)
      ensures p < pri[m]
    {
      assert Named(g, uid, m);
    }
  }

  lemma NoneOusted(g: Graph, x: nat, pri: Priorities)
    requires |pri| == |g.items| && x < |pri|
    ensures AllOusted(g, x, [], pri)
  {
  }

  lemma MoreOusted(g: Graph, x: nat, uids: seq<string>, a: nat, before: Priorities, after: Priorities)
    requires |before| == |g.items| && NeverLower(before, after) && a < |uids| && x < |before| && before[x] == after[x]
    requires AllOusted(g, x, uids[..a], before) && AllOusted(g, x, [uids[a]], after)
    ensures AllOusted(g, x, uids[..a + 1], after)
  {
    assert uids[..a + 1] == uids[..a] + [uids[a]];
    forall m: nat | NamesOneOf(g, uids[..a + 1], m) && g.items[m].installed
      ensures after[x] < after[m]
    {
      assert NamesOneOf(g, uids[..a], m) || NamesOneOf(g, [uids[a]], m);
    }
  }

  lemma FirstOfTail(g: Graph, t: Update, x: nat, p: nat, before: Priorities, after: Priorities)
    requires GoodGraph(g) && x < |g.items| && |before| == |after| == |g.items| &&
      Raised(g, t, Tail(g, x), p, before, after)
    ensures Skipped(g.items[x], t) || p <= after[x]
  {
    TailNamed(g, x);
  }

  /** Beyond the limit there is no room, so every package is passed over. */
  lemma NoRoom(g: Graph, t: Update, h: seq<nat>, low: nat, tail: seq<nat>, p: nat, pri: Priorities)
    requires Ranked(g, t == Delete, h) && AtMost(pri, h) && Fits(g, t, h, low, tail, p) && p > RECURSION_LIMIT
    ensures Kept(g, t == Delete, h, low, pri, pri) && Raised(g, t, tail, p, pri, pri)
  {
    KeptSelf(g, t == Delete, h, low, pri);
  }

  lemma StartUpdate(g: Graph, t: Update, h: seq<nat>, low: nat, p: nat, pri: Priorities)
    requires |pri| == |g.items| && AtMost(pri, h)
    ensures Kept(g, t == Delete, h, low, pri, pri) && Raised(g, t, [], p, pri, pri)
  {
    KeptSelf(g, t == Delete, h, low, pri);
  }

  /** A package passed over, or raised above p before, needs nothing. */
  lemma PassOver(g: Graph, t: Update, h: seq<nat>, low: nat, tail: seq<nat>, i: nat, p: nat, a: Priorities,
                 b: Priorities)
    requires Kept(g, t == Delete, h, low, a, b) && i < |tail| && Raised(g, t, tail[..i], p, a, b)
    requires tail[i] < |b| && (Skipped(g.items[tail[i]], t) || p < b[tail[i]])
    ensures Raised(g, t, tail[..i + 1], p, a, b)
  {
    hide Settled, Skipped;
    assert tail[..i + 1] == tail[..i] + [tail[i]];
  }

  lemma StillReady(g: Graph, t: Update, h: seq<nat>, low: nat, tail: seq<nat>, i: nat, p: nat, a: Priorities,
                   b: Priorities)
    requires Kept(g, t == Delete, h, low, a, b) && i <= |tail| && Fits(g, t, h, low, tail, p)
    ensures AtMost(b, h) && Fits(g, t, h, low, tail[i..], p)
  {
  }

  /** One more package of the tail is raised, or all that are left. */
  lemma OneRaised(g: Graph, t: Update, h: seq<nat>, low: nat, tail: seq<nat>, i: nat, p: nat,
                  a: Priorities, b: Priorities, c: Priorities, stop: bool)
    requires Kept(g, t == Delete, h, low, a, b) && Kept(g, t == Delete, h, low, b, c) && NeverLower(a, b) &&
      NeverLower(b, c)
    requires i < |tail| && tail[i] < |b| && Raised(g, t, tail[..i], p, a, b) && b[tail[i]] <= p
    requires RaisedOne(g, t, tail[i], p, b, c)
    requires stop ==> Raised(g, t, tail[i..], p, b, c)
    ensures Kept(g, t == Delete, h, low, a, c)
    ensures !stop ==> Raised(g, t, tail[..i + 1], p, a, c)
    ensures stop ==> Raised(g, t, tail, p, a, c)
  {
    KeptTwice(g, t == Delete, h, low, a, b, c);
    RaisedStays(g, t, h, low, tail[..i], p, a, b, c);
    hide Settled, Skipped;
    if stop {
      forall j | 0 <= j < |tail|
        ensures tail[j] < |c| && RaisedOne(g, t, tail[j], p, a, c)
      {
        if j < i {
          assert tail[j] == tail[..i][j];
        } else {
          assert tail[j] == tail[i..][j - i];
        }
      }
    } else {
      assert tail[..i + 1] == tail[..i] + [tail[i]];
    }
  }

  lemma ReadyToRaise(g: Graph, t: Update, h: seq<nat>, low: nat, a: Priorities, x: nat, p: nat, b: Priorities)
    requires GoodGraph(g) && x < |a| == |g.items| && AtMost(a, h) && Fits(g, t, h, low, Tail(g, x), p)
    requires !Skipped(g.items[x], t) && b == a[x := p]
    ensures p <= h[x] && low <= h[x] && AtMost(b, h)
  {
    TailNamed(g, x);
  }

  lemma ReadyAgain(g: Graph, t: Update, h: seq<nat>, low: nat, x: nat, p: nat, maxPri: nat, a: Priorities,
                   b: Priorities)
    requires GoodGraph(g) && Ranked(g, t == Delete, h) && x < |h| && Kept(g, t == Delete, h, h[x] + 1, a, b)
    requires Fits(g, t, h, low, Tail(g, x), p)
    requires exists y: nat :: NamesOneOf(g, Up(g.items[x], t == Delete), y) && b[y] + 1 == maxPri
    ensures AtMost(b, h) && Fits(g, t, h, low, Tail(g, x), maxPri)
  {
    var y: nat :| NamesOneOf(g, Up(g.items[x], t == Delete), y) && b[y] + 1 == maxPri;
    hide Ranked, Settled;
    FitsSelf(g, t, h, low, x, y, b[y]);
  }

  /** After raising the package and all after it further, everything is as it should be. */
  lemma RaisedFurther(g: Graph, t: Update, h: seq<nat>, low: nat, x: nat, p: nat, maxPri: nat,
                      s0: Priorities, s1: Priorities, s2: Priorities, s3: Priorities)
    requires GoodGraph(g) && x < |s0| == |g.items| == |h| && s1 == s0[x := p] && s0[x] <= p < maxPri
    requires low <= h[x] && !Skipped(g.items[x], t)
    requires Kept(g, t == Delete, h, h[x] + 1, s1, s2) && NeverLower(s1, s2)
    requires Kept(g, t == Delete, h, low, s2, s3) && NeverLower(s2, s3)
    requires Raised(g, t, Tail(g, x), maxPri, s2, s3)
    ensures Kept(g, t == Delete, h, low, s0, s3) && Raised(g, t, Tail(g, x), p, s0, s3) && RaisedOne(g, t, x, p, s0, s3)
  {
    hide Settled, Skipped;
    TailNamed(g, x);
    KeptBelow(g, t == Delete, h, h[x] + 1, s1, s2, x);
    assert RaisedOne(g, t, x, maxPri, s2, s3);
    KeptLower(g, t == Delete, h, h[x] + 1, low, s1, s2);
    KeptTwice(g, t == Delete, h, low, s1, s2, s3);
    KeptRaise(g, t == Delete, h, low, s0, x, p, s3);
    forall i | 0 <= i < |Tail(g, x)|
      ensures RaisedOne(g, t, Tail(g, x)[i], p, s0, s3)
    {
      assert RaisedOne(g, t, Tail(g, x)[i], maxPri, s2, s3);
    }
  }

  lemma Unmoved(g: Graph, t: Update, h: seq<nat>, x: nat, p: nat, a: Priorities, b: Priorities)
    requires x < |g.items| == |h| && Kept(g, t == Delete, h, h[x] + 1, a, b) && a[x] == p
    ensures b[x] == p && AtMost(b, h)
  {
  }

  /** What comes before x is above it, and so is what x ousts: x is settled. */
  lemma SettledNow(g: Graph, t: Update, x: nat, p: nat, pri: Priorities)
    requires |pri| == |g.items| && x < |pri| && pri[x] == p && !Skipped(g.items[x], t)
    requires AllAbove(g, t, Down(g.items[x], t == Delete), p, pri)
    requires !g.items[x].installed ==> AllOusted(g, x, g.items[x].conflicts, pri)
    ensures Settled(g, t == Delete, pri, x)
  {
  }

  lemma RaisedAtOnce(g: Graph, t: Update, h: seq<nat>, low: nat, x: nat, p: nat,
                     s0: Priorities, s1: Priorities, s2: Priorities, s3: Priorities)
    requires GoodGraph(g) && x < |s0| == |g.items| == |h| && s1 == s0[x := p] && s0[x] <= p
    requires low <= h[x] && !Skipped(g.items[x], t)
    requires Kept(g, t == Delete, h, h[x] + 1, s1, s2) && AllAbove(g, t, Down(g.items[x], t == Delete), p, s2)
    requires Kept(g, t == Delete, h, h[x] + 1, s2, s3) && NeverLower(s2, s3)
    requires !g.items[x].installed ==> AllOusted(g, x, g.items[x].conflicts, s3)
    ensures Kept(g, t == Delete, h, low, s0, s3) && RaisedOne(g, t, x, p, s0, s3)
  {
    hide Settled;
    KeptTwice(g, t == Delete, h, h[x] + 1, s1, s2, s3);
    KeptBelow(g, t == Delete, h, h[x] + 1, s1, s3, x);
    assert AllAbove(g, t, Down(g.items[x], t == Delete), p, s3);
    SettledNow(g, t, x, p, s3);
    KeptLower(g, t == Delete, h, h[x] + 1, low, s1, s3);
    KeptRaise(g, t == Delete, h, low, s0, x, p, s3);
  }

  /** Nothing has to come before the package, nothing waits for it, and it is in no
      other's way. */
  predicate Alone(item: Item, t: Update)
  {
    Down(item, t == Delete) == [] && Up(item, t == Delete) == [] && (item.installed || item.conflicts == [])
  }

  /** The update of such a package passes over all that are after it in its chain. */
  ghost predicate RaisedAlone(g: Graph, x: nat, t: Update)
    requires GoodGraph(g) && x < |g.items|
  {
    && Alone(g.items[x], t) && !Skipped(g.items[x], t)
    && forall i :: 0 < i < |Tail(g, x)| ==> Tail(g, x)[i] < |g.items| && Skipped(g.items[Tail(g, x)[i]], t)
  }

  lemma OnItsChain(g: Graph, x: nat)
    requires GoodGraph(g) && x < |g.items|
    ensures g.items[x].uid in g.chains && g.items[x].pos < |g.chains[g.items[x].uid]|
    ensures Tail(g, x) == g.chains[g.items[x].uid][g.items[x].pos..]
  {
    assert OnChain(g, g.items[x].uid, g.items[x].pos, x);
  }

  lemma AloneStep(g: Graph, x: nat, t: Update, k: nat, it: nat)
    requires GoodGraph(g) && x < |g.items| && k < |Tail(g, x)| && it == Tail(g, x)[k] && it < |g.items|
    ensures RaisedAlone(g, x, t) && k == 0 ==> it == x && Alone(g.items[it], t) && !Skipped(g.items[it], t)
    ensures RaisedAlone(g, x, t) && k > 0 ==> Skipped(g.items[it], t)
  {
    TailNamed(g, x);
  }

  /** Only package x is raised, to p if that is more and within the limit. */
  function RaisedTo(pri: Priorities, x: nat, p: nat): (r: Priorities)
    requires x < |pri|
    ensures |r| == |pri| && forall i :: 0 <= i < |r| && i != x ==> r[i] == pri[i]
    ensures pri[x] <= r[x] && (p <= RECURSION_LIMIT ==> p <= r[x]) && (r[x] == pri[x] || r[x] == p)
  {
    if p > RECURSION_LIMIT || pri[x] > p then pri else pri[x := p]
  }

  class JobUniverse {
    const g: Graph
    var pri: Priorities

    ghost predicate Valid()
      reads `pri
    {
      GoodGraph(g) && |pri| == |g.items|
    }

    constructor (g: Graph)
      requires GoodGraph(g)
      ensures Valid() && this.g == g && forall x :: 0 <= x < |pri| ==> pri[x] == 0
    {
      this.g := g;
      pri := seq(|g.items|, i => 0);
    }

    /** The rank is good, and leaves room for raising the list to p. */
    ghost predicate Ready(t: Update, h: seq<nat>, low: nat, tail: seq<nat>, p: nat)
      requires |pri| == |g.items|
      reads `pri
    {
      Ranked(g, t == Delete, h) && AtMost(pri, h) && Fits(g, t, h, low, tail, p)
    }

    /** Raises a package and those after it in its chain to priority p, and with them
        what has to come before. */
    method UpdateItem(x: nat, p: nat, t: Update, ghost h: seq<nat>, ghost low: nat)
      requires Valid() && x < |g.items|
      modifies `pri
      ensures Valid() && NeverLower(old(pri), pri)
      ensures old(Ready(t, h, low, Tail(g, x), p)) ==>
        Kept(g, t == Delete, h, low, old(pri), pri) && Raised(g, t, Tail(g, x), p, old(pri), pri)
      ensures RaisedAlone(g, x, t) ==> pri == RaisedTo(old(pri), x, p)
      decreases if p > RECURSION_LIMIT then 0 else RECURSION_LIMIT + 1 - p, 4
    {
      hide Kept, Raised, Ranked, AtMost, Settled, Skipped, Alone, RaisedAlone, GoodGraph, Fits;
      ghost var tail := Tail(g, x);
      ghost var ok := Ready(t, h, low, tail, p);
      TailNamed(g, x);
      if p > RECURSION_LIMIT {
        if ok { NoRoom(g, t, h, low, tail, p, pri); }
        return;
      }
      if ok { StartUpdate(g, t, h, low, p, pri); }
      OnItsChain(g, x);
      var chain, first := g.chains[g.items[x].uid], g.items[x].pos;
      var a := first;
      while a < |chain|
        invariant first <= a <= |chain| && Valid() && NeverLower(old(pri), pri)
        invariant ok ==> Kept(g, t == Delete, h, low, old(pri), pri)
        invariant ok ==> Raised(g, t, tail[..a - first], p, old(pri), pri)
        invariant RaisedAlone(g, x, t) ==> pri == if a == first then old(pri) else RaisedTo(old(pri), x, p)
      {
        var it := chain[a];
        TailOfTail(g, x, a - first);
        AloneStep(g, x, t, a - first, it);
        ghost var before := pri;
        if Skipped(g.items[it], t) || pri[it] > p {
          if ok { PassOver(g, t, h, low, tail, a - first, p, old(pri), pri); }
        } else {
          if ok { StillReady(g, t, h, low, tail, a - first, p, old(pri), pri); }
          var stop := RaiseItem(it, p, t, h, low);
          if ok { OneRaised(g, t, h, low, tail, a - first, p, old(pri), before, pri, stop); }
          if stop {
            return;
          }
        }
        a := a + 1;
      }
      assert tail[..a - first] == tail;
    }

    /** Raises one package; true if it had to be raised further, with all after it. */
    method RaiseItem(x: nat, p: nat, t: Update, ghost h: seq<nat>, ghost low: nat) returns (stop: bool)
      requires Valid() && x < |g.items| && p <= RECURSION_LIMIT && pri[x] <= p && !Skipped(g.items[x], t)
      modifies `pri
      ensures Valid() && NeverLower(old(pri), pri)
      ensures old(Ready(t, h, low, Tail(g, x), p)) ==>
        Kept(g, t == Delete, h, low, old(pri), pri) && RaisedOne(g, t, x, p, old(pri), pri)
      ensures Alone(g.items[x], t) ==> !stop && pri == old(pri)[x := p]
      ensures old(Ready(t, h, low, Tail(g, x), p)) && stop ==> Raised(g, t, Tail(g, x), p, old(pri), pri)
      decreases RECURSION_LIMIT + 1 - p, 3
    {
      hide Kept, Raised, Ranked, AtMost, Settled;
      ghost var ok := Ready(t, h, low, Tail(g, x), p);
      ghost var s0 := pri;
      pri := pri[x := p];
      ghost var s1 := pri;
      if ok { ReadyToRaise(g, t, h, low, s0, x, p, s1); }
      RaiseDown(x, p, t, h);
      ghost var s2 := pri;
      var maxPri := MaxUp(x, p, t);
      if maxPri != p {
        if ok { ReadyAgain(g, t, h, low, x, p, maxPri, s1, s2); }
        UpdateItem(x, maxPri, t, h, low);
        if ok { RaisedFurther(g, t, h, low, x, p, maxPri, s0, s1, s2, pri); }
        return true;
      }
      if ok { Unmoved(g, t, h, x, p, s1, s2); }
      if !g.items[x].installed {
        RaiseOusted(x, p, h);
      } else if ok {
        KeptSelf(g, t == Delete, h, h[x] + 1, pri);
      }
      if ok { RaisedAtOnce(g, t, h, low, x, p, s0, s1, s2, pri); }
      return false;
    }

    /** Everything that must come before package x is raised above p. */
    method RaiseDown(x: nat, p: nat, t: Update, ghost h: seq<nat>)
      requires Valid() && x < |g.items| && p <= RECURSION_LIMIT
      modifies `pri
      ensures Valid() && NeverLower(old(pri), pri)
      ensures Ranked(g, t == Delete, h) && AtMost(old(pri), h) && p <= h[x] ==>
        Kept(g, t == Delete, h, h[x] + 1, old(pri), pri) && AllAbove(g, t, Down(g.items[x], t == Delete), p, pri)
      ensures Down(g.items[x], t == Delete) == [] ==> pri == old(pri)
      decreases RECURSION_LIMIT + 1 - p, 1
    {
      hide Kept, Settled, AtMost;
      var uids, a := Down(g.items[x], t == Delete), 0;
      ghost var ok := Ranked(g, t == Delete, h) && AtMost(pri, h) && p <= h[x];
      hide Ranked;
      if ok { KeptSelf(g, t == Delete, h, h[x] + 1, pri); }
      while a < |uids|
        invariant 0 <= a <= |uids| && Valid() && NeverLower(old(pri), pri)
        invariant ok ==> Kept(g, t == Delete, h, h[x] + 1, old(pri), pri)
        invariant ok ==> AllAbove(g, t, uids[..a], p, pri)
        invariant a == 0 ==> pri == old(pri)
      {
        ghost var before := pri;
        if ok { KeptAtMost(g, t == Delete, h, h[x] + 1, old(pri), pri); }
        RaiseChain(x, uids[a], p, t, h);
        if ok {
          KeptTwice(g, t == Delete, h, h[x] + 1, old(pri), before, pri);
          MoreAbove(g, t, uids, a, p, before, pri);
        }
        a := a + 1;
      }
      assert uids[..a] == uids;
    }

    method RaiseChain(x: nat, uid: string, p: nat, t: Update, ghost h: seq<nat>)
      requires Valid() && x < |g.items| && p <= RECURSION_LIMIT && uid in Down(g.items[x], t == Delete)
      modifies `pri
      ensures Valid() && NeverLower(old(pri), pri)
      ensures Ranked(g, t == Delete, h) && AtMost(old(pri), h) && p <= h[x] ==>
        Kept(g, t == Delete, h, h[x] + 1, old(pri), pri) && AllAbove(g, t, [uid], p, pri)
      decreases RECURSION_LIMIT + 1 - p, 0
    {
      hide Kept, Settled, AtMost, GoodGraph, Skipped, AllAbove, Raised, Fits;
      ghost var ok := Ranked(g, t == Delete, h) && AtMost(pri, h) && p <= h[x];
      hide Ranked;
      ChainNamed(g, uid);
      if ok { KeptSelf(g, t == Delete, h, h[x] + 1, pri); }
      if uid !in g.chains {
        if ok { ChainAbove(g, t, uid, p, pri); }
        return;
      }
      var chain, b := g.chains[uid], 0;
      assert forall i :: 0 <= i < |chain| ==> Named(g, uid, ChainOf(g, uid)[i]) && chain[i] < |g.items|;
      while b < |chain|
        invariant 0 <= b <= |chain| && Valid() && NeverLower(old(pri), pri)
        invariant ok ==> Kept(g, t == Delete, h, h[x] + 1, old(pri), pri)
        invariant ok ==> forall i :: 0 <= i < b ==> Skipped(g.items[chain[i]], t) || p < pri[chain[i]]
      {
        var cur := chain[b];
        ghost var before := pri;
        if pri[cur] < p + 1 {
          if ok {
            KeptAtMost(g, t == Delete, h, h[x] + 1, old(pri), pri);
            FitsDown(g, t, h, x, p, cur);
          }
          UpdateItem(cur, p + 1, t, h, if ok then h[x] + 1 else 0);
          if ok {
            KeptTwice(g, t == Delete, h, h[x] + 1, old(pri), before, pri);
            FirstOfTail(g, t, cur, p + 1, before, pri);
          }
        }
        b := b + 1;
      }
      if ok { ChainAbove(g, t, uid, p, pri); }
    }

    /** One more than the largest priority of what waits for x, if that is more than p. */
    method MaxUp(x: nat, p: nat, t: Update) returns (maxPri: nat)
      requires Valid() && x < |g.items|
      ensures p <= maxPri
      ensures forall y: nat :: NamesOneOf(g, Up(g.items[x], t == Delete), y) ==> pri[y] < maxPri
      ensures maxPri != p ==> exists y: nat :: NamesOneOf(g, Up(g.items[x], t == Delete), y) && pri[y] + 1 == maxPri
    {
      hide GoodGraph;
      maxPri := p;
      var uids, a := Up(g.items[x], t == Delete), 0;
      while a < |uids|
        invariant 0 <= a <= |uids| && p <= maxPri
        invariant forall y: nat :: NamesOneOf(g, uids[..a], y) ==> pri[y] < maxPri
        invariant maxPri != p ==> exists y: nat :: NamesOneOf(g, uids, y) && pri[y] + 1 == maxPri
      {
        ChainNamed(g, uids[a]);
        assert uids[a] !in g.chains ==> forall y: nat :: !Named(g, uids[a], y);
        assert uids[..a + 1] == uids[..a] + [uids[a]];
        assert forall y: nat :: NamesOneOf(g, uids[..a + 1], y) ==> NamesOneOf(g, uids[..a], y) || Named(g, uids[a], y);
        if uids[a] in g.chains {
          var chain, b := g.chains[uids[a]], 0;
          assert forall i :: 0 <= i < |chain| ==> Named(g, uids[a], ChainOf(g, uids[a])[i]) && chain[i] < |g.items|;
          while b < |chain|
            invariant 0 <= b <= |chain| && p <= maxPri
            invariant forall y: nat :: NamesOneOf(g, uids[..a], y) || y in chain[..b] ==> y < |pri| && pri[y] < maxPri
            invariant maxPri != p ==> exists y: nat :: NamesOneOf(g, uids, y) && pri[y] + 1 == maxPri
          {
            var cur := chain[b];
            assert NamesOneOf(g, uids, cur);
            if pri[cur] >= maxPri {
              maxPri := pri[cur] + 1;
            }
            b := b + 1;
          }
        }
        a := a + 1;
      }
      assert uids[..a] == uids;
    }

    /** Installed packages that x conflicts with are to be gone before x comes. */
    method RaiseOusted(x: nat, ghost p: nat, ghost h: seq<nat>)
      requires Valid() && x < |g.items| && p <= pri[x] && p <= RECURSION_LIMIT && !g.items[x].installed
      modifies `pri
      ensures Valid() && NeverLower(old(pri), pri)
      ensures Ranked(g, false, h) && AtMost(old(pri), h) ==>
        Kept(g, false, h, h[x] + 1, old(pri), pri) && AllOusted(g, x, g.items[x].conflicts, pri)
      ensures g.items[x].conflicts == [] ==> pri == old(pri)
      decreases RECURSION_LIMIT + 1 - p, 2
    {
      hide Kept, Settled, AtMost, AllOusted;
      var uids, a := g.items[x].conflicts, 0;
      ghost var ok := Ranked(g, false, h) && AtMost(pri, h);
      assert ok ==> |h| == |g.items|;
      hide Ranked;
      if ok {
        KeptSelf(g, false, h, h[x] + 1, pri);
        NoneOusted(g, x, pri);
      }
      while a < |uids|
        invariant 0 <= a <= |uids| && Valid() && NeverLower(old(pri), pri)
        invariant ok ==> Kept(g, false, h, h[x] + 1, old(pri), pri)
        invariant ok ==> AllOusted(g, x, uids[..a], pri)
        invariant a == 0 ==> pri == old(pri)
      {
        ghost var before := pri;
        if ok { KeptAtMost(g, false, h, h[x] + 1, old(pri), pri); }
        OustChain(x, uids[a], p, h);
        if ok {
          KeptTwice(g, false, h, h[x] + 1, old(pri), before, pri);
          KeptBelow(g, false, h, h[x] + 1, before, pri, x);
          MoreOusted(g, x, uids, a, before, pri);
        }
        a := a + 1;
      }
      assert uids[..a] == uids;
    }

    method OustChain(x: nat, uid: string, ghost p: nat, ghost h: seq<nat>)
      requires Valid() && x < |g.items| && p <= pri[x] && p <= RECURSION_LIMIT
      requires !g.items[x].installed && uid in g.items[x].conflicts
      modifies `pri
      ensures Valid() && NeverLower(old(pri), pri)
      ensures Ranked(g, false, h) && AtMost(old(pri), h) ==>
        Kept(g, false, h, h[x] + 1, old(pri), pri) && AllOusted(g, x, [uid], pri)
      decreases RECURSION_LIMIT + 1 - p, 1
    {
      hide Kept, Settled, AtMost, GoodGraph;
      ghost var ok := Ranked(g, false, h) && AtMost(pri, h);
      assert ok ==> |h| == |g.items|;
      hide Ranked;
      ChainNamed(g, uid);
      assert uid !in g.chains ==> forall y: nat :: !Named(g, uid, y);
      assert forall m: nat :: NamesOneOf(g, [uid], m) ==> Named(g, uid, m);
      if ok { KeptSelf(g, false, h, h[x] + 1, pri); }
      if uid !in g.chains {
        return;
      }
      var chain, b := g.chains[uid], 0;
      assert forall i :: 0 <= i < |chain| ==> Named(g, uid, ChainOf(g, uid)[i]) && chain[i] < |g.items|;
      while b < |chain|
        invariant 0 <= b <= |chain| && Valid() && NeverLower(old(pri), pri)
        invariant ok ==> Kept(g, false, h, h[x] + 1, old(pri), pri) && pri[x] == old(pri[x])
        invariant ok ==> forall i :: 0 <= i < b ==> !g.items[chain[i]].installed || pri[x] < pri[chain[i]]
      {
        ghost var before := pri;
        if ok { KeptAtMost(g, false, h, h[x] + 1, old(pri), pri); }
        OustOne(x, chain[b], p, h);
        if ok { KeptTwice(g, false, h, h[x] + 1, old(pri), before, pri); }
        b := b + 1;
      }
    }

    method OustOne(x: nat, cur: nat, ghost p: nat, ghost h: seq<nat>)
      requires Valid() && x < |g.items| && cur < |g.items| && p <= pri[x] && p <= RECURSION_LIMIT
      requires !g.items[x].installed && NamesOneOf(g, g.items[x].conflicts, cur)
      modifies `pri
      ensures Valid() && NeverLower(old(pri), pri)
      ensures Ranked(g, false, h) && AtMost(old(pri), h) ==>
        && Kept(g, false, h, h[x] + 1, old(pri), pri) && pri[x] == old(pri[x])
        && (g.items[cur].installed ==> pri[x] < pri[cur])
      decreases RECURSION_LIMIT + 1 - p, 0
    {
      hide Kept, Settled, AtMost, GoodGraph;
      ghost var ok := Ranked(g, false, h) && AtMost(pri, h);
      assert ok ==> |h| == |g.items|;
      hide Ranked;
      if ok { KeptSelf(g, false, h, h[x] + 1, pri); }
      if g.items[cur].installed && pri[cur] <= pri[x] {
        if ok {
          AtMostAt(pri, h, x);
          FitsOusted(g, h, x, pri[x], cur);
        }
        UpdateItem(cur, pri[x] + 1, Conflict, h, if ok then h[x] + 1 else 0);
        if ok {
          KeptBelow(g, false, h, h[x] + 1, old(pri), pri, x);
          FirstOfTail(g, Conflict, cur, old(pri[x]) + 1, old(pri), pri);
        }
      }
    }
  }
}
