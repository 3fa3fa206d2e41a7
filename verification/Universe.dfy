/** The universe of packages, chain by chain, and the variables that stand for them
    (libpkg/pkg_solve.c:806-874). */
module Universe {
  import opened SolverSpec

  /** The packages of a chain share a uid, and chains differ in it. */
  ghost predicate GoodUniverse(universe: seq<seq<Package>>)
  {
    && (forall c :: 0 <= c < |universe| ==> universe[c] != [])
    && (forall c, i :: 0 <= c < |universe| && 0 <= i < |universe[c]| ==> universe[c][i].uid == universe[c][0].uid)
    && (forall c, d :: 0 <= c < d < |universe| ==> universe[c][0].uid != universe[d][0].uid)
  }

  function Flatten(universe: seq<seq<Package>>): seq<Package>
  {
    if universe == [] then [] else Flatten(universe[..|universe| - 1]) + universe[|universe| - 1]
  }

  /** n variables from number `first` on. */
  function Consecutive(first: nat, n: nat): seq<nat>
  {
    seq(n, i requires 0 <= i < n => first + i)
  }

  function Index(universe: seq<seq<Package>>): map<string, seq<nat>>
    requires forall c :: 0 <= c < |universe| ==> universe[c] != []
  {
    if universe == [] then map[]
    else
      var init, last := universe[..|universe| - 1], universe[|universe| - 1];
      Index(init)[last[0].uid := Consecutive(|Flatten(init)|, |last|)]
  }

  lemma {:induction false} IndexKeys(universe: seq<seq<Package>>)
    requires forall c :: 0 <= c < |universe| ==> universe[c] != []
    ensures forall u :: u in Index(universe) <==> exists c :: 0 <= c < |universe| && universe[c][0].uid == u
  {
    if universe != [] {
      var init, last := universe[..|universe| - 1], universe[|universe| - 1];
      IndexKeys(init);
      assert universe == init + [last];
      forall u | exists c :: 0 <= c < |universe| && universe[c][0].uid == u
        ensures u in Index(universe)
      {
        var c :| 0 <= c < |universe| && universe[c][0].uid == u;
        if c < |init| {
          assert init[c][0].uid == u;
        }
      }
    }
  }

  /** The variables of a good universe are indexed right. */
  lemma {:induction false} IndexIsRight(universe: seq<seq<Package>>)
    requires GoodUniverse(universe)
    ensures Indexed(Flatten(universe), Index(universe))
  {
    if universe != [] {
      var init, last := universe[..|universe| - 1], universe[|universe| - 1];
      assert forall c :: 0 <= c < |init| ==> init[c] == universe[c];
      IndexIsRight(init);
      IndexKeys(init);
      assert last[0].uid !in Index(init);
      OneMoreChain(Flatten(init), Index(init), last, Consecutive(|Flatten(init)|, |last|));
    }
  }

  /** Adding a chain of a new uid keeps the index right. */
  lemma OneMoreChain(vars: seq<Package>, byUid: map<string, seq<nat>>, chain: seq<Package>, ks: seq<nat>)
    requires Indexed(vars, byUid) && chain != [] && chain[0].uid !in byUid
    requires forall i :: 0 <= i < |chain| ==> chain[i].uid == chain[0].uid
    requires ks == Consecutive(|vars|, |chain|)
    ensures Indexed(vars + chain, byUid[chain[0].uid := ks])
  {
    var vars', byUid' := vars + chain, byUid[chain[0].uid := ks];
    forall k | 0 <= k < |vars'|
      ensures vars'[k].uid in byUid' && k in byUid'[vars'[k].uid]
    {
      if k < |vars| {
        assert vars'[k] == vars[k];
      } else {
        assert vars'[k] == chain[k - |vars|] && ks[k - |vars|] == k;
      }
    }
  }

  function ProblemOf(universe: seq<seq<Package>>, providers: map<string, seq<Provider>>,
                     adds: map<string, seq<nat>>, deletes: map<string, seq<nat>>): Problem
    requires GoodUniverse(universe)
  {
    Problem(Flatten(universe), Index(universe), providers, adds, deletes)
  }

  lemma {:induction false} FlattenPrefix(universe: seq<seq<Package>>, c: nat)
    requires c <= |universe|
    ensures |Flatten(universe[..c])| <= |Flatten(universe)|
    ensures c < |universe| ==> |Flatten(universe[..c])| + |universe[c]| == |Flatten(universe[..c + 1])|
    decreases |universe| - c
  {
    if c == |universe| {
      assert universe[..c] == universe;
    } else {
      assert universe[..c + 1][..c] == universe[..c];
      FlattenPrefix(universe, c + 1);
    }
  }

  /** Chain c holds the variables that follow those of the chains before it. */
  lemma {:induction false} ChainIsConsecutive(universe: seq<seq<Package>>, c: nat)
    requires GoodUniverse(universe) && c < |universe|
    ensures universe[c][0].uid in Index(universe)
    ensures Index(universe)[universe[c][0].uid] == Consecutive(|Flatten(universe[..c])|, |universe[c]|)
    decreases |universe|
  {
    var init, last := universe[..|universe| - 1], universe[|universe| - 1];
    if c < |init| {
      assert forall d :: 0 <= d < |init| ==> init[d] == universe[d];
      ChainIsConsecutive(init, c);
      assert init[..c] == universe[..c];
      assert universe[c][0].uid != last[0].uid;
    }
  }
}
