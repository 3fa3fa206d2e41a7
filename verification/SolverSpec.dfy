/** The dependency problem as clauses (libpkg/pkg_solve.c): what each clause says,
    and what an assignment that satisfies them guarantees. */
module SolverSpec {

  datatype ConflictKind = AnyConflict | RemoteLocal | RemoteRemote

  /** A conflict with packages of a uid; `digest` is "" when any digest matches. */
  datatype Conflict = Conflict(uid: string, kind: ConflictKind, digest: string)

  /** `depends` is a list of groups; the uids of a group are alternatives. */
  datatype Package = Package(
    uid: string, digest: string, arch: string, installed: bool,
    depends: seq<seq<string>>, conflicts: seq<Conflict>,
    shlibsRequired: seq<string>, requirements: seq<string>,
    shlibsProvided: set<string>, provided: set<string>)

  /** An entry of the universe's table of provides: the uid of a chain, and whether
      a shared library is meant. */
  datatype Provider = Provider(uid: string, isShlib: bool)

  /** What the clauses are built from: the package of each variable, the variables
      of each uid, the table of provides, and the requests with their candidates. */
  datatype Problem = Problem(
    vars: seq<Package>, byUid: map<string, seq<nat>>, providers: map<string, seq<Provider>>,
    adds: map<string, seq<nat>>, deletes: map<string, seq<nat>>)

  /** The index by uid is right: each chain lists, in order, the variables of its
      uid and no others. */
  ghost predicate Indexed(vars: seq<Package>, byUid: map<string, seq<nat>>)
  {
    && (forall k :: 0 <= k < |vars| ==> vars[k].uid in byUid && k in byUid[vars[k].uid])
    && (forall u, i :: u in byUid && 0 <= i < |byUid[u]| ==> byUid[u][i] < |vars| && vars[byUid[u][i]].uid == u)
    && (forall u, i, j :: u in byUid && 0 <= i < j < |byUid[u]| ==> byUid[u][i] < byUid[u][j])
    && (forall u :: u in byUid ==> byUid[u] != [])
  }

  /** A request lists distinct candidates of its uid, none before the first one in
      the chain: the source asserts that it finds them walking on from there. */
  ghost predicate GoodRequests(p: Problem, requests: map<string, seq<nat>>)
  {
    forall u :: u in requests && u in p.byUid ==> GoodRequest(p.byUid[u], requests[u])
  }

  ghost predicate GoodRequest(chain: seq<nat>, ks: seq<nat>)
  {
    && ks != []
    && (forall i :: 0 <= i < |ks| ==> ks[i] in chain && ks[0] <= ks[i])
    && (forall i, j :: 0 <= i < j < |ks| ==> ks[i] != ks[j])
  }

  /** All of some variables are among the first n. */
  ghost predicate Below(ks: seq<nat>, n: nat)
  {
    forall i :: 0 <= i < |ks| ==> ks[i] < n
  }

  ghost predicate Good(p: Problem)
  {
    Indexed(p.vars, p.byUid) && GoodRequests(p, p.adds) && GoodRequests(p, p.deletes)
  }

  function ChainOf(p: Problem, uid: string): seq<nat>
  {
    if uid in p.byUid then p.byUid[uid] else []
  }

  // ----- clauses -----

  /** A literal is the variable's number, counted from 1, negated for "not". */
  type Clause = seq<int>

  function Yes(k: nat): int
  {
    k + 1
  }

  function No(k: nat): int
  {
    -(k + 1)
  }

  ghost predicate Holds(lit: int, s: seq<bool>)
  {
    (0 < lit <= |s| && s[lit - 1]) || (-|s| <= lit < 0 && !s[-lit - 1])
  }

  ghost predicate Sat(c: Clause, s: seq<bool>)
  {
    exists i :: 0 <= i < |c| && Holds(c[i], s)
  }

  ghost predicate SatAll(rules: seq<Clause>, s: seq<bool>)
  {
    forall i :: 0 <= i < |rules| ==> Sat(rules[i], s)
  }

  lemma SatAllConcat(a: seq<Clause>, b: seq<Clause>, s: seq<bool>)
    ensures SatAll(a + b, s) <==> SatAll(a, s) && SatAll(b, s)
  {
    if SatAll(a + b, s) {
      forall i | 0 <= i < |a|
        ensures Sat(a[i], s)
      {
        assert (a + b)[i] == a[i];
      }
      forall i | 0 <= i < |b|
        ensures Sat(b[i], s)
      {
        assert (a + b)[|a| + i] == b[i];
      }
    }
  }

  lemma SatAllOne(c: Clause, s: seq<bool>)
    ensures SatAll([c], s) <==> Sat(c, s)
  {
    assert [c][0] == c;
  }

  lemma SatConcat(c: Clause, d: Clause, s: seq<bool>)
    ensures Sat(c + d, s) <==> Sat(c, s) || Sat(d, s)
  {
    if i :| 0 <= i < |c| && Holds(c[i], s) {
      assert Holds((c + d)[i], s);
    }
    if i :| 0 <= i < |d| && Holds(d[i], s) {
      assert Holds((c + d)[|c| + i], s);
    }
  }

  lemma SatOne(lit: int, s: seq<bool>)
    ensures Sat([lit], s) <==> Holds(lit, s)
  {
    assert Holds(lit, s) ==> Holds([lit][0], s);
  }

  /** One of some variables. */
  function AnyOf(ks: seq<nat>): Clause
  {
    seq(|ks|, i requires 0 <= i < |ks| => Yes(ks[i]))
  }

  function NoneIsFalse(ks: seq<nat>): Clause
  {
    seq(|ks|, i requires 0 <= i < |ks| => No(ks[i]))
  }

  lemma AnyOfMeans(ks: seq<nat>, s: seq<bool>)
    requires Below(ks, |s|)
    ensures Sat(AnyOf(ks), s) <==> exists k :: k in ks && s[k]
    ensures Sat(NoneIsFalse(ks), s) <==> exists k :: k in ks && !s[k]
  {
    if k :| k in ks && s[k] {
      var i :| 0 <= i < |ks| && ks[i] == k;
      assert Holds(AnyOf(ks)[i], s);
    }
    if k :| k in ks && !s[k] {
      var i :| 0 <= i < |ks| && ks[i] == k;
      assert Holds(NoneIsFalse(ks)[i], s);
    }
    if i :| 0 <= i < |AnyOf(ks)| && Holds(AnyOf(ks)[i], s) {
      assert ks[i] in ks && s[ks[i]];
    }
    if i :| 0 <= i < |NoneIsFalse(ks)| && Holds(NoneIsFalse(ks)[i], s) {
      assert ks[i] in ks && !s[ks[i]];
    }
  }

  /** A choice that needs one of some others. */
  lemma ImpliesAnyMeans(i: nat, ks: seq<nat>, s: seq<bool>)
    requires i < |s| && Below(ks, |s|)
    ensures SatAll([[No(i)] + AnyOf(ks)], s) <==> (s[i] ==> exists k :: k in ks && s[k])
  {
    AnyOfMeans(ks, s);
    SatOne(No(i), s);
    SatConcat([No(i)], AnyOf(ks), s);
    SatAllOne([No(i)] + AnyOf(ks), s);
  }

  // ----- dependencies -----

  /** The variables of all alternatives of a group. */
  function Alternatives(p: Problem, group: seq<string>): seq<nat>
  {
    if group == [] then []
    else Alternatives(p, group[..|group| - 1]) + ChainOf(p, group[|group| - 1])
  }

  lemma {:induction false} AlternativesAre(p: Problem, group: seq<string>)
    requires Indexed(p.vars, p.byUid)
    ensures forall k :: k in Alternatives(p, group) <==> 0 <= k < |p.vars| && p.vars[k].uid in group
  {
    if group != [] {
      var init, last := group[..|group| - 1], group[|group| - 1];
      AlternativesAre(p, init);
      var rest := Alternatives(p, init);
      forall k
        ensures k in Alternatives(p, group) <==> 0 <= k < |p.vars| && p.vars[k].uid in group
      {
        assert k in Alternatives(p, group) <==> k in rest || k in ChainOf(p, last);
        if 0 <= k < |p.vars| {
          assert group == init + [last];
          assert k in ChainOf(p, last) <==> p.vars[k].uid == last;
        }
      }
    }
  }

  /** Some alternative of the group is in the universe. */
  predicate Known(p: Problem, group: seq<string>)
  {
    exists a :: 0 <= a < |group| && group[a] in p.byUid
  }

  /** (!A | B1 | B2 | ...): no clause if no alternative is in the universe. */
  function DependClauses(p: Problem, i: nat, group: seq<string>): seq<Clause>
  {
    if Known(p, group) then [[No(i)] + AnyOf(Alternatives(p, group))] else []
  }

  /** Package k is one of the alternatives of a group. */
  ghost predicate IsAlternative(p: Problem, group: seq<string>, k: nat)
  {
    k < |p.vars| && p.vars[k].uid in group
  }

  /** If the package is chosen, and the universe has alternatives, then one is chosen. */
  ghost predicate DependMet(p: Problem, s: seq<bool>, i: nat, group: seq<string>)
    requires |s| == |p.vars| && i < |s|
  {
    s[i] && (exists k: nat :: IsAlternative(p, group, k)) ==> exists k: nat :: IsAlternative(p, group, k) && s[k]
  }

  lemma KnownIff(p: Problem, group: seq<string>)
    requires Good(p)
    ensures Known(p, group) <==> exists k: nat :: IsAlternative(p, group, k)
  {
    if a :| 0 <= a < |group| && group[a] in p.byUid {
      assert IsAlternative(p, group, p.byUid[group[a]][0]);
    }
    if k: nat :| IsAlternative(p, group, k) {
      var a :| 0 <= a < |group| && group[a] == p.vars[k].uid;
      assert group[a] in p.byUid;
    }
  }

  lemma DependClausesMean(p: Problem, i: nat, group: seq<string>, s: seq<bool>)
    requires Good(p) && |s| == |p.vars| && i < |s|
    ensures SatAll(DependClauses(p, i, group), s) <==> DependMet(p, s, i, group)
  {
    KnownIff(p, group);
    if Known(p, group) {
      var ks := Alternatives(p, group);
      AlternativesAre(p, group);
      assert forall a :: 0 <= a < |ks| ==> ks[a] in ks;
      ImpliesAnyMeans(i, ks, s);
      assert forall k: nat :: IsAlternative(p, group, k) <==> k in ks;
    }
  }

  // ----- conflicts -----

  /** Does a conflict of package `a` speak of package `b` of the named uid? */
  predicate Applies(a: Package, c: Conflict, b: Package)
  {
    && (c.kind == RemoteLocal ==> a.installed != b.installed)
    && (c.kind == RemoteRemote ==> !a.installed && !b.installed)
    && (c.digest != "" ==> c.digest == b.digest)
  }

  /** (!A | !B) for each B of a chain that the conflict speaks of, the last first. */
  function ConflictClauses(p: Problem, i: nat, c: Conflict, chain: seq<nat>): seq<Clause>
    requires i < |p.vars| && Below(chain, |p.vars|)
  {
    if chain == [] then []
    else
      var k := chain[|chain| - 1];
      var rest := ConflictClauses(p, i, c, chain[..|chain| - 1]);
      if Applies(p.vars[i], c, p.vars[k]) then [[No(i), No(k)]] + rest else rest
  }

  /** The packages of which a conflict of a speaks: all of the uid, or those on the other
      side of the installed ones, or if none of the two is installed; with the digest if
      one is named. */
  ghost predicate SpeaksOf(a: Package, c: Conflict, b: Package)
  {
    && b.uid == c.uid
    && (c.digest == "" || b.digest == c.digest)
    && match c.kind
       case AnyConflict => true
       case RemoteLocal => (a.installed && !b.installed) || (!a.installed && b.installed)
       case RemoteRemote => !(a.installed || b.installed)
  }

  ghost predicate ConflictMet(p: Problem, s: seq<bool>, i: nat, c: Conflict)
    requires |s| == |p.vars| && i < |s|
  {
    forall k :: 0 <= k < |s| && SpeaksOf(p.vars[i], c, p.vars[k]) ==> !(s[i] && s[k])
  }

  lemma SatPair(j: nat, k: nat, s: seq<bool>)
    requires j < |s| && k < |s|
    ensures Sat([No(j), No(k)], s) <==> !(s[j] && s[k])
  {
    assert !s[j] ==> Holds([No(j), No(k)][0], s);
    assert !s[k] ==> Holds([No(j), No(k)][1], s);
  }

  lemma SatAllCons(c: Clause, rest: seq<Clause>, s: seq<bool>)
    ensures SatAll([c] + rest, s) <==> Sat(c, s) && SatAll(rest, s)
  {
    SatAllConcat([c], rest, s);
    SatAllOne(c, s);
  }

  lemma {:induction false} ConflictClausesMeanChain(p: Problem, i: nat, c: Conflict, chain: seq<nat>, s: seq<bool>)
    requires |s| == |p.vars| && i < |s| && Below(chain, |s|)
    ensures SatAll(ConflictClauses(p, i, c, chain), s) <==>
      forall k :: k in chain && Applies(p.vars[i], c, p.vars[k]) ==> !(s[i] && s[k])
  {
    if chain != [] {
      var last, init := chain[|chain| - 1], chain[..|chain| - 1];
      ConflictClausesMeanChain(p, i, c, init, s);
      SatPair(i, last, s);
      SatAllCons([No(i), No(last)], ConflictClauses(p, i, c, init), s);
      assert chain == init + [last];
    }
  }

  lemma ConflictClausesMean(p: Problem, i: nat, c: Conflict, s: seq<bool>)
    requires Good(p) && |s| == |p.vars| && i < |s|
    ensures Chained(p) && (SatAll(ConflictClauses(p, i, c, ChainOf(p, c.uid)), s) <==> ConflictMet(p, s, i, c))
  {
    ConflictClausesMeanChain(p, i, c, ChainOf(p, c.uid), s);
    assert forall k: nat :: k in ChainOf(p, c.uid) <==> k < |s| && p.vars[k].uid == c.uid;
  }

  // ----- requirements -----

  /** Does package `b` provide what package `a` requires? A shared library must be
      of the same architecture. */
  predicate Serves(a: Package, requirement: string, isShlib: bool, b: Package)
  {
    if isShlib then requirement in b.shlibsProvided && a.arch == b.arch else requirement in b.provided
  }

  /** The variables of a chain that serve, in order. */
  function Serving(p: Problem, i: nat, requirement: string, isShlib: bool, chain: seq<nat>): (r: seq<nat>)
    requires i < |p.vars| && Below(chain, |p.vars|)
    ensures forall k :: k in r <==> k in chain && Serves(p.vars[i], requirement, isShlib, p.vars[k])
  {
    if chain == [] then []
    else
      var k, init := chain[|chain| - 1], chain[..|chain| - 1];
      var rest := Serving(p, i, requirement, isShlib, init);
      assert chain == init + [k];
      if Serves(p.vars[i], requirement, isShlib, p.vars[k]) then rest + [k] else rest
  }

  function ServingAny(p: Problem, i: nat, requirement: string, ps: seq<Provider>): (r: seq<nat>)
    requires i < |p.vars| && Chained(p)
    ensures forall k :: k in r <==> exists a ::
        0 <= a < |ps| && k in ChainOf(p, ps[a].uid) && Serves(p.vars[i], requirement, ps[a].isShlib, p.vars[k])
  {
    if ps == [] then []
    else
      var last, init := ps[|ps| - 1], ps[..|ps| - 1];
      ServingAny(p, i, requirement, init) + Serving(p, i, requirement, last.isShlib, ChainOf(p, last.uid))
  }

  /** Chains name variables. */
  ghost predicate Chained(p: Problem)
  {
    forall u :: u in p.byUid ==> Below(p.byUid[u], |p.vars|)
  }

  /** (!A | P1 | P2 | ...): no clause if nothing in the universe serves. */
  function RequireClauses(p: Problem, i: nat, requirement: string): seq<Clause>
    requires i < |p.vars| && Chained(p)
  {
    if requirement !in p.providers then []
    else
      var ks := ServingAny(p, i, requirement, p.providers[requirement]);
      if ks == [] then [] else [[No(i)] + AnyOf(ks)]
  }

  ghost predicate ServedBy(p: Problem, i: nat, requirement: string, pr: Provider, k: nat)
    requires i < |p.vars| && k < |p.vars|
  {
    && p.vars[k].uid == pr.uid
    && (pr.isShlib ==> requirement in p.vars[k].shlibsProvided && p.vars[k].arch == p.vars[i].arch)
    && (!pr.isShlib ==> requirement in p.vars[k].provided)
  }

  /** Package k is listed among the providers of the requirement, and serves package i. */
  ghost predicate CanServe(p: Problem, i: nat, requirement: string, k: nat)
    requires i < |p.vars|
  {
    && k < |p.vars| && requirement in p.providers
    && exists a :: 0 <= a < |p.providers[requirement]| && ServedBy(p, i, requirement, p.providers[requirement][a], k)
  }

  /** If the package is chosen, and something in the universe can serve it, then
      something that is chosen does. */
  ghost predicate RequireMet(p: Problem, s: seq<bool>, i: nat, requirement: string)
    requires |s| == |p.vars| && i < |s|
  {
    s[i] && (exists k: nat :: CanServe(p, i, requirement, k)) ==>
      exists k: nat :: CanServe(p, i, requirement, k) && s[k]
  }

  lemma ServingAnyIs(p: Problem, i: nat, requirement: string)
    requires Good(p) && i < |p.vars| && requirement in p.providers
    ensures Chained(p) && forall k: nat :: k in ServingAny(p, i, requirement, p.providers[requirement]) <==>
      CanServe(p, i, requirement, k)
  {
    assert forall u, k: nat :: k in ChainOf(p, u) <==> k < |p.vars| && p.vars[k].uid == u;
  }

  lemma RequireClausesMean(p: Problem, i: nat, requirement: string, s: seq<bool>)
    requires Good(p) && |s| == |p.vars| && i < |s|
    ensures Chained(p) && (SatAll(RequireClauses(p, i, requirement), s) <==> RequireMet(p, s, i, requirement))
  {
    if requirement in p.providers {
      var ks := ServingAny(p, i, requirement, p.providers[requirement]);
      ServingAnyIs(p, i, requirement);
      assert forall a :: 0 <= a < |ks| ==> ks[a] in ks;
      assert Below(ks, |s|);
      ServedMeans(p, i, requirement, ks, s);
      ImpliesAnyMeans(i, ks, s);
    }
  }

  lemma ServedMeans(p: Problem, i: nat, requirement: string, ks: seq<nat>, s: seq<bool>)
    requires |s| == |p.vars| && i < |s| && Below(ks, |s|)
    requires forall k: nat :: k in ks <==> CanServe(p, i, requirement, k)
    ensures RequireMet(p, s, i, requirement) <==> ks == [] || (s[i] ==> exists k :: k in ks && s[k])
  {
    hide CanServe;
    if ks != [] {
      assert ks[0] in ks;
      if k: nat :| CanServe(p, i, requirement, k) && s[k] {
        assert k in ks;
      }
    }
  }

  // ----- requests and chains -----

  /** (!X | !Y) for each Y of a list, the last first. */
  function PairsWith(x: nat, ys: seq<nat>): seq<Clause>
  {
    if ys == [] then [] else [[No(x), No(ys[|ys| - 1])]] + PairsWith(x, ys[..|ys| - 1])
  }

  /** (!X | !Y) for each two of a list, X among the first `n`. */
  function PairClauses(ks: seq<nat>, n: nat): seq<Clause>
    requires n <= |ks|
  {
    if n == 0 then [] else PairsWith(ks[n - 1], ks[n..]) + PairClauses(ks, n - 1)
  }

  ghost predicate AtMostOne(ks: seq<nat>, s: seq<bool>)
    requires Below(ks, |s|)
  {
    forall i, j :: 0 <= i < j < |ks| ==> !(s[ks[i]] && s[ks[j]])
  }

  lemma {:induction false} PairsWithMean(x: nat, ys: seq<nat>, s: seq<bool>)
    requires x < |s| && Below(ys, |s|)
    ensures SatAll(PairsWith(x, ys), s) <==> forall y :: y in ys ==> !(s[x] && s[y])
  {
    if ys != [] {
      var last, init := ys[|ys| - 1], ys[..|ys| - 1];
      PairsWithMean(x, init, s);
      SatPair(x, last, s);
      SatAllCons([No(x), No(last)], PairsWith(x, init), s);
      assert ys == init + [last];
    }
  }

  lemma PairsFrom(ks: seq<nat>, n: nat, s: seq<bool>)
    requires 0 < n <= |ks| && Below(ks, |s|)
    ensures (forall y :: y in ks[n..] ==> !(s[ks[n - 1]] && s[y])) <==>
      forall j :: n - 1 < j < |ks| ==> !(s[ks[n - 1]] && s[ks[j]])
  {
    var ys := ks[n..];
    assert forall j :: 0 <= j < |ys| ==> ys[j] == ks[n + j];
    assert forall j :: n <= j < |ks| ==> ks[j] == ys[j - n] && ks[j] in ys;
  }

  lemma {:induction false} PairClausesMeanUpTo(ks: seq<nat>, n: nat, s: seq<bool>)
    requires n <= |ks| && Below(ks, |s|)
    ensures SatAll(PairClauses(ks, n), s) <==> forall i, j :: 0 <= i < n && i < j < |ks| ==> !(s[ks[i]] && s[ks[j]])
  {
    if n > 0 {
      var x, ys := ks[n - 1], ks[n..];
      PairClausesMeanUpTo(ks, n - 1, s);
      PairsWithMean(x, ys, s);
      SatAllConcat(PairsWith(x, ys), PairClauses(ks, n - 1), s);
      PairsFrom(ks, n, s);
    }
  }

  lemma PairClausesMean(ks: seq<nat>, s: seq<bool>)
    requires Below(ks, |s|)
    ensures SatAll(PairClauses(ks, |ks|), s) <==> AtMostOne(ks, s)
  {
    PairClausesMeanUpTo(ks, |ks|, s);
  }

  /** (A1 | ... | An), or of the negations for a deletion, and (!Ai | !Aj): only for
      several candidates the first of which heads its chain. */
  function RequestClauses(p: Problem, uid: string, requests: map<string, seq<nat>>, install: bool): seq<Clause>
  {
    if uid in requests && |requests[uid]| > 1 && ChainOf(p, uid) != [] && ChainOf(p, uid)[0] == requests[uid][0]
    then
      var ks := requests[uid];
      PairClauses(ks, |ks|) + [if install then AnyOf(ks) else NoneIsFalse(ks)]
    else []
  }

  ghost predicate RequestMet(p: Problem, s: seq<bool>, uid: string, requests: map<string, seq<nat>>, install: bool)
    requires |s| == |p.vars| && Good(p) && (requests == p.adds || requests == p.deletes)
  {
    uid in requests && uid in p.byUid && |requests[uid]| > 1 && p.byUid[uid][0] == requests[uid][0] ==>
      && AtMostOne(requests[uid], s)
      && exists k :: k in requests[uid] && s[k] == install
  }

  lemma RequestClausesMean(p: Problem, s: seq<bool>, uid: string, requests: map<string, seq<nat>>, install: bool)
    requires Good(p) && |s| == |p.vars| && (requests == p.adds || requests == p.deletes)
    ensures SatAll(RequestClauses(p, uid, requests, install), s) <==> RequestMet(p, s, uid, requests, install)
  {
    if uid in requests && uid in p.byUid && |requests[uid]| > 1 && p.byUid[uid][0] == requests[uid][0] {
      var ks := requests[uid];
      AnyOfMeans(ks, s);
      PairClausesMean(ks, s);
      var c := if install then AnyOf(ks) else NoneIsFalse(ks);
      SatAllConcat(PairClauses(ks, |ks|), [c], s);
      SatAllOne(c, s);
    }
  }
}
