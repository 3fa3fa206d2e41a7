/** The clauses of the whole universe and what they mean: an assignment satisfies
    them exactly if the set of packages it chooses is a sound plan. */
module SolverMeaning {
  import opened SolverSpec

  // ----- the clauses of one variable, and of all -----

  function DependsClauses(p: Problem, i: nat, groups: seq<seq<string>>): seq<Clause>
  {
    if groups == [] then []
    else DependClauses(p, i, groups[|groups| - 1]) + DependsClauses(p, i, groups[..|groups| - 1])
  }

  function ConflictsClauses(p: Problem, i: nat, cs: seq<Conflict>): seq<Clause>
    requires i < |p.vars| && Chained(p)
  {
    if cs == [] then []
    else
      var c := cs[|cs| - 1];
      ConflictClauses(p, i, c, ChainOf(p, c.uid)) + ConflictsClauses(p, i, cs[..|cs| - 1])
  }

  function RequiresClauses(p: Problem, i: nat, rs: seq<string>): seq<Clause>
    requires i < |p.vars| && Chained(p)
  {
    if rs == [] then []
    else RequireClauses(p, i, rs[|rs| - 1]) + RequiresClauses(p, i, rs[..|rs| - 1])
  }

  /** Does the variable come first in the chain of its uid? */
  predicate Heads(p: Problem, k: nat)
    requires k < |p.vars|
  {
    ChainOf(p, p.vars[k].uid) != [] && ChainOf(p, p.vars[k].uid)[0] == k
  }

  function CandidatesOf(requests: map<string, seq<nat>>, uid: string): seq<nat>
  {
    if uid in requests then requests[uid] else []
  }

  predicate Candidate(p: Problem, k: nat)
    requires k < |p.vars|
  {
    k in CandidatesOf(p.adds, p.vars[k].uid) || k in CandidatesOf(p.deletes, p.vars[k].uid)
  }

  /** The requests of a chain are taken up at its head, and again at every variable
      that is not itself a candidate. */
  predicate TakesUpRequests(p: Problem, k: nat)
    requires k < |p.vars|
  {
    Heads(p, k) || !Candidate(p, k)
  }

  function RequestsClauses(p: Problem, k: nat): seq<Clause>
    requires k < |p.vars|
  {
    if TakesUpRequests(p, k) then
      RequestClauses(p, p.vars[k].uid, p.deletes, false) + RequestClauses(p, p.vars[k].uid, p.adds, true)
    else []
  }

  function ChainClauses(p: Problem, k: nat): seq<Clause>
    requires k < |p.vars|
  {
    var chain := ChainOf(p, p.vars[k].uid);
    if Heads(p, k) && |chain| > 1 then PairClauses(chain, |chain|) else []
  }

  function VarClauses(p: Problem, k: nat): seq<Clause>
    requires k < |p.vars| && Chained(p)
  {
    ChainClauses(p, k) +
    (RequiresClauses(p, k, p.vars[k].requirements) +
     (RequiresClauses(p, k, p.vars[k].shlibsRequired) +
      (ConflictsClauses(p, k, p.vars[k].conflicts) +
       (DependsClauses(p, k, p.vars[k].depends) + RequestsClauses(p, k)))))
  }

  /** The clauses of the first n variables, the last added first. */
  function AllClauses(p: Problem, n: nat): seq<Clause>
    requires n <= |p.vars| && Chained(p)
  {
    if n == 0 then [] else VarClauses(p, n - 1) + AllClauses(p, n - 1)
  }

  /** What the solver is told to assume: the first candidate of each request. */
  function RequestAssumption(uid: string, requests: map<string, seq<nat>>, install: bool): seq<int>
  {
    var ks := CandidatesOf(requests, uid);
    if ks == [] then [] else [if install then Yes(ks[0]) else No(ks[0])]
  }

  function AssumptionsAt(p: Problem, k: nat): seq<int>
    requires k < |p.vars|
  {
    if TakesUpRequests(p, k) then
      RequestAssumption(p.vars[k].uid, p.adds, true) + RequestAssumption(p.vars[k].uid, p.deletes, false)
    else []
  }

  function Assumptions(p: Problem, n: nat): seq<int>
    requires n <= |p.vars|
  {
    if n == 0 then [] else Assumptions(p, n - 1) + AssumptionsAt(p, n - 1)
  }

  ghost predicate AllHold(lits: seq<int>, s: seq<bool>)
  {
    forall i :: 0 <= i < |lits| ==> Holds(lits[i], s)
  }

  // ----- what a sound plan is -----

  /** At most one package of each uid is chosen. */
  ghost predicate OnePerUid(p: Problem, s: seq<bool>)
    requires |s| == |p.vars|
  {
    forall j, k :: 0 <= j < k < |s| && p.vars[j].uid == p.vars[k].uid ==> !(s[j] && s[k])
  }

  ghost predicate DependsMet(p: Problem, s: seq<bool>, i: nat)
    requires |s| == |p.vars| && i < |s|
  {
    forall g :: 0 <= g < |p.vars[i].depends| ==> DependMet(p, s, i, p.vars[i].depends[g])
  }

  ghost predicate ConflictsMet(p: Problem, s: seq<bool>, i: nat)
    requires |s| == |p.vars| && i < |s|
  {
    forall c :: 0 <= c < |p.vars[i].conflicts| ==> ConflictMet(p, s, i, p.vars[i].conflicts[c])
  }

  ghost predicate RequiresMet(p: Problem, s: seq<bool>, i: nat, rs: seq<string>)
    requires |s| == |p.vars| && i < |s|
  {
    forall r :: 0 <= r < |rs| ==> RequireMet(p, s, i, rs[r])
  }

  ghost predicate RequestsMet(p: Problem, s: seq<bool>, uid: string)
    requires |s| == |p.vars| && Good(p)
  {
    RequestMet(p, s, uid, p.adds, true) && RequestMet(p, s, uid, p.deletes, false)
  }

  /** The relations of one package. */
  ghost predicate PackageOk(p: Problem, s: seq<bool>, i: nat)
    requires |s| == |p.vars| && i < |s|
  {
    && DependsMet(p, s, i) && ConflictsMet(p, s, i)
    && RequiresMet(p, s, i, p.vars[i].shlibsRequired) && RequiresMet(p, s, i, p.vars[i].requirements)
  }

  ghost predicate PlanOk(p: Problem, s: seq<bool>)
    requires |s| == |p.vars| && Good(p)
  {
    && OnePerUid(p, s)
    && (forall i :: 0 <= i < |s| ==> PackageOk(p, s, i))
    && (forall u :: u in p.byUid ==> RequestsMet(p, s, u))
  }

  // ----- clauses and meaning, list by list -----

  lemma {:induction false} DependsClausesMean(p: Problem, i: nat, groups: seq<seq<string>>, s: seq<bool>)
    requires Good(p) && |s| == |p.vars| && i < |s|
    ensures SatAll(DependsClauses(p, i, groups), s) <==>
      forall g :: 0 <= g < |groups| ==> DependMet(p, s, i, groups[g])
  {
    hide DependMet, DependClauses;
    if groups != [] {
      var last, init := groups[|groups| - 1], groups[..|groups| - 1];
      DependsClausesMean(p, i, init, s);
      DependClausesMean(p, i, last, s);
      SatAllConcat(DependClauses(p, i, last), DependsClauses(p, i, init), s);
      hide SatAll;
      assert forall g :: 0 <= g < |init| ==> groups[g] == init[g];
    }
  }

  lemma {:induction false} ConflictsClausesMean(p: Problem, i: nat, cs: seq<Conflict>, s: seq<bool>)
    requires Good(p) && Chained(p) && |s| == |p.vars| && i < |s|
    ensures SatAll(ConflictsClauses(p, i, cs), s) <==>
      forall c :: 0 <= c < |cs| ==> ConflictMet(p, s, i, cs[c])
  {
    hide ConflictMet, ConflictClauses;
    if cs != [] {
      var last, init := cs[|cs| - 1], cs[..|cs| - 1];
      ConflictsClausesMean(p, i, init, s);
      ConflictClausesMean(p, i, last, s);
      SatAllConcat(ConflictClauses(p, i, last, ChainOf(p, last.uid)), ConflictsClauses(p, i, init), s);
      hide SatAll;
      assert forall c :: 0 <= c < |init| ==> cs[c] == init[c];
    }
  }

  lemma {:induction false} RequiresClausesMean(p: Problem, i: nat, rs: seq<string>, s: seq<bool>)
    requires Good(p) && Chained(p) && |s| == |p.vars| && i < |s|
    ensures SatAll(RequiresClauses(p, i, rs), s) <==> RequiresMet(p, s, i, rs)
  {
    hide RequireMet, RequireClauses;
    if rs != [] {
      var last, init := rs[|rs| - 1], rs[..|rs| - 1];
      RequiresClausesMean(p, i, init, s);
      RequireClausesMean(p, i, last, s);
      SatAllConcat(RequireClauses(p, i, last), RequiresClauses(p, i, init), s);
      hide SatAll;
      assert forall r :: 0 <= r < |init| ==> rs[r] == init[r];
    }
  }

  lemma ChainClausesMean(p: Problem, k: nat, s: seq<bool>)
    requires Good(p) && |s| == |p.vars| && k < |s|
    ensures Below(ChainOf(p, p.vars[k].uid), |s|)
    ensures SatAll(ChainClauses(p, k), s) <==> (Heads(p, k) ==> AtMostOne(ChainOf(p, p.vars[k].uid), s))
  {
    PairClausesMean(ChainOf(p, p.vars[k].uid), s);
  }

  lemma RequestsClausesMean(p: Problem, k: nat, s: seq<bool>)
    requires Good(p) && |s| == |p.vars| && k < |s|
    ensures SatAll(RequestsClauses(p, k), s) <==> (TakesUpRequests(p, k) ==> RequestsMet(p, s, p.vars[k].uid))
  {
    var u := p.vars[k].uid;
    RequestClausesMean(p, s, u, p.deletes, false);
    RequestClausesMean(p, s, u, p.adds, true);
    var d, a := RequestClauses(p, u, p.deletes, false), RequestClauses(p, u, p.adds, true);
    SatAllConcat(d, a, s);
    assert !TakesUpRequests(p, k) ==> RequestsClauses(p, k) == [];
    hide RequestMet, RequestClauses, Good, TakesUpRequests;
  }

  /** What the clauses added for one variable say. */
  ghost predicate VarOk(p: Problem, s: seq<bool>, k: nat)
    requires |s| == |p.vars| && k < |s| && Good(p)
  {
    && (Heads(p, k) ==> Below(ChainOf(p, p.vars[k].uid), |s|) && AtMostOne(ChainOf(p, p.vars[k].uid), s))
    && PackageOk(p, s, k)
    && (TakesUpRequests(p, k) ==> RequestsMet(p, s, p.vars[k].uid))
  }

  lemma GoodIsChained(p: Problem)
    requires Good(p)
    ensures Chained(p)
  {
  }

  lemma VarClausesMean(p: Problem, k: nat, s: seq<bool>)
    requires Good(p) && Chained(p) && |s| == |p.vars| && k < |s|
    ensures SatAll(VarClauses(p, k), s) <==> VarOk(p, s, k)
  {
    var v := p.vars[k];
    ChainClausesMean(p, k, s);
    RequestsClausesMean(p, k, s);
    DependsClausesMean(p, k, v.depends, s);
    ConflictsClausesMean(p, k, v.conflicts, s);
    RequiresClausesMean(p, k, v.shlibsRequired, s);
    RequiresClausesMean(p, k, v.requirements, s);
    hide RequestsMet, RequireMet, DependMet, ConflictMet, Heads, TakesUpRequests, Chained, Good, AtMostOne, Below;
    hide ChainClauses, RequestsClauses, DependsClauses, ConflictsClauses, RequiresClauses;
    var r1 := RequestsClauses(p, k);
    var r2 := DependsClauses(p, k, v.depends) + r1;
    var r3 := ConflictsClauses(p, k, v.conflicts) + r2;
    var r4 := RequiresClauses(p, k, v.shlibsRequired) + r3;
    var r5 := RequiresClauses(p, k, v.requirements) + r4;
    SatAllConcat(DependsClauses(p, k, v.depends), r1, s);
    SatAllConcat(ConflictsClauses(p, k, v.conflicts), r2, s);
    SatAllConcat(RequiresClauses(p, k, v.shlibsRequired), r3, s);
    SatAllConcat(RequiresClauses(p, k, v.requirements), r4, s);
    SatAllConcat(ChainClauses(p, k), r5, s);
    hide SatAll;
  }

  lemma {:induction false} AllClausesMeanUpTo(p: Problem, n: nat, s: seq<bool>)
    requires Good(p) && Chained(p) && |s| == |p.vars| && n <= |s|
    ensures SatAll(AllClauses(p, n), s) <==> forall k :: 0 <= k < n ==> VarOk(p, s, k)
  {
    hide VarClauses, VarOk, Chained, Good;
    if n > 0 {
      AllClausesMeanUpTo(p, n - 1, s);
      VarClausesMean(p, n - 1, s);
      SatAllConcat(VarClauses(p, n - 1), AllClauses(p, n - 1), s);
      hide SatAll;
    }
  }

  /** The encoding is exact: an assignment satisfies the clauses if and only if the
      packages it chooses are at most one for each uid, meet every dependency and
      requirement that the universe can meet, hold no conflicting pair, and answer
      the requests. */
  lemma EncodingIsExact(p: Problem, s: seq<bool>)
    requires Good(p) && |s| == |p.vars|
    ensures Chained(p) && (SatAll(AllClauses(p, |p.vars|), s) <==> PlanOk(p, s))
  {
    GoodIsChained(p);
    AllClausesMeanUpTo(p, |p.vars|, s);
    if forall k :: 0 <= k < |s| ==> VarOk(p, s, k) {
      AllVarsOk(p, s);
    }
    if PlanOk(p, s) {
      forall k | 0 <= k < |s|
        ensures VarOk(p, s, k)
      {
        PlanVarOk(p, s, k);
      }
    }
  }

  lemma PlanVarOk(p: Problem, s: seq<bool>, k: nat)
    requires Good(p) && |s| == |p.vars| && PlanOk(p, s) && k < |s|
    ensures VarOk(p, s, k)
  {
    var chain := ChainOf(p, p.vars[k].uid);
    hide PackageOk, RequestsMet, TakesUpRequests;
    assert p.vars[k].uid in p.byUid;
    forall i, j | 0 <= i < j < |chain|
      ensures !(s[chain[i]] && s[chain[j]])
    {
      assert chain[i] < chain[j];
    }
  }

  lemma AllVarsOk(p: Problem, s: seq<bool>)
    requires Good(p) && |s| == |p.vars|
    requires forall k :: 0 <= k < |s| ==> VarOk(p, s, k)
    ensures PlanOk(p, s)
  {
    hide PackageOk, RequestsMet;
    assert forall k :: 0 <= k < |s| ==> VarOk(p, s, k) && PackageOk(p, s, k);
    forall u | u in p.byUid
      ensures RequestsMet(p, s, u)
    {
      var k := p.byUid[u][0];
      assert VarOk(p, s, k) && Heads(p, k);
    }
    forall j, k | 0 <= j < k < |s| && p.vars[j].uid == p.vars[k].uid
      ensures !(s[j] && s[k])
    {
      var chain := p.byUid[p.vars[j].uid];
      var a :| 0 <= a < |chain| && chain[a] == j;
      var b :| 0 <= b < |chain| && chain[b] == k;
      assert VarOk(p, s, chain[0]) && Heads(p, chain[0]);
      assert AtMostOne(chain, s);
    }
  }

  // ----- the assumptions -----

  /** The first candidate of the request is installed, or not. */
  ghost predicate FirstAnswered(p: Problem, s: seq<bool>, uid: string, requests: map<string, seq<nat>>, install: bool)
    requires |s| == |p.vars| && Good(p) && (requests == p.adds || requests == p.deletes)
  {
    uid in requests && uid in p.byUid ==> s[requests[uid][0]] == install
  }

  lemma AllHoldConcat(a: seq<int>, b: seq<int>, s: seq<bool>)
    ensures AllHold(a + b, s) <==> AllHold(a, s) && AllHold(b, s)
  {
    if AllHold(a + b, s) {
      assert forall i :: 0 <= i < |a| ==> a[i] == (a + b)[i];
      assert forall i :: 0 <= i < |b| ==> b[i] == (a + b)[|a| + i];
    }
  }

  lemma RequestAssumptionMeans(p: Problem, s: seq<bool>, k: nat, requests: map<string, seq<nat>>, install: bool)
    requires Good(p) && |s| == |p.vars| && k < |s| && (requests == p.adds || requests == p.deletes)
    ensures AllHold(RequestAssumption(p.vars[k].uid, requests, install), s) <==>
      FirstAnswered(p, s, p.vars[k].uid, requests, install)
  {
    var u := p.vars[k].uid;
    if u in requests {
      assert GoodRequest(p.byUid[u], requests[u]);
      var a := RequestAssumption(u, requests, install);
      assert a == [if install then Yes(requests[u][0]) else No(requests[u][0])];
      assert AllHold(a, s) <==> Holds(a[0], s);
    }
  }

  ghost predicate BothAnswered(p: Problem, s: seq<bool>, uid: string)
    requires |s| == |p.vars| && Good(p)
  {
    FirstAnswered(p, s, uid, p.adds, true) && FirstAnswered(p, s, uid, p.deletes, false)
  }

  ghost predicate AnsweredAt(p: Problem, s: seq<bool>, k: nat)
    requires |s| == |p.vars| && Good(p) && k < |s|
  {
    TakesUpRequests(p, k) ==> BothAnswered(p, s, p.vars[k].uid)
  }

  ghost predicate AllAnswered(p: Problem, s: seq<bool>, n: nat)
    requires |s| == |p.vars| && Good(p) && n <= |s|
  {
    forall k :: 0 <= k < n ==> AnsweredAt(p, s, k)
  }

  lemma AssumptionsAtMean(p: Problem, k: nat, s: seq<bool>)
    requires Good(p) && |s| == |p.vars| && k < |s|
    ensures AllHold(AssumptionsAt(p, k), s) <==> AnsweredAt(p, s, k)
  {
    var u := p.vars[k].uid;
    RequestAssumptionMeans(p, s, k, p.adds, true);
    RequestAssumptionMeans(p, s, k, p.deletes, false);
    AllHoldConcat(RequestAssumption(u, p.adds, true), RequestAssumption(u, p.deletes, false), s);
    hide RequestAssumption, FirstAnswered, Good, TakesUpRequests;
  }

  lemma {:induction false} AssumptionsMeanUpTo(p: Problem, n: nat, s: seq<bool>)
    requires Good(p) && |s| == |p.vars| && n <= |s|
    ensures AllHold(Assumptions(p, n), s) <==> AllAnswered(p, s, n)
  {
    hide Good, AnsweredAt, AssumptionsAt;
    if n == 0 {
      return;
    }
    assert AllAnswered(p, s, n) <==> AllAnswered(p, s, n - 1) && AnsweredAt(p, s, n - 1);
    assert Assumptions(p, n) == Assumptions(p, n - 1) + AssumptionsAt(p, n - 1);
    hide *;
    AssumptionsMeanUpTo(p, n - 1, s);
    AssumptionsAtMean(p, n - 1, s);
    AllHoldConcat(Assumptions(p, n - 1), AssumptionsAt(p, n - 1), s);
  }

  /** The assumptions hold if and only if every request is answered by its first candidate. */
  lemma AssumptionsAreExact(p: Problem, s: seq<bool>)
    requires Good(p) && |s| == |p.vars|
    ensures AllHold(Assumptions(p, |p.vars|), s) <==> forall u :: u in p.byUid ==> BothAnswered(p, s, u)
  {
    AssumptionsMeanUpTo(p, |p.vars|, s);
    if AllAnswered(p, s, |s|) {
      forall u | u in p.byUid
        ensures BothAnswered(p, s, u)
      {
        var k := p.byUid[u][0];
        assert AnsweredAt(p, s, k) && Heads(p, k);
      }
    }
  }
}
