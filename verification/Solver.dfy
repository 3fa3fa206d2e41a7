/** Turning the universe and the requests into clauses (libpkg/pkg_solve.c:349-874):
    the loops that build the variables and the rules, proved to build exactly the
    clauses of the specification. */
module Solver {
  import opened SolverSpec
  import opened SolverMeaning
  import opened Universe

  lemma AnyOfAppend(ks: seq<nat>, k: nat)
    ensures AnyOf(ks + [k]) == AnyOf(ks) + [Yes(k)]
    ensures NoneIsFalse(ks + [k]) == NoneIsFalse(ks) + [No(k)]
  {
  }

  lemma AnyOfConcat(ks: seq<nat>, js: seq<nat>)
    ensures AnyOf(ks + js) == AnyOf(ks) + AnyOf(js)
  {
  }

  lemma AnyOfLength(ks: seq<nat>)
    ensures |AnyOf(ks)| == |ks|
  {
  }

  ghost function Candidates(p: Problem, uid: string): set<nat>
  {
    (set k | k in CandidatesOf(p.adds, uid)) + (set k | k in CandidatesOf(p.deletes, uid))
  }

  /** The chain is that of a uid, and its variables are numbered from `first` on. */
  ghost predicate IsChain(p: Problem, first: nat, chain: seq<nat>)
    ensures IsChain(p, first, chain) ==> chain != [] && first + |chain| <= |p.vars|
  {
    && chain != [] && first + |chain| <= |p.vars| && chain == Consecutive(first, |chain|)
    && p.vars[first].uid in p.byUid && chain == p.byUid[p.vars[first].uid]
  }

  /** Before the variables of a chain are taken up, none of them is flagged; once the
      first is done, just the candidates are. None after the chain is. */
  ghost predicate FlagsRight(p: Problem, first: nat, n: nat, done: nat, top: set<nat>)
    requires first + n <= |p.vars|
  {
    && (forall k :: k in top ==> k < first + n)
    && (done == 0 ==> forall k :: k in top ==> k < first)
    && (done > 0 ==> forall k :: first <= k < first + n ==> (k in top <==> Candidate(p, k)))
  }

  lemma ChainMember(p: Problem, first: nat, chain: seq<nat>, b: nat)
    requires Good(p) && IsChain(p, first, chain) && b < |chain|
    ensures chain[b] == first + b && p.vars[first + b].uid == p.vars[first].uid
    ensures chain == ChainOf(p, p.vars[first + b].uid)
    ensures Heads(p, first + b) <==> b == 0
    ensures TakesUpRequests(p, first + b) <==> b == 0 || !Candidate(p, first + b)
  {
    assert p.vars[chain[b]].uid == p.vars[first].uid;
  }

  lemma FlagTells(p: Problem, first: nat, chain: seq<nat>, b: nat, top: set<nat>)
    requires Good(p) && IsChain(p, first, chain) && b < |chain| && FlagsRight(p, first, |chain|, b, top)
    ensures first + b in top <==> !TakesUpRequests(p, first + b)
  {
    ChainMember(p, first, chain, b);
  }

  lemma FlagsStayRight(p: Problem, first: nat, chain: seq<nat>, b: nat, top: set<nat>, top': set<nat>)
    requires Good(p) && IsChain(p, first, chain) && b < |chain| && FlagsRight(p, first, |chain|, b, top)
    requires TakesUpRequests(p, first + b) ==> top' == top + Candidates(p, p.vars[first + b].uid)
    requires !TakesUpRequests(p, first + b) ==> top' == top
    ensures FlagsRight(p, first, |chain|, b + 1, top')
  {
    ChainMember(p, first, chain, b);
    CandidatesOfChain(p, first, chain);
    hide Good, IsChain, TakesUpRequests, Candidates, Candidate;
  }

  lemma CandidatesOfChain(p: Problem, first: nat, chain: seq<nat>)
    requires Good(p) && IsChain(p, first, chain)
    ensures forall k :: k in Candidates(p, p.vars[first].uid) ==> first <= k < first + |chain|
    ensures forall k :: first <= k < first + |chain| ==> (k in Candidates(p, p.vars[first].uid) <==> Candidate(p, k))
  {
    var u := p.vars[first].uid;
    forall k | k in Candidates(p, u)
      ensures first <= k < first + |chain|
    {
      assert k in chain;
    }
    forall k | first <= k < first + |chain|
      ensures k in Candidates(p, u) <==> Candidate(p, k)
    {
      assert p.vars[chain[k - first]].uid == u;
    }
  }

  lemma NoFlags(p: Problem)
    ensures FlagsRight(p, 0, 0, 0, {})
  {
  }

  lemma NextChain(p: Problem, first: nat, n: nat, top: set<nat>)
    requires first + n <= |p.vars| && FlagsRight(p, first, 0, 0, top)
    ensures FlagsRight(p, first, n, 0, top)
  {
  }

  lemma ChainDone(p: Problem, first: nat, n: nat, top: set<nat>)
    requires first + n <= |p.vars| && FlagsRight(p, first, n, n, top)
    ensures FlagsRight(p, first + n, 0, 0, top)
  {
  }

  lemma ChainKnown(universe: seq<seq<Package>>, c: nat)
    requires GoodUniverse(universe) && c < |universe|
    ensures universe[c] != [] && universe[c][0].uid in Index(universe)
  {
    ChainIsConsecutive(universe, c);
  }

  lemma ChainOfUniverse(p: Problem, universe: seq<seq<Package>>, c: nat, first: nat, chain: seq<nat>)
    requires GoodUniverse(universe) && p.vars == Flatten(universe) && p.byUid == Index(universe)
    requires c < |universe| && first == |Flatten(universe[..c])|
    requires universe[c][0].uid in p.byUid && chain == p.byUid[universe[c][0].uid]
    ensures IsChain(p, first, chain) && first + |chain| == |Flatten(universe[..c + 1])|
  {
    ChainIsConsecutive(universe, c);
    FlattenPrefix(universe, c);
    FlattenPrefix(universe, c + 1);
    IndexIsRight(universe);
    assert p.byUid[universe[c][0].uid][0] == first;
  }

  lemma RequestsAreSane(p: Problem, k: nat)
    requires Good(p) && k < |p.vars|
    ensures p.vars[k].uid in p.byUid && p.byUid[p.vars[k].uid] != []
    ensures p.vars[k].uid in p.adds ==> p.adds[p.vars[k].uid] != []
    ensures p.vars[k].uid in p.deletes ==> p.deletes[p.vars[k].uid] != []
  {
  }

  lemma Assoc<T>(x: seq<T>, y: seq<T>, z: seq<T>)
    ensures (x + y) + z == x + (y + z)
  {
  }

  /** Clauses put in front one list after the other. */
  lemma PrependAll<T>(a: seq<T>, b: seq<T>, c: seq<T>, d: seq<T>, e: seq<T>, f: seq<T>, rest: seq<T>)
    ensures a + (b + (c + (d + (e + f)))) + rest == a + (b + (c + (d + (e + (f + rest)))))
  {
    Assoc(e, f, rest);
    Assoc(d, e + f, rest);
    Assoc(c, d + (e + f), rest);
    Assoc(b, c + (d + (e + f)), rest);
    Assoc(a, b + (c + (d + (e + f))), rest);
  }

  lemma NoAlternatives(p: Problem)
    ensures AnyOf(Alternatives(p, [])) == []
  {
  }

  lemma ServingNone(p: Problem, i: nat, requirement: string)
    requires i < |p.vars| && Chained(p)
    ensures AnyOf(ServingAny(p, i, requirement, [])) == []
  {
  }

  lemma ServingStep(p: Problem, i: nat, requirement: string, ps: seq<Provider>, a: nat)
    requires i < |p.vars| && Chained(p) && a < |ps|
    ensures Below(ChainOf(p, ps[a].uid), |p.vars|)
    ensures AnyOf(ServingAny(p, i, requirement, ps[..a + 1])) == AnyOf(ServingAny(p, i, requirement, ps[..a])) +
      AnyOf(Serving(p, i, requirement, ps[a].isShlib, ChainOf(p, ps[a].uid)))
  {
    assert ps[..a + 1][..a] == ps[..a];
    AnyOfConcat(ServingAny(p, i, requirement, ps[..a]),
                Serving(p, i, requirement, ps[a].isShlib, ChainOf(p, ps[a].uid)));
  }

  class SolveProblem {
    const universe: seq<seq<Package>>
    const providers: map<string, seq<Provider>>
    const adds: map<string, seq<nat>>
    const deletes: map<string, seq<nat>>

    var vars: seq<Package>
    var byUid: map<string, seq<nat>>
    var rules: seq<Clause>
    var assumptions: seq<int>
    /** The variables that a request has flagged as top level. */
    var top: set<nat>

    ghost function State(): Problem
      reads `vars, `byUid
    {
      Problem(vars, byUid, providers, adds, deletes)
    }

    constructor (universe: seq<seq<Package>>, providers: map<string, seq<Provider>>,
                 adds: map<string, seq<nat>>, deletes: map<string, seq<nat>>)
      ensures this.universe == universe && this.providers == providers && this.adds == adds && this.deletes == deletes
      ensures vars == [] && byUid == map[] && rules == [] && assumptions == [] && top == {}
    {
      this.universe, this.providers, this.adds, this.deletes := universe, providers, adds, deletes;
      vars, byUid, rules, assumptions, top := [], map[], [], [], {};
    }

    /** The variables of the packages of a chain, indexed under its uid. */
    method AddVariable(chain: seq<Package>)
      requires chain != []
      modifies `vars, `byUid
      ensures vars == old(vars) + chain
      ensures byUid == old(byUid)[chain[0].uid := Consecutive(|old(vars)|, |chain|)]
    {
      var i := 0;
      while i < |chain|
        invariant 0 <= i <= |chain|
        invariant vars == old(vars) + chain[..i]
        invariant i == 0 ==> byUid == old(byUid)
        invariant i > 0 ==> byUid == old(byUid)[chain[0].uid := Consecutive(|old(vars)|, i)]
      {
        var n := |vars|;
        assert Consecutive(|old(vars)|, i + 1) == Consecutive(|old(vars)|, i) + [n];
        vars := vars + [chain[i]];
        byUid := byUid[chain[0].uid := if i == 0 then [n] else byUid[chain[0].uid] + [n]];
        assert byUid[chain[0].uid] == Consecutive(|old(vars)|, i + 1);
        i := i + 1;
      }
    }

    /** The variables of an alternative's chain are appended to the rule. */
    method AppendChain(chain: seq<nat>, rule0: Clause) returns (rule: Clause)
      ensures rule == rule0 + AnyOf(chain)
    {
      rule := rule0;
      var b := 0;
      while b < |chain|
        invariant 0 <= b <= |chain|
        invariant rule == rule0 + AnyOf(chain[..b])
      {
        AnyOfAppend(chain[..b], chain[b]);
        assert chain[..b + 1] == chain[..b] + [chain[b]];
        rule := rule + [Yes(chain[b])];
        b := b + 1;
      }
      assert chain[..b] == chain;
    }

    method AddDependRule(i: nat, group: seq<string>)
      modifies `rules
      ensures rules == DependClauses(State(), i, group) + old(rules)
    {
      hide Indexed, AnyOf;
      ghost var p := State();
      var rule := [No(i)];
      var found := false;
      NoAlternatives(p);
      var a := 0;
      while a < |group|
        invariant 0 <= a <= |group|
        invariant rules == old(rules)
        invariant rule == [No(i)] + AnyOf(Alternatives(p, group[..a]))
        invariant found <==> exists b :: 0 <= b < a && group[b] in byUid
      {
        assert group[..a + 1][..a] == group[..a];
        AnyOfConcat(Alternatives(p, group[..a]), ChainOf(p, group[a]));
        NoAlternatives(p);
        if group[a] in byUid {
          found := true;
          rule := AppendChain(byUid[group[a]], rule);
        }
        a := a + 1;
      }
      assert group[..a] == group;
      if found {
        rules := [rule] + rules;
      }
    }

    method AddConflictRule(i: nat, c: Conflict)
      requires i < |vars| && Chained(State())
      modifies `rules
      ensures rules == ConflictClauses(State(), i, c, ChainOf(State(), c.uid)) + old(rules)
    {
      if c.uid !in byUid {
        return;
      }
      ghost var p := State();
      var chain, b := byUid[c.uid], 0;
      assert Below(chain, |vars|);
      while b < |chain|
        invariant 0 <= b <= |chain|
        invariant rules == ConflictClauses(p, i, c, chain[..b]) + old(rules)
      {
        assert chain[..b + 1][..b] == chain[..b];
        var other := vars[chain[b]];
        var skip := false;
        if c.kind == RemoteLocal {
          if vars[i].installed {
            skip := other.installed;
          } else {
            skip := !other.installed;
          }
        } else if c.kind == RemoteRemote {
          skip := vars[i].installed || other.installed;
        }
        if c.digest != "" && c.digest != other.digest {
          skip := true;
        }
        assert skip <==> !Applies(vars[i], c, other);
        if !skip {
          rules := [[No(i), No(chain[b])]] + rules;
        }
        b := b + 1;
      }
      assert chain[..b] == chain;
    }

    /** The packages of a provider's chain that serve are appended to the rule. */
    method HandleProvide(i: nat, requirement: string, pr: Provider, rule0: Clause) returns (rule: Clause)
      requires i < |vars| && Chained(State())
      ensures rule == rule0 + AnyOf(Serving(State(), i, requirement, pr.isShlib, ChainOf(State(), pr.uid)))
    {
      ghost var p := State();
      rule := rule0;
      if pr.uid !in byUid {
        return;
      }
      var chain, b := byUid[pr.uid], 0;
      assert Below(chain, |vars|);
      while b < |chain|
        invariant 0 <= b <= |chain|
        invariant rule == rule0 + AnyOf(Serving(p, i, requirement, pr.isShlib, chain[..b]))
      {
        ghost var served := Serving(p, i, requirement, pr.isShlib, chain[..b]);
        assert chain[..b + 1][..b] == chain[..b];
        AnyOfAppend(served, chain[b]);
        var pkg := vars[chain[b]];
        var libFound, provideFound := false, false;
        if pr.isShlib {
          libFound := requirement in pkg.shlibsProvided && pkg.arch == vars[i].arch;
        } else {
          provideFound := requirement in pkg.provided;
        }
        if provideFound || libFound {
          rule := rule + [Yes(chain[b])];
        }
        b := b + 1;
      }
      assert chain[..b] == chain;
    }

    method AddRequireRule(i: nat, requirement: string)
      requires i < |vars| && Chained(State())
      modifies `rules
      ensures rules == RequireClauses(State(), i, requirement) + old(rules)
    {
      hide Chained, Serving, ServingAny, AnyOf;
      if requirement !in providers {
        return;
      }
      ghost var p := State();
      var ps, a := providers[requirement], 0;
      var rule := [No(i)];
      ServingNone(p, i, requirement);
      while a < |ps|
        invariant 0 <= a <= |ps|
        invariant rules == old(rules)
        invariant rule == [No(i)] + AnyOf(ServingAny(p, i, requirement, ps[..a]))
      {
        ServingStep(p, i, requirement, ps, a);
        rule := HandleProvide(i, requirement, ps[a], rule);
        a := a + 1;
      }
      assert ps[..a] == ps;
      ghost var ks := ServingAny(p, i, requirement, ps);
      assert |rule| == 1 + |ks| by {
        AnyOfLength(ks);
      }
      if |rule| > 1 {
        rules := [rule] + rules;
      }
    }

    /** (!X | !Y) for X and each that follows it. */
    method AddPairsFrom(ks: seq<nat>, a: nat)
      requires a < |ks|
      modifies `rules
      ensures rules == PairsWith(ks[a], ks[a + 1..]) + old(rules)
    {
      var b := a + 1;
      ghost var ys := ks[a + 1..];
      while b < |ks|
        invariant a + 1 <= b <= |ks|
        invariant rules == PairsWith(ks[a], ys[..b - a - 1]) + old(rules)
      {
        assert ys[..b - a][..b - a - 1] == ys[..b - a - 1];
        rules := [[No(ks[a]), No(ks[b])]] + rules;
        b := b + 1;
      }
      assert ys[..b - a - 1] == ys;
    }

    /** (!X | !Y) for each two of a chain or of the candidates of a request. */
    method AddPairRules(ks: seq<nat>)
      modifies `rules
      ensures rules == PairClauses(ks, |ks|) + old(rules)
    {
      hide PairsWith;
      var a := 0;
      while a < |ks|
        invariant 0 <= a <= |ks|
        invariant rules == PairClauses(ks, a) + old(rules)
      {
        AddPairsFrom(ks, a);
        a := a + 1;
      }
    }

    /** The candidates of a request are flagged, and listed in one rule. */
    method FlagCandidates(ks: seq<nat>, install: bool) returns (rule: Clause)
      modifies `top
      ensures rule == if install then AnyOf(ks) else NoneIsFalse(ks)
      ensures top == old(top) + set k | k in ks
    {
      rule := [];
      var a := 0;
      while a < |ks|
        invariant 0 <= a <= |ks|
        invariant rule == if install then AnyOf(ks[..a]) else NoneIsFalse(ks[..a])
        invariant top == old(top) + set k | k in ks[..a]
      {
        assert ks[..a + 1] == ks[..a] + [ks[a]];
        AnyOfAppend(ks[..a], ks[a]);
        top := top + {ks[a]};
        rule := rule + [if install then Yes(ks[a]) else No(ks[a])];
        a := a + 1;
      }
      assert ks[..a] == ks;
    }

    method AddRequestRule(uid: string, requests: map<string, seq<nat>>, install: bool)
      requires uid in requests && uid in byUid && byUid[uid] != [] && requests[uid] != []
      modifies `rules, `assumptions, `top
      ensures rules == RequestClauses(State(), uid, requests, install) + old(rules)
      ensures assumptions == old(assumptions) + RequestAssumption(uid, requests, install)
      ensures top == old(top) + set k | k in requests[uid]
    {
      var ks := requests[uid];
      assumptions := assumptions + [if install then Yes(ks[0]) else No(ks[0])];
      var rule := FlagCandidates(ks, install);
      hide PairClauses, AnyOf, NoneIsFalse;
      if |ks| > 1 && byUid[uid][0] == ks[0] {
        rules := [rule] + rules;
        AddPairRules(ks);
        assert rules == RequestClauses(State(), uid, requests, install) + old(rules);
      }
      top := top + {ks[0]};
    }

    method AddDependRules(i: nat)
      requires i < |vars|
      modifies `rules
      ensures rules == DependsClauses(State(), i, vars[i].depends) + old(rules)
    {
      hide DependClauses;
      var groups, a := vars[i].depends, 0;
      while a < |groups|
        invariant 0 <= a <= |groups|
        invariant rules == DependsClauses(State(), i, groups[..a]) + old(rules)
      {
        assert groups[..a + 1][..a] == groups[..a];
        AddDependRule(i, groups[a]);
        a := a + 1;
      }
      assert groups[..a] == groups;
    }

    method AddConflictRules(i: nat)
      requires i < |vars| && Chained(State())
      modifies `rules
      ensures rules == ConflictsClauses(State(), i, vars[i].conflicts) + old(rules)
    {
      hide ConflictClauses;
      var cs, a := vars[i].conflicts, 0;
      while a < |cs|
        invariant 0 <= a <= |cs|
        invariant rules == ConflictsClauses(State(), i, cs[..a]) + old(rules)
      {
        assert cs[..a + 1][..a] == cs[..a];
        AddConflictRule(i, cs[a]);
        a := a + 1;
      }
      assert cs[..a] == cs;
    }

    method AddRequireRules(i: nat, rs: seq<string>)
      requires i < |vars| && Chained(State())
      modifies `rules
      ensures rules == RequiresClauses(State(), i, rs) + old(rules)
    {
      hide RequireClauses, Chained;
      var a := 0;
      while a < |rs|
        invariant 0 <= a <= |rs|
        invariant rules == RequiresClauses(State(), i, rs[..a]) + old(rules)
      {
        assert rs[..a + 1][..a] == rs[..a];
        AddRequireRule(i, rs[a]);
        a := a + 1;
      }
      assert rs[..a] == rs;
    }

    /** The requests for the uid of a variable that is not yet flagged. */
    method AddRequestRules(k: nat)
      requires k < |vars| && Good(State())
      requires k in top <==> !TakesUpRequests(State(), k)
      modifies `rules, `assumptions, `top
      ensures rules == RequestsClauses(State(), k) + old(rules)
      ensures assumptions == old(assumptions) + AssumptionsAt(State(), k)
      ensures TakesUpRequests(State(), k) ==> top == old(top) + Candidates(State(), vars[k].uid)
      ensures !TakesUpRequests(State(), k) ==> top == old(top)
    {
      hide RequestClauses, TakesUpRequests, Good, RequestAssumption;
      var uid := vars[k].uid;
      RequestsAreSane(State(), k);
      if k !in top {
        AddRequest(uid, adds, true);
        AddRequest(uid, deletes, false);
      }
    }

    method AddRequest(uid: string, requests: map<string, seq<nat>>, install: bool)
      requires uid in byUid && byUid[uid] != [] && (uid in requests ==> requests[uid] != [])
      modifies `rules, `assumptions, `top
      ensures rules == RequestClauses(State(), uid, requests, install) + old(rules)
      ensures assumptions == old(assumptions) + RequestAssumption(uid, requests, install)
      ensures top == old(top) + set k | k in CandidatesOf(requests, uid)
    {
      if uid in requests {
        AddRequestRule(uid, requests, install);
      }
    }

    /** All rules of one variable. */
    method AddRulesOf(k: nat, chain: seq<nat>, addChain: bool)
      requires k < |vars| && Good(State()) && Chained(State())
      requires k in top <==> !TakesUpRequests(State(), k)
      requires chain == ChainOf(State(), vars[k].uid)
      requires addChain <==> Heads(State(), k) && |chain| > 1
      modifies `rules, `assumptions, `top
      ensures rules == VarClauses(State(), k) + old(rules)
      ensures assumptions == old(assumptions) + AssumptionsAt(State(), k)
      ensures TakesUpRequests(State(), k) ==> top == old(top) + Candidates(State(), vars[k].uid)
      ensures !TakesUpRequests(State(), k) ==> top == old(top)
    {
      hide Good, Chained, TakesUpRequests, Heads, AssumptionsAt, Candidates;
      hide RequestsClauses, DependsClauses, ConflictsClauses, RequiresClauses, PairClauses;
      ghost var p := State();
      ghost var v := vars[k];
      PrependAll(ChainClauses(p, k), RequiresClauses(p, k, v.requirements), RequiresClauses(p, k, v.shlibsRequired),
                 ConflictsClauses(p, k, v.conflicts), DependsClauses(p, k, v.depends), RequestsClauses(p, k), rules);
      AddRequestRules(k);
      AddDependRules(k);
      AddConflictRules(k);
      AddRequireRules(k, vars[k].shlibsRequired);
      AddRequireRules(k, vars[k].requirements);
      assert !addChain ==> ChainClauses(p, k) == [];
      if addChain {
        AddPairRules(chain);
      }
    }

    /** All rules of the variables of a chain (libpkg/pkg_solve.c:728-804). */
    method ProcessUniverseVariable(chain: seq<nat>, ghost first: nat)
      requires Good(State()) && Chained(State()) && IsChain(State(), first, chain)
      requires FlagsRight(State(), first, |chain|, 0, top)
      requires rules == AllClauses(State(), first) && assumptions == Assumptions(State(), first)
      modifies `rules, `assumptions, `top
      ensures rules == AllClauses(State(), first + |chain|)
      ensures assumptions == Assumptions(State(), first + |chain|)
      ensures FlagsRight(State(), first, |chain|, |chain|, top)
    {
      hide Good, Chained, IsChain, FlagsRight, Heads, TakesUpRequests, AssumptionsAt, VarClauses, Candidates;
      ghost var p := State();
      var chainAdded := false;
      var b := 0;
      while b < |chain|
        invariant 0 <= b <= |chain| && first + |chain| <= |vars|
        invariant rules == AllClauses(p, first + b) && assumptions == Assumptions(p, first + b)
        invariant chainAdded <==> b > 0 && |chain| > 1
        invariant FlagsRight(p, first, |chain|, b, top)
      {
        var k := chain[b];
        ChainMember(p, first, chain, b);
        FlagTells(p, first, chain, b, top);
        ghost var before := top;
        var addChain := !chainAdded && (b + 1 < |chain| || b > 0);
        AddRulesOf(k, chain, addChain);
        FlagsStayRight(p, first, chain, b, before, top);
        chainAdded := chainAdded || addChain;
        b := b + 1;
      }
    }

    /** The clauses of the whole universe (libpkg/pkg_solve.c:837-891): the variables
        first, and then the rules of one chain after the other. */
    method JobsToSat()
      requires GoodUniverse(universe) && Good(ProblemOf(universe, providers, adds, deletes))
      requires vars == [] && byUid == map[] && rules == [] && assumptions == [] && top == {}
      modifies this
      ensures State() == ProblemOf(universe, providers, adds, deletes)
      ensures Chained(State()) && rules == AllClauses(State(), |vars|)
      ensures assumptions == Assumptions(State(), |vars|)
    {
      AddVariables();
      GoodIsChained(State());
      AddAllRules();
    }

    /** The rules of the first c chains are there, and the flags are as they should be. */
    ghost predicate Done(c: nat)
      requires c <= |universe|
      reads this
    {
      var first := |Flatten(universe[..c])|;
      && first <= |vars| && Chained(State()) && FlagsRight(State(), first, 0, 0, top)
      && rules == AllClauses(State(), first) && assumptions == Assumptions(State(), first)
    }

    method ProcessChain(c: nat)
      requires GoodUniverse(universe) && vars == Flatten(universe) && byUid == Index(universe)
      requires Good(State()) && c < |universe| && Done(c)
      modifies `rules, `assumptions, `top
      ensures Done(c + 1)
    {
      hide Good, Chained, GoodUniverse, FlagsRight, IsChain, Flatten, Index, AllClauses, Assumptions;
      ChainKnown(universe, c);
      ghost var p, first := State(), |Flatten(universe[..c])|;
      var chain := byUid[universe[c][0].uid];
      ChainOfUniverse(p, universe, c, first, chain);
      NextChain(p, first, |chain|, top);
      ProcessUniverseVariable(chain, first);
      ChainDone(p, first, |chain|, top);
    }

    method AddAllRules()
      requires GoodUniverse(universe) && vars == Flatten(universe) && byUid == Index(universe)
      requires Good(State()) && Chained(State()) && rules == [] && assumptions == [] && top == {}
      modifies `rules, `assumptions, `top
      ensures rules == AllClauses(State(), |vars|)
      ensures assumptions == Assumptions(State(), |vars|)
    {
      NoFlags(State());
      assert Done(0);
      var c := 0;
      while c < |universe|
        invariant 0 <= c <= |universe| && Done(c)
      {
        ProcessChain(c);
        c := c + 1;
      }
      assert universe[..c] == universe;
    }

    /** The variables of the whole universe. */
    method AddVariables()
      requires GoodUniverse(universe) && vars == [] && byUid == map[]
      modifies `vars, `byUid
      ensures vars == Flatten(universe) && byUid == Index(universe)
    {
      var c := 0;
      while c < |universe|
        invariant 0 <= c <= |universe|
        invariant vars == Flatten(universe[..c]) && byUid == Index(universe[..c])
      {
        assert universe[..c + 1][..c] == universe[..c];
        AddVariable(universe[c]);
        c := c + 1;
      }
      assert universe[..c] == universe;
    }
  }
}
