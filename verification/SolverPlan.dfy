/** From the solver's answer to jobs (libpkg/pkg_solve.c:1341-1430): an assignment is
    read back chain by chain, and the jobs lead from what is installed to what is chosen. */
module SolverPlan {
  import opened SolverSpec
  import opened SolverMeaning

  /** Variables a job brings in and takes out. */
  datatype Job =
    | Install(add: nat)
    | Fetch(add: nat)
    | Upgrade(add: nat, gone: nat)
    | Delete(gone: nat)

  predicate Brings(j: Job, k: nat)
  {
    (j.Install? || j.Fetch? || j.Upgrade?) && j.add == k
  }

  predicate Removes(j: Job, k: nat)
  {
    (j.Upgrade? || j.Delete?) && j.gone == k
  }

  // ----- the jobs of a chain -----

  /** The chosen packages of a chain that are not installed yet. */
  function Wanted(p: Problem, s: seq<bool>, chain: seq<nat>): (r: seq<nat>)
    requires |s| == |p.vars| && Below(chain, |s|)
    ensures forall k :: k in r <==> k in chain && s[k] && !p.vars[k].installed
  {
    if chain == [] then []
    else
      var init, k := chain[..|chain| - 1], chain[|chain| - 1];
      assert chain == init + [k];
      Wanted(p, s, init) + if s[k] && !p.vars[k].installed then [k] else []
  }

  /** The installed packages of a chain that are not chosen. */
  function Unwanted(p: Problem, s: seq<bool>, chain: seq<nat>): (r: seq<nat>)
    requires |s| == |p.vars| && Below(chain, |s|)
    ensures forall k :: k in r <==> k in chain && !s[k] && p.vars[k].installed
  {
    if chain == [] then []
    else
      var init, k := chain[..|chain| - 1], chain[|chain| - 1];
      assert chain == init + [k];
      Unwanted(p, s, init) + if !s[k] && p.vars[k].installed then [k] else []
  }

  function Deletions(ks: seq<nat>): (r: seq<Job>)
    ensures |r| == |ks| && forall i :: 0 <= i < |ks| ==> r[i] == Delete(ks[i])
  {
    seq(|ks|, i requires 0 <= i < |ks| => Delete(ks[i]))
  }

  /** One job for the package wanted, which replaces the last one unwanted, and a
      deletion for every other; no job at all if two packages are wanted. */
  function JobsOf(p: Problem, s: seq<bool>, chain: seq<nat>, fetch: bool): seq<Job>
    requires |s| == |p.vars| && Below(chain, |s|)
  {
    var adds, gone := Wanted(p, s, chain), Unwanted(p, s, chain);
    if |adds| > 1 then []
    else if adds == [] then Deletions(gone)
    else if gone == [] then [if fetch then Fetch(adds[0]) else Install(adds[0])]
    else [Upgrade(adds[0], gone[|gone| - 1])] + Deletions(gone[..|gone| - 1])
  }

  ghost predicate Brought(jobs: seq<Job>, k: nat)
  {
    exists i :: 0 <= i < |jobs| && Brings(jobs[i], k)
  }

  ghost predicate Removed(jobs: seq<Job>, k: nat)
  {
    exists i :: 0 <= i < |jobs| && Removes(jobs[i], k)
  }

  /** Chosen, and not installed yet. */
  ghost predicate IsNew(p: Problem, s: seq<bool>, k: nat)
    requires |s| == |p.vars| && k < |s|
  {
    s[k] && !p.vars[k].installed
  }

  /** At most one package of the chain is new. */
  ghost predicate OneNew(p: Problem, s: seq<bool>, chain: seq<nat>)
    requires |s| == |p.vars| && Below(chain, |s|)
  {
    forall i, j :: 0 <= i < j < |chain| ==> !(IsNew(p, s, chain[i]) && IsNew(p, s, chain[j]))
  }

  lemma {:induction false} FewWanted(p: Problem, s: seq<bool>, chain: seq<nat>)
    requires |s| == |p.vars| && Below(chain, |s|)
    ensures |Wanted(p, s, chain)| <= 1 <==> OneNew(p, s, chain)
  {
    if chain != [] {
      var init, k := chain[..|chain| - 1], chain[|chain| - 1];
      assert chain == init + [k];
      FewWanted(p, s, init);
      var w := Wanted(p, s, init);
      assert forall i :: 0 <= i < |init| ==> init[i] in init;
      if IsNew(p, s, k) {
        OneMoreNew(p, s, init, k, w);
      } else {
        OneMoreOld(p, s, init, k);
      }
    }
  }

  lemma OneMoreNew(p: Problem, s: seq<bool>, init: seq<nat>, k: nat, w: seq<nat>)
    requires |s| == |p.vars| && Below(init, |s|) && k < |s| && IsNew(p, s, k)
    requires forall j :: j in w ==> j in init
    requires forall i :: 0 <= i < |init| ==> (init[i] in w <==> IsNew(p, s, init[i]))
    ensures Below(init + [k], |s|)
    ensures w == [] <==> OneNew(p, s, init + [k])
  {
    hide IsNew;
    var chain := init + [k];
    if w != [] {
      assert w[0] in w;
      var i :| 0 <= i < |init| && init[i] == w[0];
      assert IsNew(p, s, chain[i]) && IsNew(p, s, chain[|init|]);
    } else {
      assert forall i :: 0 <= i < |init| ==> !IsNew(p, s, init[i]);
    }
  }

  lemma OneMoreOld(p: Problem, s: seq<bool>, init: seq<nat>, k: nat)
    requires |s| == |p.vars| && Below(init, |s|) && k < |s| && !IsNew(p, s, k)
    ensures Below(init + [k], |s|)
    ensures OneNew(p, s, init) <==> OneNew(p, s, init + [k])
  {
    hide IsNew;
    assert forall i :: 0 <= i < |init| ==> (init + [k])[i] == init[i];
  }

  /** The jobs of a chain bring in exactly what is chosen and not installed, and take
      out exactly what is installed and not chosen. */
  lemma JobsOfChainExact(p: Problem, s: seq<bool>, chain: seq<nat>, fetch: bool)
    requires |s| == |p.vars| && Below(chain, |s|) && OneNew(p, s, chain)
    ensures var jobs := JobsOf(p, s, chain, fetch);
      forall k: nat :: k < |s| ==>
        && (Brought(jobs, k) <==> k in chain && s[k] && !p.vars[k].installed)
        && (Removed(jobs, k) <==> k in chain && !s[k] && p.vars[k].installed)
  {
    FewWanted(p, s, chain);
    var jobs := JobsOf(p, s, chain, fetch);
    var adds, gone := Wanted(p, s, chain), Unwanted(p, s, chain);
    forall k: nat | k < |s|
      ensures Brought(jobs, k) <==> k in adds
      ensures Removed(jobs, k) <==> k in gone
    {
      JobsOfTouch(adds, gone, jobs, fetch, k);
    }
  }

  lemma JobsOfTouch(adds: seq<nat>, gone: seq<nat>, jobs: seq<Job>, fetch: bool, k: nat)
    requires |adds| <= 1
    requires adds == [] ==> jobs == Deletions(gone)
    requires adds != [] && gone == [] ==> jobs == [if fetch then Fetch(adds[0]) else Install(adds[0])]
    requires adds != [] && gone != [] ==>
      jobs == [Upgrade(adds[0], gone[|gone| - 1])] + Deletions(gone[..|gone| - 1])
    ensures Brought(jobs, k) <==> k in adds
    ensures Removed(jobs, k) <==> k in gone
  {
    if adds == [] {
      DeletionsTouch(gone, k);
    } else if gone == [] {
      assert Brings(jobs[0], adds[0]);
    } else {
      var init, last := gone[..|gone| - 1], gone[|gone| - 1];
      var first := Upgrade(adds[0], last);
      assert gone == init + [last];
      assert Brings([first][0], adds[0]) && Removes([first][0], last);
      DeletionsTouch(init, k);
      TouchConcat([first], Deletions(init), k);
    }
  }

  lemma DeletionsTouch(gone: seq<nat>, k: nat)
    ensures !Brought(Deletions(gone), k)
    ensures Removed(Deletions(gone), k) <==> k in gone
  {
    if i :| 0 <= i < |gone| && gone[i] == k {
      assert Removes(Deletions(gone)[i], k);
    }
  }

  lemma TouchConcat(a: seq<Job>, b: seq<Job>, k: nat)
    ensures Brought(a + b, k) <==> Brought(a, k) || Brought(b, k)
    ensures Removed(a + b, k) <==> Removed(a, k) || Removed(b, k)
  {
    assert forall i :: 0 <= i < |a| ==> (a + b)[i] == a[i];
    assert forall i :: 0 <= i < |b| ==> (a + b)[|a| + i] == b[i];
    assert forall i :: |a| <= i < |a + b| ==> (a + b)[i] == b[i - |a|];
  }

  // ----- which jobs there are -----

  ghost predicate Increasing(ks: seq<nat>)
  {
    forall i, j :: 0 <= i < j < |ks| ==> ks[i] < ks[j]
  }

  lemma {:induction false} UnwantedIncreasing(p: Problem, s: seq<bool>, chain: seq<nat>)
    requires |s| == |p.vars| && Below(chain, |s|) && Increasing(chain)
    ensures Increasing(Unwanted(p, s, chain))
  {
    if chain != [] {
      var init, k := chain[..|chain| - 1], chain[|chain| - 1];
      UnwantedIncreasing(p, s, init);
      var before := Unwanted(p, s, init);
      forall i | 0 <= i < |before|
        ensures before[i] < k
      {
        assert before[i] in before && before[i] in init;
      }
    }
  }

  /** Installed, and not chosen. */
  ghost predicate IsGone(p: Problem, s: seq<bool>, k: nat)
    requires |s| == |p.vars| && k < |s|
  {
    !s[k] && p.vars[k].installed
  }

  ghost predicate SomeNew(p: Problem, s: seq<bool>, chain: seq<nat>)
    requires |s| == |p.vars| && Below(chain, |s|)
  {
    exists k :: k in chain && IsNew(p, s, k)
  }

  ghost predicate SomeGone(p: Problem, s: seq<bool>, chain: seq<nat>)
    requires |s| == |p.vars| && Below(chain, |s|)
  {
    exists k :: k in chain && IsGone(p, s, k)
  }

  /** The last of the chain that goes. */
  ghost predicate LastGone(p: Problem, s: seq<bool>, chain: seq<nat>, k: nat)
    requires |s| == |p.vars| && Below(chain, |s|)
  {
    k in chain && IsGone(p, s, k) && forall l :: l in chain && IsGone(p, s, l) ==> l <= k
  }

  /** The jobs of a chain with at most one new package: this is installed, or only fetched
      if that was asked for, where nothing of the chain goes; else it replaces the last
      that goes. All others that go are deleted. */
  ghost predicate IsJobOf(p: Problem, s: seq<bool>, chain: seq<nat>, fetch: bool, job: Job)
    requires |s| == |p.vars| && Below(chain, |s|)
  {
    && OneNew(p, s, chain)
    && match job
       case Install(k) => !fetch && k in chain && IsNew(p, s, k) && !SomeGone(p, s, chain)
       case Fetch(k) => fetch && k in chain && IsNew(p, s, k) && !SomeGone(p, s, chain)
       case Upgrade(k, gone) => k in chain && IsNew(p, s, k) && LastGone(p, s, chain, gone)
       case Delete(gone) =>
         gone in chain && IsGone(p, s, gone) && (SomeNew(p, s, chain) ==> !LastGone(p, s, chain, gone))
  }

  ghost predicate NoJobTwice(jobs: seq<Job>)
  {
    forall i, j :: 0 <= i < j < |jobs| ==> jobs[i] != jobs[j]
  }

  lemma LastOfIncreasing(gone: seq<nat>)
    requires Increasing(gone) && gone != []
    ensures forall k :: k in gone ==> k <= gone[|gone| - 1]
    ensures forall k :: k in gone[..|gone| - 1] <==> k in gone && k != gone[|gone| - 1]
    ensures Increasing(gone[..|gone| - 1])
  {
    var init, last := gone[..|gone| - 1], gone[|gone| - 1];
    assert gone == init + [last];
  }

  lemma DeletionsAre(ks: seq<nat>)
    ensures forall job: Job :: job in Deletions(ks) <==> job.Delete? && job.gone in ks
    ensures Increasing(ks) ==> NoJobTwice(Deletions(ks))
  {
    forall job: Job | job.Delete? && job.gone in ks
      ensures job in Deletions(ks)
    {
      var i :| 0 <= i < |ks| && ks[i] == job.gone;
      assert Deletions(ks)[i] == job;
    }
  }

  /** The jobs for a package wanted, if there is one, and those unwanted. */
  ghost predicate IsJobFor(adds: seq<nat>, gone: seq<nat>, fetch: bool, job: Job)
  {
    match job
    case Install(k) => !fetch && k in adds && gone == []
    case Fetch(k) => fetch && k in adds && gone == []
    case Upgrade(k, last) => k in adds && gone != [] && last == gone[|gone| - 1]
    case Delete(k) => k in gone && (adds != [] ==> k != gone[|gone| - 1])
  }

  lemma JobsFor(adds: seq<nat>, gone: seq<nat>, jobs: seq<Job>, fetch: bool)
    requires |adds| <= 1 && Increasing(gone)
    requires adds == [] ==> jobs == Deletions(gone)
    requires adds != [] && gone == [] ==> jobs == [if fetch then Fetch(adds[0]) else Install(adds[0])]
    requires adds != [] && gone != [] ==>
      jobs == [Upgrade(adds[0], gone[|gone| - 1])] + Deletions(gone[..|gone| - 1])
    ensures forall job: Job :: job in jobs <==> IsJobFor(adds, gone, fetch, job)
    ensures NoJobTwice(jobs) && forall i :: 0 < i < |jobs| ==> jobs[i].Delete?
  {
    hide Deletions;
    DeletionsAre(gone);
    if gone != [] {
      LastOfIncreasing(gone);
      DeletionsAre(gone[..|gone| - 1]);
    }
  }

  lemma WantedAndUnwanted(p: Problem, s: seq<bool>, chain: seq<nat>)
    requires |s| == |p.vars| && Below(chain, |s|) && Increasing(chain)
    ensures Increasing(Unwanted(p, s, chain))
    ensures SomeNew(p, s, chain) <==> Wanted(p, s, chain) != []
    ensures SomeGone(p, s, chain) <==> Unwanted(p, s, chain) != []
    ensures var gone := Unwanted(p, s, chain);
      gone != [] ==> forall k :: LastGone(p, s, chain, k) <==> k == gone[|gone| - 1]
  {
    UnwantedIncreasing(p, s, chain);
    var adds, gone := Wanted(p, s, chain), Unwanted(p, s, chain);
    assert adds != [] ==> adds[0] in adds;
    assert gone != [] ==> gone[|gone| - 1] in gone;
    if gone != [] { LastOfIncreasing(gone); }
  }

  lemma JobIsFor(p: Problem, s: seq<bool>, chain: seq<nat>, fetch: bool, job: Job)
    requires |s| == |p.vars| && Below(chain, |s|) && Increasing(chain) && OneNew(p, s, chain)
    ensures IsJobOf(p, s, chain, fetch, job) <==> IsJobFor(Wanted(p, s, chain), Unwanted(p, s, chain), fetch, job)
  {
    hide Wanted, Unwanted, OneNew, SomeNew, SomeGone, LastGone;
    WantedAndUnwanted(p, s, chain);
    assert LastGone(p, s, chain, if job.Upgrade? || job.Delete? then job.gone else 0) ==> SomeGone(p, s, chain) by {
      LastIsSome(p, s, chain, if job.Upgrade? || job.Delete? then job.gone else 0);
    }
  }

  lemma LastIsSome(p: Problem, s: seq<bool>, chain: seq<nat>, k: nat)
    requires |s| == |p.vars| && Below(chain, |s|)
    ensures LastGone(p, s, chain, k) ==> SomeGone(p, s, chain)
  {
  }

  /** The jobs of a chain are exactly those, each once, with the upgrade in front. */
  lemma JobsAre(p: Problem, s: seq<bool>, chain: seq<nat>, fetch: bool)
    requires |s| == |p.vars| && Below(chain, |s|) && Increasing(chain)
    ensures var jobs := JobsOf(p, s, chain, fetch);
      && (forall job: Job :: job in jobs <==> IsJobOf(p, s, chain, fetch, job))
      && NoJobTwice(jobs) && forall i :: 0 < i < |jobs| ==> jobs[i].Delete?
  {
    hide Wanted, Unwanted, OneNew, IsJobFor, NoJobTwice, Increasing;
    FewWanted(p, s, chain);
    WantedAndUnwanted(p, s, chain);
    var jobs := JobsOf(p, s, chain, fetch);
    if OneNew(p, s, chain) {
      JobsFor(Wanted(p, s, chain), Unwanted(p, s, chain), jobs, fetch);
      forall job: Job
        ensures job in jobs <==> IsJobOf(p, s, chain, fetch, job)
      {
        JobIsFor(p, s, chain, fetch, job);
      }
    } else {
      assert NoJobTwice([]) by { NoneTwice(); }
    }
  }

  lemma NoneTwice()
    ensures NoJobTwice([])
  {
  }

  // ----- the whole plan -----

  function Plan(p: Problem, s: seq<bool>, uids: seq<string>, fetch: bool): seq<Job>
    requires |s| == |p.vars| && Chained(p)
  {
    if uids == [] then []
    else
      Plan(p, s, uids[..|uids| - 1], fetch) + JobsOf(p, s, ChainOf(p, uids[|uids| - 1]), fetch)
  }

  /** Is the package there once the jobs are done? */
  ghost predicate After(p: Problem, jobs: seq<Job>, k: nat)
    requires k < |p.vars|
  {
    (p.vars[k].installed && !Removed(jobs, k)) || Brought(jobs, k)
  }

  /** The same packages are brought in and taken out, as far as k goes. */
  ghost predicate SameFor(a: seq<Job>, b: seq<Job>, k: nat)
  {
    (Brought(a, k) <==> Brought(b, k)) && (Removed(a, k) <==> Removed(b, k))
  }

  lemma JoinSame(a: seq<Job>, b: seq<Job>, own: seq<Job>, k: nat)
    requires SameFor(a, own, k) || SameFor(a, [], k)
    requires SameFor(b, own, k) || SameFor(b, [], k)
    ensures SameFor(a, own, k) || SameFor(b, own, k) ==> SameFor(a + b, own, k)
    ensures SameFor(a, [], k) && SameFor(b, [], k) ==> SameFor(a + b, [], k)
  {
    TouchConcat(a, b, k);
  }

  /** A package is touched by the jobs of its own chain only. */
  lemma {:induction false} PlanTouches(p: Problem, s: seq<bool>, uids: seq<string>, fetch: bool, k: nat)
    requires Good(p) && Chained(p) && |s| == |p.vars| && k < |s|
    ensures p.vars[k].uid in uids ==>
      SameFor(Plan(p, s, uids, fetch), JobsOf(p, s, ChainOf(p, p.vars[k].uid), fetch), k)
    ensures p.vars[k].uid !in uids ==> SameFor(Plan(p, s, uids, fetch), [], k)
  {
    hide Good, JobsOf, SameFor;
    if uids == [] {
      assert SameFor([], [], k) by { SameAsItself([], k); }
    } else {
      var init, last, u := uids[..|uids| - 1], uids[|uids| - 1], p.vars[k].uid;
      assert uids == init + [last];
      PlanTouches(p, s, init, fetch, k);
      var own := JobsOf(p, s, ChainOf(p, u), fetch);
      if last == u {
        SameAsItself(own, k);
      } else {
        ChainTouches(p, s, last, fetch, k);
      }
      JoinSame(Plan(p, s, init, fetch), JobsOf(p, s, ChainOf(p, last), fetch), own, k);
    }
  }

  lemma SameAsItself(jobs: seq<Job>, k: nat)
    ensures SameFor(jobs, jobs, k)
  {
  }

  lemma ChainTouches(p: Problem, s: seq<bool>, uid: string, fetch: bool, k: nat)
    requires Good(p) && Chained(p) && |s| == |p.vars| && k < |s| && p.vars[k].uid != uid
    ensures SameFor(JobsOf(p, s, ChainOf(p, uid), fetch), [], k)
  {
    var chain := ChainOf(p, uid);
    assert k !in chain;
    FewWanted(p, s, chain);
    if OneNew(p, s, chain) {
      JobsOfChainExact(p, s, chain, fetch);
    }
  }

  /** The jobs lead to exactly the chosen packages if and only if no uid has two
      packages that are both chosen and new. */
  lemma PlanIsExact(p: Problem, s: seq<bool>, uids: seq<string>, fetch: bool)
    requires Good(p) && Chained(p) && |s| == |p.vars|
    requires forall u :: u in p.byUid ==> u in uids
    ensures (forall k :: 0 <= k < |s| ==> (After(p, Plan(p, s, uids, fetch), k) <==> s[k])) <==>
      forall u :: u in p.byUid ==> OneNew(p, s, ChainOf(p, u))
  {
    hide Good, OneNew, Plan, After;
    if forall u :: u in p.byUid ==> OneNew(p, s, ChainOf(p, u)) {
      forall k | 0 <= k < |s|
        ensures After(p, Plan(p, s, uids, fetch), k) <==> s[k]
      {
        PackageFollows(p, s, uids, fetch, k);
      }
    } else {
      var u :| u in p.byUid && !OneNew(p, s, ChainOf(p, u));
      var k := TwoNewAreLost(p, s, uids, fetch, u);
      assert !After(p, Plan(p, s, uids, fetch), k) && s[k];
    }
  }

  /** A package of a chain with at most one new one is there exactly if it is chosen. */
  lemma PackageFollows(p: Problem, s: seq<bool>, uids: seq<string>, fetch: bool, k: nat)
    requires Good(p) && Chained(p) && |s| == |p.vars| && k < |s|
    requires forall u :: u in p.byUid ==> u in uids && OneNew(p, s, ChainOf(p, u))
    ensures After(p, Plan(p, s, uids, fetch), k) <==> s[k]
  {
    var u := p.vars[k].uid;
    assert u in p.byUid && k in ChainOf(p, u);
    hide Good, OneNew, Plan;
    PlanTouches(p, s, uids, fetch, k);
    JobsOfChainExact(p, s, ChainOf(p, u), fetch);
  }

  /** A chain with two new packages gets no job, so neither comes. */
  lemma TwoNewAreLost(p: Problem, s: seq<bool>, uids: seq<string>, fetch: bool, u: string) returns (k: nat)
    requires Good(p) && Chained(p) && |s| == |p.vars| && u in p.byUid && !OneNew(p, s, ChainOf(p, u))
    ensures k < |s| && s[k] && !After(p, Plan(p, s, uids, fetch), k)
  {
    hide Good, Plan, IsJobOf;
    var chain := ChainOf(p, u);
    var i, j :| 0 <= i < j < |chain| && IsNew(p, s, chain[i]) && IsNew(p, s, chain[j]);
    k := chain[i];
    ChainHasUid(p, u, i);
    LostInChain(p, s, uids, fetch, u, k);
  }

  lemma ChainHasUid(p: Problem, u: string, i: nat)
    requires Good(p) && Chained(p) && i < |ChainOf(p, u)|
    ensures ChainOf(p, u)[i] < |p.vars| && p.vars[ChainOf(p, u)[i]].uid == u
  {
  }

  lemma LostInChain(p: Problem, s: seq<bool>, uids: seq<string>, fetch: bool, u: string, k: nat)
    requires Good(p) && Chained(p) && |s| == |p.vars| && !OneNew(p, s, ChainOf(p, u))
    requires k < |s| && p.vars[k].uid == u && IsNew(p, s, k)
    ensures !After(p, Plan(p, s, uids, fetch), k)
  {
    hide Good, Plan, OneNew, IsJobOf;
    FewWanted(p, s, ChainOf(p, u));
    assert JobsOf(p, s, ChainOf(p, u), fetch) == [];
    PlanTouches(p, s, uids, fetch, k);
  }

  /** Every assignment that satisfies the clauses is read back as jobs that lead to
      exactly the packages it chooses, and those make a sound plan. */
  lemma SolvedPlanIsSound(p: Problem, s: seq<bool>, uids: seq<string>, fetch: bool)
    requires Good(p) && Chained(p) && |s| == |p.vars|
    requires forall u :: u in p.byUid ==> u in uids
    requires SatAll(AllClauses(p, |p.vars|), s)
    ensures PlanOk(p, s)
    ensures forall k :: 0 <= k < |s| ==> (After(p, Plan(p, s, uids, fetch), k) <==> s[k])
  {
    EncodingIsExact(p, s);
    forall u | u in p.byUid
      ensures OneNew(p, s, ChainOf(p, u))
    {
      ChainHoldsOne(p, s, u);
    }
    PlanIsExact(p, s, uids, fetch);
  }

  lemma ChainHoldsOne(p: Problem, s: seq<bool>, u: string)
    requires Good(p) && Chained(p) && |s| == |p.vars| && u in p.byUid && OnePerUid(p, s)
    ensures OneNew(p, s, ChainOf(p, u))
  {
    var chain := ChainOf(p, u);
    forall i, j | 0 <= i < j < |chain|
      ensures !(IsNew(p, s, chain[i]) && IsNew(p, s, chain[j]))
    {
      assert chain[i] < chain[j] && p.vars[chain[i]].uid == p.vars[chain[j]].uid;
    }
  }

  // ----- which jobs the plan holds -----

  /** The package a job is about, which tells its chain. */
  function About(job: Job): nat
  {
    if job.Delete? then job.gone else job.add
  }

  lemma AboutItsChain(p: Problem, s: seq<bool>, uid: string, fetch: bool, job: Job)
    requires Good(p) && Chained(p) && |s| == |p.vars| && IsJobOf(p, s, ChainOf(p, uid), fetch, job)
    ensures About(job) < |s| && p.vars[About(job)].uid == uid
  {
  }

  lemma ChainIncreases(p: Problem, uid: string)
    requires Good(p) && Chained(p)
    ensures Below(ChainOf(p, uid), |p.vars|) && Increasing(ChainOf(p, uid))
  {
  }

  ghost predicate AllDiffer(uids: seq<string>)
  {
    forall i, j :: 0 <= i < j < |uids| ==> uids[i] != uids[j]
  }

  ghost predicate IsJobOfSome(p: Problem, s: seq<bool>, uids: seq<string>, fetch: bool, job: Job)
    requires |s| == |p.vars| && Chained(p)
  {
    exists i :: 0 <= i < |uids| && IsJobOf(p, s, ChainOf(p, uids[i]), fetch, job)
  }

  lemma JobOfSomeStep(p: Problem, s: seq<bool>, init: seq<string>, last: string, fetch: bool, job: Job)
    requires |s| == |p.vars| && Chained(p)
    ensures IsJobOfSome(p, s, init + [last], fetch, job) <==>
      IsJobOfSome(p, s, init, fetch, job) || IsJobOf(p, s, ChainOf(p, last), fetch, job)
  {
    hide IsJobOf;
    var uids := init + [last];
    assert uids[|init|] == last && forall i :: 0 <= i < |init| ==> uids[i] == init[i];
    if IsJobOf(p, s, ChainOf(p, last), fetch, job) {
      assert IsJobOf(p, s, ChainOf(p, uids[|init|]), fetch, job);
    }
    if i :| 0 <= i < |init| && IsJobOf(p, s, ChainOf(p, init[i]), fetch, job) {
      assert IsJobOf(p, s, ChainOf(p, uids[i]), fetch, job);
    }
  }

  /** The plan holds exactly the jobs of its chains, each once: what is new and replaces
      nothing is installed, or fetched if only that was asked for; what replaces another is
      an upgrade; all else that goes is deleted. */
  lemma {:induction false} PlanJobsAre(p: Problem, s: seq<bool>, uids: seq<string>, fetch: bool)
    requires Good(p) && Chained(p) && |s| == |p.vars| && AllDiffer(uids)
    ensures forall job: Job :: job in Plan(p, s, uids, fetch) <==> IsJobOfSome(p, s, uids, fetch, job)
    ensures NoJobTwice(Plan(p, s, uids, fetch))
  {
    hide Good, JobsOf, IsJobOf, IsJobOfSome, NoJobTwice, Increasing;
    if uids == [] {
      NoneTwice();
      assert forall job: Job :: !IsJobOfSome(p, s, [], fetch, job) by { NoChainNoJob(p, s, fetch); }
    } else {
      var init, last := uids[..|uids| - 1], uids[|uids| - 1];
      assert uids == init + [last];
      assert forall i, j :: 0 <= i < j < |init| ==> init[i] != init[j];
      PlanJobsAre(p, s, init, fetch);
      ChainIncreases(p, last);
      JobsAre(p, s, ChainOf(p, last), fetch);
      var before, more := Plan(p, s, init, fetch), JobsOf(p, s, ChainOf(p, last), fetch);
      forall job: Job
        ensures IsJobOfSome(p, s, uids, fetch, job) <==> job in before + more
        ensures !(job in before && job in more)
      {
        JobOfSomeStep(p, s, init, last, fetch, job);
        if job in before && job in more {
          JobOfOneChain(p, s, init, last, fetch, job);
          assert false;
        }
      }
      NotTwiceConcat(before, more);
    }
  }

  lemma NoChainNoJob(p: Problem, s: seq<bool>, fetch: bool)
    requires |s| == |p.vars| && Chained(p)
    ensures forall job: Job :: !IsJobOfSome(p, s, [], fetch, job)
  {
  }

  lemma JobOfOneChain(p: Problem, s: seq<bool>, init: seq<string>, last: string, fetch: bool, job: Job)
    requires Good(p) && Chained(p) && |s| == |p.vars| && AllDiffer(init + [last])
    requires IsJobOf(p, s, ChainOf(p, last), fetch, job)
    ensures !IsJobOfSome(p, s, init, fetch, job)
  {
    hide Good, IsJobOf;
    assert (init + [last])[|init|] == last && forall i :: 0 <= i < |init| ==> (init + [last])[i] == init[i];
    AboutItsChain(p, s, last, fetch, job);
    if i :| 0 <= i < |init| && IsJobOf(p, s, ChainOf(p, init[i]), fetch, job) {
      AboutItsChain(p, s, init[i], fetch, job);
    }
  }

  lemma NotTwiceConcat(a: seq<Job>, b: seq<Job>)
    requires NoJobTwice(a) && NoJobTwice(b) && forall job: Job :: !(job in a && job in b)
    ensures NoJobTwice(a + b)
  {
    var c := a + b;
    forall i, j | 0 <= i < j < |c|
      ensures c[i] != c[j]
    {
      if i < |a| && j >= |a| {
        assert c[i] == a[i] && c[j] == b[j - |a|] && c[i] in a && c[j] in b;
      }
    }
  }

  /** Nothing is fetched where installations were asked for, and the other way round. */
  lemma FetchOrInstall(p: Problem, s: seq<bool>, uids: seq<string>, fetch: bool)
    requires Good(p) && Chained(p) && |s| == |p.vars| && AllDiffer(uids)
    ensures forall job: Job :: job in Plan(p, s, uids, fetch) ==> if fetch then !job.Install? else !job.Fetch?
  {
    hide Good, Plan;
    PlanJobsAre(p, s, uids, fetch);
  }

  // ----- reading the answer back -----

  lemma NoChanges(p: Problem, s: seq<bool>)
    requires |s| == |p.vars|
    ensures Below([], |s|) && Wanted(p, s, []) == [] && Unwanted(p, s, []) == []
  {
  }

  lemma ChangesStep(p: Problem, s: seq<bool>, chain: seq<nat>, i: nat)
    requires |s| == |p.vars| && Below(chain, |s|) && i < |chain|
    ensures Below(chain[..i], |s|) && Below(chain[..i + 1], |s|) && chain[i] < |s|
    ensures Wanted(p, s, chain[..i + 1]) ==
      Wanted(p, s, chain[..i]) + if s[chain[i]] && !p.vars[chain[i]].installed then [chain[i]] else []
    ensures Unwanted(p, s, chain[..i + 1]) ==
      Unwanted(p, s, chain[..i]) + if !s[chain[i]] && p.vars[chain[i]].installed then [chain[i]] else []
  {
    assert chain[..i + 1][..i] == chain[..i];
  }

  lemma {:induction false} UnwantedPrefix(p: Problem, s: seq<bool>, chain: seq<nat>, i: nat)
    requires |s| == |p.vars| && Below(chain, |s|) && i <= |chain|
    ensures Below(chain[..i], |s|) && Unwanted(p, s, chain[..i]) <= Unwanted(p, s, chain)
    decreases |chain| - i
  {
    if i == |chain| {
      assert chain[..i] == chain;
    } else {
      ChangesStep(p, s, chain, i);
      UnwantedPrefix(p, s, chain, i + 1);
    }
  }

  lemma DeletionsAppend(ks: seq<nat>, k: nat)
    ensures Deletions(ks + [k]) == Deletions(ks) + [Delete(k)]
  {
  }

  lemma ChainSane(p: Problem, u: string)
    requires Good(p) && u in p.byUid
    ensures Below(p.byUid[u], |p.vars|) && Increasing(p.byUid[u])
  {
  }

  /** The deletions for a part of the unwanted packages: if asked, not for the last of all. */
  ghost function Rest(gone: seq<nat>, done: seq<nat>, skip: bool): seq<Job>
  {
    Deletions(if skip && gone != [] && done == gone then gone[..|gone| - 1] else done)
  }

  lemma RestOfNone(gone: seq<nat>, skip: bool)
    ensures Rest(gone, [], skip) == []
  {
  }

  lemma RestOfAll(gone: seq<nat>, skip: bool)
    ensures Rest(gone, gone, skip) == Deletions(if skip && gone != [] then gone[..|gone| - 1] else gone)
  {
  }

  lemma RestStep(gone: seq<nat>, done: seq<nat>, k: nat, skip: bool)
    requires Increasing(gone) && done + [k] <= gone
    ensures Rest(gone, done + [k], skip) ==
      Rest(gone, done, skip) + if skip && k == gone[|gone| - 1] then [] else [Delete(k)]
  {
    assert k == gone[|done|];
    DeletionsAppend(done, k);
  }

  class JobList {
    var jobs: seq<Job>
    var count: nat

    constructor ()
      ensures jobs == [] && count == 0
    {
      jobs, count := [], 0;
    }

    /** The jobs of a chain are appended (libpkg/pkg_solve.c:1341-1417). */
    method InsertResJob(p: Problem, s: seq<bool>, chain: seq<nat>, fetch: bool)
      requires |s| == |p.vars| && Below(chain, |s|) && Increasing(chain) && count == |jobs|
      modifies this
      ensures jobs == old(jobs) + JobsOf(p, s, chain, fetch) && count == |jobs|
    {
      ghost var adds, gone := Wanted(p, s, chain), Unwanted(p, s, chain);
      var seenAdd, seenDel, addVar, delVar := FindChanges(p, s, chain);
      if seenAdd > 1 {
        return;
      }
      if seenAdd > 0 {
        if seenDel == 0 {
          jobs := jobs + [if fetch then Fetch(addVar) else Install(addVar)];
        } else {
          jobs := jobs + [Upgrade(addVar, delVar)];
        }
        count := count + 1;
      }
      DeleteRest(p, s, chain, seenAdd > 0, delVar);
    }

    /** A deletion for every unwanted package but the one that an upgrade replaces. */
    method DeleteRest(p: Problem, s: seq<bool>, chain: seq<nat>, skip: bool, delVar: nat)
      requires |s| == |p.vars| && Below(chain, |s|) && count == |jobs| && Increasing(chain)
      requires var gone := Unwanted(p, s, chain); gone != [] ==> delVar == gone[|gone| - 1]
      modifies this
      ensures count == |jobs|
      ensures var gone := Unwanted(p, s, chain);
        jobs == old(jobs) + Deletions(if skip && gone != [] then gone[..|gone| - 1] else gone)
    {
      hide Unwanted, Increasing, Deletions, Rest, Below;
      ghost var gone := Unwanted(p, s, chain);
      ghost var done: seq<nat> := [];
      NoChanges(p, s);
      RestOfNone(gone, skip);
      UnwantedIncreasing(p, s, chain);
      var i := 0;
      while i < |chain|
        invariant 0 <= i <= |chain| && count == |jobs| && Below(chain[..i], |s|)
        invariant done == Unwanted(p, s, chain[..i]) && done <= gone
        invariant jobs == old(jobs) + Rest(gone, done, skip)
      {
        var k := chain[i];
        ChangesStep(p, s, chain, i);
        if !s[k] && p.vars[k].installed {
          UnwantedPrefix(p, s, chain, i + 1);
          RestStep(gone, done, k, skip);
          assert jobs + [Delete(k)] == old(jobs) + (Rest(gone, done, skip) + [Delete(k)]);
          if !(skip && k == delVar) {
            jobs := jobs + [Delete(k)];
            count := count + 1;
          }
          done := done + [k];
        }
        i := i + 1;
      }
      assert chain[..i] == chain;
      RestOfAll(gone, skip);
    }

    method FindChanges(p: Problem, s: seq<bool>, chain: seq<nat>)
      returns (seenAdd: nat, seenDel: nat, addVar: nat, delVar: nat)
      requires |s| == |p.vars| && Below(chain, |s|)
      ensures seenAdd == |Wanted(p, s, chain)| && seenDel == |Unwanted(p, s, chain)|
      ensures seenAdd > 0 ==> addVar == Wanted(p, s, chain)[seenAdd - 1]
      ensures seenDel > 0 ==> delVar == Unwanted(p, s, chain)[seenDel - 1]
    {
      hide Wanted, Unwanted;
      seenAdd, seenDel, addVar, delVar := 0, 0, 0, 0;
      NoChanges(p, s);
      var i := 0;
      while i < |chain|
        invariant 0 <= i <= |chain|
        invariant seenAdd == |Wanted(p, s, chain[..i])| && seenDel == |Unwanted(p, s, chain[..i])|
        invariant seenAdd > 0 ==> addVar == Wanted(p, s, chain[..i])[seenAdd - 1]
        invariant seenDel > 0 ==> delVar == Unwanted(p, s, chain[..i])[seenDel - 1]
      {
        ChangesStep(p, s, chain, i);
        var k := chain[i];
        if s[k] && !p.vars[k].installed {
          addVar, seenAdd := k, seenAdd + 1;
        } else if !s[k] && p.vars[k].installed {
          delVar, seenDel := k, seenDel + 1;
        }
        i := i + 1;
      }
      assert chain[..i] == chain;
    }

    /** The jobs of all chains, one after the other (libpkg/pkg_solve.c:1419-1430). */
    method SatToJobs(p: Problem, s: seq<bool>, uids: seq<string>, fetch: bool)
      requires Good(p) && Chained(p) && |s| == |p.vars| && jobs == [] && count == 0
      requires forall i :: 0 <= i < |uids| ==> uids[i] in p.byUid
      modifies this
      ensures jobs == Plan(p, s, uids, fetch) && count == |jobs|
    {
      hide JobsOf, Good, Chained, Below, Increasing;
      var i := 0;
      while i < |uids|
        invariant 0 <= i <= |uids| && count == |jobs|
        invariant jobs == Plan(p, s, uids[..i], fetch)
      {
        assert uids[..i + 1][..i] == uids[..i];
        ChainSane(p, uids[i]);
        InsertResJob(p, s, p.byUid[uids[i]], fetch);
        i := i + 1;
      }
      assert uids[..i] == uids;
    }
  }
}
