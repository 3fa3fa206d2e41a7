/** The order of the jobs (libpkg/pkg_jobs.c:465-542): priorities are set, upgrades
    that get in their own way are split, and the jobs are sorted. */
module Schedule {
  import opened Wrappers
  import opened PrioritySpec
  import opened PriorityRank
  import opened Priority

  datatype Kind = PkgInstall | PkgFetch | PkgDelete | PkgUpgrade | PkgUpgradeInstall | PkgUpgradeRemove

  /** A job: for an upgrade, `gone` is the installed package that goes. */
  datatype Solved = Solved(kind: Kind, item: nat, gone: Option<nat>, alreadyDeleted: bool)

  datatype Action = Put(item: nat) | Take(item: nat)

  // ----- what jobs do, in any order -----

  predicate Does(job: Solved, action: Action)
  {
    match job.kind
    case PkgDelete => action == Take(job.item)
    case PkgUpgradeRemove => action == Take(job.item)
    case _ => action == Put(job.item) || (job.gone.Some? && action == Take(job.gone.value))
  }

  /** How many of the jobs do it. */
  function Times(jobs: seq<Solved>, action: Action): nat
  {
    if jobs == [] then 0 else (if Does(jobs[0], action) then 1 else 0) + Times(jobs[1..], action)
  }

  /** The jobs do the same, each thing as often. */
  ghost predicate SameActions(a: seq<Solved>, b: seq<Solved>)
  {
    forall action :: Times(a, action) == Times(b, action)
  }

  lemma SameThroughout(a: seq<Solved>, b: seq<Solved>, c: seq<Solved>)
    requires SameActions(a, b) && SameActions(b, c)
    ensures SameActions(a, c)
  {
    hide Times;
  }

  function Upgrades(jobs: seq<Solved>): nat
  {
    if jobs == [] then 0 else (if jobs[0].kind == PkgUpgrade then 1 else 0) + Upgrades(jobs[1..])
  }

  /** An upgrade becomes an installation, and a removal at the end. */
  function Split(jobs: seq<Solved>, k: nat): seq<Solved>
    requires k < |jobs| && jobs[k].gone.Some?
  {
    jobs[k := jobs[k].(kind := PkgUpgradeInstall, gone := None, alreadyDeleted := true)]
    + [Solved(PkgUpgradeRemove, jobs[k].gone.value, None, false)]
  }

  lemma {:induction false} SplitOnce(jobs: seq<Solved>, k: nat, action: Action)
    requires k < |jobs| && jobs[k].kind == PkgUpgrade && jobs[k].gone.Some?
    ensures Times(Split(jobs, k), action) == Times(jobs, action)
    ensures Upgrades(Split(jobs, k)) + 1 == Upgrades(jobs)
    decreases k
  {
    var r := Split(jobs, k);
    if k > 0 {
      SplitOnce(jobs[1..], k - 1, action);
      assert r[0] == jobs[0] && r[1..] == Split(jobs[1..], k - 1);
    } else {
      var remove := Solved(PkgUpgradeRemove, jobs[0].gone.value, None, false);
      assert r[1..] == jobs[1..] + [remove];
      OneMoreAtEnd(jobs[1..], remove, action);
      assert Does(jobs[0], action) <==> Does(r[0], action) || Does(remove, action);
    }
  }

  lemma {:induction false} OneMoreAtEnd(jobs: seq<Solved>, job: Solved, action: Action)
    ensures Times(jobs + [job], action) == Times(jobs, action) + if Does(job, action) then 1 else 0
    ensures job.kind != PkgUpgrade ==> Upgrades(jobs + [job]) == Upgrades(jobs)
  {
    if jobs == [] {
      assert [job][1..] == [];
    } else {
      OneMoreAtEnd(jobs[1..], job, action);
      assert (jobs + [job])[1..] == jobs[1..] + [job];
    }
  }

  /** Splitting an upgrade in two keeps what the jobs do, and leaves one upgrade less. */
  lemma SplitKeepsActions(jobs: seq<Solved>, k: nat)
    requires k < |jobs| && jobs[k].kind == PkgUpgrade && jobs[k].gone.Some?
    ensures SameActions(Split(jobs, k), jobs) && Upgrades(Split(jobs, k)) + 1 == Upgrades(jobs)
  {
    SplitOnce(jobs, k, Put(0));
    forall action
      ensures Times(Split(jobs, k), action) == Times(jobs, action)
    {
      SplitOnce(jobs, k, action);
    }
  }

  // ----- sorting -----

  /** Larger priorities first; among equals, deletions. */
  function Cmp(pri: Priorities, a: Solved, b: Solved): int
    requires a.item < |pri| && b.item < |pri|
  {
    var p: int, q: int := pri[a.item], pri[b.item];
    if p == q then
      if a.kind == PkgDelete && b.kind != PkgDelete then -1
      else if b.kind == PkgDelete && a.kind != PkgDelete then 1
      else 0
    else q - p
  }

  ghost predicate InRange(pri: Priorities, jobs: seq<Solved>)
  {
    forall i :: 0 <= i < |jobs| ==> jobs[i].item < |pri|
  }

  ghost predicate Ordered(pri: Priorities, jobs: seq<Solved>)
    requires InRange(pri, jobs)
  {
    forall i, j :: 0 <= i < j < |jobs| ==> Cmp(pri, jobs[i], jobs[j]) <= 0
  }

  function Insert(pri: Priorities, job: Solved, jobs: seq<Solved>): (r: seq<Solved>)
    requires job.item < |pri| && InRange(pri, jobs)
    ensures InRange(pri, r)
  {
    if jobs == [] || Cmp(pri, job, jobs[0]) <= 0 then [job] + jobs
    else [jobs[0]] + Insert(pri, job, jobs[1..])
  }

  /** The stable sort. */
  function Sort(pri: Priorities, jobs: seq<Solved>): (r: seq<Solved>)
    requires InRange(pri, jobs)
    ensures InRange(pri, r)
  {
    if jobs == [] then [] else Insert(pri, jobs[0], Sort(pri, jobs[1..]))
  }

  lemma {:induction false} InsertMembers(pri: Priorities, job: Solved, jobs: seq<Solved>)
    requires job.item < |pri| && InRange(pri, jobs)
    ensures multiset(Insert(pri, job, jobs)) == multiset(jobs) + multiset{job}
  {
    if jobs == [] || Cmp(pri, job, jobs[0]) <= 0 {
    } else {
      InsertMembers(pri, job, jobs[1..]);
      assert jobs == [jobs[0]] + jobs[1..];
    }
  }

  lemma {:induction false} InsertOrders(pri: Priorities, job: Solved, jobs: seq<Solved>)
    requires job.item < |pri| && InRange(pri, jobs) && Ordered(pri, jobs)
    ensures Ordered(pri, Insert(pri, job, jobs))
  {
    if jobs == [] || Cmp(pri, job, jobs[0]) <= 0 {
    } else {
      var r := Insert(pri, job, jobs[1..]);
      InsertOrders(pri, job, jobs[1..]);
      InsertMembers(pri, job, jobs[1..]);
      AllAfter(pri, jobs[0], job, jobs[1..], r);
      assert forall i, j :: 0 < i < j < |r| + 1 ==> Cmp(pri, ([jobs[0]] + r)[i], ([jobs[0]] + r)[j]) <= 0;
    }
  }

  lemma AllAfter(pri: Priorities, first: Solved, job: Solved, rest: seq<Solved>, r: seq<Solved>)
    requires first.item < |pri| && job.item < |pri| && InRange(pri, rest) && InRange(pri, r)
    requires multiset(r) == multiset(rest) + multiset{job} && Cmp(pri, first, job) <= 0
    requires forall j :: 0 <= j < |rest| ==> Cmp(pri, first, rest[j]) <= 0
    ensures forall j :: 0 <= j < |r| ==> Cmp(pri, first, r[j]) <= 0
  {
    forall j | 0 <= j < |r|
      ensures Cmp(pri, first, r[j]) <= 0
    {
      assert r[j] in multiset(r);
    }
  }

  lemma {:induction false} SortMembers(pri: Priorities, jobs: seq<Solved>)
    requires InRange(pri, jobs)
    ensures multiset(Sort(pri, jobs)) == multiset(jobs)
  {
    hide Cmp, Insert;
    if jobs != [] {
      SortMembers(pri, jobs[1..]);
      InsertMembers(pri, jobs[0], Sort(pri, jobs[1..]));
      assert jobs == [jobs[0]] + jobs[1..];
    }
  }

  lemma {:induction false} SortIsOrdered(pri: Priorities, jobs: seq<Solved>)
    requires InRange(pri, jobs)
    ensures Ordered(pri, Sort(pri, jobs))
  {
    if jobs != [] {
      SortIsOrdered(pri, jobs[1..]);
      InsertOrders(pri, jobs[0], Sort(pri, jobs[1..]));
    }
  }

  /** No job stands before one with a larger priority, nor, where they are equal, before a
      deletion if it is none itself. */
  ghost predicate HighestFirst(pri: Priorities, jobs: seq<Solved>)
    requires InRange(pri, jobs)
  {
    forall i, j :: 0 <= i < j < |jobs| ==>
      && pri[jobs[i].item] >= pri[jobs[j].item]
      && (pri[jobs[i].item] == pri[jobs[j].item] && jobs[j].kind == PkgDelete ==> jobs[i].kind == PkgDelete)
  }

  /** The jobs of one priority that are deletions, or those that are not, as they stand. */
  function Tied(pri: Priorities, jobs: seq<Solved>, p: nat, deletes: bool): seq<Solved>
    requires InRange(pri, jobs)
  {
    if jobs == [] then []
    else (if pri[jobs[0].item] == p && (jobs[0].kind == PkgDelete) == deletes then [jobs[0]] else [])
         + Tied(pri, jobs[1..], p, deletes)
  }

  /** The same jobs, highest first, and those that tie in the order they had. */
  ghost predicate StablySorted(pri: Priorities, before: seq<Solved>, after: seq<Solved>)
    requires InRange(pri, before) && InRange(pri, after)
  {
    && multiset(after) == multiset(before) && HighestFirst(pri, after)
    && forall p: nat, deletes: bool :: Tied(pri, after, p, deletes) == Tied(pri, before, p, deletes)
  }

  lemma TiedCons(pri: Priorities, job: Solved, jobs: seq<Solved>, p: nat, deletes: bool)
    requires job.item < |pri| && InRange(pri, jobs)
    ensures InRange(pri, [job] + jobs)
    ensures Tied(pri, [job] + jobs, p, deletes) ==
      (if pri[job.item] == p && (job.kind == PkgDelete) == deletes then [job] else []) + Tied(pri, jobs, p, deletes)
  {
    assert ([job] + jobs)[1..] == jobs;
  }

  lemma {:induction false} InsertKeepsTies(pri: Priorities, job: Solved, jobs: seq<Solved>, p: nat, deletes: bool)
    requires job.item < |pri| && InRange(pri, jobs)
    ensures InRange(pri, [job] + jobs) && Tied(pri, Insert(pri, job, jobs), p, deletes) ==
      Tied(pri, [job] + jobs, p, deletes)
  {
    hide Tied;
    TiedCons(pri, job, jobs, p, deletes);
    if jobs == [] || Cmp(pri, job, jobs[0]) <= 0 {
    } else {
      var rest := jobs[1..];
      assert jobs == [jobs[0]] + rest;
      InsertKeepsTies(pri, job, rest, p, deletes);
      TiedCons(pri, jobs[0], rest, p, deletes);
      TiedCons(pri, job, rest, p, deletes);
      TiedCons(pri, jobs[0], Insert(pri, job, rest), p, deletes);
    }
  }

  lemma {:induction false} SortKeepsTies(pri: Priorities, jobs: seq<Solved>, p: nat, deletes: bool)
    requires InRange(pri, jobs)
    ensures Tied(pri, Sort(pri, jobs), p, deletes) == Tied(pri, jobs, p, deletes)
  {
    hide Tied, Insert;
    if jobs != [] {
      var rest := Sort(pri, jobs[1..]);
      SortKeepsTies(pri, jobs[1..], p, deletes);
      InsertKeepsTies(pri, jobs[0], rest, p, deletes);
      TiedCons(pri, jobs[0], rest, p, deletes);
      TiedCons(pri, jobs[0], jobs[1..], p, deletes);
      assert jobs == [jobs[0]] + jobs[1..];
    }
  }

  /** Sorting puts the jobs in order, keeps each as often as it was there, and leaves those
      that tie as they stood. */
  lemma SortOrders(pri: Priorities, jobs: seq<Solved>)
    requires InRange(pri, jobs)
    ensures Ordered(pri, Sort(pri, jobs)) && StablySorted(pri, jobs, Sort(pri, jobs))
  {
    hide Sort, Tied;
    SortIsOrdered(pri, jobs);
    SortMembers(pri, jobs);
    OrderedIsHighestFirst(pri, Sort(pri, jobs));
    forall p: nat, deletes: bool
      ensures Tied(pri, Sort(pri, jobs), p, deletes) == Tied(pri, jobs, p, deletes)
    {
      SortKeepsTies(pri, jobs, p, deletes);
    }
  }

  lemma OrderedIsHighestFirst(pri: Priorities, jobs: seq<Solved>)
    requires InRange(pri, jobs) && Ordered(pri, jobs)
    ensures HighestFirst(pri, jobs)
  {
    forall i, j | 0 <= i < j < |jobs|
      ensures pri[jobs[i].item] >= pri[jobs[j].item]
      ensures pri[jobs[i].item] == pri[jobs[j].item] && jobs[j].kind == PkgDelete ==> jobs[i].kind == PkgDelete
    {
      assert Cmp(pri, jobs[i], jobs[j]) <= 0;
    }
  }

  lemma {:induction false} InsertKeepsActions(pri: Priorities, job: Solved, jobs: seq<Solved>, action: Action)
    requires job.item < |pri| && InRange(pri, jobs)
    ensures Times(Insert(pri, job, jobs), action) == Times([job] + jobs, action)
  {
    hide Does;
    if jobs == [] || Cmp(pri, job, jobs[0]) <= 0 {
    } else {
      InsertKeepsActions(pri, job, jobs[1..], action);
      assert ([job] + jobs)[1..] == jobs && ([job] + jobs[1..])[1..] == jobs[1..];
    }
  }

  lemma {:induction false} SortKeepsTimes(pri: Priorities, jobs: seq<Solved>, action: Action)
    requires InRange(pri, jobs)
    ensures Times(Sort(pri, jobs), action) == Times(jobs, action)
  {
    if jobs != [] {
      var rest := Sort(pri, jobs[1..]);
      SortKeepsTimes(pri, jobs[1..], action);
      InsertKeepsActions(pri, jobs[0], rest, action);
      assert ([jobs[0]] + rest)[1..] == rest;
    }
  }

  lemma SortKeepsActions(pri: Priorities, jobs: seq<Solved>)
    requires InRange(pri, jobs)
    ensures SameActions(Sort(pri, jobs), jobs)
  {
    forall action
      ensures Times(Sort(pri, jobs), action) == Times(jobs, action)
    {
      SortKeepsTimes(pri, jobs, action);
    }
  }

  // ----- a split pair -----

  /** Wherever both occur, x comes before y. */
  ghost predicate Before(jobs: seq<Solved>, x: Solved, y: Solved)
  {
    forall i, j :: 0 <= i < |jobs| && 0 <= j < |jobs| && jobs[i] == x && jobs[j] == y ==> i < j
  }

  lemma BeforeCons(job: Solved, rest: seq<Solved>, x: Solved, y: Solved)
    requires x != y
    ensures Before([job] + rest, x, y) <==> Before(rest, x, y) && (job == y ==> x !in rest)
  {
    var all := [job] + rest;
    assert all[0] == job && forall i :: 0 <= i < |rest| ==> all[i + 1] == rest[i];
    assert forall i :: 0 < i < |all| ==> all[i] == rest[i - 1];
  }

  lemma {:induction false} InsertKeepsBefore(pri: Priorities, job: Solved, jobs: seq<Solved>, x: Solved, y: Solved)
    requires job.item < |pri| && InRange(pri, jobs) && x != y && Before(jobs, x, y)
    requires job == x ==> x.item < |pri| && y.item < |pri| && Cmp(pri, x, y) <= 0
    requires job == y ==> x !in jobs
    ensures Before(Insert(pri, job, jobs), x, y)
  {
    hide Before, Cmp;
    InsertMembers(pri, job, jobs);
    if jobs == [] || Cmp(pri, job, jobs[0]) <= 0 {
      BeforeCons(job, jobs, x, y);
    } else {
      var rest := jobs[1..];
      assert jobs == [jobs[0]] + rest;
      BeforeCons(jobs[0], rest, x, y);
      InsertKeepsBefore(pri, job, rest, x, y);
      InsertMembers(pri, job, rest);
      var r := Insert(pri, job, rest);
      assert x in r <==> x in multiset(r);
      BeforeCons(jobs[0], r, x, y);
    }
  }

  /** The sort is stable: what does not have to move past another stays before it. */
  lemma {:induction false} SortIsStable(pri: Priorities, jobs: seq<Solved>, x: Solved, y: Solved)
    requires InRange(pri, jobs) && x != y && Before(jobs, x, y)
    requires x.item < |pri| && y.item < |pri| && Cmp(pri, x, y) <= 0
    ensures Before(Sort(pri, jobs), x, y)
  {
    hide Before, Cmp;
    if jobs == [] {
      assert Before([], x, y) by { NothingBefore(x, y); }
    } else {
      var rest := jobs[1..];
      assert jobs == [jobs[0]] + rest;
      BeforeCons(jobs[0], rest, x, y);
      SortIsStable(pri, rest, x, y);
      SortMembers(pri, rest);
      var r := Sort(pri, rest);
      assert x in r <==> x in multiset(r);
      InsertKeepsBefore(pri, jobs[0], r, x, y);
    }
  }

  lemma NothingBefore(x: Solved, y: Solved)
    ensures Before([], x, y)
  {
  }

  /** The first n jobs are no removals of a split upgrade, and the others are. */
  ghost predicate Parted(jobs: seq<Solved>, n: nat)
  {
    n <= |jobs| && forall i :: 0 <= i < |jobs| ==> (jobs[i].kind == PkgUpgradeRemove <==> n <= i)
  }

  /** One list comes from the other by splitting one upgrade. */
  ghost predicate SplitOnceFrom(before: seq<Solved>, after: seq<Solved>)
  {
    exists k :: 0 <= k < |before| && before[k].kind == PkgUpgrade && before[k].gone.Some? && after == Split(before, k)
  }

  /** One list comes from the other by that many splits. */
  ghost predicate SplitFrom(before: seq<Solved>, after: seq<Solved>, splits: nat)
    decreases splits
  {
    if splits == 0 then before == after
    else exists between :: SplitFrom(before, between, splits - 1) && SplitOnceFrom(between, after)
  }

  lemma OneSplitMore(before: seq<Solved>, between: seq<Solved>, after: seq<Solved>, splits: nat)
    requires SplitFrom(before, between, splits) && SplitOnceFrom(between, after)
    ensures SplitFrom(before, after, splits + 1)
  {
  }

  /** A list was split, at least that often, and then sorted. */
  ghost predicate SplitAndSorted(before: seq<Solved>, pri: Priorities, after: seq<Solved>, least: nat)
  {
    exists list, splits ::
      && SplitFrom(before, list, splits) && least <= splits && InRange(pri, list) && InRange(pri, after)
      && StablySorted(pri, list, after) && after == Sort(pri, list)
  }

  lemma NoSplit(jobs: seq<Solved>)
    ensures SplitFrom(jobs, jobs, 0) && SameActions(jobs, jobs)
  {
  }

  lemma SortedIs(before: seq<Solved>, pri: Priorities, list: seq<Solved>, splits: nat)
    requires SplitFrom(before, list, splits) && InRange(pri, list)
    ensures forall least: nat :: least <= splits ==> SplitAndSorted(before, pri, Sort(pri, list), least)
    ensures HighestFirst(pri, Sort(pri, list))
  {
    hide SplitFrom, Sort;
    SortOrders(pri, list);
  }

  lemma SplitStaysParted(before: seq<Solved>, after: seq<Solved>, n: nat)
    requires Parted(before, n) && SplitOnceFrom(before, after)
    ensures Parted(after, n)
  {
  }

  predicate IsPair(install: Solved, remove: Solved)
  {
    install.kind == PkgUpgradeInstall && remove.kind == PkgUpgradeRemove
  }

  /** In the sorted plan a removal comes before an installation of a split upgrade if
      and only if the package that goes has the larger priority. Equal priorities are not
      enough: the removals are put at the end, and the sort leaves them there. */
  ghost predicate RemovedFirstIffHigher(pri: Priorities, jobs: seq<Solved>)
    requires InRange(pri, jobs)
  {
    forall i, j :: 0 <= i < |jobs| && 0 <= j < |jobs| && IsPair(jobs[i], jobs[j]) ==>
      (j < i <==> pri[jobs[i].item] < pri[jobs[j].item])
  }

  lemma SplitPairOrder(pri: Priorities, jobs: seq<Solved>, n: nat)
    requires InRange(pri, jobs) && Parted(jobs, n)
    ensures RemovedFirstIffHigher(pri, Sort(pri, jobs))
  {
    hide Ordered, Parted, Sort, Before, Cmp;
    var r := Sort(pri, jobs);
    SortIsOrdered(pri, jobs);
    forall i, j | 0 <= i < |r| && 0 <= j < |r| && IsPair(r[i], r[j])
      ensures j < i <==> pri[r[i].item] < pri[r[j].item]
    {
      InstallsComeFirst(jobs, n, r[i], r[j]);
      PairOrder(pri, jobs, r, i, j);
    }
  }

  lemma PairOrder(pri: Priorities, jobs: seq<Solved>, r: seq<Solved>, i: nat, j: nat)
    requires InRange(pri, jobs) && r == Sort(pri, jobs) && Ordered(pri, r)
    requires i < |r| && j < |r| && IsPair(r[i], r[j]) && Before(jobs, r[i], r[j])
    ensures j < i <==> pri[r[i].item] < pri[r[j].item]
  {
    hide Sort;
    assert i < j ==> Cmp(pri, r[i], r[j]) <= 0;
    if pri[r[j].item] <= pri[r[i].item] {
      SortIsStable(pri, jobs, r[i], r[j]);
    }
  }

  lemma InstallsComeFirst(jobs: seq<Solved>, n: nat, install: Solved, remove: Solved)
    requires Parted(jobs, n) && IsPair(install, remove)
    ensures Before(jobs, install, remove)
  {
  }

  /** Each package on the way has to wait for the next. */
  ghost predicate WaitsAlong(g: Graph, path: seq<nat>)
  {
    && (forall i :: 0 <= i < |path| ==> path[i] < |g.items|)
    && forall i :: 0 <= i < |path| - 1 ==>
      Waits(g, false, path[i], path[i + 1]) || Ousts(g, false, path[i], path[i + 1])
  }

  /** If there is a way from the new package to the old one, over settled packages each of
      which waits for the next, then the old one has the larger priority, by at least the
      steps of the way, and goes first. */
  lemma {:induction false} RemovedFirst(g: Graph, pri: Priorities, path: seq<nat>)
    requires |pri| == |g.items| && path != [] && WaitsAlong(g, path)
    requires forall i :: 0 <= i < |path| - 1 ==> Settled(g, false, pri, path[i])
    ensures pri[path[0]] + |path| - 1 <= pri[path[|path| - 1]]
  {
    hide Waits, Ousts;
    if |path| > 1 {
      var rest := path[1..];
      assert forall i :: 0 <= i < |rest| ==> rest[i] == path[i + 1];
      RemovedFirst(g, pri, rest);
      assert Settled(g, false, pri, path[0]) && path[1] < |pri|;
    }
  }

  // ----- the order that results -----

  /** Nothing comes before what it has to wait for. */
  ghost predicate WellOrdered(g: Graph, del: bool, jobs: seq<Solved>)
  {
    forall i, j :: 0 <= i < j < |jobs| ==>
      jobs[i].item < |g.items| && jobs[j].item < |g.items| &&
      !Waits(g, del, jobs[i].item, jobs[j].item) && !Ousts(g, del, jobs[i].item, jobs[j].item)
  }

  ghost predicate AllSettled(g: Graph, del: bool, pri: Priorities, jobs: seq<Solved>)
    requires |pri| == |g.items| && InRange(pri, jobs)
  {
    forall i :: 0 <= i < |jobs| ==> Settled(g, del, pri, jobs[i].item)
  }

  /** If every package of the plan is settled, sorting the plan by priority puts every
      package after all that it waits for. */
  lemma SettledSortsWell(g: Graph, del: bool, pri: Priorities, jobs: seq<Solved>)
    requires |pri| == |g.items| && InRange(pri, jobs) && AllSettled(g, del, pri, jobs)
    ensures WellOrdered(g, del, Sort(pri, jobs))
  {
    var r := Sort(pri, jobs);
    SortOrders(pri, jobs);
    forall i, j | 0 <= i < j < |r|
      ensures !Waits(g, del, r[i].item, r[j].item) && !Ousts(g, del, r[i].item, r[j].item)
    {
      assert r[i] in multiset(r);
      var a :| 0 <= a < |jobs| && jobs[a] == r[i];
      assert Settled(g, del, pri, jobs[a].item);
      assert Cmp(pri, r[i], r[j]) <= 0;
    }
  }

  // ----- a tie -----

  /** A new package, 2, needs package 1, and conflicts with package 0, which 1 replaces. */
  const TIED_GRAPH := Graph(
    [Item("a", true, [], [], ["b"], 0), Item("a", false, [], [], [], 1), Item("b", false, ["a"], [], ["a"], 0)],
    map["a" := [0, 1], "b" := [2]])

  /** The upgrade has been split: the package that goes is the last job. */
  const TIED_PLAN := [Solved(PkgUpgradeInstall, 1, None, true), Solved(PkgInstall, 2, None, false),
                      Solved(PkgUpgradeRemove, 0, None, false)]

  /** The graph has a rank, and the priorities that settle it within the rank are equal. */
  lemma TiedPriorities(pri: Priorities)
    requires |pri| == 3 && AtMost(pri, [1, 1, 0]) && Settled(TIED_GRAPH, false, pri, 2)
    ensures pri == [1, 1, 0]
  {
    var h := [1, 1, 0];
    var g := TIED_GRAPH;
    assert g.items[2].deps == ["a"] && g.items[2].conflicts == ["a"] && "a" in ["a"];
    assert Ousts(g, false, 2, 0) && Waits(g, false, 2, 1);
    assert pri[0] <= h[0] && pri[1] <= h[1] && pri[2] <= h[2];
  }

  lemma TiedIsRanked()
    ensures Ranked(TIED_GRAPH, false, [1, 1, 0])
  {
    hide Ranked;
    var g := TIED_GRAPH;
    assert "b"[0] != "a"[0];
    OneAboveTwo(g);
  }

  /** Only package 2 needs and conflicts with others, and not with its own uid. */
  lemma OneAboveTwo(g: Graph)
    requires |g.items| == 3 && g.items[0].deps == [] && g.items[1].deps == [] && g.items[0].installed
    requires !g.items[1].installed && g.items[1].conflicts == []
    requires forall x :: 0 <= x < 3 ==> g.items[x].rdeps == []
    requires g.items[2].uid !in g.items[2].deps && g.items[2].uid !in g.items[2].conflicts
    ensures Ranked(g, false, [1, 1, 0])
  {
    var h: seq<nat> := [1, 1, 0];
    assert h[0] == 1 && h[1] == 1 && h[2] == 0;
  }

  /** Whatever priorities settle that graph within its rank: the package that goes is
      removed after its successor is installed. */
  lemma TiedPairIsSwapped(pri: Priorities)
    requires |pri| == 3 && AtMost(pri, [1, 1, 0]) && Settled(TIED_GRAPH, false, pri, 2)
    ensures Ranked(TIED_GRAPH, false, [1, 1, 0])
    ensures Before(Sort(pri, TIED_PLAN), TIED_PLAN[0], TIED_PLAN[2])
  {
    hide Ranked, AtMost, Settled, Sort, Before, Parted;
    TiedIsRanked();
    TiedPriorities(pri);
    TiedPlanIsParted();
    InstallsComeFirst(TIED_PLAN, 2, TIED_PLAN[0], TIED_PLAN[2]);
    SortIsStable(pri, TIED_PLAN, TIED_PLAN[0], TIED_PLAN[2]);
  }

  lemma TiedPlanIsParted()
    ensures Parted(TIED_PLAN, 2)
  {
  }

  // ----- setting the priorities of a plan -----

  /** Jobs name packages of the universe; an upgrade names the package that goes, and
      what that conflicts with can be installed (the source asserts it). */
  ghost predicate GoodJobs(g: Graph, jobs: seq<Solved>)
  {
    forall i :: 0 <= i < |jobs| ==> GoodJob(g, jobs[i])
  }

  ghost predicate GoodJob(g: Graph, job: Solved)
  {
    && job.item < |g.items| && (job.gone.Some? ==> job.gone.value < |g.items|)
    && (job.kind == PkgUpgrade ==> job.gone.Some? && CanCheck(g, g.items[job.gone.value].conflicts))
    && (job.alreadyDeleted ==> job.kind == PkgUpgradeInstall)
  }

  ghost predicate CanCheck(g: Graph, uids: seq<string>)
  {
    forall a :: 0 <= a < |uids| ==> HasRemote(g, uids[a])
  }

  ghost predicate HasRemote(g: Graph, uid: string)
  {
    SomeRemote(g, ChainOf(g, uid))
  }

  ghost predicate SomeRemote(g: Graph, chain: seq<nat>)
  {
    exists i :: 0 <= i < |chain| && chain[i] < |g.items| && !g.items[chain[i]].installed
  }

  /** Does the job replace an installed package that has conflicts? */
  ghost predicate HasConflicts(g: Graph, job: Solved)
    requires GoodJob(g, job)
  {
    job.kind == PkgUpgrade && g.items[job.gone.value].conflicts != []
  }

  /** The packages not installed that it conflicts with say so, too (conflicts are
      registered on both sides, libpkg/pkg_jobs_conflicts.c:175-204). */
  ghost predicate Mutual(g: Graph, uids: seq<string>, gone: nat)
    requires gone < |g.items|
  {
    forall c :: 0 <= c < |uids| ==> forall m: nat :: Named(g, uids[c], m) && !g.items[m].installed ==>
      Ousts(g, false, m, gone)
  }

  /** A plan whose jobs are all raised in one direction: only deletions, of installed
      packages; or no deletion, and only mutual conflicts of packages replaced. */
  ghost predicate OneWay(g: Graph, del: bool, jobs: seq<Solved>)
    requires GoodJobs(g, jobs)
  {
    forall i :: 0 <= i < |jobs| ==> GoesThatWay(g, del, jobs[i])
  }

  ghost predicate GoesThatWay(g: Graph, del: bool, job: Solved)
    requires GoodJob(g, job)
  {
    && (job.kind == PkgDelete <==> del) && (del ==> g.items[job.item].installed)
    && (HasConflicts(g, job) ==> Mutual(g, g.items[job.gone.value].conflicts, job.gone.value))
  }

  /** The packages after this one in its chain are ranked no lower. */
  ghost predicate TailNotLower(g: Graph, h: seq<nat>, x: nat)
    requires GoodGraph(g) && x < |g.items| == |h|
  {
    forall i :: 0 <= i < |Tail(g, x)| ==> Tail(g, x)[i] < |h| && h[x] <= h[Tail(g, x)[i]]
  }

  ghost predicate TailsFit(g: Graph, h: seq<nat>, jobs: seq<Solved>)
    requires GoodGraph(g) && GoodJobs(g, jobs) && |h| == |g.items|
  {
    forall i :: 0 <= i < |jobs| && HasConflicts(g, jobs[i]) ==> TailNotLower(g, h, jobs[i].item)
  }

  ghost predicate Unsplit(g: Graph, jobs: seq<Solved>)
    requires GoodJobs(g, jobs)
  {
    forall i :: 0 <= i < |jobs| ==> !HasConflicts(g, jobs[i])
  }

  /** The first package of a chain that is not installed. */
  function FirstRemoteIn(g: Graph, chain: seq<nat>): (x: nat)
    requires SomeRemote(g, chain)
    ensures x in chain && x < |g.items| && !g.items[x].installed
  {
    if chain[0] < |g.items| && !g.items[chain[0]].installed then chain[0] else FirstRemoteIn(g, chain[1..])
  }

  lemma SomeRemoteLater(g: Graph, chain: seq<nat>)
    requires SomeRemote(g, chain) && (chain[0] < |g.items| ==> g.items[chain[0]].installed)
    ensures SomeRemote(g, chain[1..]) && FirstRemoteIn(g, chain) == FirstRemoteIn(g, chain[1..])
  {
    var i :| 0 <= i < |chain| && chain[i] < |g.items| && !g.items[chain[i]].installed;
    assert chain[1..][i - 1] == chain[i];
  }

  lemma RemoteHead(g: Graph, chain: seq<nat>)
    requires SomeRemote(g, chain)
    ensures chain != []
    ensures chain[0] < |g.items| && !g.items[chain[0]].installed ==> FirstRemoteIn(g, chain) == chain[0]
  {
  }

  function RemoteOf(g: Graph, uid: string): (x: nat)
    requires HasRemote(g, uid)
    ensures x < |g.items| && !g.items[x].installed
  {
    FirstRemoteIn(g, ChainOf(g, uid))
  }

  /** The package is above the first remote part of each of its conflicts. */
  ghost predicate AboveRemotes(g: Graph, uids: seq<string>, gone: nat, pri: Priorities)
    requires CanCheck(g, uids) && |pri| == |g.items| && gone < |pri|
  {
    forall c :: 0 <= c < |uids| ==> pri[RemoteOf(g, uids[c])] < pri[gone]
  }

  /** The first remote part of the first conflict has room above it. */
  ghost predicate RoomAtFirst(g: Graph, pri: Priorities, gone: nat)
    requires gone < |g.items| && CanCheck(g, g.items[gone].conflicts) && |pri| == |g.items|
  {
    g.items[gone].conflicts != [] ==> pri[RemoteOf(g, g.items[gone].conflicts[0])] < RECURSION_LIMIT
  }

  /** Both packages of an upgrade are raised alone. */
  ghost predicate BothAlone(g: Graph, item: nat, gone: nat)
    requires GoodGraph(g) && item < |g.items| && gone < |g.items|
  {
    item != gone && RaisedAlone(g, item, Request) && RaisedAlone(g, gone, Conflict)
  }

  /** An upgrade that is split in its turn, if its new package is at 0: the old one goes
      above a conflict, and nothing moves the new one. */
  ghost predicate SplitsAtOnce(g: Graph, pri: Priorities, job: Solved)
    requires GoodGraph(g) && GoodJob(g, job) && |pri| == |g.items|
  {
    HasConflicts(g, job) && BothAlone(g, job.item, job.gone.value) && RoomAtFirst(g, pri, job.gone.value)
  }

  /** The package that goes is above where the first remote part of a conflict was, if
      there was room. */
  ghost predicate PassedOne(g: Graph, before: Priorities, after: Priorities, uid: string, gone: nat)
    requires |before| == |after| == |g.items| && gone < |after| && HasRemote(g, uid)
  {
    before[RemoteOf(g, uid)] < RECURSION_LIMIT ==> before[RemoteOf(g, uid)] < after[gone]
  }

  ghost predicate FirstPassed(g: Graph, before: Priorities, after: Priorities, gone: nat)
    requires |before| == |after| == |g.items| && gone < |after| && CanCheck(g, g.items[gone].conflicts)
  {
    g.items[gone].conflicts != [] ==> PassedOne(g, before, after, g.items[gone].conflicts[0], gone)
  }

  lemma StillAtOnce(g: Graph, a: Priorities, b: Priorities, job: Solved)
    requires GoodGraph(g) && GoodJob(g, job) && |a| == |b| == |g.items| && SplitsAtOnce(g, a, job)
    requires forall x :: 0 <= x < |b| ==> b[x] <= a[x]
    ensures SplitsAtOnce(g, b, job)
  {
    hide BothAlone;
    assert HasRemote(g, g.items[job.gone.value].conflicts[0]);
  }

  /** Every package of the plan that has a priority is settled. */
  ghost predicate SettledIfRaised(g: Graph, del: bool, pri: Priorities, jobs: seq<Solved>)
    requires |pri| == |g.items| && InRange(pri, jobs)
  {
    forall i :: 0 <= i < |jobs| ==> pri[jobs[i].item] == 0 || Settled(g, del, pri, jobs[i].item)
  }

  lemma KeptSettles(g: Graph, del: bool, h: seq<nat>, low: nat, a: Priorities, b: Priorities, jobs: seq<Solved>, k: nat)
    requires |a| == |g.items| && InRange(a, jobs) && k <= |jobs|
    requires Kept(g, del, h, low, a, b)
    requires SettledIfRaised(g, del, a, jobs) && AllSettled(g, del, a, jobs[..k])
    ensures InRange(b, jobs) && SettledIfRaised(g, del, b, jobs) && AllSettled(g, del, b, jobs[..k])
  {
    hide Settled;
    forall i | 0 <= i < k
      ensures Settled(g, del, b, jobs[..k][i].item)
    {
      assert Settled(g, del, a, jobs[..k][i].item);
    }
  }

  lemma FirstIsSettled(g: Graph, t: Update, x: nat, before: Priorities, after: Priorities)
    requires GoodGraph(g) && x < |g.items| && |before| == |after| == |g.items| && !Skipped(g.items[x], t)
    requires Raised(g, t, Tail(g, x), 0, before, after) && before[x] == 0
    ensures Settled(g, t == Delete, after, x)
  {
    TailNamed(g, x);
    assert RaisedOne(g, t, x, 0, before, after);
  }

  /** There is room for every package at priority 0. */
  lemma RoomForAll(g: Graph, t: Update, h: seq<nat>, x: nat)
    requires GoodGraph(g) && x < |g.items| && |h| == |g.items|
    ensures Fits(g, t, h, 0, Tail(g, x), 0)
  {
    TailNamed(g, x);
  }

  lemma SplitIsGood(g: Graph, jobs: seq<Solved>, k: nat)
    requires GoodJobs(g, jobs) && k < |jobs| && jobs[k].gone.Some?
    ensures GoodJobs(g, Split(jobs, k))
  {
    assert GoodJob(g, jobs[k]);
  }

  lemma GoodInRange(g: Graph, jobs: seq<Solved>, pri: Priorities)
    requires GoodJobs(g, jobs) && |pri| == |g.items|
    ensures InRange(pri, jobs)
  {
    assert forall i :: 0 <= i < |jobs| ==> GoodJob(g, jobs[i]);
  }

  lemma SortIsGood(g: Graph, pri: Priorities, jobs: seq<Solved>)
    requires GoodJobs(g, jobs) && InRange(pri, jobs)
    ensures GoodJobs(g, Sort(pri, jobs)) && |Sort(pri, jobs)| == |jobs|
  {
    var r := Sort(pri, jobs);
    SortMembers(pri, jobs);
    assert |r| == |multiset(r)| && |jobs| == |multiset(jobs)|;
    forall i | 0 <= i < |r|
      ensures GoodJob(g, r[i])
    {
      assert r[i] in multiset(r);
      var j :| 0 <= j < |jobs| && jobs[j] == r[i];
      assert GoodJob(g, jobs[j]);
    }
  }

  lemma OneMoreSettled(g: Graph, del: bool, before: Priorities, after: Priorities, jobs: seq<Solved>, k: nat)
    requires |before| == |after| == |g.items| && InRange(after, jobs) && k < |jobs|
    requires SettledIfRaised(g, del, after, jobs) && AllSettled(g, del, after, jobs[..k]) && NeverLower(before, after)
    requires before[jobs[k].item] == 0 ==> Settled(g, del, after, jobs[k].item)
    ensures AllSettled(g, del, after, jobs[..k + 1])
  {
    assert jobs[..k + 1] == jobs[..k] + [jobs[k]];
    hide Settled;
  }

  /** Packages that replace one with conflicts come last in their chains. */
  ghost predicate LastOfChains(g: Graph, jobs: seq<Solved>)
    requires GoodGraph(g) && GoodJobs(g, jobs)
  {
    forall i :: 0 <= i < |jobs| && HasConflicts(g, jobs[i]) ==> Tail(g, jobs[i].item) == [jobs[i].item]
  }

  lemma LastFits(g: Graph, h: seq<nat>, jobs: seq<Solved>)
    requires GoodGraph(g) && GoodJobs(g, jobs) && |h| == |g.items| && LastOfChains(g, jobs)
    ensures TailsFit(g, h, jobs)
  {
  }

  lemma RankedIsLong(g: Graph, del: bool, h: seq<nat>)
    requires Ranked(g, del, h)
    ensures |h| == |g.items|
  {
  }

  lemma NoRemotes(g: Graph, gone: nat, pri: Priorities)
    requires |pri| == |g.items| && gone < |pri|
    ensures CanCheck(g, []) && AboveRemotes(g, [], gone, pri)
  {
  }

  /** A remote part that was raised along with the package is still below it. */
  lemma ChangedRemote(g: Graph, h: seq<nat>, x: nat, gone: nat, a: Priorities, b: Priorities)
    requires Kept(g, false, h, 0, a, b) && x < |a| && gone < |a| && Ousts(g, false, x, gone) && a[x] < b[gone]
    ensures b[x] < b[gone]
  {
  }

  /** Only an installed package can be in the way of others. */
  lemma MutualIsInstalled(g: Graph, uids: seq<string>, gone: nat)
    requires GoodGraph(g) && gone < |g.items| && CanCheck(g, uids) && uids != [] && Mutual(g, uids, gone)
    ensures g.items[gone].installed
  {
    RemoteIsMutual(g, uids, 0, gone);
  }

  lemma AboveSomething(g: Graph, uids: seq<string>, gone: nat, pri: Priorities)
    requires CanCheck(g, uids) && uids != [] && |pri| == |g.items| && gone < |pri| && AboveRemotes(g, uids, gone, pri)
    ensures pri[gone] > 0
  {
    assert pri[RemoteOf(g, uids[0])] < pri[gone];
  }

  /** If the new package is not below the one that goes, it was raised, and is settled. */
  lemma RaisedIsSettled(g: Graph, h: seq<nat>, item: nat, gone: nat, a: Priorities, b: Priorities)
    requires Kept(g, false, h, 0, a, b) && item < |a| && gone < |a| && a[item] == 0 && b[gone] > 0
    ensures b[gone] <= b[item] ==> Settled(g, false, b, item)
  {
  }

  lemma SortStaysSettled(g: Graph, del: bool, pri: Priorities, jobs: seq<Solved>)
    requires |pri| == |g.items| && InRange(pri, jobs) && AllSettled(g, del, pri, jobs)
    ensures AllSettled(g, del, pri, Sort(pri, jobs))
  {
    hide Settled;
    SortMembers(pri, jobs);
    var r := Sort(pri, jobs);
    forall i | 0 <= i < |r|
      ensures Settled(g, del, pri, r[i].item)
    {
      assert r[i] in multiset(r);
      var j :| 0 <= j < |jobs| && jobs[j] == r[i];
      assert Settled(g, del, pri, jobs[j].item);
    }
  }

  lemma RemoteIsMutual(g: Graph, uids: seq<string>, c: nat, gone: nat)
    requires GoodGraph(g) && gone < |g.items| && CanCheck(g, uids) && c < |uids| && Mutual(g, uids, gone)
    ensures HasRemote(g, uids[c]) && Ousts(g, false, RemoteOf(g, uids[c]), gone)
  {
    ChainNamed(g, uids[c]);
    var x := RemoteOf(g, uids[c]);
    var i :| 0 <= i < |ChainOf(g, uids[c])| && ChainOf(g, uids[c])[i] == x;
    assert Named(g, uids[c], x);
  }

  /** A package stays above one that it has to go before, whatever is raised. */
  lemma StaysAbove(g: Graph, h: seq<nat>, low: nat, x: nat, gone: nat, a: Priorities, b: Priorities)
    requires Kept(g, false, h, low, a, b) && NeverLower(a, b) && x < |a| && gone < |a|
    requires Ousts(g, false, x, gone) && a[x] < a[gone]
    ensures b[x] < b[gone]
  {
  }

  lemma RemotesStayBelow(g: Graph, h: seq<nat>, uids: seq<string>, gone: nat, a: Priorities, b: Priorities)
    requires GoodGraph(g) && |a| == |g.items| && gone < |a| && CanCheck(g, uids) && Mutual(g, uids, gone)
    requires Kept(g, false, h, 0, a, b) && NeverLower(a, b) && AboveRemotes(g, uids, gone, a)
    ensures AboveRemotes(g, uids, gone, b)
  {
    hide Kept, Ousts, Mutual;
    forall c | 0 <= c < |uids|
      ensures b[RemoteOf(g, uids[c])] < b[gone]
    {
      RemoteIsMutual(g, uids, c, gone);
      StaysAbove(g, h, 0, RemoteOf(g, uids[c]), gone, a, b);
    }
  }

  lemma CheckSome(g: Graph, uids: seq<string>, n: nat, gone: nat)
    requires n <= |uids| && CanCheck(g, uids) && gone < |g.items|
    ensures CanCheck(g, uids[..n])
    ensures Mutual(g, uids, gone) ==> Mutual(g, uids[..n], gone)
  {
  }

  lemma OneMoreRemote(g: Graph, uids: seq<string>, a: nat, gone: nat, pri: Priorities)
    requires CanCheck(g, uids) && a < |uids| && |pri| == |g.items| && gone < |pri|
    requires CanCheck(g, uids[..a]) && CanCheck(g, uids[..a + 1])
    requires AboveRemotes(g, uids[..a], gone, pri) && pri[RemoteOf(g, uids[a])] < pri[gone]
    ensures AboveRemotes(g, uids[..a + 1], gone, pri)
  {
    hide RemoteOf, HasRemote;
    var some := uids[..a + 1];
    forall c | 0 <= c < |some|
      ensures HasRemote(g, some[c]) && pri[RemoteOf(g, some[c])] < pri[gone]
    {
      if c < a {
        assert some[c] == uids[..a][c];
      } else {
        assert some[c] == uids[a];
      }
    }
  }

  /** Room for the package that goes, above one that it has to go before. */
  lemma RoomAbove(g: Graph, h: seq<nat>, pri: Priorities, x: nat, gone: nat)
    requires GoodGraph(g) && Ranked(g, false, h) && AtMost(pri, h) && x < |pri| && gone < |pri|
    requires Ousts(g, false, x, gone)
    ensures Fits(g, Conflict, h, 0, Tail(g, gone), pri[x] + 1)
  {
    FitsOusted(g, h, x, pri[x], gone);
  }

  lemma RoomForTail(g: Graph, h: seq<nat>, pri: Priorities, x: nat)
    requires GoodGraph(g) && |h| == |g.items| && AtMost(pri, h) && x < |pri| && TailNotLower(g, h, x)
    ensures Fits(g, Request, h, 0, Tail(g, x), pri[x])
  {
  }

  /** Raised above another: the package itself comes first in its tail. */
  lemma GoneIsRaised(g: Graph, gone: nat, p: nat, a: Priorities, b: Priorities)
    requires GoodGraph(g) && gone < |g.items| && |a| == |b| == |g.items| && g.items[gone].installed
    requires Raised(g, Conflict, Tail(g, gone), p, a, b)
    ensures p <= b[gone]
  {
    FirstOfTail(g, Conflict, gone, p, a, b);
  }

  lemma SplitStaysOneWay(g: Graph, del: bool, h: seq<nat>, jobs: seq<Solved>, k: nat)
    requires GoodGraph(g) && GoodJobs(g, jobs) && k < |jobs| && jobs[k].gone.Some? && GoodJobs(g, Split(jobs, k))
    requires |h| == |g.items| && OneWay(g, del, jobs) && TailsFit(g, h, jobs) && jobs[k].kind == PkgUpgrade
    ensures OneWay(g, del, Split(jobs, k)) && TailsFit(g, h, Split(jobs, k))
  {
    assert GoesThatWay(g, del, jobs[k]);
    var r := Split(jobs, k);
    forall i | 0 <= i < |r|
      ensures GoesThatWay(g, del, r[i]) && (HasConflicts(g, r[i]) ==> TailNotLower(g, h, r[i].item))
    {
      assert GoodJob(g, r[i]);
      if i < |jobs| && i != k {
        assert r[i] == jobs[i] && GoesThatWay(g, del, jobs[i]);
      }
    }
  }

  /** Is the package one of the plan? */
  ghost predicate Takes(jobs: seq<Solved>, x: nat)
  {
    exists i :: 0 <= i < |jobs| && (jobs[i].item == x || jobs[i].gone == Some(x))
  }

  lemma TakesStep(jobs: seq<Solved>, k: nat)
    requires k < |jobs|
    ensures forall x: nat ::
      Takes(jobs[..k + 1], x) <==> Takes(jobs[..k], x) || jobs[k].item == x || jobs[k].gone == Some(x)
  {
    var more := jobs[..k + 1];
    assert more[k] == jobs[k] && forall i :: 0 <= i < k ==> more[i] == jobs[..k][i];
    forall x: nat
      ensures Takes(more, x) <==> Takes(jobs[..k], x) || jobs[k].item == x || jobs[k].gone == Some(x)
    {
      if i :| 0 <= i < k && (jobs[..k][i].item == x || jobs[..k][i].gone == Some(x)) {
        assert more[i].item == x || more[i].gone == Some(x);
      }
    }
  }

  class JobPlan {
    const u: JobUniverse
    var jobs: seq<Solved>
    var count: nat

    ghost predicate Valid()
      reads this, u
    {
      u.Valid() && GoodJobs(u.g, jobs) && count == |jobs|
    }

    constructor (u: JobUniverse, jobs: seq<Solved>)
      requires u.Valid() && GoodJobs(u.g, jobs)
      ensures Valid() && this.u == u && this.jobs == jobs
    {
      this.u, this.jobs, this.count := u, jobs, |jobs|;
    }

    /** The first package of a chain that is not installed. */
    method FirstRemote(uid: string) returns (x: nat)
      requires u.Valid() && HasRemote(u.g, uid)
      ensures x == RemoteOf(u.g, uid)
    {
      hide GoodGraph, SomeRemote, FirstRemoteIn;
      ChainNamed(u.g, uid);
      RemoteHead(u.g, ChainOf(u.g, uid));
      var chain, i := u.g.chains[uid], 0;
      assert chain[0..] == chain && chain == ChainOf(u.g, uid);
      while u.g.items[chain[i]].installed
        invariant 0 <= i < |chain| && SomeRemote(u.g, chain[i..])
        invariant FirstRemoteIn(u.g, chain[i..]) == RemoteOf(u.g, uid)
        decreases |chain| - i
      {
        SomeRemoteLater(u.g, chain[i..]);
        assert chain[i..][1..] == chain[i + 1..];
        RemoteHead(u.g, chain[i + 1..]);
        i := i + 1;
      }
      RemoteHead(u.g, chain[i..]);
      x := chain[i];
    }

    /** What a rank has to be like for the conflicts of a package replaced. */
    ghost predicate ConflictReady(item: nat, gone: nat, h: seq<nat>)
      requires u.Valid() && item < |u.g.items| && gone < |u.g.items|
      reads u
    {
      && Ranked(u.g, false, h) && AtMost(u.pri, h) && TailNotLower(u.g, h, item)
      && Mutual(u.g, u.g.items[gone].conflicts, gone) && u.g.items[gone].installed
    }

    /** A package that is replaced is raised above the remote part of each conflict. */
    method UpdateConflictPriority(item: nat, gone: nat, ghost h: seq<nat>)
      requires u.Valid() && item < |u.g.items| && gone < |u.g.items| && CanCheck(u.g, u.g.items[gone].conflicts)
      modifies u`pri
      ensures u.Valid() && NeverLower(old(u.pri), u.pri)
      ensures old(ConflictReady(item, gone, h)) ==>
        Kept(u.g, false, h, 0, old(u.pri), u.pri) && AboveRemotes(u.g, u.g.items[gone].conflicts, gone, u.pri)
      ensures BothAlone(u.g, item, gone) ==>
        u.pri == old(u.pri)[gone := u.pri[gone]] && FirstPassed(u.g, old(u.pri), u.pri, gone)
    {
      hide Kept, Ranked, AtMost, Mutual, Ousts, TailNotLower, HasRemote, AboveRemotes, BothAlone, RemoteOf;
      var uids, a := u.g.items[gone].conflicts, 0;
      ghost var ok := ConflictReady(item, gone, h);
      CheckSome(u.g, uids, 0, gone);
      if ok {
        RankedIsLong(u.g, false, h);
        KeptSelf(u.g, false, h, 0, u.pri);
        NoRemotes(u.g, gone, u.pri);
      }
      while a < |uids|
        invariant 0 <= a <= |uids| && u.Valid() && NeverLower(old(u.pri), u.pri) && CanCheck(u.g, uids[..a])
        invariant ok ==> Kept(u.g, false, h, 0, old(u.pri), u.pri) && AboveRemotes(u.g, uids[..a], gone, u.pri)
        invariant BothAlone(u.g, item, gone) ==>
          u.pri == old(u.pri)[gone := u.pri[gone]] && (a > 0 ==> FirstPassed(u.g, old(u.pri), u.pri, gone))
      {
        CheckSome(u.g, uids, a + 1, gone);
        CheckSome(u.g, uids, a, gone);
        ghost var before := u.pri;
        if ok { KeptAtMost(u.g, false, h, 0, old(u.pri), u.pri); }
        RaiseAbove(item, gone, a, h);
        if ok {
          KeptTwice(u.g, false, h, 0, old(u.pri), before, u.pri);
          RemotesStayBelow(u.g, h, uids[..a], gone, before, u.pri);
          OneMoreRemote(u.g, uids, a, gone, u.pri);
        }
        a := a + 1;
      }
      assert uids[..a] == uids;
    }

    /** One conflict: the package goes above its remote part, and the new one follows. */
    method RaiseAbove(item: nat, gone: nat, c: nat, ghost h: seq<nat>)
      requires u.Valid() && item < |u.g.items| && gone < |u.g.items|
      requires CanCheck(u.g, u.g.items[gone].conflicts) && c < |u.g.items[gone].conflicts|
      modifies u`pri
      ensures u.Valid() && NeverLower(old(u.pri), u.pri) && HasRemote(u.g, u.g.items[gone].conflicts[c])
      ensures old(ConflictReady(item, gone, h)) ==>
        Kept(u.g, false, h, 0, old(u.pri), u.pri) && u.pri[RemoteOf(u.g, u.g.items[gone].conflicts[c])] < u.pri[gone]
      ensures BothAlone(u.g, item, gone) ==>
        && u.pri == old(u.pri)[gone := u.pri[gone]]
        && PassedOne(u.g, old(u.pri), u.pri, u.g.items[gone].conflicts[c], gone)
    {
      hide Kept, Ranked, AtMost, Mutual, Ousts, TailNotLower, HasRemote, Raised, RemoteOf;
      var uids := u.g.items[gone].conflicts;
      ghost var ok, s0 := ConflictReady(item, gone, h), u.pri;
      if ok {
        RankedIsLong(u.g, false, h);
        KeptSelf(u.g, false, h, 0, u.pri);
        RemoteIsMutual(u.g, uids, c, gone);
      }
      var remote := FirstRemote(uids[c]);
      if u.pri[remote] >= u.pri[gone] {
        if ok { RoomAbove(u.g, h, u.pri, remote, gone); }
        u.UpdateItem(gone, u.pri[remote] + 1, Conflict, h, 0);
        ghost var s1 := u.pri;
        if ok {
          GoneIsRaised(u.g, gone, s0[remote] + 1, s0, s1);
          ChangedRemote(u.g, h, remote, gone, s0, s1);
          KeptAtMost(u.g, false, h, 0, s0, s1);
          RoomForTail(u.g, h, u.pri, item);
        }
        u.UpdateItem(item, u.pri[item], Request, h, 0);
        if ok {
          KeptTwice(u.g, false, h, 0, s0, s1, u.pri);
          StaysAbove(u.g, h, 0, remote, gone, s1, u.pri);
        }
      }
    }

    /** The plan goes one way, and the rank fits it. */
    ghost predicate Ready(del: bool, h: seq<nat>)
      reads this, u
    {
      Valid() && OneWay(u.g, del, jobs) && Ranked(u.g, del, h) && AtMost(u.pri, h) && TailsFit(u.g, h, jobs)
    }

    /** Sets the priority of one job; true if the job had to be split. */
    method SetExecutePriority(k: nat, ghost del: bool, ghost h: seq<nat>) returns (conflict: bool)
      requires Valid() && k < |jobs|
      modifies this, u`pri
      ensures Valid() && NeverLower(old(u.pri), u.pri)
      ensures !conflict ==> jobs == old(jobs)
      ensures conflict ==> old(jobs)[k].kind == PkgUpgrade && old(jobs)[k].gone.Some? && jobs == Split(old(jobs), k)
      ensures old(HasConflicts(u.g, jobs[k])) ==>
        (conflict <==> u.pri[old(jobs)[k].item] < u.pri[old(jobs)[k].gone.value])
      ensures old(!HasConflicts(u.g, jobs[k])) ==> !conflict
      ensures old(SplitsAtOnce(u.g, u.pri, jobs[k]) && u.pri[jobs[k].item] == 0) ==> conflict
      ensures old(Ready(del, h)) ==> Kept(u.g, del, h, 0, old(u.pri), u.pri)
      ensures old(Ready(del, h)) && !conflict && old(u.pri)[old(jobs)[k].item] == 0 ==>
        Settled(u.g, del, u.pri, old(jobs)[k].item)
    {
      hide Kept, Raised, Settled, Ranked, AtMost, Mutual, TailNotLower, CanCheck, AboveRemotes;
      ghost var ok := Ready(del, h);
      ghost var before := u.pri;
      var job := jobs[k];
      assert GoodJob(u.g, job);
      if ok {
        assert GoesThatWay(u.g, del, job);
        RankedIsLong(u.g, del, h);
        RoomForAll(u.g, if del then Delete else Request, h, job.item);
        KeptSelf(u.g, del, h, 0, u.pri);
      }
      if job.kind == PkgUpgrade && u.g.items[job.gone.value].conflicts != [] {
        if u.pri[job.item] == 0 {
          if ok { MutualIsInstalled(u.g, u.g.items[job.gone.value].conflicts, job.gone.value); }
          UpdateConflictPriority(job.item, job.gone.value, h);
          if ok {
            AboveSomething(u.g, u.g.items[job.gone.value].conflicts, job.gone.value, u.pri);
            RaisedIsSettled(u.g, h, job.item, job.gone.value, before, u.pri);
          }
        }
        if u.pri[job.gone.value] > u.pri[job.item] && !job.alreadyDeleted {
          SplitIsGood(u.g, jobs, k);
          jobs := Split(jobs, k);
          count := count + 1;
          return true;
        }
      } else if job.kind == PkgDelete {
        if u.pri[job.item] == 0 {
          u.UpdateItem(job.item, 0, Delete, h, 0);
          if ok { FirstIsSettled(u.g, Delete, job.item, before, u.pri); }
        }
      } else {
        if u.pri[job.item] == 0 {
          u.UpdateItem(job.item, 0, Request, h, 0);
          if ok { FirstIsSettled(u.g, Request, job.item, before, u.pri); }
        }
      }
      return false;
    }

    /** All packages of the plan are put back to priority 0. */
    method ResetPriorities()
      requires Valid()
      modifies u`pri
      ensures Valid()
      ensures forall i :: 0 <= i < |jobs| ==> u.pri[jobs[i].item] == 0
      ensures forall x :: 0 <= x < |u.pri| ==> u.pri[x] == if Takes(jobs, x) then 0 else old(u.pri[x])
    {
      var k := 0;
      while k < |jobs|
        invariant 0 <= k <= |jobs| && Valid()
        invariant forall i :: 0 <= i < k ==> u.pri[jobs[i].item] == 0
        invariant forall x :: 0 <= x < |u.pri| ==> u.pri[x] == if Takes(jobs[..k], x) then 0 else old(u.pri[x])
      {
        assert GoodJob(u.g, jobs[k]);
        TakesStep(jobs, k);
        u.pri := u.pri[jobs[k].item := 0];
        if jobs[k].gone.Some? {
          u.pri := u.pri[jobs[k].gone.value := 0];
        }
        k := k + 1;
      }
      assert jobs[..k] == jobs;
    }

    /** Sets the priorities of all jobs, up to the first that has to be split. */
    method SetAllPriorities(ghost del: bool, ghost h: seq<nat>) returns (conflict: bool)
      requires Valid() && forall i :: 0 <= i < |jobs| ==> u.pri[jobs[i].item] == 0
      modifies this, u`pri
      ensures Valid() && SameActions(jobs, old(jobs))
      ensures conflict ==> Upgrades(jobs) < Upgrades(old(jobs)) && SplitOnceFrom(old(jobs), jobs)
      ensures !conflict ==> jobs == old(jobs)
      ensures old(Unsplit(u.g, jobs)) ==> !conflict
      ensures old(jobs != [] && SplitsAtOnce(u.g, u.pri, jobs[0])) ==> conflict
      ensures InRange(u.pri, jobs)
      ensures old(Ready(del, h)) ==> Ready(del, h)
      ensures old(Ready(del, h)) && !conflict ==> AllSettled(u.g, del, u.pri, jobs)
    {
      hide Settled, Kept, Ranked, AtMost, OneWay, TailsFit, HasConflicts;
      ghost var ok := Ready(del, h);
      var k := 0;
      GoodInRange(u.g, jobs, u.pri);
      while k < |jobs|
        invariant 0 <= k <= |jobs| && Valid() && jobs == old(jobs) && InRange(u.pri, jobs)
        invariant k == 0 ==> u.pri == old(u.pri)
        invariant k > 0 ==> !old(jobs != [] && SplitsAtOnce(u.g, u.pri, jobs[0]))
        invariant ok ==> Ready(del, h)
        invariant ok ==> SettledIfRaised(u.g, del, u.pri, jobs) && AllSettled(u.g, del, u.pri, jobs[..k])
      {
        ghost var before := u.pri;
        conflict := SetExecutePriority(k, del, h);
        if ok { KeptAtMost(u.g, del, h, 0, before, u.pri); }
        if conflict {
          SplitKeepsActions(old(jobs), k);
          GoodInRange(u.g, jobs, u.pri);
          if ok {
            RankedIsLong(u.g, del, h);
            SplitStaysOneWay(u.g, del, h, old(jobs), k);
          }
          return;
        }
        if ok {
          KeptSettles(u.g, del, h, 0, before, u.pri, jobs, k);
          OneMoreSettled(u.g, del, before, u.pri, jobs, k);
        }
        k := k + 1;
      }
      assert jobs[..k] == jobs;
      return false;
    }

    /** Sets the priorities, from the start again after every split, and sorts the jobs.
        Nothing that the plan does is lost or added; if the plan goes one way, and the
        rank fits, every job comes after all that its package waits for. */
    method SetPriorities(ghost del: bool, ghost h: seq<nat>)
      requires Valid()
      modifies this, u`pri
      ensures Valid() && InRange(u.pri, jobs) && HighestFirst(u.pri, jobs)
      ensures SameActions(jobs, old(jobs))
      ensures old(Unsplit(u.g, jobs)) ==> multiset(jobs) == old(multiset(jobs))
      ensures SplitAndSorted(old(jobs), u.pri, jobs,
        if old(jobs != [] && SplitsAtOnce(u.g, u.pri, jobs[0])) then 1 else 0)
      ensures old(Parted(jobs, |jobs|)) ==> RemovedFirstIffHigher(u.pri, jobs)
      ensures old(Ready(del, h)) ==>
        WellOrdered(u.g, del, jobs) && AtMost(u.pri, h) && AllSettled(u.g, del, u.pri, jobs)
    {
      hide Settled, Ranked, OneWay, TailsFit, HasConflicts, SplitFrom, SplitOnceFrom, SplitsAtOnce, Parted,
        HighestFirst;
      hide WellOrdered, RemovedFirstIffHigher, SplitAndSorted, Unsplit, SameActions, Split;
      assert SplitFrom(jobs, jobs, 0) && SameActions(jobs, jobs) by { NoSplit(jobs); }
      ghost var ok, plain, parted, n := Ready(del, h), Unsplit(u.g, jobs), Parted(jobs, |jobs|), |jobs|;
      ghost var atOnce, splits := jobs != [] && SplitsAtOnce(u.g, u.pri, jobs[0]), 0;
      var again := true;
      while again
        invariant Valid() && SameActions(jobs, old(jobs))
        invariant plain ==> jobs == old(jobs)
        invariant parted ==> Parted(jobs, n)
        invariant SplitFrom(old(jobs), jobs, splits)
        invariant splits == 0 ==> jobs == old(jobs) && if again then u.pri == old(u.pri) else !atOnce
        invariant ok ==> Ready(del, h)
        invariant !again ==> InRange(u.pri, jobs) && (ok ==> AllSettled(u.g, del, u.pri, jobs))
        decreases Upgrades(jobs), again
      {
        ghost var was := u.pri;
        ResetPriorities();
        ghost var before := jobs;
        if jobs != [] && atOnce && splits == 0 { StillAtOnce(u.g, was, u.pri, jobs[0]); }
        again := SetAllPriorities(del, h);
        SameThroughout(jobs, before, old(jobs));
        if again {
          if parted { SplitStaysParted(before, jobs, n); }
          OneSplitMore(old(jobs), before, jobs, splits);
          splits := splits + 1;
        }
      }
      ghost var unsorted := jobs;
      SortJobs(old(jobs), splits, if atOnce then 1 else 0, del);
      SameThroughout(jobs, unsorted, old(jobs));
      if parted { SplitPairOrder(u.pri, unsorted, n); }
    }

    /** The sort at the end. */
    method SortJobs(ghost first: seq<Solved>, ghost splits: nat, ghost least: nat, ghost del: bool)
      requires Valid() && InRange(u.pri, jobs) && SplitFrom(first, jobs, splits) && least <= splits
      modifies this
      ensures Valid() && InRange(u.pri, jobs) && HighestFirst(u.pri, jobs) && jobs == Sort(u.pri, old(jobs))
      ensures SameActions(jobs, old(jobs)) && multiset(jobs) == old(multiset(jobs))
      ensures SplitAndSorted(first, u.pri, jobs, least)
      ensures old(AllSettled(u.g, del, u.pri, jobs)) ==>
        WellOrdered(u.g, del, jobs) && AllSettled(u.g, del, u.pri, jobs)
    {
      hide Settled, SplitFrom, HighestFirst, WellOrdered, SplitAndSorted, SameActions, Sort, AllSettled, GoodJobs;
      SortKeepsActions(u.pri, jobs);
      SortOrders(u.pri, jobs);
      SortIsGood(u.g, u.pri, jobs);
      SortedIs(first, u.pri, jobs, splits);
      if AllSettled(u.g, del, u.pri, jobs) {
        SettledSortsWell(u.g, del, u.pri, jobs);
        SortStaysSettled(u.g, del, u.pri, jobs);
      }
      jobs := Sort(u.pri, jobs);
    }

    /** The same from a fresh universe, where what has to hold can be read off the
        dependencies: no path is longer than the limit, and a package that replaces one
        with conflicts comes last in its chain. */
    method SetFirstPriorities(ghost del: bool)
      requires Valid() && forall x :: 0 <= x < |u.pri| ==> u.pri[x] == 0
      modifies this, u`pri
      ensures Valid() && InRange(u.pri, jobs) && HighestFirst(u.pri, jobs) && SameActions(jobs, old(jobs))
      ensures NoLongPath(u.g, del) && old(OneWay(u.g, del, jobs) && LastOfChains(u.g, jobs)) ==>
        WellOrdered(u.g, del, jobs)
    {
      hide NoLongPath, Ranked, OneWay, TailsFit, LastOfChains, HighestFirst, WellOrdered;
      ghost var h := DepthRank(u.g, del);
      if NoLongPath(u.g, del) && OneWay(u.g, del, jobs) && LastOfChains(u.g, jobs) {
        DepthIsRank(u.g, del);
        LastFits(u.g, h, jobs);
      }
      SetPriorities(del, h);
    }
  }

  // ----- the tied graph, from the start -----

  const TIED_UPGRADE := [Solved(PkgUpgrade, 1, Some(0), false), Solved(PkgInstall, 2, None, false)]

  lemma TiedIsGood()
    ensures GoodGraph(TIED_GRAPH) && GoodJobs(TIED_GRAPH, TIED_UPGRADE)
    ensures Mutual(TIED_GRAPH, ["b"], 0) && TIED_GRAPH.items[0].conflicts == ["b"]
  {
    var g := TIED_GRAPH;
    assert "b"[0] != "a"[0];
    assert g.chains["a"] == [0, 1] && g.chains["b"] == [2] && g.chains.Keys == {"a", "b"};
    assert forall x :: 0 <= x < 3 ==> OnChain(g, g.items[x].uid, g.items[x].pos, x);
    assert forall u, i :: u in g.chains && 0 <= i < |g.chains[u]| ==> InChain(g, u, i);
    assert ChainOf(g, "b")[0] == 2 && !g.items[2].installed;
    assert SomeRemote(g, ChainOf(g, "b"));
    assert GoodJob(g, TIED_UPGRADE[0]) && GoodJob(g, TIED_UPGRADE[1]);
  }

  lemma TiedTails()
    requires GoodGraph(TIED_GRAPH)
    ensures Tail(TIED_GRAPH, 0) == [0, 1] && Tail(TIED_GRAPH, 1) == [1]
  {
    assert TIED_GRAPH.chains["a"] == [0, 1];
  }

  /** The upgrade is split when its turn comes. */
  lemma TiedSplitsAtOnce(pri: Priorities)
    requires GoodGraph(TIED_GRAPH) && GoodJob(TIED_GRAPH, TIED_UPGRADE[0]) && |pri| == 3
    requires forall x :: 0 <= x < 3 ==> pri[x] == 0
    ensures SplitsAtOnce(TIED_GRAPH, pri, TIED_UPGRADE[0])
  {
    TiedTails();
    assert BothAlone(TIED_GRAPH, 1, 0);
  }

  lemma TiedIsReady()
    requires GoodGraph(TIED_GRAPH) && GoodJobs(TIED_GRAPH, TIED_UPGRADE) && Mutual(TIED_GRAPH, ["b"], 0)
    ensures OneWay(TIED_GRAPH, false, TIED_UPGRADE) && TailsFit(TIED_GRAPH, [1, 1, 0], TIED_UPGRADE)
  {
    TiedTails();
    assert TailNotLower(TIED_GRAPH, [1, 1, 0], 1);
    assert GoesThatWay(TIED_GRAPH, false, TIED_UPGRADE[0]) && GoesThatWay(TIED_GRAPH, false, TIED_UPGRADE[1]);
  }

  /** That plan can be split in one way, once. */
  lemma {:induction false} TiedSplits(list: seq<Solved>, splits: nat)
    requires SplitFrom(TIED_UPGRADE, list, splits)
    ensures splits <= 1 && (splits == 1 ==> list == TIED_PLAN)
    decreases splits
  {
    if splits > 0 {
      var between :| SplitFrom(TIED_UPGRADE, between, splits - 1) && SplitOnceFrom(between, list);
      TiedSplits(between, splits - 1);
      assert Split(TIED_UPGRADE, 0) == TIED_PLAN;
    }
  }

  /** What the program makes of the upgrade and the installation, in a fresh universe: the
      upgrade is split, and the old package is removed after the new one is installed. */
  method RunTied() returns (jobs: seq<Solved>)
    ensures TIED_PLAN[0] in jobs && TIED_PLAN[2] in jobs && Before(jobs, TIED_PLAN[0], TIED_PLAN[2])
  {
    hide GoodGraph, GoodJobs, Ranked, OneWay, TailsFit, Mutual, SplitsAtOnce, SplitFrom, Before, WellOrdered,
      HighestFirst;
    TiedIsGood();
    TiedIsReady();
    TiedIsRanked();
    var u := new JobUniverse(TIED_GRAPH);
    var plan := new JobPlan(u, TIED_UPGRADE);
    TiedSplitsAtOnce(u.pri);
    plan.SetPriorities(false, [1, 1, 0]);
    jobs := plan.jobs;
    TiedResult(u.pri, jobs);
  }

  lemma TiedResult(pri: Priorities, jobs: seq<Solved>)
    requires SplitAndSorted(TIED_UPGRADE, pri, jobs, 1) && |pri| == 3 && AtMost(pri, [1, 1, 0])
    requires InRange(pri, jobs) && AllSettled(TIED_GRAPH, false, pri, jobs)
    ensures TIED_PLAN[0] in jobs && TIED_PLAN[2] in jobs && Before(jobs, TIED_PLAN[0], TIED_PLAN[2])
  {
    hide SplitFrom, AtMost, Settled, Sort, Before, Ranked;
    var list, splits :| SplitFrom(TIED_UPGRADE, list, splits) && 1 <= splits && InRange(pri, list) && jobs ==
      Sort(pri, list);
    TiedSplits(list, splits);
    SortMembers(pri, list);
    assert forall k :: 0 <= k < 3 ==> TIED_PLAN[k] in multiset(TIED_PLAN) && TIED_PLAN[k] in multiset(jobs);
    var i :| 0 <= i < |jobs| && jobs[i] == TIED_PLAN[1];
    assert Settled(TIED_GRAPH, false, pri, jobs[i].item);
    TiedPairIsSwapped(pri);
  }
}
