/** Conflicts among the packages asked for (libpkg/pkg_jobs_conflicts.c:89-172): of
    each chain of conflicting requests one is kept, and the others are skipped. */
module ConflictRequests {
  import Characters
  import VersionCompare

  /** A request, by the package of its first candidate. */
  datatype Request = Request(uid: string, name: string, origin: string, version: string, conflicts: seq<string>)

  /** What the job works with: the uids of the universe, the requests, and where the
      request for a uid is. */
  datatype Job = Job(known: set<string>, requests: seq<Request>, byUid: map<string, nat>)

  ghost predicate GoodJob(j: Job)
  {
    && (forall k :: 0 <= k < |j.requests| ==> j.requests[k].uid in j.byUid && j.byUid[j.requests[k].uid] == k)
    && (forall u :: u in j.byUid ==> j.byUid[u] < |j.requests| && j.requests[j.byUid[u]].uid == u)
  }

  /** Request k lists request i as a conflict. */
  ghost predicate Lists(j: Job, k: nat, i: nat)
    requires k < |j.requests| && i < |j.requests|
  {
    Asked(j, j.requests[k].conflicts, i)
  }

  /** No two requests that are kept conflict, whichever of them says so. */
  ghost predicate ConflictFree(j: Job, skip: seq<bool>)
    requires |skip| == |j.requests|
  {
    forall k, i :: 0 <= k < |skip| && 0 <= i < |skip| && !skip[k] && !skip[i] ==> !Lists(j, k, i)
  }

  ghost predicate SomeKept(skip: seq<bool>)
  {
    exists i :: 0 <= i < |skip| && !skip[i]
  }

  /** The conflict lists hold no uid twice (libpkg/pkg.c:1140), nor the package itself. */
  ghost predicate PlainConflicts(r: Request)
  {
    && r.uid !in r.conflicts
    && forall a, b :: 0 <= a < b < |r.conflicts| ==> r.conflicts[a] != r.conflicts[b]
  }

  // ----- the chain of a request -----

  ghost predicate Asked(j: Job, conflicts: seq<string>, i: nat)
    requires i < |j.requests|
  {
    j.requests[i].uid in conflicts && j.requests[i].uid in j.known
  }

  /** The requests that are kept so far and that a list of conflicts names. */
  function Found(j: Job, skip: seq<bool>, conflicts: seq<string>): (r: seq<nat>)
    requires |skip| == |j.requests| && GoodJob(j)
    ensures forall i :: 0 <= i < |r| ==> r[i] < |skip| && !skip[r[i]] && Asked(j, conflicts, r[i])
    ensures forall i: nat :: i < |skip| && !skip[i] && Asked(j, conflicts, i) ==> i in r
  {
    if conflicts == [] then []
    else
      var init, c := conflicts[..|conflicts| - 1], conflicts[|conflicts| - 1];
      assert conflicts == init + [c];
      if c in j.known && c in j.byUid && !skip[j.byUid[c]] then [j.byUid[c]] + Found(j, skip, init)
      else Found(j, skip, init)
  }

  /** The request itself comes first, then what it conflicts with, the last found first. */
  function Chain(j: Job, skip: seq<bool>, k: nat): seq<nat>
    requires |skip| == |j.requests| && GoodJob(j) && k < |skip|
  {
    var found := Found(j, skip, j.requests[k].conflicts);
    if found == [] then [] else [k] + found
  }

  /** The last element of the origin is the given name. */
  predicate PureOrigin(origin: string, name: string)
  {
    var slash := Characters.LastIndex(origin, '/');
    slash >= 0 && origin[slash + 1..] == name
  }

  /** All of the chain are skipped but for the element at one place. */
  ghost predicate SkippedBut(skip: seq<bool>, chain: seq<nat>, selected: nat, skip': seq<bool>)
  {
    && |skip'| == |skip|
    && forall i :: 0 <= i < |skip| ==>
      (skip'[i] <==> skip[i] || exists a :: 0 <= a < |chain| && a != selected && chain[a] == i)
  }

  ghost predicate SkippedFirst(skip: seq<bool>, chain: seq<nat>, n: nat, selected: nat, skip': seq<bool>)
    requires n <= |chain|
  {
    && |skip'| == |skip|
    && forall i :: 0 <= i < |skip| ==>
      (skip'[i] <==> skip[i] || exists a :: 0 <= a < n && a != selected && chain[a] == i)
  }

  lemma NoneSkipped(skip: seq<bool>, chain: seq<nat>, selected: nat)
    ensures SkippedFirst(skip, chain, 0, selected, skip)
  {
  }

  lemma AllSkipped(skip: seq<bool>, chain: seq<nat>, selected: nat, skip': seq<bool>)
    requires SkippedFirst(skip, chain, |chain|, selected, skip')
    ensures SkippedBut(skip, chain, selected, skip')
  {
  }

  lemma SkipOneMore(skip: seq<bool>, chain: seq<nat>, n: nat, selected: nat, before: seq<bool>, after: seq<bool>)
    requires n < |chain| && SkippedFirst(skip, chain, n, selected, before) && chain[n] < |skip|
    requires after == if n != selected then before[chain[n] := true] else before
    ensures SkippedFirst(skip, chain, n + 1, selected, after)
  {
    forall i | 0 <= i < |skip|
      ensures after[i] <==> skip[i] || exists a :: 0 <= a < n + 1 && a != selected && chain[a] == i
    {
      if n != selected && chain[n] == i {
        assert after[i];
      } else {
        assert after[i] == before[i];
      }
    }
  }

  /** Something of the chain is kept exactly if the request selected occurs in it once. */
  lemma KeptIffOnce(skip: seq<bool>, chain: seq<nat>, selected: nat, skip': seq<bool>)
    requires SkippedBut(skip, chain, selected, skip') && selected < |chain|
    requires forall a :: 0 <= a < |chain| ==> chain[a] < |skip| && !skip[chain[a]]
    ensures (exists a :: 0 <= a < |chain| && !skip'[chain[a]]) <==>
      forall a :: 0 <= a < |chain| && a != selected ==> chain[a] != chain[selected]
  {
    if a :| 0 <= a < |chain| && !skip'[chain[a]] {
      assert a == selected;
    }
    if forall a :: 0 <= a < |chain| && a != selected ==> chain[a] != chain[selected] {
      assert !skip'[chain[selected]];
    }
  }

  /** One request takes part in the conflicts of its chain no more, and no conflict
      comes back. */
  ghost predicate Solved(j: Job, skip: seq<bool>, n: nat)
    requires |skip| == |j.requests| && n <= |skip|
  {
    forall k, i :: 0 <= k < n && 0 <= i < |skip| && !skip[k] && !skip[i] ==> !Lists(j, k, i)
  }

  ghost predicate OnlyMore(skip: seq<bool>, skip': seq<bool>)
  {
    |skip| == |skip'| && forall i :: 0 <= i < |skip| && skip[i] ==> skip'[i]
  }

  lemma ChainSolved(j: Job, skip: seq<bool>, n: nat, selected: nat, skip': seq<bool>)
    requires |skip| == |j.requests| && GoodJob(j) && n < |skip| && !skip[n] && Solved(j, skip, n)
    requires var chain := Chain(j, skip, n);
      if chain == [] then skip' == skip else selected < |chain| && SkippedBut(skip, chain, selected, skip')
    ensures |skip'| == |skip| && Solved(j, skip', n + 1)
  {
    forall i | 0 <= i < |skip| && !skip[i] && Lists(j, n, i)
      ensures skip'[n] || skip'[i]
    {
      ChainHoldsListed(j, skip, n, i);
    }
  }

  /** What the request lists is in its chain, after the request itself. */
  lemma ChainHoldsListed(j: Job, skip: seq<bool>, n: nat, i: nat)
    requires |skip| == |j.requests| && GoodJob(j) && n < |skip| && i < |skip| && !skip[i] && Lists(j, n, i)
    ensures Chain(j, skip, n) != [] && Chain(j, skip, n)[0] == n
    ensures exists a :: 1 <= a < |Chain(j, skip, n)| && Chain(j, skip, n)[a] == i
  {
    var found := Found(j, skip, j.requests[n].conflicts);
    assert i in found;
    var a :| 0 <= a < |found| && found[a] == i;
    assert Chain(j, skip, n)[a + 1] == i;
  }

  /** A request that lists itself does not outlive its own turn, whichever is selected. */
  lemma SelfConflictSkips(j: Job, skip: seq<bool>, n: nat, selected: nat, skip': seq<bool>)
    requires |skip| == |j.requests| && GoodJob(j) && n < |skip| && !skip[n] && Lists(j, n, n)
    requires SkippedBut(skip, Chain(j, skip, n), selected, skip')
    ensures skip'[n]
  {
    ChainHoldsListed(j, skip, n, n);
  }

  ghost predicate Distinct(ks: seq<nat>)
  {
    forall a, b :: 0 <= a < b < |ks| ==> ks[a] != ks[b]
  }

  lemma DistinctCons(k: nat, ks: seq<nat>)
    requires Distinct(ks) && forall a :: 0 <= a < |ks| ==> ks[a] != k
    ensures Distinct([k] + ks)
  {
  }

  /** Plain conflict lists give chains without repetition. */
  lemma {:induction false} FoundDistinct(j: Job, skip: seq<bool>, conflicts: seq<string>)
    requires |skip| == |j.requests| && GoodJob(j)
    requires forall a, b :: 0 <= a < b < |conflicts| ==> conflicts[a] != conflicts[b]
    ensures Distinct(Found(j, skip, conflicts))
  {
    if conflicts != [] {
      var init, c := conflicts[..|conflicts| - 1], conflicts[|conflicts| - 1];
      FoundDistinct(j, skip, init);
      var r, rest := Found(j, skip, conflicts), Found(j, skip, init);
      forall b | 0 <= b < |rest|
        ensures j.requests[rest[b]].uid != c
      {
        assert Asked(j, init, rest[b]);
      }
      if r != rest {
        DistinctCons(j.byUid[c], rest);
      }
    }
  }

  lemma ChainDistinct(j: Job, skip: seq<bool>, n: nat)
    requires |skip| == |j.requests| && GoodJob(j) && n < |skip| && PlainConflicts(j.requests[n])
    ensures Distinct(Chain(j, skip, n))
  {
    var found, r := Found(j, skip, j.requests[n].conflicts), Chain(j, skip, n);
    FoundDistinct(j, skip, j.requests[n].conflicts);
    forall a | 0 <= a < |found|
      ensures found[a] != n
    {
      assert Asked(j, j.requests[n].conflicts, found[a]);
    }
    DistinctCons(n, found);
  }

  /** With plain conflict lists, the one selected stays. */
  lemma SelectedStays(j: Job, skip: seq<bool>, n: nat, selected: nat, skip': seq<bool>)
    requires |skip| == |j.requests| && GoodJob(j) && n < |skip| && !skip[n]
    requires PlainConflicts(j.requests[n]) && selected < |Chain(j, skip, n)|
    requires SkippedBut(skip, Chain(j, skip, n), selected, skip')
    ensures SomeKept(skip')
  {
    ChainDistinct(j, skip, n);
    ChainInvolved(j, skip, n);
    hide Chain, GoodJob, PlainConflicts, Involved;
    KeptIffOnce(skip, Chain(j, skip, n), selected, skip');
  }

  /** Request i lists another, or is listed. */
  ghost predicate Involved(j: Job, i: nat)
    requires i < |j.requests|
  {
    exists k :: 0 <= k < |j.requests| && (Lists(j, k, i) || Lists(j, i, k))
  }

  lemma ChainInvolved(j: Job, skip: seq<bool>, n: nat)
    requires |skip| == |j.requests| && GoodJob(j) && n < |skip|
    ensures forall a :: 0 <= a < |Chain(j, skip, n)| ==>
      Chain(j, skip, n)[a] < |skip| && Involved(j, Chain(j, skip, n)[a])
    ensures !skip[n] ==> forall a :: 0 <= a < |Chain(j, skip, n)| ==> !skip[Chain(j, skip, n)[a]]
  {
    var found, chain := Found(j, skip, j.requests[n].conflicts), Chain(j, skip, n);
    forall a | 0 <= a < |chain|
      ensures chain[a] < |skip| && Involved(j, chain[a])
    {
      if a == 0 {
        assert Lists(j, n, found[0]);
      } else {
        assert Lists(j, n, found[a - 1]);
      }
    }
  }

  /** Does the conflict name a request that is kept? */
  ghost predicate Keeps(j: Job, skip: seq<bool>, conflict: string)
    requires |skip| == |j.requests| && GoodJob(j)
  {
    conflict in j.known && conflict in j.byUid && !skip[j.byUid[conflict]]
  }

  lemma FoundStep(j: Job, skip: seq<bool>, conflicts: seq<string>, init: seq<string>)
    requires |skip| == |j.requests| && GoodJob(j) && conflicts != [] && init == conflicts[..|conflicts| - 1]
    ensures var c := conflicts[|conflicts| - 1];
      && (Keeps(j, skip, c) ==> c in j.byUid && Found(j, skip, conflicts) == [j.byUid[c]] + Found(j, skip, init))
      && (!Keeps(j, skip, c) ==> Found(j, skip, conflicts) == Found(j, skip, init))
  {
  }

  /** Of two kept requests the one listed later stands earlier. */
  lemma {:induction false} FoundInReverse(j: Job, skip: seq<bool>, conflicts: seq<string>, a: nat,
                                          b: nat) returns (p: nat, q: nat)
    requires |skip| == |j.requests| && GoodJob(j) && a < b < |conflicts|
    requires Keeps(j, skip, conflicts[a]) && Keeps(j, skip, conflicts[b])
    ensures p < q < |Found(j, skip, conflicts)|
    ensures Found(j, skip, conflicts)[p] == j.byUid[conflicts[b]] && Found(j, skip, conflicts)[q] ==
      j.byUid[conflicts[a]]
    decreases |conflicts|
  {
    hide GoodJob, Found, Keeps;
    var n := |conflicts| - 1;
    var init := conflicts[..n];
    FoundStep(j, skip, conflicts, init);
    if b == n {
      q := PlaceOfFound(j, skip, init, a);
      p, q := 0, q + 1;
    } else {
      p, q := FoundInReverse(j, skip, init, a, b);
      if Keeps(j, skip, conflicts[n]) {
        p, q := p + 1, q + 1;
      }
    }
  }

  lemma {:induction false} PlaceOfFound(j: Job, skip: seq<bool>, conflicts: seq<string>, a: nat) returns (q: nat)
    requires |skip| == |j.requests| && GoodJob(j) && a < |conflicts| && Keeps(j, skip, conflicts[a])
    ensures q < |Found(j, skip, conflicts)| && Found(j, skip, conflicts)[q] == j.byUid[conflicts[a]]
    decreases |conflicts|
  {
    hide GoodJob, Found, Keeps;
    var n := |conflicts| - 1;
    var init := conflicts[..n];
    FoundStep(j, skip, conflicts, init);
    if a == n {
      q := 0;
    } else {
      q := PlaceOfFound(j, skip, init, a);
      if Keeps(j, skip, conflicts[n]) {
        q := q + 1;
      }
    }
  }

  /** The chain is empty, or the request itself and then those it lists that are kept. */
  lemma ChainIs(j: Job, skip: seq<bool>, k: nat)
    requires |skip| == |j.requests| && GoodJob(j) && k < |skip|
    ensures var chain := Chain(j, skip, k);
      && (chain == [] <==> forall i: nat :: i < |skip| && !skip[i] ==> !Lists(j, k, i))
      && (chain != [] ==> chain[0] == k && forall i: nat :: i in chain[1..] <==>
        i < |skip| && !skip[i] && Lists(j, k, i))
  {
    hide GoodJob;
    var found := Found(j, skip, j.requests[k].conflicts);
    if found != [] {
      assert Chain(j, skip, k)[1..] == found;
      assert Lists(j, k, found[0]);
    }
  }

  // ----- choosing one of a chain -----

  /** The place of the first with a pure origin, or else of the first with the least
      version: sorting puts that one in front. */
  ghost predicate Selects(requests: seq<Request>, name: string, k: nat)
  {
    && k < |requests|
    && if exists a :: 0 <= a < |requests| && PureOrigin(requests[a].origin, name)
       then PureOrigin(requests[k].origin, name) && forall b :: 0 <= b < k ==> !PureOrigin(requests[b].origin, name)
       else FirstLeast(requests, |requests|, k)
  }

  ghost predicate FirstLeast(requests: seq<Request>, n: nat, k: nat)
    requires k < n <= |requests|
  {
    forall b :: 0 <= b < n ==>
      VersionCompare.Cmp(requests[k].version, requests[b].version) <= 0 &&
      (b < k ==> VersionCompare.Cmp(requests[k].version, requests[b].version) < 0)
  }

  function RequestsOf(j: Job, chain: seq<nat>): seq<Request>
    requires forall a :: 0 <= a < |chain| ==> chain[a] < |j.requests|
  {
    seq(|chain|, a requires 0 <= a < |chain| => j.requests[chain[a]])
  }

  method Select(requests: seq<Request>, name: string) returns (k: nat)
    requires requests != []
    ensures Selects(requests, name, k)
  {
    k := 0;
    while k < |requests|
      invariant 0 <= k <= |requests|
      invariant forall b :: 0 <= b < k ==> !PureOrigin(requests[b].origin, name)
    {
      if PureOrigin(requests[k].origin, name) {
        return;
      }
      k := k + 1;
    }
    k := FrontOfSorted(requests);
  }

  lemma NextLeast(requests: seq<Request>, n: nat, k: nat)
    requires k < n < |requests| && FirstLeast(requests, n, k)
    ensures VersionCompare.Cmp(requests[n].version, requests[k].version) < 0 ==> FirstLeast(requests, n + 1, n)
    ensures VersionCompare.Cmp(requests[n].version, requests[k].version) >= 0 ==> FirstLeast(requests, n + 1, k)
  {
    hide VersionCompare.Cmp;
    var v := requests[n].version;
    forall b | 0 <= b < n
      ensures VersionCompare.Cmp(v, requests[k].version) < 0 ==> VersionCompare.Cmp(v, requests[b].version) < 0
    {
      VersionCompare.CmpIsPreorder(v, requests[k].version, requests[b].version);
    }
    VersionCompare.CmpIsPreorder(v, requests[k].version, v);
  }

  /** A pure origin is a category, a slash, and the name. */
  lemma PureOriginIff(origin: string, name: string)
    ensures PureOrigin(origin, name) <==>
      '/' !in name && exists category: string :: origin == category + "/" + name
  {
    hide Characters.LastIndex;
    var slash := Characters.LastIndex(origin, '/');
    if PureOrigin(origin, name) {
      assert origin == origin[..slash] + "/" + name;
      assert forall k :: 0 <= k < |name| ==> name[k] == origin[slash + 1 + k];
    }
    if category :| origin == category + "/" + name && '/' !in name {
      SlashBefore(category, name);
      assert (category + "/" + name)[|category| + 1..] == name;
    }
  }

  lemma SlashBefore(category: string, name: string)
    requires '/' !in name
    ensures Characters.LastIndex(category + "/" + name, '/') == |category|
  {
    VersionCompare.LastIndexOfParts(category, '/', name);
    assert ['/'] == "/";
  }

  ghost predicate NoPureOrigin(requests: seq<Request>, name: string)
  {
    forall a :: 0 <= a < |requests| ==> !PureOrigin(requests[a].origin, name)
  }

  /** No version of the chain is greater than that of the one selected. */
  ghost predicate IsGreatest(requests: seq<Request>, k: nat)
    requires k < |requests|
  {
    forall b :: 0 <= b < |requests| ==> VersionCompare.Cmp(requests[b].version, requests[k].version) <= 0
  }

  ghost predicate AllEqual(requests: seq<Request>)
  {
    forall a, b :: 0 <= a < |requests| && 0 <= b < |requests| ==>
      VersionCompare.Cmp(requests[a].version, requests[b].version) == 0
  }

  /** Where no origin decides, the one selected has the greatest version if and only if
      all versions are equal: it has the least. */
  lemma GreatestIffAllEqual(requests: seq<Request>, name: string, k: nat)
    requires Selects(requests, name, k) && NoPureOrigin(requests, name)
    ensures IsGreatest(requests, k) <==> AllEqual(requests)
  {
    hide VersionCompare.Cmp, PureOrigin;
    assert FirstLeast(requests, |requests|, k);
    if IsGreatest(requests, k) {
      var v := requests[k].version;
      forall a, b | 0 <= a < |requests| && 0 <= b < |requests|
        ensures VersionCompare.Cmp(requests[a].version, requests[b].version) == 0
      {
        VersionCompare.CmpIsPreorder(requests[a].version, v, requests[b].version);
        VersionCompare.CmpIsPreorder(requests[b].version, v, requests[a].version);
        VersionCompare.CmpIsPreorder(requests[a].version, requests[b].version, v);
      }
    }
  }

  /** Version 1 is kept, and version 2 is skipped. */
  lemma OlderIsSelected()
    ensures var elder, young := Request("a", "a", "x/b", "1", []), Request("b", "b", "x/c", "2", []);
      forall k: nat :: Selects([elder, young], "a", k) ==> k == 0 && !IsGreatest([elder, young], k)
  {
    hide VersionCompare.Cmp;
    var elder, young := Request("a", "a", "x/b", "1", []), Request("b", "b", "x/c", "2", []);
    VersionCompare.DigitsCompare('1', '2');
    VersionCompare.CmpIsPreorder("1", "2", "1");
    assert young.origin[2..] == "c" && elder.origin[2..] == "b";
    assert !PureOrigin(elder.origin, "a") && !PureOrigin(young.origin, "a");
    assert [elder, young][0] == elder && [elder, young][1] == young;
    assert ['1'] == "1" && ['2'] == "2";
  }

  /** The element that a stable sort by version puts in front. */
  method FrontOfSorted(requests: seq<Request>) returns (k: nat)
    requires requests != []
    ensures k < |requests| && FirstLeast(requests, |requests|, k)
  {
    hide VersionCompare.Cmp;
    k := 0;
    VersionCompare.CmpIsPreorder(requests[0].version, requests[0].version, requests[0].version);
    var n := 1;
    while n < |requests|
      invariant k < n <= |requests| && FirstLeast(requests, n, k)
    {
      NextLeast(requests, n, k);
      var c := VersionCompare.VersionCmp(requests[n].version, requests[k].version);
      if c < 0 {
        k := n;
      }
      n := n + 1;
    }
  }

  // ----- the whole run -----

  /** Only requests that list another, or are listed, have come to be skipped. */
  ghost predicate SkipsInvolved(j: Job, skip: seq<bool>, skip': seq<bool>)
  {
    |skip| == |skip'| == |j.requests| && forall i :: 0 <= i < |skip| && skip'[i] && !skip[i] ==> Involved(j, i)
  }

  lemma SkipsStillInvolved(j: Job, a: seq<bool>, b: seq<bool>, chain: seq<nat>, selected: nat, c: seq<bool>)
    requires SkipsInvolved(j, a, b) && OnlyMore(a, b) && SkippedBut(b, chain, selected, c)
    requires forall i :: 0 <= i < |chain| ==> chain[i] < |b| && Involved(j, chain[i])
    ensures SkipsInvolved(j, a, c) && OnlyMore(a, c)
  {
    hide Involved;
  }

  class ConflictJob {
    const j: Job
    var skip: seq<bool>

    ghost predicate Valid()
      reads this
    {
      GoodJob(j) && |skip| == |j.requests|
    }

    constructor (j: Job)
      requires GoodJob(j)
      ensures Valid() && this.j == j && forall i :: 0 <= i < |skip| ==> !skip[i]
    {
      this.j := j;
      skip := seq(|j.requests|, i => false);
    }

    /** The chain of conflicts of a request, built by putting each in front. */
    method BuildChain(k: nat) returns (chain: seq<nat>)
      requires Valid() && k < |skip|
      ensures chain == Chain(j, skip, k)
    {
      chain := [];
      var conflicts, a := j.requests[k].conflicts, 0;
      while a < |conflicts|
        invariant 0 <= a <= |conflicts|
        invariant chain == Found(j, skip, conflicts[..a])
      {
        assert conflicts[..a + 1][..a] == conflicts[..a];
        var c := conflicts[a];
        if c in j.known && c in j.byUid && !skip[j.byUid[c]] {
          chain := [j.byUid[c]] + chain;
        }
        a := a + 1;
      }
      assert conflicts[..a] == conflicts;
      if chain != [] {
        chain := [k] + chain;
      }
    }

    /** All of a chain but the one selected are skipped. */
    method ResolveChain(name: string, chain: seq<nat>) returns (selected: nat)
      requires Valid() && chain != [] && forall a :: 0 <= a < |chain| ==> chain[a] < |skip|
      modifies `skip
      ensures Valid() && selected < |chain| && SkippedBut(old(skip), chain, selected, skip)
      ensures Selects(RequestsOf(j, chain), name, selected)
    {
      selected := Select(RequestsOf(j, chain), name);
      SkipOthers(chain, selected);
    }

    method SkipOthers(chain: seq<nat>, selected: nat)
      requires Valid() && forall a :: 0 <= a < |chain| ==> chain[a] < |skip|
      modifies `skip
      ensures Valid() && SkippedBut(old(skip), chain, selected, skip)
    {
      hide GoodJob, SkippedFirst;
      var a := 0;
      NoneSkipped(skip, chain, selected);
      while a < |chain|
        invariant 0 <= a <= |chain| && Valid()
        invariant SkippedFirst(old(skip), chain, a, selected, skip)
      {
        ghost var before := skip;
        if a != selected {
          skip := skip[chain[a] := true];
        }
        SkipOneMore(old(skip), chain, a, selected, before, skip);
        a := a + 1;
      }
      AllSkipped(old(skip), chain, selected, skip);
    }

    /** Every request in turn. In the end no two requests that are kept conflict; none
        is skipped but for a conflict; and with plain conflict lists something is kept. */
    method Resolve()
      requires Valid()
      modifies `skip
      ensures Valid() && OnlyMore(old(skip), skip)
      ensures ConflictFree(j, skip)
      ensures SkipsInvolved(j, old(skip), skip)
      ensures (forall k :: 0 <= k < |skip| ==> PlainConflicts(j.requests[k])) && SomeKept(old(skip)) ==>
        SomeKept(skip)
    {
      hide Chain, PlainConflicts, Lists, Involved, SkippedBut, GoodJob;
      ghost var plain := forall k :: 0 <= k < |skip| ==> PlainConflicts(j.requests[k]);
      ghost var some := SomeKept(skip);
      var n := 0;
      while n < |j.requests|
        invariant 0 <= n <= |j.requests| && Valid() && OnlyMore(old(skip), skip)
        invariant Solved(j, skip, n) && SkipsInvolved(j, old(skip), skip)
        invariant plain && some ==> SomeKept(skip)
      {
        if skip[n] {
          n := n + 1;
          continue;
        }
        ghost var before := skip;
        var chain := BuildChain(n);
        ChainInvolved(j, skip, n);
        if chain != [] {
          var selected := ResolveChain(j.requests[n].name, chain);
          if plain { SelectedStays(j, before, n, selected, skip); }
          ChainSolved(j, before, n, selected, skip);
          SkipsStillInvolved(j, old(skip), before, chain, selected, skip);
        } else {
          ChainSolved(j, before, n, 0, skip);
        }
        n := n + 1;
      }
    }
  }
}
