/** What a request to delete packages takes along (libpkg/pkg_jobs.c:407-463). */
module DeleteRequests {

  /** An installed package: is it locked, and which packages depend on it? */
  datatype Local = Local(locked: bool, rdeps: seq<string>)

  type Installed = map<string, Local>

  function SetOf(uids: seq<string>): set<string>
  {
    set u | u in uids
  }

  /** Installed packages that depend on a package of the set are in the set. */
  ghost predicate Closed(installed: Installed, s: set<string>)
  {
    forall u, a :: u in s && u in installed && 0 <= a < |installed[u].rdeps| && installed[u].rdeps[a] in installed ==>
      installed[u].rdeps[a] in s
  }

  /** The package is in every closed set that holds the requests. */
  ghost predicate Needed(installed: Installed, requests: set<string>, u: string)
  {
    forall s :: requests <= s && Closed(installed, s) ==> u in s
  }

  /** The requests are the least closed set that holds the original ones. */
  ghost predicate IsClosure(installed: Installed, requests: set<string>, original: set<string>)
  {
    && original <= requests && Closed(installed, requests)
    && forall u :: u in requests ==> Needed(installed, original, u)
  }

  /** Is some package locked that is needed but was not asked for? */
  ghost predicate Blocked(installed: Installed, original: set<string>)
  {
    exists u :: u in installed && u !in original && installed[u].locked && Needed(installed, original, u)
  }

  /** A package that depends on a needed one is needed. */
  lemma NeededNext(installed: Installed, original: set<string>, u: string, a: nat)
    requires u in installed && a < |installed[u].rdeps| && installed[u].rdeps[a] in installed
    requires Needed(installed, original, u)
    ensures Needed(installed, original, installed[u].rdeps[a])
  {
    forall s | original <= s && Closed(installed, s)
      ensures installed[u].rdeps[a] in s
    {
      assert u in s;
    }
  }

  lemma RequestedIsNeeded(installed: Installed, original: set<string>)
    ensures forall u :: u in original ==> Needed(installed, original, u)
  {
  }

  /** The least closed set is one set, whatever the order in which it was built. */
  lemma ClosureIsUnique(installed: Installed, original: set<string>, a: set<string>, b: set<string>)
    requires IsClosure(installed, a, original) && IsClosure(installed, b, original)
    ensures a == b
  {
    assert forall u :: u in a ==> Needed(installed, original, u) && u in b;
    assert forall u :: u in b ==> Needed(installed, original, u) && u in a;
  }

  /** With the closure at hand: is a package in it locked that was not asked for? */
  lemma BlockedInClosure(installed: Installed, requests: set<string>, original: set<string>)
    requires IsClosure(installed, requests, original)
    ensures Blocked(installed, original) <==>
      exists u :: u in requests && u !in original && u in installed && installed[u].locked
  {
    assert forall u :: Needed(installed, original, u) ==> u in requests;
  }

  /** Does the package v depend on u? */
  ghost predicate DependsOn(installed: Installed, v: string, u: string)
  {
    u in installed && v in installed[u].rdeps
  }

  /** Installed, not asked for, and dependent on something that is. */
  ghost predicate IsMissing(installed: Installed, requests: seq<string>, v: string)
  {
    v in installed && v !in requests && exists u :: u in requests && DependsOn(installed, v, u)
  }

  ghost predicate NoneLocked(installed: Installed, uids: seq<string>)
  {
    forall i :: 0 <= i < |uids| && uids[i] in installed ==> !installed[uids[i]].locked
  }

  lemma NoneLockedConcat(installed: Installed, a: seq<string>, b: seq<string>)
    ensures NoneLocked(installed, a + b) <==> NoneLocked(installed, a) && NoneLocked(installed, b)
  {
    assert forall i :: 0 <= i < |a| ==> (a + b)[i] == a[i];
    assert forall i :: 0 <= i < |b| ==> (a + b)[|a| + i] == b[i];
  }

  lemma SetOfAppend(uids: seq<string>, u: string)
    ensures SetOf(uids + [u]) == SetOf(uids) + {u}
  {
  }

  ghost predicate DependentsAsked(installed: Installed, requests: seq<string>, u: string)
    requires u in installed
  {
    forall a :: 0 <= a < |installed[u].rdeps| && installed[u].rdeps[a] in installed ==>
      installed[u].rdeps[a] in requests
  }

  lemma MissingIsNeeded(installed: Installed, requests: seq<string>, original: set<string>, toProcess: seq<string>)
    requires forall i :: 0 <= i < |toProcess| ==> IsMissing(installed, requests, toProcess[i])
    requires forall u :: u in requests ==> Needed(installed, original, u)
    ensures forall v :: v in SetOf(toProcess) ==> v in installed && v !in requests && Needed(installed, original, v)
  {
    forall v | v in SetOf(toProcess)
      ensures v in installed && v !in requests && Needed(installed, original, v)
    {
      var i :| 0 <= i < |toProcess| && toProcess[i] == v;
      var u :| u in requests && DependsOn(installed, v, u);
      var a :| 0 <= a < |installed[u].rdeps| && installed[u].rdeps[a] == v;
      NeededNext(installed, original, u, a);
    }
  }

  class DeleteJob {
    const installed: Installed
    var requests: seq<string>

    constructor (installed: Installed, requests: seq<string>)
      ensures this.installed == installed && this.requests == requests
    {
      this.installed, this.requests := installed, requests;
    }

    /** What is asked for so far: the original requests, and needed unlocked packages. */
    ghost predicate OnTheWay(original: set<string>)
      reads this
    {
      && original <= SetOf(requests) <= installed.Keys
      && forall u :: u in requests ==> Needed(installed, original, u) && (u in original || !installed[u].locked)
    }

    /** The installed packages that depend on what is asked for and are not asked for
        themselves; not ok if one of them is locked. */
    method Missing() returns (ok: bool, toProcess: seq<string>)
      requires SetOf(requests) <= installed.Keys
      ensures forall i :: 0 <= i < |toProcess| ==> IsMissing(installed, requests, toProcess[i])
      ensures ok <==> NoneLocked(installed, toProcess)
      ensures toProcess == [] ==> Closed(installed, SetOf(requests))
    {
      ok, toProcess := true, [];
      var r := 0;
      while r < |requests|
        invariant 0 <= r <= |requests|
        invariant forall i :: 0 <= i < |toProcess| ==> IsMissing(installed, requests, toProcess[i])
        invariant ok <==> NoneLocked(installed, toProcess)
        invariant toProcess == [] ==> forall j :: 0 <= j < r ==> DependentsAsked(installed, requests, requests[j])
      {
        assert requests[r] in SetOf(requests);
        var ok', more := MissingOf(requests[r]);
        NoneLockedConcat(installed, toProcess, more);
        ok, toProcess := ok && ok', toProcess + more;
        r := r + 1;
      }
    }

    method MissingOf(u: string) returns (ok: bool, toProcess: seq<string>)
      requires u in requests && u in installed
      ensures forall i :: 0 <= i < |toProcess| ==> IsMissing(installed, requests, toProcess[i])
      ensures ok <==> NoneLocked(installed, toProcess)
      ensures toProcess == [] ==> DependentsAsked(installed, requests, u)
    {
      ok, toProcess := true, [];
      var rdeps, a := installed[u].rdeps, 0;
      while a < |rdeps|
        invariant 0 <= a <= |rdeps|
        invariant forall i :: 0 <= i < |toProcess| ==> IsMissing(installed, requests, toProcess[i])
        invariant ok <==> NoneLocked(installed, toProcess)
        invariant toProcess == [] ==> forall b :: 0 <= b < a && rdeps[b] in installed ==> rdeps[b] in requests
      {
        if rdeps[a] !in requests && rdeps[a] in installed {
          if installed[rdeps[a]].locked {
            ok := false;
          }
          assert DependsOn(installed, rdeps[a], u);
          assert forall i :: 0 <= i < |toProcess| ==> (toProcess + [rdeps[a]])[i] == toProcess[i];
          toProcess := toProcess + [rdeps[a]];
          assert toProcess[|toProcess| - 1] == rdeps[a];
        }
        a := a + 1;
      }
    }

    /** Packages are asked for, each only once. */
    method AddRequests(toProcess: seq<string>)
      modifies this
      ensures SetOf(requests) == old(SetOf(requests)) + SetOf(toProcess)
    {
      var i := 0;
      while i < |toProcess|
        invariant 0 <= i <= |toProcess|
        invariant SetOf(requests) == old(SetOf(requests)) + SetOf(toProcess[..i])
      {
        assert toProcess[..i + 1] == toProcess[..i] + [toProcess[i]];
        SetOfAppend(toProcess[..i], toProcess[i]);
        SetOfAppend(requests, toProcess[i]);
        if toProcess[i] !in requests {
          requests := requests + [toProcess[i]];
        }
        i := i + 1;
      }
      assert toProcess[..i] == toProcess;
    }

    /** Takes along all that depends on what is to be deleted, unless forced not to. It
        fails exactly if a package is locked that is needed and was not asked for; else
        the requests become the least closed set with the original ones. */
    method ProcessDeleteRequest(force: bool, ghost original: set<string>) returns (ok: bool)
      requires OnTheWay(original)
      modifies this
      ensures force ==> ok && requests == old(requests)
      ensures OnTheWay(original)
      ensures !force ==> (ok <==> !Blocked(installed, original))
      ensures !force && ok ==> IsClosure(installed, SetOf(requests), original)
      decreases installed.Keys - SetOf(requests)
    {
      if force {
        return true;
      }
      var toProcess;
      ok, toProcess := Missing();
      MissingIsNeeded(installed, requests, original, toProcess);
      if !ok {
        var i :| 0 <= i < |toProcess| && installed[toProcess[i]].locked;
        assert toProcess[i] in SetOf(toProcess);
        return;
      }
      AddRequests(toProcess);
      if |toProcess| > 0 {
        assert toProcess[0] in SetOf(toProcess);
        ok := ProcessDeleteRequest(force, original);
      } else {
        BlockedInClosure(installed, SetOf(requests), original);
      }
    }

    /** The entry: the requests made are the original ones. */
    method ProcessRequests(force: bool) returns (ok: bool)
      requires SetOf(requests) <= installed.Keys
      modifies this
      ensures force ==> ok && requests == old(requests)
      ensures !force ==> (ok <==> !Blocked(installed, old(SetOf(requests))))
      ensures !force && ok ==> IsClosure(installed, SetOf(requests), old(SetOf(requests)))
    {
      RequestedIsNeeded(installed, SetOf(requests));
      ok := ProcessDeleteRequest(force, SetOf(requests));
    }
  }
}
