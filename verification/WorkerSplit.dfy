/** The packages of a repository are split over workers (libpkg/pkg_repo_create.c:580-636,
    253-255): each worker gets a run of the list. */
module WorkerSplit {

  /** A worker's part of the list: from where, and how many. */
  datatype Slice = Slice(start: nat, count: nat)

  /** The parts follow each other from the start of the list. */
  ghost predicate Consecutive(slices: seq<Slice>)
  {
    && (slices != [] ==> slices[0].start == 0)
    && forall k :: 0 < k < |slices| ==> slices[k].start == slices[k - 1].start + slices[k - 1].count
  }

  function End(slices: seq<Slice>): nat
  {
    if slices == [] then 0 else slices[|slices| - 1].start + slices[|slices| - 1].count
  }

  /** Of the first `extra` workers, each has one package more. */
  ghost predicate Even(slices: seq<Slice>, each: nat, extra: nat)
  {
    forall k :: 0 <= k < |slices| ==> slices[k].count == if k < extra then each + 1 else each
  }

  lemma {:induction false} EndOfEven(slices: seq<Slice>, each: nat, extra: nat)
    requires Consecutive(slices) && Even(slices, each, extra)
    ensures End(slices) == |slices| * each + if |slices| < extra then |slices| else extra
  {
    if slices != [] {
      var init := slices[..|slices| - 1];
      EndOfEven(init, each, extra);
      OneMoreTime(|init|, each);
    } else {
      assert 0 * each == 0;
    }
  }

  lemma OneMoreTime(k: nat, c: nat)
    ensures k * c + c == (k + 1) * c
  {
  }

  /** What a worker takes up: it stops after as many as it was given. */
  method Work(items: seq<int>, slice: Slice) returns (done: seq<int>)
    requires slice.start <= |items|
    ensures done == if slice.start + slice.count <= |items| then items[slice.start..slice.start + slice.count]
                    else items[slice.start..]
  {
    done := [];
    var cur, curJob := slice.start, 0;
    while cur < |items|
      invariant slice.start <= cur <= |items| && curJob == cur - slice.start <= slice.count
      invariant done == items[slice.start..cur]
    {
      if curJob >= slice.count {
        break;
      }
      done := done + [items[cur]];
      curJob := curJob + 1;
      cur := cur + 1;
    }
  }

  ghost predicate Inside(slices: seq<Slice>, len: nat)
  {
    forall k :: 0 <= k < |slices| ==> slices[k].start + slices[k].count <= len
  }

  lemma {:induction false} ConsecutiveIsInside(slices: seq<Slice>)
    requires Consecutive(slices)
    ensures Inside(slices, End(slices))
  {
    if slices != [] {
      ConsecutiveIsInside(slices[..|slices| - 1]);
    }
  }

  /** What all workers take up, one after the other. */
  ghost function AllWork(items: seq<int>, slices: seq<Slice>): seq<int>
    requires Inside(slices, |items|)
  {
    if slices == [] then []
    else
      var last := slices[|slices| - 1];
      AllWork(items, slices[..|slices| - 1]) + items[last.start..last.start + last.count]
  }

  lemma {:induction false} AllWorkIsList(items: seq<int>, slices: seq<Slice>)
    requires Consecutive(slices) && Inside(slices, |items|)
    ensures End(slices) <= |items| && AllWork(items, slices) == items[..End(slices)]
  {
    if slices != [] {
      var init, last := slices[..|slices| - 1], slices[|slices| - 1];
      AllWorkIsList(items, init);
      assert End(init) == last.start;
      assert items[..last.start] + items[last.start..last.start + last.count] == items[..last.start + last.count];
    }
  }

  /** Parts that follow each other up to the end of the list are the whole list. */
  lemma WorkersTakeAll(items: seq<int>, slices: seq<Slice>)
    requires Consecutive(slices) && End(slices) == |items|
    ensures Inside(slices, |items|) && AllWork(items, slices) == items
  {
    ConsecutiveIsInside(slices);
    AllWorkIsList(items, slices);
  }

  /** The split: as many workers as asked for, or as there are packages; all of the
      list, each package once; and the parts differ by at most one. */
  method Split(len: nat, workers: nat) returns (slices: seq<Slice>)
    requires len > 0 && workers > 0
    ensures |slices| == if workers < len then workers else len
    ensures Consecutive(slices) && End(slices) == len
    ensures Even(slices, len / |slices|, len % |slices|) && forall k :: 0 <= k < |slices| ==> slices[k].count > 0
  {
    var n := if workers < len then workers else len;
    Shares(len, n);
    slices := HandOut(len, n, len / n, len % n);
  }

  lemma Shares(len: nat, n: nat)
    requires 0 < n <= len
    ensures len == n * (len / n) + len % n && len % n < n && len / n > 0
  {
  }

  /** The loop that starts the workers. */
  method HandOut(len: nat, ghost n: nat, each: nat, extra: nat) returns (slices: seq<Slice>)
    requires n > 0 && each > 0 && extra < n && len == n * each + extra
    ensures |slices| == n && Consecutive(slices) && End(slices) == len && Even(slices, each, extra)
  {
    slices := [];
    var remain: int := extra;
    var curJobs := if remain > 0 then each + 1 else each;
    var remainJobs: int := curJobs;
    var start, cur := 0, 0;
    while cur < len
      invariant 0 <= cur <= len && start == End(slices) && Consecutive(slices) && Even(slices, each, extra)
      invariant curJobs == if |slices| < extra then each + 1 else each
      invariant remain == extra - |slices| && cur == start + curJobs - remainJobs && 0 < remainJobs <= curJobs
    {
      remainJobs := remainJobs - 1;
      if remainJobs == 0 {
        slices := slices + [Slice(start, curJobs)];
        remain := remain - 1;
        if remain > 0 {
          curJobs := each + 1;
        } else {
          curJobs := each;
        }
        remainJobs := curJobs;
        start := cur + 1;
      }
      cur := cur + 1;
    }
    EndOfEven(slices, each, extra);
    CountIs(|slices|, n, each, extra, len, cur - start);
  }

  /** All packages are handed out just when as many workers have started as were meant to. */
  lemma CountIs(k: nat, n: nat, each: nat, extra: nat, len: nat, left: nat)
    requires n > 0 && each > 0 && extra < n && len == n * each + extra
    requires len == k * each + (if k < extra then k else extra) + left
    requires left < if k < extra then each + 1 else each
    ensures k == n && left == 0
  {
    if k < n {
      MulUp(k + 1, n, each);
    } else if k > n {
      MulUp(n + 1, k, each);
    }
  }

  lemma MulUp(a: nat, b: nat, c: nat)
    requires a <= b
    ensures a * c <= b * c
  {
  }

  lemma NothingTakenYet(items: seq<int>, slices: seq<Slice>)
    ensures slices[..0] == [] && Inside([], |items|) && AllWork(items, []) == [] && Joined([]) == []
  {
  }

  lemma InsideTake(slices: seq<Slice>, k: nat, len: nat)
    requires k <= |slices| && Inside(slices, len)
    ensures Inside(slices[..k], len) && (k < |slices| ==> slices[k].start + slices[k].count <= len)
  {
  }

  lemma OneWorkerMore(items: seq<int>, slices: seq<Slice>, k: nat)
    requires k < |slices| && Inside(slices, |items|)
    ensures Inside(slices[..k], |items|) && Inside(slices[..k + 1], |items|)
    ensures slices[k].start + slices[k].count <= |items|
    ensures AllWork(items, slices[..k + 1]) ==
      AllWork(items, slices[..k]) + items[slices[k].start..slices[k].start + slices[k].count]
  {
    hide AllWork, Inside;
    InsideTake(slices, k, |items|);
    InsideTake(slices, k + 1, |items|);
    var more := slices[..k + 1];
    assert |more| == k + 1 && more[k] == slices[k] && more[..k] == slices[..k];
    LastWorker(items, more);
  }

  lemma LastWorker(items: seq<int>, slices: seq<Slice>)
    requires slices != [] && Inside(slices, |items|)
    ensures var last := slices[|slices| - 1];
      AllWork(items, slices) == AllWork(items, slices[..|slices| - 1]) + items[last.start..last.start + last.count]
  {
  }

  lemma OnePartMore(parts: seq<seq<int>>, part: seq<int>)
    ensures Joined(parts + [part]) == Joined(parts) + part
  {
    assert (parts + [part])[..|parts|] == parts;
  }

  /** All workers are started, and take up what they were given; together, the list. */
  method StartWorkers(items: seq<int>, workers: nat) returns (done: seq<seq<int>>)
    requires items != [] && workers > 0
    ensures |done| == if workers < |items| then workers else |items|
    ensures Joined(done) == items
  {
    hide Joined, AllWork, Consecutive, Even, End, Inside;
    var slices := Split(|items|, workers);
    WorkersTakeAll(items, slices);
    NothingTakenYet(items, slices);
    done := [];
    ghost var taken: seq<int> := [];
    var k := 0;
    while k < |slices|
      invariant 0 <= k == |done| <= |slices| && Joined(done) == taken
      invariant Inside(slices[..k], |items|) && taken == AllWork(items, slices[..k])
    {
      OneWorkerMore(items, slices, k);
      var part := Work(items, slices[k]);
      OnePartMore(done, part);
      done, taken, k := done + [part], taken + part, k + 1;
    }
    assert slices[..k] == slices;
  }

  function Joined(parts: seq<seq<int>>): seq<int>
  {
    if parts == [] then [] else Joined(parts[..|parts| - 1]) + parts[|parts| - 1]
  }
}
