/** Edit scripts: the COPY/DELETE/INSERT triples that the diff writes into
    `aEdit` and that the three-way merge reads back (libpkg/diff.c, libpkg/merge3.c). */
module EditScript {

  /** One triple of `aEdit`: copy lines of the old file, delete lines of the old
      file, insert lines of the new file. */
  datatype Triple = Triple(copy: nat, del: nat, ins: nat)

  const ZERO := Triple(0, 0, 0)

  /** `aEdit` is a flat array of integers, three per triple. */
  function Triples(a: seq<nat>): seq<Triple>
  {
    if |a| < 3 then [] else [Triple(a[0], a[1], a[2])] + Triples(a[3..])
  }

  lemma {:induction false} TriplesConcat(a: seq<nat>, b: seq<nat>)
    requires |a| % 3 == 0
    ensures Triples(a + b) == Triples(a) + Triples(b)
  {
    if |a| == 0 {
      assert a + b == b;
    } else {
      assert (a + b)[3..] == a[3..] + b;
      TriplesConcat(a[3..], b);
    }
  }

  lemma {:induction false} TriplesLength(a: seq<nat>)
    ensures |Triples(a)| == |a| / 3
  {
    if |a| >= 3 {
      TriplesLength(a[3..]);
    }
  }

  /** The last triple of a flat array. */
  lemma TriplesLast(a: seq<nat>)
    requires |a| >= 3 && |a| % 3 == 0
    ensures Triples(a) == Triples(a[..|a| - 3]) + [Triple(a[|a| - 3], a[|a| - 2], a[|a| - 1])]
  {
    var front, back := a[..|a| - 3], a[|a| - 3..];
    assert a == front + back;
    TriplesConcat(front, back);
    assert Triples(back) == [Triple(back[0], back[1], back[2])] + Triples(back[3..]);
  }

  // ----- one operation per line -----

  datatype Op = C | D | I

  function Repeat(op: Op, n: nat): (r: seq<Op>)
    ensures |r| == n
    ensures forall k :: 0 <= k < n ==> r[k] == op
  {
    seq(n, _ => op)
  }

  function TripleOps(t: Triple): seq<Op>
  {
    Repeat(C, t.copy) + Repeat(D, t.del) + Repeat(I, t.ins)
  }

  /** The flattened meaning of a list of triples. */
  function Ops(ts: seq<Triple>): seq<Op>
  {
    if ts == [] then [] else TripleOps(ts[0]) + Ops(ts[1..])
  }

  lemma {:induction false} OpsConcat(s: seq<Triple>, t: seq<Triple>)
    ensures Ops(s + t) == Ops(s) + Ops(t)
  {
    if s == [] {
      assert s + t == t;
    } else {
      assert (s + t)[1..] == s[1..] + t;
      OpsConcat(s[1..], t);
      assert TripleOps(s[0]) + (Ops(s[1..]) + Ops(t)) == (TripleOps(s[0]) + Ops(s[1..])) + Ops(t);
    }
  }

  lemma OpsSingle(t: Triple)
    ensures Ops([t]) == TripleOps(t)
  {
    assert Ops([t]) == TripleOps(t) + Ops([]);
  }

  /** Running the operations turns `a` into `b`, each copy taking a line that
      both files have. */
  ghost predicate Runs(ops: seq<Op>, a: seq<string>, b: seq<string>)
  {
    if ops == [] then a == [] && b == []
    else match ops[0]
      case C => a != [] && b != [] && a[0] == b[0] && Runs(ops[1..], a[1..], b[1..])
      case D => a != [] && Runs(ops[1..], a[1..], b)
      case I => b != [] && Runs(ops[1..], a, b[1..])
  }

  lemma {:induction false} RunsConcat(o1: seq<Op>, a1: seq<string>, b1: seq<string>,
                                      o2: seq<Op>, a2: seq<string>, b2: seq<string>)
    requires Runs(o1, a1, b1) && Runs(o2, a2, b2)
    ensures Runs(o1 + o2, a1 + a2, b1 + b2)
  {
    if o1 == [] {
      assert o1 + o2 == o2 && a1 + a2 == a2 && b1 + b2 == b2;
    } else {
      assert (o1 + o2)[1..] == o1[1..] + o2;
      var a', b' := if o1[0] == I then a1 else a1[1..], if o1[0] == D then b1 else b1[1..];
      RunsConcat(o1[1..], a', b', o2, a2, b2);
      assert o1[0] != I ==> (a1 + a2)[1..] == a' + a2;
      assert o1[0] != D ==> (b1 + b2)[1..] == b' + b2;
    }
  }

  lemma {:induction false} RunsCopy(n: nat, a: seq<string>, b: seq<string>)
    requires |a| == n && a == b
    ensures Runs(Repeat(C, n), a, b)
  {
    if n > 0 {
      assert Repeat(C, n)[1..] == Repeat(C, n - 1);
      RunsCopy(n - 1, a[1..], b[1..]);
    }
  }

  lemma {:induction false} RunsDelete(a: seq<string>)
    ensures Runs(Repeat(D, |a|), a, [])
  {
    if a != [] {
      assert Repeat(D, |a|)[1..] == Repeat(D, |a| - 1);
      RunsDelete(a[1..]);
    }
  }

  lemma {:induction false} RunsInsert(b: seq<string>)
    ensures Runs(Repeat(I, |b|), [], b)
  {
    if b != [] {
      assert Repeat(I, |b|)[1..] == Repeat(I, |b| - 1);
      RunsInsert(b[1..]);
    }
  }

  /** One triple that copies nothing. */
  lemma NoRepeat(op: Op)
    ensures Repeat(op, 0) == []
  {
  }

  lemma RunsReplace(a: seq<string>, b: seq<string>)
    ensures Runs(TripleOps(Triple(0, |a|, |b|)), a, b)
  {
    hide Runs, Repeat;
    RunsDelete(a);
    RunsInsert(b);
    NoRepeat(C);
    RunsConcat(Repeat(D, |a|), a, [], Repeat(I, |b|), [], b);
    assert Repeat(C, 0) + Repeat(D, |a|) + Repeat(I, |b|) == Repeat(D, |a|) + Repeat(I, |b|);
    assert a + [] == a && [] + b == b;
  }

  // ----- triple by triple -----

  /** The triples are an edit script from `a` to `b`: they use up both files,
      and every copied run is the same text on both sides. */
  ghost predicate IsScript(ts: seq<Triple>, a: seq<string>, b: seq<string>)
  {
    if ts == [] then a == [] && b == []
    else
      var t := ts[0];
      && t.copy + t.del <= |a|
      && t.copy + t.ins <= |b|
      && a[..t.copy] == b[..t.copy]
      && IsScript(ts[1..], a[t.copy + t.del..], b[t.copy + t.ins..])
  }

  lemma {:induction false} RunsPeelCopy(n: nat, rest: seq<Op>, a: seq<string>, b: seq<string>)
    requires Runs(Repeat(C, n) + rest, a, b)
    ensures n <= |a| && n <= |b| && a[..n] == b[..n] && Runs(rest, a[n..], b[n..])
  {
    if n == 0 {
      assert Repeat(C, 0) + rest == rest;
    } else {
      assert (Repeat(C, n) + rest)[1..] == Repeat(C, n - 1) + rest;
      RunsPeelCopy(n - 1, rest, a[1..], b[1..]);
      assert a[..n] == [a[0]] + a[1..][..n - 1];
      assert b[..n] == [b[0]] + b[1..][..n - 1];
    }
  }

  lemma {:induction false} RunsPeelDelete(n: nat, rest: seq<Op>, a: seq<string>, b: seq<string>)
    requires Runs(Repeat(D, n) + rest, a, b)
    ensures n <= |a| && Runs(rest, a[n..], b)
  {
    if n == 0 {
      assert Repeat(D, 0) + rest == rest;
    } else {
      assert (Repeat(D, n) + rest)[1..] == Repeat(D, n - 1) + rest;
      RunsPeelDelete(n - 1, rest, a[1..], b);
    }
  }

  lemma {:induction false} RunsPeelInsert(n: nat, rest: seq<Op>, a: seq<string>, b: seq<string>)
    requires Runs(Repeat(I, n) + rest, a, b)
    ensures n <= |b| && Runs(rest, a, b[n..])
  {
    if n == 0 {
      assert Repeat(I, 0) + rest == rest;
    } else {
      assert (Repeat(I, n) + rest)[1..] == Repeat(I, n - 1) + rest;
      RunsPeelInsert(n - 1, rest, a, b[1..]);
    }
  }

  /** Line by line and triple by triple mean the same. */
  lemma {:induction false} RunsIsScript(ts: seq<Triple>, a: seq<string>, b: seq<string>)
    requires Runs(Ops(ts), a, b)
    ensures IsScript(ts, a, b)
  {
    if ts != [] {
      var t, rest := ts[0], Ops(ts[1..]);
      assert Ops(ts) == Repeat(C, t.copy) + (Repeat(D, t.del) + (Repeat(I, t.ins) + rest));
      RunsPeelCopy(t.copy, Repeat(D, t.del) + (Repeat(I, t.ins) + rest), a, b);
      RunsPeelDelete(t.del, Repeat(I, t.ins) + rest, a[t.copy..], b[t.copy..]);
      RunsPeelInsert(t.ins, rest, a[t.copy..][t.del..], b[t.copy..]);
      assert a[t.copy..][t.del..] == a[t.copy + t.del..];
      assert b[t.copy..][t.ins..] == b[t.copy + t.ins..];
      RunsIsScript(ts[1..], a[t.copy + t.del..], b[t.copy + t.ins..]);
    }
  }

  /** Replaying: copied lines come from the old file, inserted ones from the new. */
  function Replay(ts: seq<Triple>, a: seq<string>, b: seq<string>): seq<string>
  {
    if ts == [] then []
    else
      var t, a', b' := ts[0], Drop(a, ts[0].copy), Drop(b, ts[0].copy);
      Take(a, t.copy) + (Take(b', t.ins) + Replay(ts[1..], Drop(a', t.del), Drop(b', t.ins)))
  }

  /** At most `n` items from the front, as many as there are. */
  function Take<T>(s: seq<T>, n: nat): seq<T>
  {
    if n <= |s| then s[..n] else s
  }

  function Drop<T>(s: seq<T>, n: nat): seq<T>
  {
    if n <= |s| then s[n..] else []
  }

  function TotalOld(ts: seq<Triple>): nat
  {
    if ts == [] then 0 else ts[0].copy + ts[0].del + TotalOld(ts[1..])
  }

  function TotalNew(ts: seq<Triple>): nat
  {
    if ts == [] then 0 else ts[0].copy + ts[0].ins + TotalNew(ts[1..])
  }

  lemma ThreeParts(s: seq<string>, m: nat, n: nat)
    requires m + n <= |s|
    ensures s == s[..m] + (s[m..][..n] + s[m + n..])
  {
  }

  /** A script replayed on the old file gives the new one, and its counts
      account for every line of both files. */
  lemma {:induction false} ScriptReplays(ts: seq<Triple>, a: seq<string>, b: seq<string>)
    requires IsScript(ts, a, b)
    ensures Replay(ts, a, b) == b
    ensures TotalOld(ts) == |a| && TotalNew(ts) == |b|
  {
    if ts != [] {
      var t := ts[0];
      assert a[t.copy..][t.del..] == a[t.copy + t.del..] && b[t.copy..][t.ins..] == b[t.copy + t.ins..];
      ScriptReplays(ts[1..], a[t.copy + t.del..], b[t.copy + t.ins..]);
      ThreeParts(b, t.copy, t.ins);
    }
  }

  // ----- appending with coalescing (appendTriple) -----

  /** `appendTriple` on the list of triples. */
  function Append(ts: seq<Triple>, t: Triple): seq<Triple>
  {
    if ts == [] then [t]
    else
      var front, last := ts[..|ts| - 1], ts[|ts| - 1];
      if last.ins == 0 && last.del == 0 then
        front + [Triple(last.copy + t.copy, t.del, t.ins)]
      else if last.ins == 0 && t.copy == 0 then
        front + [Triple(last.copy, last.del + t.del, t.ins)]
      else if t.copy == 0 && t.del == 0 then
        front + [Triple(last.copy, last.del, last.ins + t.ins)]
      else
        ts + [t]
  }

  lemma RepeatSum(op: Op, m: nat, n: nat)
    ensures Repeat(op, m + n) == Repeat(op, m) + Repeat(op, n)
  {
  }

  /** Replacing the last triple by one that means the last and `t`. */
  lemma FuseLast(front: seq<Triple>, last: Triple, t: Triple, m: Triple)
    requires TripleOps(m) == TripleOps(last) + TripleOps(t)
    ensures Ops(front + [m]) == Ops(front + [last]) + TripleOps(t)
  {
    OpsConcat(front, [m]);
    OpsSingle(m);
    OpsConcat(front, [last]);
    OpsSingle(last);
    assert Ops(front) + (TripleOps(last) + TripleOps(t)) == (Ops(front) + TripleOps(last)) + TripleOps(t);
  }

  lemma FuseAfterCopy(last: Triple, t: Triple)
    requires last.ins == 0 && last.del == 0
    ensures TripleOps(Triple(last.copy + t.copy, t.del, t.ins)) == TripleOps(last) + TripleOps(t)
  {
    RepeatSum(C, last.copy, t.copy);
  }

  lemma FuseAfterDelete(last: Triple, t: Triple)
    requires last.ins == 0 && t.copy == 0
    ensures TripleOps(Triple(last.copy, last.del + t.del, t.ins)) == TripleOps(last) + TripleOps(t)
  {
    RepeatSum(D, last.del, t.del);
  }

  lemma FuseInsert(last: Triple, t: Triple)
    requires t.copy == 0 && t.del == 0
    ensures TripleOps(Triple(last.copy, last.del, last.ins + t.ins)) == TripleOps(last) + TripleOps(t)
  {
    RepeatSum(I, last.ins, t.ins);
  }

  /** Coalescing never changes the operations. */
  lemma AppendPreservesOps(ts: seq<Triple>, t: Triple)
    ensures Ops(Append(ts, t)) == Ops(ts) + TripleOps(t)
  {
    if ts == [] {
      OpsSingle(t);
    } else {
      var front, last := ts[..|ts| - 1], ts[|ts| - 1];
      assert ts == front + [last];
      if last.ins == 0 && last.del == 0 {
        FuseAfterCopy(last, t);
        FuseLast(front, last, t, Triple(last.copy + t.copy, t.del, t.ins));
      } else if last.ins == 0 && t.copy == 0 {
        FuseAfterDelete(last, t);
        FuseLast(front, last, t, Triple(last.copy, last.del + t.del, t.ins));
      } else if t.copy == 0 && t.del == 0 {
        FuseInsert(last, t);
        FuseLast(front, last, t, Triple(last.copy, last.del, last.ins + t.ins));
      } else {
        OpsConcat(ts, [t]);
        OpsSingle(t);
      }
    }
  }

  lemma OpsAssoc(x: seq<Op>, y: seq<Op>, z: seq<Op>)
    ensures (x + y) + z == x + (y + z)
  {
  }

  /** Appending a whole list of triples one by one. */
  function AppendAll(ts: seq<Triple>, us: seq<Triple>): seq<Triple>
    decreases us
  {
    if us == [] then ts else AppendAll(Append(ts, us[0]), us[1..])
  }

  /** ... for any sequence of calls. */
  lemma {:induction false} AppendAllPreservesOps(ts: seq<Triple>, us: seq<Triple>)
    ensures Ops(AppendAll(ts, us)) == Ops(ts) + Ops(us)
    decreases us
  {
    if us == [] {
      assert Ops(ts) + [] == Ops(ts);
    } else {
      var t, rest := us[0], us[1..];
      var next := Append(ts, t);
      AppendPreservesOps(ts, t);
      AppendAllPreservesOps(next, rest);
      OpsAssoc(Ops(ts), TripleOps(t), Ops(rest));
    }
  }

  // ----- normal form -----

  /** No all-zero triple; every triple but the first copies something; every
      triple but the last deletes or inserts something. */
  ghost predicate Normal(ts: seq<Triple>)
  {
    && (forall k :: 0 <= k < |ts| ==> ts[k] != ZERO)
    && (forall k :: 1 <= k < |ts| ==> ts[k].copy > 0)
    && (forall k :: 0 <= k < |ts| - 1 ==> ts[k].del + ts[k].ins > 0)
  }

  /** Nothing appended yet, or a copy was appended last. */
  ghost predicate Open(ts: seq<Triple>)
  {
    Normal(ts) && (ts == [] || (ts[|ts| - 1].del == 0 && ts[|ts| - 1].ins == 0))
  }

  lemma AppendCopyNormal(ts: seq<Triple>, n: nat)
    requires Normal(ts) && n > 0
    ensures Open(Append(ts, Triple(n, 0, 0)))
  {
  }

  lemma AppendEditNormal(ts: seq<Triple>, del: nat, ins: nat)
    requires Open(ts) && del + ins > 0
    ensures Normal(Append(ts, Triple(0, del, ins)))
  {
  }

  /** Dropping the head of a normal list. */
  lemma NormalTail(ts: seq<Triple>)
    requires Normal(ts) && ts != []
    ensures Normal(ts[1..])
    ensures ts[1..] != [] ==> ts[1].copy > 0 && ts[0].del + ts[0].ins > 0
  {
    forall k | 0 <= k < |ts[1..]|
      ensures ts[1..][k] == ts[k + 1]
    {
    }
  }
}
