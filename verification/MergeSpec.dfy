/** The three-way merge (libpkg/merge3.c) as a function on chunks, and what it
    computes.  The pivot and the two versions are lists of chunks; the two edit
    vectors are lists of triples. */
module MergeSpec {
  import opened EditScript

  /** `ok` is false on a conflict; `out` is what was written until then. */
  datatype Outcome = Outcome(ok: bool, out: seq<string>)

  function Emit(chunks: seq<string>, rest: Outcome): Outcome
  {
    Outcome(rest.ok, chunks + rest.out)
  }

  /** The head of an edit vector after `n` of its copied lines were consumed. */
  function Copied(c: seq<Triple>, n: nat): seq<Triple>
    requires c != [] && n <= c[0].copy
  {
    c[0 := c[0].(copy := c[0].copy - n)]
  }

  /** Advance past a triple that is used up. */
  function Advance(c: seq<Triple>): seq<Triple>
  {
    if c != [] && c[0] == ZERO then c[1..] else c
  }

  function HeadCopy(c: seq<Triple>): nat
  {
    if c == [] then 0 else c[0].copy
  }

  /** An insert left over when the other vector has ended. */
  function Leftover(v1: seq<string>, v2: seq<string>, c1: seq<Triple>, c2: seq<Triple>): seq<string>
  {
    if c1 != [] && c1[0].ins > 0 then Take(v1, c1[0].ins)
    else if c2 != [] && c2[0].ins > 0 then Take(v2, c2[0].ins)
    else []
  }

  predicate SameEdit(t1: Triple, t2: Triple, v1: seq<string>, v2: seq<string>)
  {
    t1 == t2 && Take(v1, t1.ins) == Take(v2, t1.ins)
  }

  /** The merge loop.  `p`, `v1`, `v2` are what is left of the pivot and of the
      versions, `c1`, `c2` what is left of the edit vectors. */
  function Merge(p: seq<string>, v1: seq<string>, v2: seq<string>, c1: seq<Triple>, c2: seq<Triple>): Outcome
    decreases |c1| + |c2|, HeadCopy(c1) + HeadCopy(c2)
  {
    if c1 == [] || c2 == [] then Outcome(true, Leftover(v1, v2, c1, c2))
    else
      var t1, t2 := c1[0], c2[0];
      if t1.copy > 0 && t2.copy > 0 then
        var n := if t1.copy < t2.copy then t1.copy else t2.copy;
        Emit(Take(p, n), Merge(Drop(p, n), Drop(v1, n), Drop(v2, n), Advance(Copied(c1, n)), Advance(Copied(c2, n))))
      else if t1.copy >= t2.del && t1.copy > 0 && t2.del + t2.ins > 0 then
        Emit(Take(v2, t2.ins),
             Merge(Drop(p, t2.del), Drop(v1, t2.del), Drop(v2, t2.ins), Advance(Copied(c1, t2.del)), Advance(c2[1..])))
      else if t2.copy >= t1.del && t2.copy > 0 && t1.del + t1.ins > 0 then
        Emit(Take(v1, t1.ins),
             Merge(Drop(p, t1.del), Drop(v1, t1.ins), Drop(v2, t1.del), Advance(c1[1..]), Advance(Copied(c2, t1.del))))
      else if SameEdit(t1, t2, v1, v2) then
        Emit(Take(v1, t1.ins),
             Merge(Drop(p, t1.del), Drop(v1, t1.ins), Drop(v2, t1.ins), Advance(c1[1..]), Advance(c2[1..])))
      else Outcome(false, [])
  }

  // ----- one turn of the loop -----

  function Shorter(m: nat, n: nat): nat
  {
    if m < n then m else n
  }

  lemma MergeCopies(p: seq<string>, v1: seq<string>, v2: seq<string>, c1: seq<Triple>, c2: seq<Triple>, n: nat)
    requires c1 != [] && c2 != [] && 0 < n == Shorter(c1[0].copy, c2[0].copy)
    ensures Merge(p, v1, v2, c1, c2) ==
            Emit(Take(p, n),
              Merge(Drop(p, n), Drop(v1, n), Drop(v2, n), Advance(Copied(c1, n)), Advance(Copied(c2, n))))
  {
  }

  lemma MergeEdits(p: seq<string>, v1: seq<string>, v2: seq<string>, c1: seq<Triple>, c2: seq<Triple>, d: nat, k: nat)
    requires c1 != [] && c2 != [] && c2[0] == Triple(0, d, k)
    requires d <= c1[0].copy && c1[0].copy > 0 && d + k > 0
    ensures Merge(p, v1, v2, c1, c2) ==
            Emit(Take(v2, k), Merge(Drop(p, d), Drop(v1, d), Drop(v2, k), Advance(Copied(c1, d)), Advance(c2[1..])))
  {
  }

  lemma MergeEditsLeft(p: seq<string>, v1: seq<string>, v2: seq<string>, c1: seq<Triple>, c2: seq<Triple>, d: nat,
                       k: nat)
    requires c1 != [] && c2 != [] && c1[0] == Triple(0, d, k)
    requires d <= c2[0].copy && c2[0].copy > 0 && d + k > 0
    ensures Merge(p, v1, v2, c1, c2) ==
            Emit(Take(v1, k), Merge(Drop(p, d), Drop(v1, k), Drop(v2, d), Advance(c1[1..]), Advance(Copied(c2, d))))
  {
  }

  lemma MergeShares(p: seq<string>, v1: seq<string>, v2: seq<string>, c1: seq<Triple>, c2: seq<Triple>, d: nat, k: nat)
    requires c1 != [] && c2 != [] && c1[0] == Triple(0, d, k) && SameEdit(c1[0], c2[0], v1, v2)
    ensures Merge(p, v1, v2, c1, c2) ==
            Emit(Take(v1, k), Merge(Drop(p, d), Drop(v1, k), Drop(v2, k), Advance(c1[1..]), Advance(c2[1..])))
  {
  }

  // ----- the two versions play the same part -----

  /** Swapping the versions changes neither the output nor success. */
  lemma {:induction false} MergeSymmetric(p: seq<string>, v1: seq<string>, v2: seq<string>, c1: seq<Triple>,
                                          c2: seq<Triple>)
    ensures Merge(p, v1, v2, c1, c2) == Merge(p, v2, v1, c2, c1)
    decreases |c1| + |c2|, HeadCopy(c1) + HeadCopy(c2)
  {
    if c1 != [] && c2 != [] {
      var t1, t2 := c1[0], c2[0];
      if t1.copy > 0 && t2.copy > 0 {
        var n := if t1.copy < t2.copy then t1.copy else t2.copy;
        MergeSymmetric(Drop(p, n), Drop(v1, n), Drop(v2, n), Advance(Copied(c1, n)), Advance(Copied(c2, n)));
      } else if t1.copy >= t2.del && t1.copy > 0 && t2.del + t2.ins > 0 {
        MergeSymmetric(Drop(p, t2.del), Drop(v1, t2.del), Drop(v2, t2.ins), Advance(Copied(c1, t2.del)),
          Advance(c2[1..]));
      } else if t2.copy >= t1.del && t2.copy > 0 && t1.del + t1.ins > 0 {
        MergeSymmetric(Drop(p, t1.del), Drop(v1, t1.ins), Drop(v2, t1.del), Advance(c1[1..]),
          Advance(Copied(c2, t1.del)));
      } else if SameEdit(t1, t2, v1, v2) {
        MergeSymmetric(Drop(p, t1.del), Drop(v1, t1.ins), Drop(v2, t1.ins), Advance(c1[1..]), Advance(c2[1..]));
      }
    }
  }

  // ----- edit vectors that account for every line -----

  ghost predicate Covers(c: seq<Triple>, np: nat, nv: nat)
  {
    if c == [] then np == 0 && nv == 0
    else
      && c[0].copy + c[0].del <= np
      && c[0].copy + c[0].ins <= nv
      && Covers(c[1..], np - c[0].copy - c[0].del, nv - c[0].copy - c[0].ins)
  }

  lemma {:induction false} ScriptCovers(c: seq<Triple>, a: seq<string>, b: seq<string>)
    requires IsScript(c, a, b)
    ensures Covers(c, |a|, |b|)
  {
    if c != [] {
      ScriptCovers(c[1..], a[c[0].copy + c[0].del..], b[c[0].copy + c[0].ins..]);
    }
  }

  /** A normal edit vector for `p` and `v`. */
  ghost predicate Good(c: seq<Triple>, p: seq<string>, v: seq<string>)
  {
    Normal(c) && Covers(c, |p|, |v|)
  }

  /** Consuming copied lines keeps an edit vector good. */
  lemma GoodCopied(c: seq<Triple>, p: seq<string>, v: seq<string>, n: nat)
    requires Good(c, p, v) && c != [] && n <= c[0].copy
    ensures n <= |p| && n <= |v|
    ensures Good(Advance(Copied(c, n)), p[n..], v[n..])
  {
    var d := Copied(c, n);
    assert d[1..] == c[1..];
    assert forall k :: 1 <= k < |d| ==> d[k] == c[k];
    if d[0] == ZERO {
      NormalTail(c);
      assert |c| == 1;
    }
  }

  /** So does passing over a triple whose copies are used up; the next one starts
      with copies. */
  lemma GoodTail(c: seq<Triple>, p: seq<string>, v: seq<string>)
    requires Good(c, p, v) && c != [] && c[0].copy == 0
    ensures c[0].del <= |p| && c[0].ins <= |v|
    ensures Good(c[1..], p[c[0].del..], v[c[0].ins..]) && Advance(c[1..]) == c[1..]
    ensures c[1..] != [] ==> c[1..][0].copy > 0
  {
    NormalTail(c);
  }

  /** When the pivot is used up, at most one pure insert is left. */
  lemma GoodAtEnd(c: seq<Triple>, v: seq<string>)
    requires Good(c, [], v)
    ensures (c == [] && v == []) || (c == [Triple(0, 0, |v|)] && |v| > 0)
  {
    if c != [] {
      assert c[0].copy == 0 && c[0].del == 0;
      GoodTail(c, [], v);
      assert |c| == 1;
    }
  }
}
