/** The three-way merge as the program runs it (libpkg/merge3.c): three cursors
    into the texts, and two edit arrays whose copy counts are used up in place.  A
    cursor is the text from where it points. */
module MergeContext {
  import opened EditScript
  import opened LineTable
  import opened DiffContext
  import opened MergeSpec
  import opened MergeTexts

  // ----- scanning lines -----

  /** Length of the first `n` lines of a text, as many as there are. */
  function CopyLength(z: string, n: nat): nat
    decreases n
  {
    if n == 0 || z == "" then 0 else ChunkLength(z) + CopyLength(z[ChunkLength(z)..], n - 1)
  }

  lemma TakeDropCons(head: string, rest: seq<string>, n: nat)
    requires n > 0
    ensures Take([head] + rest, n) == [head] + Take(rest, n - 1)
    ensures Drop([head] + rest, n) == Drop(rest, n - 1)
    ensures Text([head] + Take(rest, n - 1)) == head + Text(Take(rest, n - 1))
  {
    assert ([head] + Take(rest, n - 1))[1..] == Take(rest, n - 1);
  }

  lemma SplitAgain(z: string, k: nat, m: nat)
    requires k + m <= |z|
    ensures z[..k + m] == z[..k] + z[k..][..m] && z[k + m..] == z[k..][m..]
  {
  }

  lemma {:induction false} CopyLengthIs(z: string, n: nat)
    ensures CopyLength(z, n) <= |z|
    ensures z[..CopyLength(z, n)] == Text(Take(Chunks(z), n))
    ensures Chunks(z[CopyLength(z, n)..]) == Drop(Chunks(z), n)
    decreases n
  {
    hide Take, Drop, Text, ChunkLength;
    if n == 0 || z == "" {
      NoLength(z, n);
    } else {
      var k := ChunkLength(z);
      CopyLengthIs(z[k..], n - 1);
      TakeDropCons(z[..k], Chunks(z[k..]), n);
      SplitAgain(z, k, CopyLength(z[k..], n - 1));
    }
  }

  lemma NoLength(z: string, n: nat)
    requires n == 0 || z == ""
    ensures z[..0] == Text(Take(Chunks(z), n)) && Chunks(z[0..]) == Drop(Chunks(z), n)
  {
    assert z[0..] == z && z[..0] == "";
    assert z == "" ==> Chunks(z) == [];
  }

  /** Number of characters in the first `n` lines. */
  method LinesLength(from: string, n: nat) returns (i: nat)
    ensures i == CopyLength(from, n)
  {
    hide CopyLength, ChunkLength;
    NothingToCopy(from, n);
    if n == 0 {
      return 0;
    }
    i := 0;
    var cnt: nat := 0;
    ghost var start: nat, rest := 0, from;
    while i < |from|
      invariant start <= i <= |from| && rest == from[start..]
      invariant cnt < n && CopyLength(from, n) == start + CopyLength(rest, n - cnt)
      invariant i - start < ChunkLength(rest) || (ChunkLength(rest) == |rest| && i == |from|)
                || (rest == "" && i == |from|)
    {
      NewlineEndsLine(rest, i - start);
      if from[i] == '\n' {
        DropDrop(from, start, i + 1 - start);
        OneLineMore(rest, n - cnt);
        NothingToCopy(from[i + 1..], n);
        cnt := cnt + 1;
        if cnt == n {
          i := i + 1;
          return;
        }
        start, rest := i + 1, from[i + 1..];
      }
      i := i + 1;
    }
    NothingToCopy("", n - cnt);
    if rest != "" {
      OneLineMore(rest, n - cnt);
      NothingToCopy("", n - cnt - 1);
      assert rest[ChunkLength(rest)..] == "";
    }
  }

  lemma NothingToCopy(z: string, n: nat)
    ensures CopyLength(z, 0) == 0 && CopyLength("", n) == 0
  {
  }

  lemma OneLineMore(z: string, n: nat)
    requires z != "" && n > 0
    ensures CopyLength(z, n) == ChunkLength(z) + CopyLength(z[ChunkLength(z)..], n - 1)
  {
  }

  lemma NewlineEndsLine(z: string, k: nat)
    requires k < ChunkLength(z)
    ensures z[k] == '\n' <==> k == FirstNewline(z)
    ensures z[k] == '\n' ==> ChunkLength(z) == k + 1
    ensures z[k] != '\n' ==> k + 1 < ChunkLength(z) || ChunkLength(z) == |z| == k + 1
  {
    ScanStep(z, k);
  }

  /** The first `n` lines at a cursor and the cursor after them. */
  method CopyLines(from: string, n: nat) returns (copied: string, after: string)
    ensures copied == Text(Take(Chunks(from), n))
    ensures Chunks(after) == Drop(Chunks(from), n)
  {
    var i := LinesLength(from, n);
    CopyLengthIs(from, n);
    copied, after := from[..i], from[i..];
  }

  // ----- comparing inserted lines -----

  /** Two first chunks that agree on `k` characters and then differ. */
  lemma FirstChunksDiffer(x: string, y: string, k: nat, n: nat)
    requires n > 0 && k <= |x| && k <= |y| && x[..k] == y[..k]
    requires k <= FirstNewline(x) && k <= FirstNewline(y)
    requires k < |x| || k < |y|
    requires k < |x| && k < |y| ==> x[k] != y[k]
    ensures Take(Chunks(x), n) != Take(Chunks(y), n)
  {
    if x == "" || y == "" {
      assert |Take(Chunks(x), n)| == 0 || |Take(Chunks(y), n)| == 0;
    } else {
      var cx, cy := x[..ChunkLength(x)], y[..ChunkLength(y)];
      assert Take(Chunks(x), n)[0] == cx && Take(Chunks(y), n)[0] == cy;
      assert k < |cx| ==> cx[k] == x[k];
      assert k < |cy| ==> cy[k] == y[k];
      assert k < |x| ==> k < |cx|;
      assert k < |y| ==> k < |cy|;
      assert cx != cy;
    }
  }

  /** Two first chunks that are equal. */
  lemma FirstChunksSame(x: string, y: string, n: nat, k: nat)
    requires n > 0 && x != "" && y != "" && ChunkLength(x) == ChunkLength(y) == k && x[..k] == y[..k]
    ensures Take(Chunks(x), n) == Take(Chunks(y), n) <==>
            Take(Chunks(x[k..]), n - 1) == Take(Chunks(y[k..]), n - 1)
  {
    TakeDropCons(x[..k], Chunks(x[k..]), n);
    TakeDropCons(y[..k], Chunks(y[k..]), n);
    var tx, ty := Take(Chunks(x[k..]), n - 1), Take(Chunks(y[k..]), n - 1);
    assert ([x[..k]] + tx)[1..] == tx && ([y[..k]] + ty)[1..] == ty;
  }

  /** The next `n` lines at two cursors are the same. */
  ghost predicate SameFirst(x: string, y: string, n: nat)
  {
    Take(Chunks(x), n) == Take(Chunks(y), n)
  }

  /** The two cursors are `k` characters into lines that agree so far. */
  ghost predicate InStep(x: string, y: string, k: nat)
  {
    && k <= |x| && k <= |y| && x[..k] == y[..k]
    && k <= FirstNewline(x) && k <= FirstNewline(y)
  }

  lemma StepInLine(x: string, y: string, k: nat)
    requires InStep(x, y, k) && k < |x| && k < |y| && x[k] == y[k] && x[k] != '\n'
    ensures InStep(x, y, k + 1)
  {
    ScanStep(x, k);
    ScanStep(y, k);
    assert x[..k + 1] == x[..k] + [x[k]] && y[..k + 1] == y[..k] + [y[k]];
  }

  lemma StepToNextLine(x: string, y: string, k: nat, n: nat)
    requires InStep(x, y, k) && k < |x| && k < |y| && x[k] == y[k] == '\n' && n > 0
    ensures SameFirst(x, y, n) <==> SameFirst(x[k + 1..], y[k + 1..], n - 1)
    ensures InStep(x[k + 1..], y[k + 1..], 0)
  {
    hide Chunks, Take;
    ScanStep(x, k);
    ScanStep(y, k);
    assert x[..k + 1] == x[..k] + [x[k]] && y[..k + 1] == y[..k] + [y[k]];
    FirstChunksSame(x, y, n, k + 1);
  }

  lemma StepFails(x: string, y: string, k: nat, n: nat)
    requires InStep(x, y, k) && n > 0 && (k < |x| || k < |y|)
    requires k < |x| && k < |y| ==> x[k] != y[k]
    ensures !SameFirst(x, y, n)
  {
    FirstChunksDiffer(x, y, k, n);
  }

  lemma StepEnds(x: string, y: string, k: nat)
    requires InStep(x, y, k) && k == |x| == |y|
    ensures forall n: nat :: SameFirst(x, y, n)
  {
    assert x[..k] == x && y[..k] == y;
  }

  /** Whether the next `n` lines at two cursors are the same. */
  method SameLines(pV1: string, pV2: string, n: nat) returns (same: bool)
    ensures same <==> SameFirst(pV1, pV2, n)
  {
    hide SameFirst, InStep;
    if n == 0 {
      NoLines(pV1, pV2);
      return true;
    }
    ghost var target := SameFirst(pV1, pV2, n);
    var left: nat, i: nat := n, 0;
    ghost var start: nat, x, y := 0, pV1, pV2;
    StartInStep(x, y);
    while true
      invariant start <= i <= |pV1| && i <= |pV2| && x == pV1[start..] && y == pV2[start..]
      invariant left > 0 && InStep(x, y, i - start)
      invariant target <==> SameFirst(x, y, left)
      decreases |pV1| - i
    {
      if i == |pV1| && i == |pV2| {
        StepEnds(x, y, i - start);
        return true;
      }
      if i == |pV1| || i == |pV2| || pV1[i] != pV2[i] {
        StepFails(x, y, i - start, left);
        return false;
      }
      if pV1[i] == '\n' {
        StepToNextLine(x, y, i - start, left);
        DropDrop(pV1, start, i - start + 1);
        DropDrop(pV2, start, i - start + 1);
        left := left - 1;
        start, x, y := i + 1, pV1[i + 1..], pV2[i + 1..];
        if left == 0 {
          NoLines(x, y);
          return true;
        }
      } else {
        StepInLine(x, y, i - start);
      }
      i := i + 1;
    }
  }

  lemma StartInStep(x: string, y: string)
    ensures InStep(x, y, 0) && x[0..] == x && y[0..] == y
  {
  }

  lemma NoLines(x: string, y: string)
    ensures SameFirst(x, y, 0)
  {
  }

  // ----- the edit arrays -----

  /** What is left of an edit array: the triples from `i` to `limit`. */
  ghost function Pending(a: seq<nat>, i: nat, limit: nat): seq<Triple>
    requires i <= limit <= |a|
  {
    Triples(a[i..limit])
  }

  ghost predicate Aligned(a: seq<nat>, i: nat, limit: nat)
  {
    i <= limit <= |a| && (limit - i) % 3 == 0
  }

  lemma PendingHead(a: seq<nat>, i: nat, limit: nat)
    requires Aligned(a, i, limit)
    ensures Pending(a, i, limit) == [] <==> i == limit
    ensures i < limit ==> i + 3 <= limit
    ensures i < limit ==> Pending(a, i, limit) != [] && Pending(a, i, limit)[0] == Triple(a[i], a[i + 1], a[i + 2])
    ensures i < limit ==> Aligned(a, i + 3, limit) && Pending(a, i, limit)[1..] == Pending(a, i + 3, limit)
  {
    if i < limit {
      assert a[i..limit][3..] == a[i + 3..limit];
    }
  }

  lemma PendingCopied(a: seq<nat>, i: nat, limit: nat, n: nat)
    requires Aligned(a, i, limit) && i < limit && n <= a[i]
    ensures Pending(a, i, limit) != [] && n <= Pending(a, i, limit)[0].copy
    ensures Aligned(a[i := a[i] - n], i, limit)
    ensures Pending(a[i := a[i] - n], i, limit) == Copied(Pending(a, i, limit), n)
  {
    var b := a[i := a[i] - n];
    PendingHead(a, i, limit);
    PendingHead(b, i, limit);
    assert b[i + 3..limit] == a[i + 3..limit];
    var x, y := Pending(a, i, limit), Pending(b, i, limit);
    assert y == [y[0]] + y[1..] && x == [x[0]] + x[1..];
  }

  lemma {:induction false} TripleAt(a: seq<nat>, k: nat)
    requires 3 * k + 3 <= |a|
    ensures k < |Triples(a)| && Triples(a)[k] == Triple(a[3 * k], a[3 * k + 1], a[3 * k + 2])
  {
    if k > 0 {
      TripleAt(a[3..], k - 1);
    }
  }

  /** Where the terminating triple of zeros is. */
  method FindEnd(a: array<nat>, ghost c: seq<Triple>) returns (limit: nat)
    requires a.Length % 3 == 0 && Triples(a[..]) == c + [ZERO] && Normal(c)
    ensures Aligned(a[..], 0, limit) && Pending(a[..], 0, limit) == c
  {
    TriplesLength(a[..]);
    limit := 0;
    ghost var k := 0;
    TripleAt(a[..], 0);
    while a[limit] != 0 || a[limit + 1] != 0 || a[limit + 2] != 0
      invariant limit == 3 * k && k <= |c| && a.Length == 3 * |c| + 3
      invariant Triples(a[..])[k] == Triple(a[limit], a[limit + 1], a[limit + 2])
      decreases |c| - k
    {
      limit := limit + 3;
      k := k + 1;
      TripleAt(a[..], k);
    }
    assert k == |c|;
    assert a[..] == a[..limit] + a[limit..] && a[0..limit] == a[..limit];
    TriplesConcat(a[..limit], a[limit..]);
    TriplesLength(a[..limit]);
    assert (c + [ZERO])[..|c|] == c;
    assert (Triples(a[..limit]) + Triples(a[limit..]))[..|c|] == Triples(a[..limit]);
  }

  // ----- the merge loop -----

  /** What was written so far and what the rest of the merge will write make up the
      whole outcome. */
  ghost predicate Stage(total: Outcome, emitted: seq<string>, p: seq<string>, v1: seq<string>, v2: seq<string>,
                        c1: seq<Triple>, c2: seq<Triple>)
  {
    total == Emit(emitted, Merge(p, v1, v2, c1, c2))
  }

  lemma EmitTwice(total: Outcome, emitted: seq<string>, whole: Outcome, written: seq<string>, rest: Outcome)
    requires total == Emit(emitted, whole) && whole == Emit(written, rest)
    ensures total == Emit(emitted + written, rest)
    ensures Text(emitted + written) == Text(emitted) + Text(written)
  {
    TextConcat(emitted, written);
    assert (emitted + written) + rest.out == emitted + (written + rest.out);
  }

  lemma StageCopy(total: Outcome, emitted: seq<string>, p: seq<string>, v1: seq<string>, v2: seq<string>,
                  c1: seq<Triple>, c2: seq<Triple>, n: nat)
    requires Stage(total, emitted, p, v1, v2, c1, c2)
    requires c1 != [] && c2 != [] && 0 < n == Shorter(c1[0].copy, c2[0].copy)
    ensures Stage(total, emitted + Take(p, n), Drop(p, n), Drop(v1, n), Drop(v2, n), Advance(Copied(c1, n)),
      Advance(Copied(c2, n)))
    ensures Text(emitted + Take(p, n)) == Text(emitted) + Text(Take(p, n))
  {
    hide Merge, Text, Take, Drop, Advance;
    MergeCopies(p, v1, v2, c1, c2, n);
    EmitTwice(total, emitted, Merge(p, v1, v2, c1, c2), Take(p, n),
              Merge(Drop(p, n), Drop(v1, n), Drop(v2, n), Advance(Copied(c1, n)), Advance(Copied(c2, n))));
  }

  /** An edit of the second version. */
  lemma StageEdit(total: Outcome, emitted: seq<string>, p: seq<string>, v1: seq<string>, v2: seq<string>,
                  c1: seq<Triple>, c2: seq<Triple>, d: nat, k: nat)
    requires Stage(total, emitted, p, v1, v2, c1, c2)
    requires c1 != [] && c2 != [] && c2[0] == Triple(0, d, k)
    requires c1[0].copy >= d && c1[0].copy > 0 && d + k > 0
    ensures Stage(total, emitted + Take(v2, k), Drop(p, d), Drop(v1, d), Drop(v2, k), Advance(Copied(c1, d)),
      Advance(c2[1..]))
    ensures Text(emitted + Take(v2, k)) == Text(emitted) + Text(Take(v2, k))
  {
    hide Merge, Text, Take, Drop, Advance;
    MergeEdits(p, v1, v2, c1, c2, d, k);
    EmitTwice(total, emitted, Merge(p, v1, v2, c1, c2), Take(v2, k),
              Merge(Drop(p, d), Drop(v1, d), Drop(v2, k), Advance(Copied(c1, d)), Advance(c2[1..])));
  }

  lemma StageSwap(total: Outcome, emitted: seq<string>, p: seq<string>, v1: seq<string>, v2: seq<string>,
                  c1: seq<Triple>, c2: seq<Triple>)
    ensures Stage(total, emitted, p, v1, v2, c1, c2) <==> Stage(total, emitted, p, v2, v1, c2, c1)
  {
    MergeSymmetric(p, v1, v2, c1, c2);
  }

  /** The same edit in both versions. */
  lemma StageShare(total: Outcome, emitted: seq<string>, p: seq<string>, v1: seq<string>, v2: seq<string>,
                   c1: seq<Triple>, c2: seq<Triple>, d: nat, k: nat)
    requires Stage(total, emitted, p, v1, v2, c1, c2)
    requires c1 != [] && c2 != [] && c1[0] == Triple(0, d, k) && SameEdit(c1[0], c2[0], v1, v2)
    ensures Stage(total, emitted + Take(v1, k), Drop(p, d), Drop(v1, k), Drop(v2, k), Advance(c1[1..]),
      Advance(c2[1..]))
    ensures Text(emitted + Take(v1, k)) == Text(emitted) + Text(Take(v1, k))
  {
    MergeShares(p, v1, v2, c1, c2, d, k);
    hide Merge, Text, Take, Drop, Advance;
    EmitTwice(total, emitted, Merge(p, v1, v2, c1, c2), Take(v1, k),
              Merge(Drop(p, d), Drop(v1, k), Drop(v2, k), Advance(c1[1..]), Advance(c2[1..])));
  }

  lemma StageStuck(total: Outcome, emitted: seq<string>, p: seq<string>, v1: seq<string>, v2: seq<string>,
                   c1: seq<Triple>, c2: seq<Triple>)
    requires Stage(total, emitted, p, v1, v2, c1, c2) && c1 != [] && c2 != []
    requires !(c1[0].copy > 0 && c2[0].copy > 0)
    requires !(c1[0].copy >= c2[0].del && c1[0].copy > 0 && c2[0].del + c2[0].ins > 0)
    requires !(c2[0].copy >= c1[0].del && c2[0].copy > 0 && c1[0].del + c1[0].ins > 0)
    requires !SameEdit(c1[0], c2[0], v1, v2)
    ensures total == Outcome(false, emitted)
  {
    assert emitted + [] == emitted;
  }

  lemma StageEnd(total: Outcome, emitted: seq<string>, p: seq<string>, v1: seq<string>, v2: seq<string>,
                 c1: seq<Triple>, c2: seq<Triple>)
    requires Stage(total, emitted, p, v1, v2, c1, c2) && (c1 == [] || c2 == [])
    ensures total.ok && Text(total.out) == Text(emitted) + Text(Leftover(v1, v2, c1, c2))
  {
    TextConcat(emitted, Leftover(v1, v2, c1, c2));
  }

  /** Moves past a triple whose three counts are used up. */
  method NextTriple(a: array<nat>, i: nat, limit: nat) returns (j: nat)
    requires Aligned(a[..], i, limit)
    ensures Aligned(a[..], j, limit) && i <= j && Pending(a[..], j, limit) == Advance(Pending(a[..], i, limit))
  {
    PendingHead(a[..], i, limit);
    j := i;
    if i < limit && a[i] == 0 && a[i + 1] == 0 && a[i + 2] == 0 {
      j := i + 3;
    }
  }

  /** `aC[i] -= n` */
  method UseCopies(a: array<nat>, i: nat, limit: nat, n: nat, ghost c: seq<Triple>)
    requires Aligned(a[..], i, limit) && i < limit && n <= a[i] && c == Pending(a[..], i, limit)
    modifies a
    ensures c != [] && n <= c[0].copy
    ensures Aligned(a[..], i, limit) && Pending(a[..], i, limit) == Copied(c, n)
  {
    PendingCopied(a[..], i, limit, n);
    assert a[..][i := a[i] - n] == a[..i] + [a[i] - n] + a[i + 1..];
    a[i] := a[i] - n;
    assert a[..] == old(a[..])[i := old(a[i]) - n];
  }

  lemma AdvanceShrinks(c: seq<Triple>)
    ensures |Advance(c)| <= |c|
  {
  }

  lemma CopiedShrinks(c: seq<Triple>, n: nat)
    requires c != [] && n <= c[0].copy
    ensures var d := Advance(Copied(c, n));
      |d| <= |c| && (|d| == |c| ==> HeadCopy(d) == HeadCopy(c) - n)
  {
  }

  /** The loop over the two edit arrays, and the insert left over after it. */
  method MergeLoop(pivot: string, v1: string, v2: string,
                   aC1: array<nat>, limit1: nat, aC2: array<nat>, limit2: nat, ghost total: Outcome)
    returns (rc: int, pOut: string)
    requires aC1 != aC2 && Aligned(aC1[..], 0, limit1) && Aligned(aC2[..], 0, limit2)
    requires total ==
      Merge(Chunks(pivot), Chunks(v1), Chunks(v2), Pending(aC1[..], 0, limit1), Pending(aC2[..], 0, limit2))
    modifies aC1, aC2
    ensures rc == (if total.ok then 0 else -1) && pOut == Text(total.out)
  {
    hide Merge, Take, Drop, Text, Chunks, Triples, Pending, SameEdit, Stage, Copied, Advance;
    var pPivot, pV1, pV2 := pivot, v1, v2;
    var i1: nat, i2: nat := 0, 0;
    ghost var p, w1, w2 := Chunks(pivot), Chunks(v1), Chunks(v2);
    ghost var c1, c2 := Pending(aC1[..], 0, limit1), Pending(aC2[..], 0, limit2);
    ghost var emitted: seq<string> := [];
    pOut := "";
    StageStart(total, p, w1, w2, c1, c2);
    while i1 < limit1 && i2 < limit2
      invariant Aligned(aC1[..], i1, limit1) && Aligned(aC2[..], i2, limit2)
      invariant c1 == Pending(aC1[..], i1, limit1) && c2 == Pending(aC2[..], i2, limit2)
      invariant p == Chunks(pPivot) && w1 == Chunks(pV1) && w2 == Chunks(pV2)
      invariant Stage(total, emitted, p, w1, w2, c1, c2) && pOut == Text(emitted)
      decreases |c1| + |c2|, HeadCopy(c1) + HeadCopy(c2)
    {
      PendingHead(aC1[..], i1, limit1);
      PendingHead(aC2[..], i2, limit2);
      var text: string;
      if aC1[i1] > 0 && aC2[i2] > 0 {
        var nCpy := if aC1[i1] < aC2[i2] then aC1[i1] else aC2[i2];
        StageCopy(total, emitted, p, w1, w2, c1, c2, nCpy);
        emitted := emitted + Take(p, nCpy);
        p, w1, w2 := Drop(p, nCpy), Drop(w1, nCpy), Drop(w2, nCpy);
        text, pPivot := CopyLines(pPivot, nCpy);
        pOut := pOut + text;
        text, pV1 := CopyLines(pV1, nCpy);
        text, pV2 := CopyLines(pV2, nCpy);
        UseCopies(aC1, i1, limit1, nCpy, c1);
        UseCopies(aC2, i2, limit2, nCpy, c2);
        CopiedShrinks(c1, nCpy);
        CopiedShrinks(c2, nCpy);
        c1, c2 := Advance(Copied(c1, nCpy)), Advance(Copied(c2, nCpy));
      } else if aC1[i1] >= aC2[i2 + 1] && aC1[i1] > 0 && aC2[i2 + 1] + aC2[i2 + 2] > 0 {
        var nDel, nIns := aC2[i2 + 1], aC2[i2 + 2];
        StageEdit(total, emitted, p, w1, w2, c1, c2, nDel, nIns);
        emitted := emitted + Take(w2, nIns);
        p, w1, w2 := Drop(p, nDel), Drop(w1, nDel), Drop(w2, nIns);
        text, pPivot := CopyLines(pPivot, nDel);
        text, pV1 := CopyLines(pV1, nDel);
        text, pV2 := CopyLines(pV2, nIns);
        pOut := pOut + text;
        UseCopies(aC1, i1, limit1, nDel, c1);
        CopiedShrinks(c1, nDel);
        AdvanceShrinks(c2[1..]);
        i2 := i2 + 3;
        c1, c2 := Advance(Copied(c1, nDel)), Advance(c2[1..]);
      } else if aC2[i2] >= aC1[i1 + 1] && aC2[i2] > 0 && aC1[i1 + 1] + aC1[i1 + 2] > 0 {
        var nDel, nIns := aC1[i1 + 1], aC1[i1 + 2];
        StageSwap(total, emitted, p, w1, w2, c1, c2);
        StageEdit(total, emitted, p, w2, w1, c2, c1, nDel, nIns);
        emitted := emitted + Take(w1, nIns);
        p, w1, w2 := Drop(p, nDel), Drop(w1, nIns), Drop(w2, nDel);
        text, pPivot := CopyLines(pPivot, nDel);
        text, pV2 := CopyLines(pV2, nDel);
        text, pV1 := CopyLines(pV1, nIns);
        pOut := pOut + text;
        UseCopies(aC2, i2, limit2, nDel, c2);
        CopiedShrinks(c2, nDel);
        AdvanceShrinks(c1[1..]);
        i1 := i1 + 3;
        c1, c2 := Advance(c1[1..]), Advance(Copied(c2, nDel));
        StageSwap(total, emitted, p, w1, w2, c1, c2);
      } else {
        var same := SameEditAt(aC1, i1, aC2, i2, pV1, pV2);
        SameEditIs(c1[0], c2[0], pV1, pV2, same);
        if !same {
          StageStuck(total, emitted, p, w1, w2, c1, c2);
          return -1, pOut;
        }
        var nDel, nIns := aC1[i1 + 1], aC1[i1 + 2];
        StageShare(total, emitted, p, w1, w2, c1, c2, nDel, nIns);
        emitted := emitted + Take(w1, nIns);
        p, w1, w2 := Drop(p, nDel), Drop(w1, nIns), Drop(w2, nIns);
        text, pPivot := CopyLines(pPivot, nDel);
        text, pV1 := CopyLines(pV1, nIns);
        pOut := pOut + text;
        text, pV2 := CopyLines(pV2, nIns);
        AdvanceShrinks(c1[1..]);
        AdvanceShrinks(c2[1..]);
        i1, i2 := i1 + 3, i2 + 3;
        c1, c2 := Advance(c1[1..]), Advance(c2[1..]);
      }
      i1 := NextTriple(aC1, i1, limit1);
      i2 := NextTriple(aC2, i2, limit2);
    }
    PendingHead(aC1[..], i1, limit1);
    PendingHead(aC2[..], i2, limit2);
    StageEnd(total, emitted, p, w1, w2, c1, c2);
    var text: string := "";
    if i1 < limit1 && aC1[i1 + 2] > 0 {
      var rest;
      text, rest := CopyLines(pV1, aC1[i1 + 2]);
    } else if i2 < limit2 && aC2[i2 + 2] > 0 {
      var rest;
      text, rest := CopyLines(pV2, aC2[i2 + 2]);
    } else {
      NoText();
    }
    pOut := pOut + text;
    rc := 0;
  }

  lemma NoText()
    ensures Text([]) == ""
  {
  }

  lemma StageStart(total: Outcome, p: seq<string>, v1: seq<string>, v2: seq<string>, c1: seq<Triple>, c2: seq<Triple>)
    requires total == Merge(p, v1, v2, c1, c2)
    ensures Stage(total, [], p, v1, v2, c1, c2) && Text([]) == ""
  {
    assert [] + total.out == total.out;
  }

  lemma SameEditIs(t1: Triple, t2: Triple, pV1: string, pV2: string, same: bool)
    requires same <==> t1 == t2 && SameFirst(pV1, pV2, t1.ins)
    ensures same <==> SameEdit(t1, t2, Chunks(pV1), Chunks(pV2))
  {
  }

  /** The next edits of the two versions are identical. */
  method SameEditAt(aC1: array<nat>, i1: nat, aC2: array<nat>, i2: nat, pV1: string, pV2: string) returns (same: bool)
    requires i1 + 3 <= aC1.Length && i2 + 3 <= aC2.Length
    ensures same <==>
            Triple(aC1[i1], aC1[i1 + 1], aC1[i1 + 2]) == Triple(aC2[i2], aC2[i2 + 1], aC2[i2 + 2])
            && SameFirst(pV1, pV2, aC1[i1 + 2])
  {
    if aC1[i1] != aC2[i2] || aC1[i1 + 1] != aC2[i2 + 1] || aC1[i1 + 2] != aC2[i2 + 2] {
      return false;
    }
    same := SameLines(pV1, pV2, aC1[i1 + 2]);
  }

  method ArrayOf(e: seq<nat>) returns (a: array<nat>)
    ensures fresh(a) && a[..] == e
  {
    a := new nat[|e|](i requires 0 <= i < |e| => e[i]);
  }

  /** `merge_3way`: 0 and the merged text, or -1. */
  method MergeThreeWay(pivot: string, v1: string, v2: string) returns (rc: int, pOut: string)
    ensures Result(rc, pOut) == ThreeWayMerge(pivot, v1, v2)
  {
    pOut := "";
    var ok1, e1 := TextDiff(pivot, v1);
    var ok2, e2 := TextDiff(pivot, v2);
    if !ok1 || !ok2 {
      return -1, pOut;
    }
    ghost var c1, c2 := TextScript(pivot, v1), TextScript(pivot, v2);
    TextScriptIsGood(pivot, v1, c1);
    TextScriptIsGood(pivot, v2, c2);
    var aC1 := ArrayOf(e1);
    var aC2 := ArrayOf(e2);
    hide Merge, Chunks, Text, Triples;
    var limit1 := FindEnd(aC1, c1);
    var limit2 := FindEnd(aC2, c2);
    rc, pOut := MergeLoop(pivot, v1, v2, aC1, limit1, aC2, limit2,
      Merge(Chunks(pivot), Chunks(v1), Chunks(v2), c1, c2));
  }
}
