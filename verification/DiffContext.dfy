/** The line diff as the program runs it (libpkg/diff.c): loops over the two
    record arrays that append to the edit array. */
module DiffContext {
  import opened EditScript
  import opened LineTable
  import opened DiffSpec
  import opened DiffFinds

  /** The files a pair of line lists gives rise to. */
  ghost function FilesOf(a: seq<string>, b: seq<string>): (p: Files)
    requires Fit(a) && Fit(b)
    ensures Indexed(p) && p.a == a && p.b == b && FromLines(p)
  {
    Files(a, b, seq(|a|, k requires 0 <= k < |a| => Table(a)[k].h), Table(b))
  }

  /** The edit script from one list of lines to another. */
  ghost function Script(a: seq<string>, b: seq<string>): seq<Triple>
    requires Fit(a) && Fit(b)
  {
    DiffAll(FilesOf(a, b))
  }

  lemma ForwardNext(p: Files, i: nat, j: nat, n: nat)
    requires i + n <= |p.a| && j + n <= |p.b|
    ensures n == 0 ==> Forward(p, i, j, n) == 0
    ensures n > 0 && p.a[i] != p.b[j] ==> Forward(p, i, j, n) == 0
    ensures n > 0 && p.a[i] == p.b[j] ==> Forward(p, i, j, n) == 1 + Forward(p, i + 1, j + 1, n - 1)
  {
  }

  lemma BackwardNext(p: Files, i: nat, j: nat, n: nat)
    requires n <= i <= |p.a| && n <= j <= |p.b|
    ensures n == 0 ==> Backward(p, i, j, n) == 0
    ensures n > 0 && p.a[i - 1] != p.b[j - 1] ==> Backward(p, i, j, n) == 0
    ensures n > 0 && p.a[i - 1] == p.b[j - 1] ==> Backward(p, i, j, n) == 1 + Backward(p, i - 1, j - 1, n - 1)
  {
  }

  class DContext {
    var aEdit: seq<nat>
    const aFrom: seq<DLine>
    const aTo: seq<DLine>
    ghost const p: Files

    ghost predicate Valid()
      reads this
    {
      && Loaded()
      && |aEdit| % 3 == 0
    }

    /** The record arrays belong to the two files. */
    ghost predicate Loaded()
    {
      && Indexed(p) && FromLines(p)
      && |aFrom| == |p.a| && p.t == aTo
      && (forall i :: 0 <= i < |aFrom| ==>
        aFrom[i].text == p.a[i] && aFrom[i].h == p.h[i] && Hashed(aFrom[i].text, aFrom[i].h))
      && (forall j :: 0 <= j < |aTo| ==> aTo[j].text == p.b[j] && Hashed(aTo[j].text, aTo[j].h))
    }

    /** The sizes of the record arrays. */
    lemma SizesAgree()
      requires Loaded()
      ensures |aFrom| == |p.a| && |aTo| == |p.b| && p.t == aTo
    {
    }

    constructor (from: seq<DLine>, to: seq<DLine>, ghost a: seq<string>, ghost b: seq<string>)
      requires Fit(a) && Fit(b) && from == Table(a) && to == Table(b)
      ensures Valid() && aEdit == [] && p == FilesOf(a, b)
    {
      aEdit, aFrom, aTo := [], from, to;
      p := FilesOf(a, b);
    }

    /** `same_fn` on two lines. */
    method Same(i: nat, j: nat) returns (same: bool)
      requires Loaded() && i < |aFrom| && j < |aTo|
      ensures same <==> p.a[i] == p.b[j]
    {
      hide FromLines;
      SameDLineIffSameText(aFrom[i], aTo[j]);
      same := SameDLine(aFrom[i], aTo[j]);
    }

    /** The forward extension loop: `k` lines from (i, j) on are equal, `n` at most. */
    method Extend(i: nat, j: nat, n: nat) returns (k: nat)
      requires Loaded() && i + n <= |aFrom| && j + n <= |aTo|
      ensures k == Forward(p, i, j, n)
    {
      hide FromLines, Forward;
      k := 0;
      ghost var target := Forward(p, i, j, n);
      while k < n
        invariant k <= n
        invariant target == k + Forward(p, i + k, j + k, n - k)
      {
        ForwardNext(p, i + k, j + k, n - k);
        var same := Same(i + k, j + k);
        if !same {
          break;
        }
        k := k + 1;
      }
    }

    /** The backward extension loop. */
    method ExtendBack(i: nat, j: nat, n: nat) returns (k: nat)
      requires Loaded() && n <= i <= |aFrom| && n <= j <= |aTo|
      ensures k == Backward(p, i, j, n)
    {
      hide FromLines, Backward;
      k := 0;
      ghost var target := Backward(p, i, j, n);
      while k < n
        invariant k <= n
        invariant target == k + Backward(p, i - k, j - k, n - k)
      {
        BackwardNext(p, i - k, j - k, n - k);
        var same := Same(i - k - 1, j - k - 1);
        if !same {
          break;
        }
        k := k + 1;
      }
    }

    /** The exhaustive search.  Its loop bounds shrink as the best length grows,
        and starts that cannot beat the best are skipped after one look ahead.
        That look can fall one record behind the last line of the old file; what
        it sees there does not matter. */
    method OptimalLcs(r: Range) returns (m: Match)
      requires Loaded() && Within(r, p)
      ensures var best := Exhaustive(p, r); m == Match(best.x, best.x + best.len, best.y, best.y + best.len)
    {
      hide FromLines, Loaded, Forward;
      var mxLength, iSXb, iSYb := 0, r.s1, r.s2;
      ghost var target := Exhaustive(p, r);
      var i := r.s1;
      while i < r.e1 - mxLength
        invariant r.s1 <= i <= r.e1 && mxLength >= 0 && iSXb >= 0 && iSYb >= 0
        invariant target == ScanRows(p, r, i, Block(iSXb, iSYb, mxLength))
        decreases r.e1 - i
      {
        ghost var row := ScanRow(p, r, i, r.s2, Block(iSXb, iSYb, mxLength));
        var j := r.s2;
        while j < r.e2 - mxLength
          invariant r.s2 <= j <= r.e2 && mxLength >= 0 && iSXb >= 0 && iSYb >= 0
          invariant i + mxLength <= r.e1
          invariant row == ScanRow(p, r, i, j, Block(iSXb, iSYb, mxLength))
          decreases r.e2 - j
        {
          var k := RunLength(r, i, j, mxLength);
          if k > mxLength {
            iSXb, iSYb, mxLength := i, j, k;
          }
          j := j + 1;
        }
        ShortRow(p, r, i, j, Block(iSXb, iSYb, mxLength));
        i := i + 1;
      }
      ShortRows(p, r, i, Block(iSXb, iSYb, mxLength));
      m := Match(iSXb, iSXb + mxLength, iSYb, iSYb + mxLength);
    }

    /** The body of the search's inner loop: the run at (i, j), or 0 when it is
        known not to beat `mxLength`. The look ahead is at most one record behind the
        range, and behind the old file's lines just where the range ends with them. */
    method RunLength(r: Range, i: nat, j: nat, mxLength: nat) returns (k: nat)
      requires Loaded() && Within(r, p) && i < r.e1 && j + mxLength < r.e2 && i + mxLength <= r.e1
      ensures k > mxLength || RunAt(p, r, i, j) > mxLength ==> k == RunAt(p, r, i, j)
      ensures k == 0 || i + k <= r.e1
    {
      hide FromLines, Loaded, Forward, RunAt;
      SizesAgree();
      RunNext(p, r, i, j);
      RunMatches(p, r, i, j, mxLength);
      var same := Same(i, j);
      if !same {
        return 0;
      }
      if mxLength > 0 {
        var ahead: bool := *;
        if i + mxLength < |aFrom| {
          ahead := Same(i + mxLength, j + mxLength);
        }
        if !ahead {
          return 0;
        }
      }
      k := Extend(i + 1, j + 1, Min(r.e1 - i - 1, r.e2 - j - 1));
      k := k + 1;
    }

    /** The walk along one hash chain; 0 if no usable line was met. */
    method FindInChain(r: Range, i: nat) returns (j: nat)
      requires Loaded() && Within(r, p) && i < r.e1 && |aTo| > 0
      ensures j == Probe(p, r, i, p.t[p.h[i] % |p.t|].iHash, 0)
    {
      hide FromLines;
      j := aTo[aFrom[i].h % |aTo|].iHash;
      ghost var start := j;
      var limit := 0;
      while j > 0
        invariant limit >= 0 && j <= |aTo|
        invariant Probe(p, r, i, start, 0) == Probe(p, r, i, j, limit)
        decreases j
      {
        if r.s2 <= j - 1 && j < r.e2 {
          var same := Same(i, j - 1);
          if same {
            return;
          }
        }
        if limit > 10 {
          return 0;
        }
        limit := limit + 1;
        j := aTo[j - 1].iNext;
      }
    }

    /** The O(n) search: one pass over the old range, probing the index of the new
        file, with the exhaustive search for small ranges it finds nothing in. */
    method LongestCommonSequence(r: Range) returns (m: Match)
      requires Loaded() && Within(r, p) && |aTo| > 0
      ensures m == Lcs(p, r)
      ensures Fit(p.b) && (Scorable(r) ==> Splits(p, r, m))
    {
      hide SweepStep, Exhaustive, Score, FromLines, Splits;
      LinesAreFit(p);
      if Scorable(r) { LcsSplits(p, r); }
      var st := Start(r);
      var i := r.s1;
      ghost var last := SweepFrom(p, r, r.s1, st);
      while i < r.e1
        invariant r.s1 <= i <= r.e1
        invariant Sound(p, r, st.best)
        invariant last == SweepFrom(p, r, i, st)
      {
        st := SweepOnce(r, i, st);
        i := i + 1;
      }
      if st.best.sx == st.best.ex && (r.e1 - r.s1) * (r.e2 - r.s2) < SMALL {
        m := OptimalLcs(r);
      } else {
        m := st.best;
      }
    }

    method MatchAround(r: Range, i: nat, j: nat) returns (m: Match)
      requires Loaded() && Within(r, p) && r.s1 <= i < r.e1 && r.s2 < j <= r.e2
      requires p.a[i] == p.b[j - 1]
      ensures m == Around(p, r, i, j)
    {
      hide FromLines, Forward, Backward;
      var back := ExtendBack(i, j - 1, Min(i - r.s1, j - 1 - r.s2));
      var ahead := Extend(i + 1, j, Min(r.e1 - i - 1, r.e2 - j));
      m := Match(i - back, i + 1 + ahead, j - 1 - back, j + ahead);
    }

    method SweepOnce(r: Range, i: nat, st: Sweep) returns (next: Sweep)
      requires Loaded() && Within(r, p) && r.s1 <= i < r.e1 && |aTo| > 0
      requires Sound(p, r, st.best)
      ensures next == SweepStep(p, r, i, st)
    {
      hide FromLines, Probe, Around, Score, Sound;
      var j := FindInChain(r, i);
      next := st;
      if j == 0 || (i < st.best.ex && st.best.sy <= j < st.best.ey) ||
         (i < st.prev.ex && st.prev.sy <= j < st.prev.ey) {
        return;
      }
      var m := MatchAround(r, i, j);
      var score := Score(r, m);
      if score > st.score {
        next := Sweep(m, st.prev, score);
      } else if m.ex > st.prev.ex {
        next := st.(prev := m);
      }
    }

    /** Append a triple, coalescing it with the last one where that keeps the
        meaning. */
    method AppendTriple(nCopy: nat, nDel: nat, nIns: nat)
      requires Valid()
      modifies this
      ensures Valid()
      ensures Triples(aEdit) == Append(old(Triples(aEdit)), Triple(nCopy, nDel, nIns))
    {
      hide FromLines, Loaded, Triples;
      var n := |aEdit|;
      if n >= 3 {
        TriplesLast(aEdit);
        ghost var front := aEdit[..n - 3];
        if aEdit[n - 1] == 0 {
          if aEdit[n - 2] == 0 {
            SetLast(aEdit, aEdit[n - 3] + nCopy, aEdit[n - 2] + nDel, aEdit[n - 1] + nIns);
            aEdit := aEdit[n - 3 := aEdit[n - 3] + nCopy][n - 2 := aEdit[n - 2] + nDel][n - 1 := aEdit[n - 1] + nIns];
            return;
          }
          if nCopy == 0 {
            SetLast(aEdit, aEdit[n - 3], aEdit[n - 2] + nDel, aEdit[n - 1] + nIns);
            assert aEdit[n - 3 := aEdit[n - 3]] == aEdit;
            aEdit := aEdit[n - 2 := aEdit[n - 2] + nDel][n - 1 := aEdit[n - 1] + nIns];
            return;
          }
        }
        if nCopy == 0 && nDel == 0 {
          SetLast(aEdit, aEdit[n - 3], aEdit[n - 2], aEdit[n - 1] + nIns);
          assert aEdit[n - 3 := aEdit[n - 3]] == aEdit && aEdit[n - 2 := aEdit[n - 2]] == aEdit;
          aEdit := aEdit[n - 1 := aEdit[n - 1] + nIns];
          return;
        }
      }
      TriplesConcat(aEdit, [nCopy, nDel, nIns]);
      OneTriple(nCopy, nDel, nIns);
      TriplesLength(aEdit);
      aEdit := aEdit + [nCopy, nDel, nIns];
    }

    /** One step of the divide and conquer. */
    method DiffRange(r: Range)
      requires Valid() && Within(r, p)
      modifies this
      ensures Valid()
      ensures Triples(aEdit) == DiffStep(p, r, old(Triples(aEdit)))
      decreases (r.e1 - r.s1) + (r.e2 - r.s2)
    {
      hide FromLines, DiffStep, Append, Lcs;
      DiffStepCases(p, r, Triples(aEdit));
      if r.e1 <= r.s1 {
        if r.e2 > r.s2 {
          AppendTriple(0, 0, r.e2 - r.s2);
        }
        return;
      }
      if r.e2 <= r.s2 {
        AppendTriple(0, r.e1 - r.s1, 0);
        return;
      }
      var m := LongestCommonSequence(r);
      if m.ex > m.sx {
        DiffRange(Range(r.s1, m.sx, r.s2, m.sy));
        AppendTriple(m.ex - m.sx, 0, 0);
        DiffRange(Range(m.ex, r.e1, m.ey, r.e2));
      } else {
        AppendTriple(0, r.e1 - r.s1, r.e2 - r.s2);
      }
    }

    /** The whole diff, ended by a triple of zeros. */
    method Diff()
      requires Valid() && aEdit == []
      modifies this
      ensures Valid()
      ensures Triples(aEdit) == DiffAll(p) + [ZERO]
    {
      hide FromLines, DiffStep, Append, Forward, Backward;
      var foot := ExtendBack(|aFrom|, |aTo|, Min(|aFrom|, |aTo|));
      var iE1, iE2 := |aFrom| - foot, |aTo| - foot;
      var iS := Extend(0, 0, if iE1 < iE2 then iE1 else iE2);
      if iS > 0 {
        AppendTriple(iS, 0, 0);
      }
      DiffRange(Range(iS, iE1, iS, iE2));
      if iE1 < |aFrom| {
        AppendTriple(|aFrom| - iE1, 0, 0);
      }
      TriplesConcat(aEdit, [0, 0, 0]);
      assert Triples([0, 0, 0]) == [ZERO] + Triples([]);
      aEdit := aEdit + [0, 0, 0];
    }
  }

  // ----- the lemmas the loops need -----

  lemma OneTriple(c: nat, d: nat, i: nat)
    ensures Triples([c, d, i]) == [Triple(c, d, i)]
  {
    assert Triples([c, d, i]) == [Triple(c, d, i)] + Triples([]);
  }

  /** A run begins with one line, if there is one. */
  lemma RunNext(p: Files, r: Range, i: nat, j: nat)
    requires Within(r, p) && i < r.e1 && j < r.e2
    ensures RunAt(p, r, i, j) ==
      if p.a[i] == p.b[j] then 1 + Forward(p, i + 1, j + 1, Min(r.e1 - i - 1, r.e2 - j - 1)) else 0
  {
  }

  lemma SetLast(a: seq<nat>, c: nat, d: nat, i: nat)
    requires |a| >= 3 && |a| % 3 == 0
    ensures var n := |a|; var b := a[n - 3 := c][n - 2 := d][n - 1 := i];
      |b| == n && Triples(b) == Triples(a[..n - 3]) + [Triple(c, d, i)]
  {
    var n := |a|;
    var b := a[n - 3 := c][n - 2 := d][n - 1 := i];
    TriplesLast(b);
    assert b[..n - 3] == a[..n - 3];
  }

  /** Starts too close to the end of the range cannot beat the best. */
  lemma {:induction false} ShortRow(p: Files, r: Range, i: nat, j: nat, best: Block)
    requires Within(r, p) && i <= r.e1 && j <= r.e2 && r.e2 - j <= best.len
    ensures ScanRow(p, r, i, j, best) == best
    decreases r.e2 - j
  {
    if j < r.e2 {
      ShortRow(p, r, i, j + 1, best);
    }
  }

  lemma {:induction false} LowRow(p: Files, r: Range, i: nat, j: nat, best: Block)
    requires Within(r, p) && i <= r.e1 && j <= r.e2 && r.e1 - i <= best.len
    ensures ScanRow(p, r, i, j, best) == best
    decreases r.e2 - j
  {
    if j < r.e2 {
      LowRow(p, r, i, j + 1, best);
    }
  }

  lemma {:induction false} ShortRows(p: Files, r: Range, i: nat, best: Block)
    requires Within(r, p) && i <= r.e1 && r.e1 - i <= best.len
    ensures ScanRows(p, r, i, best) == best
    decreases r.e1 - i
  {
    if i < r.e1 {
      LowRow(p, r, i, r.s2, best);
      ShortRows(p, r, i + 1, best);
    }
  }

  /** A run longer than `k` has equal lines at distance `k`. */
  lemma RunMatches(p: Files, r: Range, i: nat, j: nat, k: nat)
    requires Within(r, p) && i <= r.e1 && j <= r.e2
    ensures k < RunAt(p, r, i, j) ==> i + k < r.e1 && j + k < r.e2 && p.a[i + k] == p.b[j + k]
  {
    var n := RunAt(p, r, i, j);
    ForwardIsRun(p, i, j, Min(r.e1 - i, r.e2 - j));
    if k < n {
      assert p.a[i + k] == p.a[i..i + n][k] && p.b[j + k] == p.b[j..j + n][k];
    }
  }

  // ----- text_diff -----

  /** The edit vector between two texts, or nothing when one of them has a line
      that is too long. */
  method TextDiff(z1: string, z2: string) returns (ok: bool, aEdit: seq<nat>)
    ensures ok <==> !TooLong(z1) && !TooLong(z2)
    ensures ok ==> Fit(Contents(z1)) && Fit(Contents(z2)) && |aEdit| % 3 == 0
    ensures ok ==> Triples(aEdit) == Script(Contents(z1), Contents(z2)) + [ZERO]
  {
    aEdit := [];
    var ok1, aFrom, nFrom := BreakIntoLines(z1);
    var ok2, aTo, nTo := BreakIntoLines(z2);
    ok := ok1 && ok2;
    if !ok {
      return;
    }
    var c := new DContext(aFrom[..nFrom], aTo[..nTo], Contents(z1), Contents(z2));
    c.Diff();
    aEdit := c.aEdit;
  }

  /** What `TextDiff` returns is a correct edit script in normal form, the same
      for the same texts. */
  lemma ScriptIsRight(a: seq<string>, b: seq<string>)
    requires Fit(a) && Fit(b)
    ensures Normal(Script(a, b)) && IsScript(Script(a, b), a, b)
    ensures Replay(Script(a, b), a, b) == b
    ensures a == b ==> Script(a, b) == if |a| == 0 then [] else [Triple(|a|, 0, 0)]
    ensures FineHunks(FilesOf(a, b), Script(a, b), |a|, |b|)
  {
    hide FineHunks, FromLines;
    var p := FilesOf(a, b);
    DiffIsFine(p);
    DiffAllIsScript(p, DiffAll(p));
    DiffAllReplays(p, DiffAll(p));
    if a == b {
      DiffOfSame(p);
    }
  }
}
