/** What the line diff computes (libpkg/diff.c), as functions on the lines of the
    two files, and why it is right.  The loops are in DiffContext. */
module DiffSpec {
  import opened EditScript
  import opened LineTable

  /** Two files: their lines, the hashes of the old lines and the record array of
      the new file. */
  datatype Files = Files(a: seq<string>, b: seq<string>, h: seq<nat>, t: seq<DLine>)

  ghost predicate Indexed(p: Files)
  {
    |p.h| == |p.a| && |p.t| == |p.b| && Linked(p.t)
  }

  /** Lines s1..e1 of the old file and s2..e2 of the new one. */
  datatype Range = Range(s1: nat, e1: nat, s2: nat, e2: nat)

  ghost predicate Within(r: Range, p: Files)
  {
    r.s1 <= r.e1 <= |p.a| && r.s2 <= r.e2 <= |p.b|
  }

  function Min(m: int, n: int): int
  {
    if m < n then m else n
  }

  function Abs(n: int): int
  {
    if n < 0 then -n else n
  }

  // ----- common runs -----

  /** Length of the common run that starts at (i, j), looking at `n` lines at most. */
  function Forward(p: Files, i: nat, j: nat, n: nat): (k: nat)
    requires i + n <= |p.a| && j + n <= |p.b|
    ensures k <= n
    decreases n
  {
    if n == 0 || p.a[i] != p.b[j] then 0 else 1 + Forward(p, i + 1, j + 1, n - 1)
  }

  /** Length of the common run that ends just before (i, j). */
  function Backward(p: Files, i: nat, j: nat, n: nat): (k: nat)
    requires n <= i <= |p.a| && n <= j <= |p.b|
    ensures k <= n
    decreases n
  {
    if n == 0 || p.a[i - 1] != p.b[j - 1] then 0 else 1 + Backward(p, i - 1, j - 1, n - 1)
  }

  lemma {:induction false} ForwardIsRun(p: Files, i: nat, j: nat, n: nat)
    requires i + n <= |p.a| && j + n <= |p.b|
    ensures var k := Forward(p, i, j, n); p.a[i..i + k] == p.b[j..j + k]
    decreases n
  {
    if n > 0 && p.a[i] == p.b[j] {
      var k := Forward(p, i + 1, j + 1, n - 1);
      ForwardIsRun(p, i + 1, j + 1, n - 1);
      assert p.a[i..i + 1 + k] == [p.a[i]] + p.a[i + 1..i + 1 + k];
      assert p.b[j..j + 1 + k] == [p.b[j]] + p.b[j + 1..j + 1 + k];
    }
  }

  lemma SameWithLast(a: seq<string>, i: nat, b: seq<string>, j: nat, k: nat)
    requires k <= i < |a| && k <= j < |b| && a[i - k..i] == b[j - k..j] && a[i] == b[j]
    ensures a[i - k..i + 1] == b[j - k..j + 1]
  {
    assert a[i - k..i + 1] == a[i - k..i] + [a[i]] && b[j - k..j + 1] == b[j - k..j] + [b[j]];
  }

  lemma {:induction false} BackwardIsRun(p: Files, i: nat, j: nat, n: nat)
    requires n <= i <= |p.a| && n <= j <= |p.b|
    ensures var k := Backward(p, i, j, n); p.a[i - k..i] == p.b[j - k..j]
    decreases n
  {
    if n > 0 && p.a[i - 1] == p.b[j - 1] {
      var k := Backward(p, i - 1, j - 1, n - 1);
      BackwardIsRun(p, i - 1, j - 1, n - 1);
      SameWithLast(p.a, i - 1, p.b, j - 1, k);
    }
  }

  /** A common run of `m` lines is found in full. */
  lemma {:induction false} ForwardFinds(p: Files, i: nat, j: nat, n: nat, m: nat)
    requires i + n <= |p.a| && j + n <= |p.b| && m <= n
    ensures m <= Forward(p, i, j, n) <==> p.a[i..i + m] == p.b[j..j + m]
    decreases n
  {
    if m > 0 {
      ForwardFinds(p, i + 1, j + 1, n - 1, m - 1);
      assert p.a[i..i + m] == [p.a[i]] + p.a[i + 1..i + m];
      assert p.b[j..j + m] == [p.b[j]] + p.b[j + 1..j + m];
    }
  }

  // ----- the exhaustive search (what optimalLCS computes) -----

  datatype Block = Block(x: nat, y: nat, len: nat)

  /** The run at (i, j) inside the range. */
  function RunAt(p: Files, r: Range, i: nat, j: nat): (k: nat)
    requires Within(r, p) && i <= r.e1 && j <= r.e2
    ensures i + k <= r.e1 && j + k <= r.e2
  {
    Forward(p, i, j, Min(r.e1 - i, r.e2 - j))
  }

  function Better(p: Files, r: Range, i: nat, j: nat, best: Block): Block
    requires Within(r, p) && i <= r.e1 && j <= r.e2
  {
    if RunAt(p, r, i, j) > best.len then Block(i, j, RunAt(p, r, i, j)) else best
  }

  /** Every start in row `i` from column `j` on; a strictly longer run wins. */
  function ScanRow(p: Files, r: Range, i: nat, j: nat, best: Block): Block
    requires Within(r, p) && i <= r.e1 && j <= r.e2
    decreases r.e2 - j
  {
    if j == r.e2 then best else ScanRow(p, r, i, j + 1, Better(p, r, i, j, best))
  }

  function ScanRows(p: Files, r: Range, i: nat, best: Block): Block
    requires Within(r, p) && i <= r.e1
    decreases r.e1 - i
  {
    if i == r.e1 then best else ScanRows(p, r, i + 1, ScanRow(p, r, i, r.s2, best))
  }

  function Exhaustive(p: Files, r: Range): Block
    requires Within(r, p)
  {
    ScanRows(p, r, r.s1, Block(r.s1, r.s2, 0))
  }

  /** `best` is the first, in row order, of the longest runs among a set of starts
      `seen`; nothing common was seen when its length is 0. */
  ghost predicate FirstLongest(p: Files, r: Range, i: int, j: int, best: Block)
    requires Within(r, p)
  {
    && r.s1 <= best.x <= r.e1 && r.s2 <= best.y <= r.e2
    && best.len <= RunAt(p, r, best.x, best.y)
    && (best.len == 0 ==> best == Block(r.s1, r.s2, 0))
    && (best.len > 0 ==> Before(r, best.x, best.y, i, j))
    && (forall x: nat, y: nat :: Before(r, x, y, i, j) ==>
          && RunAt(p, r, x, y) <= best.len
          && (best.len > 0 && RunAt(p, r, x, y) == best.len ==> !Earlier(x, y, best)))
  }

  /** `n` lines from (x, y) on are equal and inside the range. */
  ghost predicate Common(p: Files, r: Range, x: nat, y: nat, n: nat)
    requires Within(r, p)
  {
    r.s1 <= x && x + n <= r.e1 && r.s2 <= y && y + n <= r.e2 && p.a[x..x + n] == p.b[y..y + n]
  }

  /** (x, y) is a start of the range that row order visits before (i, j). */
  ghost predicate Before(r: Range, x: int, y: int, i: int, j: int)
  {
    r.s1 <= x < r.e1 && r.s2 <= y < r.e2 && (x < i || (x == i && y < j))
  }

  ghost predicate Earlier(x: nat, y: nat, best: Block)
  {
    x < best.x || (x == best.x && y < best.y)
  }

  lemma BetterKeeps(p: Files, r: Range, i: nat, j: nat, best: Block)
    requires Within(r, p) && r.s1 <= i < r.e1 && r.s2 <= j < r.e2
    requires FirstLongest(p, r, i, j, best)
    ensures FirstLongest(p, r, i, j + 1, Better(p, r, i, j, best))
  {
    var next := Better(p, r, i, j, best);
    forall x: nat, y: nat | Before(r, x, y, i, j + 1)
      ensures RunAt(p, r, x, y) <= next.len
      ensures next.len > 0 && RunAt(p, r, x, y) == next.len ==> !Earlier(x, y, next)
    {
      if !(x == i && y == j) {
        assert Before(r, x, y, i, j);
      }
    }
  }

  lemma {:induction false} ScanRowKeeps(p: Files, r: Range, i: nat, j: nat, best: Block)
    requires Within(r, p) && r.s1 <= i < r.e1 && r.s2 <= j <= r.e2
    requires FirstLongest(p, r, i, j, best)
    ensures FirstLongest(p, r, i + 1, r.s2, ScanRow(p, r, i, j, best))
    decreases r.e2 - j
  {
    if j < r.e2 {
      BetterKeeps(p, r, i, j, best);
      ScanRowKeeps(p, r, i, j + 1, Better(p, r, i, j, best));
    } else {
      forall x: nat, y: nat | Before(r, x, y, i + 1, r.s2)
        ensures Before(r, x, y, i, j)
      {
      }
    }
  }

  lemma {:induction false} ScanRowsKeep(p: Files, r: Range, i: nat, best: Block)
    requires Within(r, p) && r.s1 <= i <= r.e1
    requires FirstLongest(p, r, i, r.s2, best)
    ensures FirstLongest(p, r, r.e1, r.s2, ScanRows(p, r, i, best))
    decreases r.e1 - i
  {
    if i < r.e1 {
      ScanRowKeeps(p, r, i, r.s2, best);
      ScanRowsKeep(p, r, i + 1, ScanRow(p, r, i, r.s2, best));
    }
  }

  /** The search finds the first of the longest common blocks of the two ranges. */
  lemma ExhaustiveIsLongest(p: Files, r: Range)
    requires Within(r, p)
    ensures var best := Exhaustive(p, r);
      && Common(p, r, best.x, best.y, best.len)
      && (forall x: nat, y: nat, n: nat :: Common(p, r, x, y, n)
            ==> n <= best.len && (n == best.len > 0 ==> !Earlier(x, y, best)))
  {
    var best := Exhaustive(p, r);
    ScanRowsKeep(p, r, r.s1, Block(r.s1, r.s2, 0));
    ForwardFinds(p, best.x, best.y, Min(r.e1 - best.x, r.e2 - best.y), best.len);
    forall x: nat, y: nat, n: nat | Common(p, r, x, y, n)
      ensures n <= best.len && (n == best.len > 0 ==> !Earlier(x, y, best))
    {
      CommonIsNoLonger(p, r, best, x, y, n);
    }
  }

  lemma CommonIsNoLonger(p: Files, r: Range, best: Block, x: nat, y: nat, n: nat)
    requires Within(r, p) && FirstLongest(p, r, r.e1, r.s2, best) && Common(p, r, x, y, n)
    ensures n <= best.len && (n == best.len > 0 ==> !Earlier(x, y, best))
  {
    if n > 0 {
      ForwardFinds(p, x, y, Min(r.e1 - x, r.e2 - y), n);
      assert Before(r, x, y, r.e1, r.s2);
    }
  }

  // ----- the hashing heuristic (longestCommonSequence) -----

  /** A block of equal lines: sx..ex of the old file is sy..ey of the new one. */
  datatype Match = Match(sx: nat, ex: nat, sy: nat, ey: nat)

  ghost predicate Sound(p: Files, r: Range, m: Match)
    requires Within(r, p)
  {
    && r.s1 <= m.sx <= m.ex <= r.e1
    && r.s2 <= m.sy <= m.ey <= r.e2
    && m.ex - m.sx == m.ey - m.sy
    && p.a[m.sx..m.ex] == p.b[m.sy..m.ey]
  }

  /** Follow a chain from the 1-based entry `j` for a line equal to line `i` that
      lies strictly before the last line of the range; give up after a dozen
      steps. */
  function Probe(p: Files, r: Range, i: nat, j: nat, limit: nat): (found: nat)
    requires Indexed(p) && Within(r, p) && i < r.e1 && j <= |p.t|
    ensures found == 0 || (r.s2 < found < r.e2 && p.a[i] == p.b[found - 1])
    decreases j
  {
    if j > 0 && (j - 1 < r.s2 || j >= r.e2 || p.a[i] != p.b[j - 1]) then
      if limit > 10 then 0 else Probe(p, r, i, p.t[j - 1].iNext, limit + 1)
    else j
  }

  /** The sweep's variables: best match so far, the previous match, best score. */
  datatype Sweep = Sweep(best: Match, prev: Match, score: int)

  /** The match around line `i` of the old file and line `j - 1` of the new one. */
  function Around(p: Files, r: Range, i: nat, j: nat): (m: Match)
    requires Within(r, p) && r.s1 <= i < r.e1 && r.s2 < j <= r.e2
    requires p.a[i] == p.b[j - 1]
  {
    var back := Backward(p, i, j - 1, Min(i - r.s1, j - 1 - r.s2));
    var ahead := Forward(p, i + 1, j, Min(r.e1 - i - 1, r.e2 - j));
    Match(i - back, i + 1 + ahead, j - 1 - back, j + ahead)
  }

  lemma AroundIsSound(p: Files, r: Range, i: nat, j: nat)
    requires Within(r, p) && r.s1 <= i < r.e1 && r.s2 < j <= r.e2
    requires p.a[i] == p.b[j - 1]
    ensures Sound(p, r, Around(p, r, i, j)) && Around(p, r, i, j).sx < Around(p, r, i, j).ex
  {
    hide Backward, Forward;
    var m := Around(p, r, i, j);
    BackwardIsRun(p, i, j - 1, Min(i - r.s1, j - 1 - r.s2));
    ForwardIsRun(p, i + 1, j, Min(r.e1 - i - 1, r.e2 - j));
    JoinRuns(p, m, i, j - 1);
  }

  lemma JoinRuns(p: Files, m: Match, i: nat, j: nat)
    requires m.sx <= i < m.ex <= |p.a| && m.sy <= j < m.ey <= |p.b|
    requires p.a[m.sx..i] == p.b[m.sy..j] && p.a[i] == p.b[j] && p.a[i + 1..m.ex] == p.b[j + 1..m.ey]
    ensures p.a[m.sx..m.ex] == p.b[m.sy..m.ey]
  {
    assert p.a[m.sx..m.ex] == p.a[m.sx..i] + [p.a[i]] + p.a[i + 1..m.ex];
    assert p.b[m.sy..m.ey] == p.b[m.sy..j] + [p.b[j]] + p.b[j + 1..m.ey];
  }

  lemma SliceJoin(s: seq<string>, i: nat, j: nat, k: nat)
    requires i <= j <= k <= |s|
    ensures s[i..j] + s[j..k] == s[i..k]
  {
  }

  function Score(r: Range, m: Match): int
  {
    var span := (r.e1 - r.s1) + (r.e2 - r.s2);
    var skew := Abs((m.sx - r.s1) - (m.sy - r.s2));
    var dist := Abs((m.sx + m.ex) / 2 - (r.e1 + r.s1) / 2);
    (m.ex - m.sx) * span - (skew + dist)
  }

  function Consider(r: Range, st: Sweep, m: Match): Sweep
  {
    if Score(r, m) > st.score then Sweep(m, st.prev, Score(r, m))
    else if m.ex > st.prev.ex then st.(prev := m)
    else st
  }

  predicate Covered(i: nat, j: nat, m: Match)
  {
    i < m.ex && m.sy <= j < m.ey
  }

  function SweepStep(p: Files, r: Range, i: nat, st: Sweep): (next: Sweep)
    requires Indexed(p) && Within(r, p) && r.s1 <= i < r.e1 && |p.t| > 0
    requires Sound(p, r, st.best)
    ensures Sound(p, r, next.best)
  {
    var j := Probe(p, r, i, p.t[p.h[i] % |p.t|].iHash, 0);
    if j == 0 || Covered(i, j, st.best) || Covered(i, j, st.prev) then st
    else
      AroundIsSound(p, r, i, j);
      Consider(r, st, Around(p, r, i, j))
  }

  function SweepFrom(p: Files, r: Range, i: nat, st: Sweep): (last: Sweep)
    requires Indexed(p) && Within(r, p) && r.s1 <= i <= r.e1 && |p.t| > 0
    requires Sound(p, r, st.best)
    ensures Sound(p, r, last.best)
    decreases r.e1 - i
  {
    if i == r.e1 then st else SweepFrom(p, r, i + 1, SweepStep(p, r, i, st))
  }

  function Start(r: Range): Sweep
  {
    Sweep(Match(r.s1, r.s1, r.s2, r.s2), Match(r.s1, r.s1, r.s2, r.s2), -10000)
  }

  const SMALL := 400

  lemma ExhaustiveIsSound(p: Files, r: Range)
    requires Within(r, p)
    ensures var best := Exhaustive(p, r); Sound(p, r, Match(best.x, best.x + best.len, best.y, best.y + best.len))
  {
    ExhaustiveIsLongest(p, r);
    hide Exhaustive;
  }

  /** The block that splits a range; empty if none was found. */
  function Lcs(p: Files, r: Range): (m: Match)
    requires Indexed(p) && Within(r, p) && |p.t| > 0
    ensures Sound(p, r, m)
  {
    var m := SweepFrom(p, r, r.s1, Start(r)).best;
    if m.sx == m.ex && (r.e1 - r.s1) * (r.e2 - r.s2) < SMALL then
      ExhaustiveIsSound(p, r);
      var best := Exhaustive(p, r);
      Match(best.x, best.x + best.len, best.y, best.y + best.len)
    else m
  }

  /** A small range is replaced as a whole exactly when its sides share no line. */
  lemma SmallRangeSplitIffShared(p: Files, r: Range)
    requires Indexed(p) && Within(r, p) && |p.t| > 0
    requires (r.e1 - r.s1) * (r.e2 - r.s2) < SMALL
    ensures Lcs(p, r).sx < Lcs(p, r).ex <==>
            exists x, y :: r.s1 <= x < r.e1 && r.s2 <= y < r.e2 && p.a[x] == p.b[y]
  {
    hide SweepFrom, Exhaustive, Sound;
    ExhaustiveIsLongest(p, r);
    var m, best := Lcs(p, r), Exhaustive(p, r);
    assert m.sx < m.ex || best.len == 0 by { LcsInside(p, r); }
    if m.sx < m.ex {
      SoundSharesLine(p, r, m);
    } else {
      forall x: nat, y: nat | r.s1 <= x < r.e1 && r.s2 <= y < r.e2
        ensures p.a[x] != p.b[y]
      {
        if p.a[x] == p.b[y] {
          SharedLineIsCommon(p, r, x, y);
        }
      }
    }
  }

  lemma SoundSharesLine(p: Files, r: Range, m: Match)
    requires Within(r, p) && Sound(p, r, m) && m.sx < m.ex
    ensures r.s1 <= m.sx < r.e1 && r.s2 <= m.sy < r.e2 && p.a[m.sx] == p.b[m.sy]
  {
    assert p.a[m.sx] == p.a[m.sx..m.ex][0] && p.b[m.sy] == p.b[m.sy..m.ey][0];
  }

  lemma SharedLineIsCommon(p: Files, r: Range, x: nat, y: nat)
    requires Within(r, p) && r.s1 <= x < r.e1 && r.s2 <= y < r.e2 && p.a[x] == p.b[y]
    ensures Common(p, r, x, y, 1)
  {
    assert p.a[x..x + 1] == [p.a[x]] && p.b[y..y + 1] == [p.b[y]];
  }

  // ----- the recursion (diff_step, diff_all) -----

  function DiffStep(p: Files, r: Range, ts: seq<Triple>): seq<Triple>
    requires Indexed(p) && Within(r, p)
    decreases (r.e1 - r.s1) + (r.e2 - r.s2)
  {
    if r.e1 == r.s1 then
      if r.e2 > r.s2 then Append(ts, Triple(0, 0, r.e2 - r.s2)) else ts
    else if r.e2 == r.s2 then
      Append(ts, Triple(0, r.e1 - r.s1, 0))
    else
      var m := Lcs(p, r);
      if m.ex > m.sx then
        var before := DiffStep(p, Range(r.s1, m.sx, r.s2, m.sy), ts);
        DiffStep(p, Range(m.ex, r.e1, m.ey, r.e2), Append(before, Triple(m.ex - m.sx, 0, 0)))
      else
        Append(ts, Triple(0, r.e1 - r.s1, r.e2 - r.s2))
  }

  /** The common footer and then the common header are carved off first. */
  function Footer(p: Files): nat
  {
    Backward(p, |p.a|, |p.b|, Min(|p.a|, |p.b|))
  }

  function Header(p: Files): nat
  {
    Forward(p, 0, 0, Min(|p.a| - Footer(p), |p.b| - Footer(p)))
  }

  /** Appending a copied run, which may be empty. */
  function AppendCopy(ts: seq<Triple>, n: nat): seq<Triple>
  {
    if n > 0 then Append(ts, Triple(n, 0, 0)) else ts
  }

  /** The triples when `head` leading and `foot` trailing lines are carved off. */
  function DiffCarved(p: Files, head: nat, foot: nat): seq<Triple>
    requires Indexed(p) && head + foot <= |p.a| && head + foot <= |p.b|
  {
    var r := Range(head, |p.a| - foot, head, |p.b| - foot);
    AppendCopy(DiffStep(p, r, AppendCopy([], head)), foot)
  }

  function DiffAll(p: Files): seq<Triple>
    requires Indexed(p)
  {
    DiffCarved(p, Header(p), Footer(p))
  }

  lemma DiffStepCases(p: Files, r: Range, ts: seq<Triple>)
    requires Indexed(p) && Within(r, p)
    ensures r.e1 == r.s1 && r.e2 == r.s2 ==> DiffStep(p, r, ts) == ts
    ensures r.e1 == r.s1 && r.e2 > r.s2 ==> DiffStep(p, r, ts) == Append(ts, Triple(0, 0, r.e2 - r.s2))
    ensures r.e1 > r.s1 && r.e2 == r.s2 ==> DiffStep(p, r, ts) == Append(ts, Triple(0, r.e1 - r.s1, 0))
    ensures r.e1 > r.s1 && r.e2 > r.s2 ==>
      var m := Lcs(p, r);
      DiffStep(p, r, ts) ==
      if m.ex > m.sx then
        DiffStep(p, Range(m.ex, r.e1, m.ey, r.e2),
          Append(DiffStep(p, Range(r.s1, m.sx, r.s2, m.sy), ts), Triple(m.ex - m.sx, 0, 0)))
      else Append(ts, Triple(0, r.e1 - r.s1, r.e2 - r.s2))
  {
    hide Append, Lcs;
  }

  /** The block lies in the range, and is as long on both sides. */
  lemma LcsInside(p: Files, r: Range)
    requires Indexed(p) && Within(r, p) && |p.t| > 0
    ensures var m := Lcs(p, r);
      r.s1 <= m.sx <= m.ex <= r.e1 && r.s2 <= m.sy <= m.ey <= r.e2 && m.ex - m.sx == m.ey - m.sy
  {
    hide Lcs;
  }

  /** Each step appends operations that rewrite its range of the old file into
      its range of the new one. */
  lemma {:induction false} DiffStepRuns(p: Files, r: Range, ts: seq<Triple>) returns (ops: seq<Op>)
    requires Indexed(p) && Within(r, p)
    ensures Ops(DiffStep(p, r, ts)) == Ops(ts) + ops
    ensures Runs(ops, p.a[r.s1..r.e1], p.b[r.s2..r.e2])
    decreases (r.e1 - r.s1) + (r.e2 - r.s2)
  {
    hide Append, Ops, TripleOps, DiffStep, Sound, Lcs;
    DiffStepCases(p, r, ts);
    var x, y := p.a[r.s1..r.e1], p.b[r.s2..r.e2];
    if r.e1 == r.s1 && r.e2 == r.s2 {
      return [];
    }
    hide Runs;
    if r.e1 == r.s1 || r.e2 == r.s2 {
      ops := ReplaceRuns(x, y, ts);
      return;
    }
    LcsInside(p, r);
    var m := Lcs(p, r);
    if m.ex == m.sx {
      ops := ReplaceRuns(x, y, ts);
    } else {
      var copy := Triple(m.ex - m.sx, 0, 0);
      var before := DiffStep(p, Range(r.s1, m.sx, r.s2, m.sy), ts);
      var o1 := DiffStepRuns(p, Range(r.s1, m.sx, r.s2, m.sy), ts);
      var o3 := DiffStepRuns(p, Range(m.ex, r.e1, m.ey, r.e2), Append(before, copy));
      ops := SplitRuns(p, r, m, o1, o3);
      SplitOps(ts, before, copy, o1, o3);
    }
  }

  /** The operations of one edit that replaces all of `x` by `y`. */
  lemma ReplaceRuns(x: seq<string>, y: seq<string>, ts: seq<Triple>) returns (ops: seq<Op>)
    ensures Ops(Append(ts, Triple(0, |x|, |y|))) == Ops(ts) + ops
    ensures Runs(ops, x, y)
  {
    hide Append, Ops, Runs, TripleOps;
    ops := TripleOps(Triple(0, |x|, |y|));
    RunsReplace(x, y);
    AppendPreservesOps(ts, Triple(0, |x|, |y|));
  }

  lemma SplitOps(ts: seq<Triple>, before: seq<Triple>, copy: Triple, o1: seq<Op>, o3: seq<Op>)
    requires Ops(before) == Ops(ts) + o1
    ensures Ops(Append(before, copy)) + o3 == Ops(ts) + (o1 + TripleOps(copy) + o3)
  {
    hide Append, Ops, TripleOps;
    AppendPreservesOps(before, copy);
    OpsAssoc4(Ops(ts), o1, TripleOps(copy), o3);
  }

  lemma OpsAssoc4(w: seq<Op>, x: seq<Op>, y: seq<Op>, z: seq<Op>)
    ensures ((w + x) + y) + z == w + (x + y + z)
  {
  }

  lemma SplitRuns(p: Files, r: Range, m: Match, o1: seq<Op>, o3: seq<Op>) returns (ops: seq<Op>)
    requires Within(r, p) && Sound(p, r, m)
    requires Runs(o1, p.a[r.s1..m.sx], p.b[r.s2..m.sy])
    requires Runs(o3, p.a[m.ex..r.e1], p.b[m.ey..r.e2])
    ensures ops == o1 + TripleOps(Triple(m.ex - m.sx, 0, 0)) + o3
    ensures Runs(ops, p.a[r.s1..r.e1], p.b[r.s2..r.e2])
  {
    var o2 := TripleOps(Triple(m.ex - m.sx, 0, 0));
    assert o2 == Repeat(C, m.ex - m.sx);
    RunsCopy(m.ex - m.sx, p.a[m.sx..m.ex], p.b[m.sy..m.ey]);
    RunsConcat(o1, p.a[r.s1..m.sx], p.b[r.s2..m.sy], o2, p.a[m.sx..m.ex], p.b[m.sy..m.ey]);
    SliceJoin(p.a, r.s1, m.sx, m.ex);
    SliceJoin(p.b, r.s2, m.sy, m.ey);
    RunsConcat(o1 + o2, p.a[r.s1..m.ex], p.b[r.s2..m.ey], o3, p.a[m.ex..r.e1], p.b[m.ey..r.e2]);
    SliceJoin(p.a, r.s1, m.ex, r.e1);
    SliceJoin(p.b, r.s2, m.ey, r.e2);
    ops := o1 + o2 + o3;
  }

  lemma {:induction false} DiffStepNormal(p: Files, r: Range, ts: seq<Triple>)
    requires Indexed(p) && Within(r, p) && Open(ts)
    ensures Normal(DiffStep(p, r, ts))
    decreases (r.e1 - r.s1) + (r.e2 - r.s2)
  {
    hide Append, DiffStep, Sound, Lcs;
    DiffStepCases(p, r, ts);
    if r.e1 == r.s1 && r.e2 == r.s2 {
      return;
    }
    hide Normal, Open;
    if r.e1 == r.s1 || r.e2 == r.s2 {
      AppendEditNormal(ts, r.e1 - r.s1, r.e2 - r.s2);
      return;
    }
    LcsInside(p, r);
    var m := Lcs(p, r);
    if m.ex == m.sx {
      AppendEditNormal(ts, r.e1 - r.s1, r.e2 - r.s2);
    } else {
      var left, right := Range(r.s1, m.sx, r.s2, m.sy), Range(m.ex, r.e1, m.ey, r.e2);
      var before := DiffStep(p, left, ts);
      DiffStepNormal(p, left, ts);
      AppendCopyNormal(before, m.ex - m.sx);
      DiffStepNormal(p, right, Append(before, Triple(m.ex - m.sx, 0, 0)));
    }
  }

  lemma AppendCopyOps(ts: seq<Triple>, n: nat, us: seq<Triple>)
    requires us == AppendCopy(ts, n)
    ensures Ops(us) == Ops(ts) + Repeat(C, n)
  {
    assert TripleOps(Triple(n, 0, 0)) == Repeat(C, n);
    if n > 0 {
      AppendPreservesOps(ts, Triple(n, 0, 0));
    } else {
      assert Ops(ts) + Repeat(C, 0) == Ops(ts);
    }
  }

  lemma AppendCopyKeepsNormal(ts: seq<Triple>, n: nat, us: seq<Triple>)
    requires Normal(ts) && us == AppendCopy(ts, n)
    ensures Normal(us)
    ensures ts == [] ==> Open(us)
  {
    if n > 0 {
      AppendCopyNormal(ts, n);
    }
  }

  /** The diff of any two files is an edit script in normal form. */
  lemma DiffAllIsScript(p: Files, all: seq<Triple>)
    requires Indexed(p) && all == DiffAll(p)
    ensures Normal(all)
    ensures IsScript(all, p.a, p.b)
  {
    hide DiffCarved;
    HeaderAndFooterAgree(p);
    var head, foot := Header(p), Footer(p);
    DiffCarvedNormal(p, head, foot, all);
    var middle := DiffCarvedRuns(p, head, foot, all);
    CarvedRuns(p, head, foot, middle);
    RunsIsScript(all, p.a, p.b);
  }

  lemma HeaderAndFooterAgree(p: Files)
    ensures Header(p) + Footer(p) <= |p.a| && Header(p) + Footer(p) <= |p.b|
    ensures p.a[0..Header(p)] == p.b[0..Header(p)]
    ensures p.a[|p.a| - Footer(p)..|p.a|] == p.b[|p.b| - Footer(p)..|p.b|]
  {
    ForwardIsRun(p, 0, 0, Min(|p.a| - Footer(p), |p.b| - Footer(p)));
    BackwardIsRun(p, |p.a|, |p.b|, Min(|p.a|, |p.b|));
  }

  lemma DiffCarvedNormal(p: Files, head: nat, foot: nat, all: seq<Triple>)
    requires Indexed(p) && head + foot <= |p.a| && head + foot <= |p.b|
    requires all == DiffCarved(p, head, foot)
    ensures Normal(all)
  {
    hide DiffStep;
    var r := Range(head, |p.a| - foot, head, |p.b| - foot);
    var ts := AppendCopy([], head);
    AppendCopyKeepsNormal([], head, ts);
    DiffStepNormal(p, r, ts);
    AppendCopyKeepsNormal(DiffStep(p, r, ts), foot, all);
  }

  lemma DiffCarvedRuns(p: Files, head: nat, foot: nat, all: seq<Triple>) returns (ops: seq<Op>)
    requires Indexed(p) && head + foot <= |p.a| && head + foot <= |p.b|
    requires all == DiffCarved(p, head, foot)
    ensures Ops(all) == Repeat(C, head) + ops + Repeat(C, foot)
    ensures Runs(ops, p.a[head..|p.a| - foot], p.b[head..|p.b| - foot])
  {
    hide DiffStep;
    var r := Range(head, |p.a| - foot, head, |p.b| - foot);
    var ts := AppendCopy([], head);
    AppendCopyOps([], head, ts);
    assert Ops(ts) == Repeat(C, head);
    ops := DiffStepRuns(p, r, ts);
    AppendCopyOps(DiffStep(p, r, ts), foot, all);
  }

  lemma CarvedRuns(p: Files, head: nat, foot: nat, o2: seq<Op>)
    requires head + foot <= |p.a| && head + foot <= |p.b|
    requires p.a[0..head] == p.b[0..head]
    requires p.a[|p.a| - foot..|p.a|] == p.b[|p.b| - foot..|p.b|]
    requires Runs(o2, p.a[head..|p.a| - foot], p.b[head..|p.b| - foot])
    ensures Runs(Repeat(C, head) + o2 + Repeat(C, foot), p.a, p.b)
  {
    var e1, e2 := |p.a| - foot, |p.b| - foot;
    RunsCopy(head, p.a[0..head], p.b[0..head]);
    RunsCopy(foot, p.a[e1..|p.a|], p.b[e2..|p.b|]);
    RunsConcat(Repeat(C, head), p.a[0..head], p.b[0..head], o2, p.a[head..e1], p.b[head..e2]);
    SliceJoin(p.a, 0, head, e1);
    SliceJoin(p.b, 0, head, e2);
    RunsConcat(Repeat(C, head) + o2, p.a[0..e1], p.b[0..e2], Repeat(C, foot), p.a[e1..|p.a|], p.b[e2..|p.b|]);
    SliceJoin(p.a, 0, e1, |p.a|);
    SliceJoin(p.b, 0, e2, |p.b|);
    assert p.a[0..|p.a|] == p.a && p.b[0..|p.b|] == p.b;
  }

  /** ... so replaying it on the old file gives the new one, and its counts add up. */
  lemma DiffAllReplays(p: Files, all: seq<Triple>)
    requires Indexed(p) && all == DiffAll(p)
    ensures Replay(all, p.a, p.b) == p.b
    ensures TotalOld(all) == |p.a| && TotalNew(all) == |p.b|
  {
    DiffAllIsScript(p, all);
    ScriptReplays(all, p.a, p.b);
  }

  /** A file does not differ from itself. */
  lemma DiffOfSame(p: Files)
    requires Indexed(p) && p.a == p.b
    ensures DiffAll(p) == if |p.a| == 0 then [] else [Triple(|p.a|, 0, 0)]
  {
    SameIsOneRun(p, |p.a|);
  }

  lemma {:induction false} SameIsOneRun(p: Files, n: nat)
    requires p.a == p.b && n <= |p.a|
    ensures Backward(p, n, n, n) == n
  {
    if n > 0 {
      SameIsOneRun(p, n - 1);
    }
  }
}
