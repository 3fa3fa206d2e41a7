/** What the line diff finds (libpkg/diff.c:229-315): which block splits a range, said
    of the lines alone, whatever the size of the range. */
module DiffFinds {
  import opened EditScript
  import opened LineTable
  import opened DiffSpec

  /** The hashes and the records are those of the lines. */
  ghost predicate FromLines(p: Files)
  {
    && |p.h| == |p.a| && Fit(p.a) && Fit(p.b) && p.t == Table(p.b)
    && forall i :: 0 <= i < |p.a| ==> p.h[i] == LineHash(p.a[i])
  }

  /** The lines after y that share its hash residue. */
  ghost function Behind(b: seq<string>, y: nat): set<nat>
    requires Fit(b) && y < |b|
  {
    set z: nat | y < z < |b| && LineHash(b[z]) % |b| == LineHash(b[y]) % |b|
  }

  /** Line x of the old range is line y of the new one, which is not the last of it. */
  ghost predicate Usable(p: Files, r: Range, x: nat, y: nat)
    requires Within(r, p)
  {
    r.s1 <= x < r.e1 && r.s2 <= y && y + 1 < r.e2 && p.a[x] == p.b[y]
  }

  /** The last usable line for x, if no more than eleven come before it in its chain. */
  ghost predicate Hit(p: Files, r: Range, x: nat, y: nat)
    requires Within(r, p) && Fit(p.b)
  {
    && Usable(p, r, x, y) && |Behind(p.b, y)| <= 11
    && forall z: nat :: y < z ==> !Usable(p, r, x, z)
  }

  // ----- the probe -----

  lemma {:induction false} ProbeAlong(p: Files, r: Range, x: nat, j: nat, limit: nat, c: seq<nat>)
    requires Indexed(p) && Within(r, p) && r.s1 <= x < r.e1 && j <= |p.t| && limit <= 11 && c == Chain(p.t, j)
    ensures var found := Probe(p, r, x, j, limit);
      if found > 0 then exists k :: 0 <= k < |c| && FirstUsable(p, r, x, c, k) && c[k] + 1 == found && k + limit <= 11
      else forall k :: 0 <= k < |c| && k + limit <= 11 ==> !Usable(p, r, x, c[k])
    decreases j
  {
    if j > 0 {
      var rest := Chain(p.t, p.t[j - 1].iNext);
      assert c == [j - 1] + rest;
      if Usable(p, r, x, j - 1) {
        assert FirstUsable(p, r, x, c, 0);
      } else if limit < 11 {
        ProbeAlong(p, r, x, p.t[j - 1].iNext, limit + 1, rest);
        var found := Probe(p, r, x, j, limit);
        if found > 0 {
          var k :| 0 <= k < |rest| && FirstUsable(p, r, x, rest, k) && rest[k] + 1 == found && k + limit + 1 <= 11;
          FirstUsableCons(p, r, x, j - 1, rest, k);
          assert c[k + 1] == rest[k];
        } else {
          forall k | 0 <= k < |c| && k + limit <= 11
            ensures !Usable(p, r, x, c[k])
          {
            if k > 0 {
              assert c[k] == rest[k - 1];
            }
          }
        }
      }
    }
  }

  ghost predicate FirstUsable(p: Files, r: Range, x: nat, c: seq<nat>, k: nat)
    requires Within(r, p) && k < |c|
  {
    Usable(p, r, x, c[k]) && forall l :: 0 <= l < k ==> !Usable(p, r, x, c[l])
  }

  lemma FirstUsableCons(p: Files, r: Range, x: nat, y: nat, rest: seq<nat>, k: nat)
    requires Within(r, p) && k < |rest| && FirstUsable(p, r, x, rest, k) && !Usable(p, r, x, y)
    ensures FirstUsable(p, r, x, [y] + rest, k + 1)
  {
    var c := [y] + rest;
    assert forall l :: 0 < l < |c| ==> c[l] == rest[l - 1];
  }

  /** A list of the lines of a bucket, latest first. */
  ghost predicate ListsBucket(b: seq<string>, bucket: nat, c: seq<nat>)
    requires Fit(b) && |b| > 0
  {
    && (forall y: nat :: y in c <==> y < |b| && LineHash(b[y]) % |b| == bucket)
    && (forall k, l :: 0 <= k < l < |c| ==> c[k] > c[l])
  }

  /** A line comes as far down its chain as lines of its bucket come after it. */
  lemma PlaceInChain(b: seq<string>, bucket: nat, c: seq<nat>, k: nat)
    requires Fit(b) && |b| > 0 && ListsBucket(b, bucket, c) && k < |c|
    ensures c[k] < |b| && |Behind(b, c[k])| == k
  {
    hide LineHash;
    var y := c[k];
    assert y in c;
    forall z: nat
      ensures z in Behind(b, y) <==> z in c[..k]
    {
      if z in Behind(b, y) {
        assert z in c;
        var l :| 0 <= l < |c| && c[l] == z;
        assert l < k;
        assert c[..k][l] == z;
      }
      if z in c[..k] {
        var l :| 0 <= l < k && c[..k][l] == z;
        assert c[l] == z && c[l] > c[k] && c[l] in c;
      }
    }
    FallingIsSet(c[..k], Behind(b, y));
  }

  lemma {:induction false} FallingIsSet(c: seq<nat>, s: set<nat>)
    requires forall k, l :: 0 <= k < l < |c| ==> c[k] > c[l]
    requires forall z: nat :: z in s <==> z in c
    ensures |s| == |c|
  {
    if c == [] {
      assert s == {};
    } else {
      var n := |c| - 1;
      assert c == c[..n] + [c[n]];
      FallingIsSet(c[..n], s - {c[n]});
    }
  }

  ghost predicate AllUsableIn(p: Files, r: Range, x: nat, c: seq<nat>)
    requires Within(r, p)
  {
    forall y: nat :: Usable(p, r, x, y) ==> y in c
  }

  /** The first usable line of the chain, if it is near enough, is the hit. */
  lemma FirstIsHit(p: Files, r: Range, x: nat, bucket: nat, c: seq<nat>, k: nat)
    requires Within(r, p) && Fit(p.b) && |p.b| > 0 && ListsBucket(p.b, bucket, c) && AllUsableIn(p, r, x, c)
    requires k < |c| && FirstUsable(p, r, x, c, k) && k <= 11
    ensures Hit(p, r, x, c[k])
  {
    hide LineHash, Usable, Behind;
    PlaceInChain(p.b, bucket, c, k);
    assert forall l :: 0 <= l < |c| && c[l] > c[k] ==> l < k;
  }

  lemma NoneIsHit(p: Files, r: Range, x: nat, bucket: nat, c: seq<nat>, y: nat)
    requires Within(r, p) && Fit(p.b) && |p.b| > 0 && ListsBucket(p.b, bucket, c) && AllUsableIn(p, r, x, c)
    requires forall k :: 0 <= k < |c| && k <= 11 ==> !Usable(p, r, x, c[k])
    ensures !Hit(p, r, x, y)
  {
    hide LineHash, Usable, Behind;
    if Usable(p, r, x, y) {
      var k :| 0 <= k < |c| && c[k] == y;
      PlaceInChain(p.b, bucket, c, k);
    }
  }

  /** The probe finds the hit, if there is one. */
  lemma ProbeHits(p: Files, r: Range, x: nat)
    requires FromLines(p) && Within(r, p) && r.s1 <= x < r.e1 && |p.b| > 0
    ensures Indexed(p)
    ensures var j := Probe(p, r, x, p.t[p.h[x] % |p.t|].iHash, 0);
      if j > 0 then Hit(p, r, x, j - 1) else forall y: nat :: !Hit(p, r, x, y)
  {
    hide Probe, LineHash, Usable, Table, Hit, FirstUsable;
    var bucket := p.h[x] % |p.b|;
    var c := Chain(p.t, p.t[bucket].iHash);
    ChainsListBuckets(p.b, bucket);
    forall y: nat | Usable(p, r, x, y)
      ensures y in c
    {
      UsableIsInBucket(p, r, x, y);
    }
    ProbeAlong(p, r, x, p.t[bucket].iHash, 0, c);
    if Probe(p, r, x, p.t[bucket].iHash, 0) > 0 {
      var k :| 0 <= k < |c| && FirstUsable(p, r, x, c, k) &&
        c[k] + 1 == Probe(p, r, x, p.t[bucket].iHash, 0) && k <= 11;
      FirstIsHit(p, r, x, bucket, c, k);
    } else {
      forall y: nat
        ensures !Hit(p, r, x, y)
      {
        NoneIsHit(p, r, x, bucket, c, y);
      }
    }
  }

  lemma UsableIsInBucket(p: Files, r: Range, x: nat, y: nat)
    requires FromLines(p) && Within(r, p) && Usable(p, r, x, y)
    ensures x < |p.a| && y < |p.b| && LineHash(p.b[y]) % |p.b| == p.h[x] % |p.b|
  {
  }

  // ----- the block around a hit -----

  /** The block holds the pair, and cannot be made longer inside the range. */
  ghost predicate MaximalAt(p: Files, r: Range, m: Match, x: nat, y: nat)
    requires Within(r, p)
  {
    && Sound(p, r, m) && m.sx <= x < m.ex && x - m.sx == y - m.sy
    && (m.sx == r.s1 || m.sy == r.s2 || p.a[m.sx - 1] != p.b[m.sy - 1])
    && (m.ex == r.e1 || m.ey == r.e2 || p.a[m.ex] != p.b[m.ey])
  }

  lemma {:induction false} ForwardStops(p: Files, i: nat, j: nat, n: nat)
    requires i + n <= |p.a| && j + n <= |p.b|
    ensures var k := Forward(p, i, j, n); k < n ==> p.a[i + k] != p.b[j + k]
    decreases n
  {
    if n > 0 && p.a[i] == p.b[j] {
      ForwardStops(p, i + 1, j + 1, n - 1);
    }
  }

  lemma {:induction false} BackwardStops(p: Files, i: nat, j: nat, n: nat)
    requires n <= i <= |p.a| && n <= j <= |p.b|
    ensures var k := Backward(p, i, j, n); k < n ==> p.a[i - k - 1] != p.b[j - k - 1]
    decreases n
  {
    if n > 0 && p.a[i - 1] == p.b[j - 1] {
      BackwardStops(p, i - 1, j - 1, n - 1);
    }
  }

  lemma AroundIsMaximal(p: Files, r: Range, x: nat, y: nat)
    requires Within(r, p) && Usable(p, r, x, y)
    ensures MaximalAt(p, r, Around(p, r, x, y + 1), x, y)
  {
    hide Backward, Forward, Sound;
    AroundIsSound(p, r, x, y + 1);
    BackwardStops(p, x, y, Min(x - r.s1, y - r.s2));
    ForwardStops(p, x + 1, y + 1, Min(r.e1 - x - 1, r.e2 - y - 1));
  }

  /** There is one such block. */
  lemma MaximalIsUnique(p: Files, r: Range, x: nat, y: nat, m: Match, m': Match)
    requires Within(r, p) && MaximalAt(p, r, m, x, y) && MaximalAt(p, r, m', x, y)
    ensures m == m'
  {
    EndsLater(p, r, x, y, m, m');
    EndsLater(p, r, x, y, m', m);
  }

  /** The lines of a block are equal, one by one. */
  lemma BlockAgrees(p: Files, r: Range, m: Match, i: nat)
    requires Within(r, p) && Sound(p, r, m) && m.sx <= i < m.ex
    ensures i - m.sx + m.sy < m.ey && p.a[i] == p.b[i - m.sx + m.sy]
  {
    assert p.a[i] == p.a[m.sx..m.ex][i - m.sx] && p.b[i - m.sx + m.sy] == p.b[m.sy..m.ey][i - m.sx];
  }

  lemma EndsLater(p: Files, r: Range, x: nat, y: nat, m: Match, m': Match)
    requires Within(r, p) && MaximalAt(p, r, m, x, y) && MaximalAt(p, r, m', x, y)
    ensures m'.sx <= m.sx && m.ex <= m'.ex
  {
    if m.sx < m'.sx {
      BlockAgrees(p, r, m, m'.sx - 1);
    }
    if m'.ex < m.ex {
      BlockAgrees(p, r, m, m'.ex);
    }
  }

  // ----- the scores -----

  /** The old range is not so much longer than the new one that a score could be too low
      to be taken up. */
  predicate Scorable(r: Range)
  {
    r.e1 - r.s1 <= 20000 + 2 * Min(r.e1 - r.s1, r.e2 - r.s2)
  }

  lemma ScoreIsHigh(r: Range, m: Match)
    requires r.s1 <= m.sx < m.ex <= r.e1 && r.s2 <= m.sy < m.ey <= r.e2 && Scorable(r)
    ensures Score(r, m) > -10000
  {
    var span := (r.e1 - r.s1) + (r.e2 - r.s2);
    OneTimes(m.ex - m.sx, span);
    MiddleIsNear(r.s1, r.e1, m.sx, m.ex);
  }

  lemma OneTimes(n: int, span: int)
    requires n >= 1 && span >= 0
    ensures n * span >= span
  {
  }

  lemma MiddleIsNear(s: nat, e: nat, sx: nat, ex: nat)
    requires s <= sx < ex <= e
    ensures Abs((sx + ex) / 2 - (e + s) / 2) <= (e - s + 1) / 2
  {
  }

  /** Not so a single line at the end of a long old range. */
  lemma ScoreTooLow()
    ensures var r := Range(0, 30000, 0, 2); !Scorable(r) && Score(r, Match(29999, 30000, 0, 1)) == -14996
  {
  }

  /** How far the block is from lying as deep in both ranges, and from the middle. */
  function Skew(r: Range, m: Match): int
  {
    Abs((m.sx - r.s1) - (m.sy - r.s2))
  }

  function FromMiddle(r: Range, m: Match): int
  {
    Abs((m.sx + m.ex) / 2 - (r.e1 + r.s1) / 2)
  }

  ghost predicate Inside(r: Range, m: Match)
  {
    r.s1 <= m.sx < m.ex <= r.e1 && r.s2 <= m.sy < m.ey <= r.e2 && m.ex - m.sx == m.ey - m.sy
  }

  /** A block that is longer by two lines scores more, wherever it lies. */
  lemma LongerScoresMore(r: Range, m: Match, m': Match)
    requires Inside(r, m) && Inside(r, m') && m.ex - m.sx >= m'.ex - m'.sx + 2
    ensures Score(r, m) > Score(r, m')
  {
    hide Score, Skew, FromMiddle, Inside;
    var span := (r.e1 - r.s1) + (r.e2 - r.s2);
    PenaltyIsSmall(r, m, span);
    PenaltyIsSmall(r, m', span);
    TwoMoreTimes(m.ex - m.sx, m'.ex - m'.sx, span);
    ScoreIs(r, m, span);
    ScoreIs(r, m', span);
  }

  lemma PenaltyIsSmall(r: Range, m: Match, span: int)
    requires Inside(r, m) && span == (r.e1 - r.s1) + (r.e2 - r.s2)
    ensures span > 0 && 0 <= Skew(r, m) + FromMiddle(r, m) < 2 * span
  {
    MiddleIsNear(r.s1, r.e1, m.sx, m.ex);
  }

  /** Of two that are as long, the one nearer to the middle, and less skew, scores more. */
  lemma NearerScoresMore(r: Range, m: Match, m': Match)
    requires Inside(r, m) && Inside(r, m') && m.ex - m.sx == m'.ex - m'.sx
    ensures Score(r, m) > Score(r, m') <==> Skew(r, m) + FromMiddle(r, m) < Skew(r, m') + FromMiddle(r, m')
  {
    hide Score, Skew, FromMiddle;
    var span := (r.e1 - r.s1) + (r.e2 - r.s2);
    ScoreIs(r, m, span);
    ScoreIs(r, m', span);
  }

  lemma ScoreIs(r: Range, m: Match, span: int)
    requires span == (r.e1 - r.s1) + (r.e2 - r.s2)
    ensures Score(r, m) == (m.ex - m.sx) * span - Skew(r, m) - FromMiddle(r, m)
  {
  }

  lemma TwoMoreTimes(n: int, n': int, span: int)
    requires n >= n' + 2 && span >= 0
    ensures n * span >= n' * span + 2 * span
  {
    Distribute(n', n - n', span);
    AtLeastTwice(n - n', span);
  }

  lemma Distribute(a: int, b: int, c: int)
    ensures (a + b) * c == a * c + b * c
  {
  }

  lemma AtLeastTwice(k: int, c: int)
    requires k >= 2 && c >= 0
    ensures k * c >= 2 * c
  {
  }

  // ----- the sweep -----

  /** The block around a hit of a line of the old range before i. */
  ghost predicate Considered(p: Files, r: Range, m: Match, i: nat)
    requires Within(r, p) && Fit(p.b)
  {
    exists x: nat, y: nat :: x < i && Hit(p, r, x, y) && MaximalAt(p, r, m, x, y)
  }

  /** The pair lies in the span of a block that was found before. */
  ghost predicate Passed(p: Files, r: Range, x: nat, y: nat)
    requires Within(r, p) && Fit(p.b)
  {
    exists m :: Considered(p, r, m, x) && Covered(x, y + 1, m)
  }

  /** No block around a hit before i scores more, unless it was passed over. */
  ghost predicate ScoresMost(p: Files, r: Range, score: int, i: nat)
    requires Within(r, p) && Fit(p.b)
  {
    forall x: nat, y: nat, m :: x < i && Hit(p, r, x, y) && MaximalAt(p, r, m, x, y) ==>
      Score(r, m) <= score || Passed(p, r, x, y)
  }

  ghost predicate NoHit(p: Files, r: Range, i: nat)
    requires Within(r, p) && Fit(p.b)
  {
    forall x: nat, y: nat :: x < i ==> !Hit(p, r, x, y)
  }

  /** What the sweep knows when it has come to line i. */
  ghost predicate Swept(p: Files, r: Range, i: nat, st: Sweep)
    requires Within(r, p) && Fit(p.b)
  {
    if NoHit(p, r, i) then st == Start(r)
    else
      && Considered(p, r, st.best, i) && st.score == Score(r, st.best) && ScoresMost(p, r, st.score, i)
      && (st.prev == Start(r).prev || Considered(p, r, st.prev, i))
  }

  lemma ConsideredLater(p: Files, r: Range, m: Match, i: nat)
    requires Within(r, p) && Fit(p.b) && Considered(p, r, m, i)
    ensures Considered(p, r, m, i + 1)
  {
    hide Hit, MaximalAt;
  }

  /** A line without a hit changes nothing. */
  lemma SweptNoHit(p: Files, r: Range, i: nat, st: Sweep)
    requires Within(r, p) && Fit(p.b) && Swept(p, r, i, st) && forall y: nat :: !Hit(p, r, i, y)
    ensures Swept(p, r, i + 1, st)
  {
    hide Hit, MaximalAt, Score, Passed, Start;
    assert NoHit(p, r, i) <==> NoHit(p, r, i + 1);
  }

  lemma OneHit(p: Files, r: Range, i: nat, y: nat, z: nat)
    requires Within(r, p) && Fit(p.b) && Hit(p, r, i, y) && Hit(p, r, i, z)
    ensures y == z
  {
    hide Usable, Behind;
  }

  /** With the block of line i taken into account, or passed over, nothing scores more. */
  lemma ScoresMostNext(p: Files, r: Range, i: nat, y: nat, m: Match, a: int, b: int)
    requires Within(r, p) && Fit(p.b) && Hit(p, r, i, y) && MaximalAt(p, r, m, i, y)
    requires ScoresMost(p, r, a, i) && a <= b && (Score(r, m) <= b || Passed(p, r, i, y))
    ensures ScoresMost(p, r, b, i + 1)
  {
    hide Hit, MaximalAt, Score, Passed;
    forall x: nat, z: nat, m' | x < i + 1 && Hit(p, r, x, z) && MaximalAt(p, r, m', x, z)
      ensures Score(r, m') <= b || Passed(p, r, x, z)
    {
      if x == i {
        OneHit(p, r, i, y, z);
        MaximalIsUnique(p, r, i, y, m, m');
      }
    }
  }

  lemma NoHitScores(p: Files, r: Range, i: nat, score: int)
    requires Within(r, p) && Fit(p.b) && NoHit(p, r, i)
    ensures ScoresMost(p, r, score, i)
  {
    hide Hit;
  }

  lemma SweptHit(p: Files, r: Range, i: nat, y: nat, st: Sweep)
    requires Within(r, p) && Fit(p.b) && Swept(p, r, i, st) && Hit(p, r, i, y) && Scorable(r) && Usable(p, r, i, y)
    ensures Swept(p, r, i + 1,
      if Covered(i, y + 1, st.best) || Covered(i, y + 1, st.prev) then st else Consider(r, st, Around(p, r, i, y + 1)))
  {
    hide Hit, MaximalAt, Score, Around, Behind;
    var m := Around(p, r, i, y + 1);
    AroundIsMaximal(p, r, i, y);
    assert Considered(p, r, m, i + 1) && !NoHit(p, r, i + 1);
    MaximalInside(p, r, m, i, y);
    if NoHit(p, r, i) {
      ScoreIsHigh(r, m);
      NoHitScores(p, r, i, -10000);
      ScoresMostNext(p, r, i, y, m, -10000, Score(r, m));
    } else {
      ConsideredLater(p, r, st.best, i);
      if st.prev != Start(r).prev { ConsideredLater(p, r, st.prev, i); }
      if Covered(i, y + 1, st.best) || Covered(i, y + 1, st.prev) {
        assert Passed(p, r, i, y);
        ScoresMostNext(p, r, i, y, m, st.score, st.score);
      } else {
        ScoresMostNext(p, r, i, y, m, st.score, if Score(r, m) > st.score then Score(r, m) else st.score);
      }
    }
  }

  lemma MaximalInside(p: Files, r: Range, m: Match, x: nat, y: nat)
    requires Within(r, p) && MaximalAt(p, r, m, x, y)
    ensures r.s1 <= m.sx < m.ex <= r.e1 && r.s2 <= m.sy < m.ey <= r.e2
  {
  }

  lemma SweepKnows(p: Files, r: Range, i: nat, st: Sweep)
    requires FromLines(p) && Within(r, p) && Indexed(p) && |p.b| > 0 && Scorable(r)
    requires r.s1 <= i < r.e1 && Sound(p, r, st.best) && Swept(p, r, i, st)
    ensures Swept(p, r, i + 1, SweepStep(p, r, i, st))
  {
    hide Swept, Hit, Probe, Around, Consider, Sound;
    ProbeHits(p, r, i);
    var j := Probe(p, r, i, p.t[p.h[i] % |p.t|].iHash, 0);
    if j == 0 {
      SweptNoHit(p, r, i, st);
    } else {
      HitIsUsable(p, r, i, j - 1);
      SweptHit(p, r, i, j - 1, st);
    }
  }

  lemma HitIsUsable(p: Files, r: Range, x: nat, y: nat)
    requires Within(r, p) && Fit(p.b) && Hit(p, r, x, y)
    ensures Usable(p, r, x, y)
  {
  }

  lemma {:induction false} SweepFromKnows(p: Files, r: Range, i: nat, st: Sweep)
    requires FromLines(p) && Within(r, p) && Indexed(p) && |p.b| > 0 && Scorable(r)
    requires r.s1 <= i <= r.e1 && Sound(p, r, st.best) && Swept(p, r, i, st)
    ensures Swept(p, r, r.e1, SweepFrom(p, r, i, st))
    decreases r.e1 - i
  {
    hide Swept, SweepStep, FromLines, Sound;
    if i < r.e1 {
      SweepKnows(p, r, i, st);
      SweepFromKnows(p, r, i + 1, SweepStep(p, r, i, st));
    }
  }

  lemma SweptAtStart(p: Files, r: Range)
    requires Within(r, p) && Fit(p.b)
    ensures Swept(p, r, r.s1, Start(r))
  {
    assert forall x: nat, y: nat :: x < r.s1 ==> !Usable(p, r, x, y);
  }

  // ----- the block that splits a range -----

  /** The longest common block of the ranges, and of those the first in row order. */
  ghost predicate LongestBlock(p: Files, r: Range, m: Match)
    requires Within(r, p)
  {
    && m.sx <= m.ex && m.ey == m.sy + (m.ex - m.sx) && Common(p, r, m.sx, m.sy, m.ex - m.sx)
    && forall x: nat, y: nat, n: nat :: Common(p, r, x, y, n) ==>
      n <= m.ex - m.sx && (n == m.ex - m.sx > 0 ==> !Earlier(x, y, Block(m.sx, m.sy, n)))
  }

  /** What splits a range: if some line has a hit, the block around one that scores most of
      those not passed over; if none has, the longest block where the product of the
      lengths is below 400, and else nothing. */
  ghost predicate Splits(p: Files, r: Range, m: Match)
    requires Within(r, p) && Fit(p.b)
  {
    if !NoHit(p, r, r.e1) then Considered(p, r, m, r.e1) && ScoresMost(p, r, Score(r, m), r.e1)
    else if (r.e1 - r.s1) * (r.e2 - r.s2) < 400 then LongestBlock(p, r, m)
    else m == Match(r.s1, r.s1, r.s2, r.s2)
  }

  lemma LcsSplits(p: Files, r: Range)
    requires FromLines(p) && Within(r, p) && Indexed(p) && |p.b| > 0 && Scorable(r)
    ensures Splits(p, r, Lcs(p, r))
  {
    hide Swept, SweepFrom, Exhaustive, FromLines, NoHit;
    assert Fit(p.b) by { LinesAreFit(p); }
    SweptAtStart(p, r);
    SweepFromKnows(p, r, r.s1, Start(r));
    var st := SweepFrom(p, r, r.s1, Start(r));
    SweptSplits(p, r, st);
    ExhaustiveIsLongest(p, r);
  }

  lemma LinesAreFit(p: Files)
    requires FromLines(p)
    ensures Fit(p.b)
  {
  }

  lemma SweptSplits(p: Files, r: Range, st: Sweep)
    requires Within(r, p) && Fit(p.b) && Swept(p, r, r.e1, st)
    ensures NoHit(p, r, r.e1) ==> st.best == Match(r.s1, r.s1, r.s2, r.s2)
    ensures !NoHit(p, r, r.e1) ==>
      st.best.sx < st.best.ex && Considered(p, r, st.best, r.e1) && ScoresMost(p, r, Score(r, st.best), r.e1)
  {
    hide Hit, Score, Sound;
  }

  /** A usable line that is near enough means that there is a hit. */
  lemma {:induction false} NearMeansHit(p: Files, r: Range, x: nat, y: nat) returns (z: nat)
    requires Within(r, p) && Fit(p.b) && Usable(p, r, x, y) && |Behind(p.b, y)| <= 11
    ensures Hit(p, r, x, z)
    decreases r.e2 - y
  {
    hide LineHash;
    if z' : nat :| y < z' && Usable(p, r, x, z') {
      FewerBehind(p.b, y, z');
      z := NearMeansHit(p, r, x, z');
    } else {
      z := y;
    }
  }

  lemma FewerBehind(b: seq<string>, y: nat, z: nat)
    requires Fit(b) && y < z < |b| && b[y] == b[z]
    ensures |Behind(b, z)| <= |Behind(b, y)|
  {
    assert Behind(b, z) <= Behind(b, y);
    SubsetIsSmaller(Behind(b, z), Behind(b, y));
  }

  lemma {:induction false} SubsetIsSmaller(a: set<nat>, b: set<nat>)
    requires a <= b
    ensures |a| <= |b|
  {
    assert |b| == |a| + |b - a| by { assert b == a + (b - a); }
  }

  ghost predicate SharesNear(p: Files, r: Range)
    requires Within(r, p) && Fit(p.b)
  {
    exists x: nat, y: nat :: Usable(p, r, x, y) && |Behind(p.b, y)| <= 11
  }

  ghost predicate Shares(p: Files, r: Range)
    requires Within(r, p)
  {
    exists x, y :: r.s1 <= x < r.e1 && r.s2 <= y < r.e2 && p.a[x] == p.b[y]
  }

  /** When a block is found, in ranges of any size: if a line before the last is shared and
      at most eleven lines with its residue come after it, or if the product of the lengths
      is below 400 and any line is shared. */
  lemma FindsIff(p: Files, r: Range)
    requires FromLines(p) && Within(r, p) && Indexed(p) && |p.b| > 0 && Scorable(r)
    ensures Lcs(p, r).sx < Lcs(p, r).ex <==>
      SharesNear(p, r) || ((r.e1 - r.s1) * (r.e2 - r.s2) < 400 && Shares(p, r))
  {
    hide Lcs, Considered, ScoresMost, FromLines, Usable, Behind;
    assert Fit(p.b) by { LinesAreFit(p); }
    LcsSplits(p, r);
    HitsAreNear(p, r);
    if !NoHit(p, r, r.e1) {
      ConsideredIsBlock(p, r, Lcs(p, r), r.e1);
    } else {
      LongestSharesIff(p, r, Lcs(p, r));
    }
  }

  lemma HitsAreNear(p: Files, r: Range)
    requires Within(r, p) && Fit(p.b)
    ensures SharesNear(p, r) <==> !NoHit(p, r, r.e1)
  {
    hide Behind;
    if SharesNear(p, r) {
      var x: nat, y: nat :| Usable(p, r, x, y) && |Behind(p.b, y)| <= 11;
      var z := NearMeansHit(p, r, x, y);
    }
  }

  lemma ConsideredIsBlock(p: Files, r: Range, m: Match, i: nat)
    requires Within(r, p) && Fit(p.b) && Considered(p, r, m, i)
    ensures Inside(r, m)
  {
    hide Hit;
  }

  lemma LongestSharesIff(p: Files, r: Range, m: Match)
    requires Within(r, p)
    ensures LongestBlock(p, r, m) ==> (m.sx < m.ex <==> Shares(p, r))
  {
    if LongestBlock(p, r, m) {
      if Shares(p, r) {
        var x: nat, y: nat :| r.s1 <= x < r.e1 && r.s2 <= y < r.e2 && p.a[x] == p.b[y];
        SharedLineIsCommon(p, r, x, y);
      }
      if m.sx < m.ex {
        assert p.a[m.sx] == p.a[m.sx..m.ex][0] && p.b[m.sy] == p.b[m.sy..m.ey][0];
      }
    }
  }

  // ----- the sweep, step by step -----

  /** The pair lies beside a block that was found before, and one line behind its start. */
  ghost predicate InSpan(x: nat, y: nat, m: Match)
  {
    x < m.ex && m.sy <= y + 1 < m.ey
  }

  /** The block around a hit becomes the best if it scores more, and else the previous one
      if it ends later; of a pair in the span of either there is nothing to do. */
  ghost predicate Updates(r: Range, st: Sweep, x: nat, y: nat, m: Match, next: Sweep)
  {
    if InSpan(x, y, st.best) || InSpan(x, y, st.prev) then next == st
    else if Score(r, m) > st.score then next == Sweep(m, st.prev, Score(r, m))
    else next == Sweep(st.best, if m.ex > st.prev.ex then m else st.prev, st.score)
  }

  /** A line of the old range makes a difference only by its hit. */
  ghost predicate Follows(p: Files, r: Range, x: nat, st: Sweep, next: Sweep)
    requires Within(r, p) && Fit(p.b)
  {
    && ((forall y: nat :: !Hit(p, r, x, y)) ==> next == st)
    && forall y: nat, m :: Hit(p, r, x, y) && MaximalAt(p, r, m, x, y) ==> Updates(r, st, x, y, m, next)
  }

  /** From line x on the lines lead to the last state. */
  ghost predicate SweepsTo(p: Files, r: Range, x: nat, st: Sweep, last: Sweep)
    requires Within(r, p) && Fit(p.b) && x <= r.e1
    decreases r.e1 - x
  {
    if x == r.e1 then last == st
    else exists next :: Follows(p, r, x, st, next) && SweepsTo(p, r, x + 1, next, last)
  }

  lemma ConsiderUpdates(r: Range, st: Sweep, x: nat, y: nat, m: Match)
    ensures Updates(r, st, x, y, m,
      if Covered(x, y + 1, st.best) || Covered(x, y + 1, st.prev) then st else Consider(r, st, m))
  {
    hide Score;
  }

  lemma HitFollows(p: Files, r: Range, x: nat, y: nat, st: Sweep, m: Match, next: Sweep)
    requires Within(r, p) && Fit(p.b) && Hit(p, r, x, y) && MaximalAt(p, r, m, x, y) && Updates(r, st, x, y, m, next)
    ensures Follows(p, r, x, st, next)
  {
    hide Hit, MaximalAt, Updates;
    forall z: nat, m' | Hit(p, r, x, z) && MaximalAt(p, r, m', x, z)
      ensures Updates(r, st, x, z, m', next)
    {
      OneHit(p, r, x, y, z);
      MaximalIsUnique(p, r, x, y, m, m');
    }
  }

  lemma StepFollows(p: Files, r: Range, x: nat, st: Sweep)
    requires FromLines(p) && Within(r, p) && Indexed(p) && |p.b| > 0 && r.s1 <= x < r.e1 && Sound(p, r, st.best)
    ensures Follows(p, r, x, st, SweepStep(p, r, x, st))
  {
    hide Hit, Probe, Around, Consider, Sound, MaximalAt, Covered;
    ProbeHits(p, r, x);
    var j := Probe(p, r, x, p.t[p.h[x] % |p.t|].iHash, 0);
    if j > 0 {
      HitIsUsable(p, r, x, j - 1);
      AroundIsMaximal(p, r, x, j - 1);
      var m := Around(p, r, x, j);
      ConsiderUpdates(r, st, x, j - 1, m);
      HitFollows(p, r, x, j - 1, st, m, SweepStep(p, r, x, st));
    }
  }

  lemma {:induction false} SweepFollows(p: Files, r: Range, x: nat, st: Sweep)
    requires FromLines(p) && Within(r, p) && Indexed(p) && |p.b| > 0 && r.s1 <= x <= r.e1 && Sound(p, r, st.best)
    ensures SweepsTo(p, r, x, st, SweepFrom(p, r, x, st))
    decreases r.e1 - x
  {
    hide SweepStep, FromLines, Sound, Follows;
    if x < r.e1 {
      StepFollows(p, r, x, st);
      SweepFollows(p, r, x + 1, SweepStep(p, r, x, st));
    }
  }

  /** Each line has one outcome. */
  lemma FollowsOne(p: Files, r: Range, x: nat, st: Sweep, a: Sweep, b: Sweep)
    requires Within(r, p) && Fit(p.b) && Follows(p, r, x, st, a) && Follows(p, r, x, st, b)
    ensures a == b
  {
    hide Score, MaximalAt;
    if y: nat :| Hit(p, r, x, y) {
      HitIsUsable(p, r, x, y);
      AroundIsMaximal(p, r, x, y);
    }
  }

  lemma {:induction false} SweepsToOne(p: Files, r: Range, x: nat, st: Sweep, a: Sweep, b: Sweep)
    requires Within(r, p) && Fit(p.b) && x <= r.e1 && SweepsTo(p, r, x, st, a) && SweepsTo(p, r, x, st, b)
    ensures a == b
    decreases r.e1 - x
  {
    hide Follows;
    if x < r.e1 {
      var c :| Follows(p, r, x, st, c) && SweepsTo(p, r, x + 1, c, a);
      var d :| Follows(p, r, x, st, d) && SweepsTo(p, r, x + 1, d, b);
      FollowsOne(p, r, x, st, c, d);
      SweepsToOne(p, r, x + 1, c, a, b);
    }
  }

  /** The block that a sweep ends with; where it has none, the longest of a small range. */
  ghost predicate EndsWith(p: Files, r: Range, last: Sweep, m: Match)
    requires Within(r, p)
  {
    if last.best.sx < last.best.ex then m == last.best
    else if (r.e1 - r.s1) * (r.e2 - r.s2) < 400 then LongestBlock(p, r, m)
    else m == last.best
  }

  function Nothing(r: Range): Match
  {
    Match(r.s1, r.s1, r.s2, r.s2)
  }

  /** For all ranges, the block that splits one is that of the one sweep that starts with a
      score of -10000 and looks at the hits alone. */
  lemma LcsIsSwept(p: Files, r: Range, last: Sweep)
    requires FromLines(p) && Within(r, p) && Indexed(p) && |p.b| > 0
    requires Fit(p.b) && SweepsTo(p, r, r.s1, Sweep(Nothing(r), Nothing(r), -10000), last)
    ensures EndsWith(p, r, last, Lcs(p, r))
  {
    hide SweepFrom, SweepsTo, Exhaustive, FromLines;
    SweepFollows(p, r, r.s1, Start(r));
    SweepsToOne(p, r, r.s1, Start(r), last, SweepFrom(p, r, r.s1, Start(r)));
    ExhaustiveIsLongest(p, r);
  }

  // ----- the hunks of a diff -----

  /** Lines replaced by others: no block is left to be found among them. */
  ghost predicate NothingLeft(p: Files, r: Range)
    requires Within(r, p) && Fit(p.b)
  {
    Scorable(r) ==> !SharesNear(p, r) && ((r.e1 - r.s1) * (r.e2 - r.s2) < 400 ==> !Shares(p, r))
  }

  /** The triples lead to line x of the old file and y of the new one, and in no hunk of
      theirs is a block left to be found. */
  ghost predicate FineHunks(p: Files, ts: seq<Triple>, x: nat, y: nat)
    requires Fit(p.b) && x <= |p.a| && y <= |p.b|
  {
    if ts == [] then x == 0 && y == 0
    else
      var t := ts[|ts| - 1];
      && t.copy + t.del <= x && t.copy + t.ins <= y && NothingLeft(p, Range(x - t.del, x, y - t.ins, y))
      && FineHunks(p, ts[..|ts| - 1], x - t.copy - t.del, y - t.copy - t.ins)
  }

  lemma OneSided(p: Files, r: Range)
    requires Within(r, p) && Fit(p.b) && (r.s1 == r.e1 || r.s2 == r.e2)
    ensures NothingLeft(p, r)
  {
  }

  lemma FineAppendCopy(p: Files, ts: seq<Triple>, x: nat, y: nat, n: nat)
    requires Fit(p.b) && x + n <= |p.a| && y + n <= |p.b| && FineHunks(p, ts, x, y) && n > 0
    ensures FineHunks(p, Append(ts, Triple(n, 0, 0)), x + n, y + n)
  {
    hide NothingLeft;
    OneSided(p, Range(x + n, x + n, y + n, y + n));
    var r := Append(ts, Triple(n, 0, 0));
    if ts != [] {
      assert r[..|ts|] == ts || r[..|ts| - 1] == ts[..|ts| - 1];
    }
  }

  lemma FineAppendEdit(p: Files, ts: seq<Triple>, x: nat, y: nat, d: nat, i: nat)
    requires Fit(p.b) && x + d <= |p.a| && y + i <= |p.b| && FineHunks(p, ts, x, y) && Open(ts)
    requires NothingLeft(p, Range(x, x + d, y, y + i))
    ensures FineHunks(p, Append(ts, Triple(0, d, i)), x + d, y + i)
  {
    hide NothingLeft;
    var r := Append(ts, Triple(0, d, i));
    if ts != [] {
      assert r[..|ts| - 1] == ts[..|ts| - 1];
    }
  }

  lemma {:induction false} DiffStepFine(p: Files, r: Range, ts: seq<Triple>)
    requires FromLines(p) && Fit(p.b) && Within(r, p) && Indexed(p) && Open(ts) && FineHunks(p, ts, r.s1, r.s2)
    ensures FineHunks(p, DiffStep(p, r, ts), r.e1, r.e2)
    decreases (r.e1 - r.s1) + (r.e2 - r.s2)
  {
    hide Append, DiffStep, Lcs, FineHunks, FromLines, NothingLeft, Open, Sound, Normal;
    DiffStepCases(p, r, ts);
    if r.e1 == r.s1 && r.e2 == r.s2 {
      return;
    }
    if r.e1 == r.s1 || r.e2 == r.s2 {
      OneSided(p, r);
      FineAppendEdit(p, ts, r.s1, r.s2, r.e1 - r.s1, r.e2 - r.s2);
      return;
    }
    LcsInside(p, r);
    var m := Lcs(p, r);
    if m.ex == m.sx {
      assert NothingLeft(p, r) by { LeafIsFine(p, r); }
      FineAppendEdit(p, ts, r.s1, r.s2, r.e1 - r.s1, r.e2 - r.s2);
    } else {
      var left, right := Range(r.s1, m.sx, r.s2, m.sy), Range(m.ex, r.e1, m.ey, r.e2);
      var before := DiffStep(p, left, ts);
      DiffStepFine(p, left, ts);
      DiffStepNormal(p, left, ts);
      AppendCopyNormal(before, m.ex - m.sx);
      FineAppendCopy(p, before, m.sx, m.sy, m.ex - m.sx);
      DiffStepFine(p, right, Append(before, Triple(m.ex - m.sx, 0, 0)));
    }
  }

  lemma LeafIsFine(p: Files, r: Range)
    requires FromLines(p) && Fit(p.b) && Within(r, p) && Indexed(p) && |p.b| > 0 && Lcs(p, r).sx == Lcs(p, r).ex
    ensures NothingLeft(p, r)
  {
    hide Lcs, FromLines, SharesNear, Shares;
    if Scorable(r) {
      FindsIff(p, r);
    }
  }

  /** In no hunk of a diff is a block left that the search could find: nowhere are lines
      replaced that could have been copied. */
  lemma DiffIsFine(p: Files)
    requires FromLines(p) && Fit(p.b) && Indexed(p)
    ensures FineHunks(p, DiffAll(p), |p.a|, |p.b|)
  {
    hide DiffStep, Append, FromLines, NothingLeft, FineHunks, Normal, Open, Header, Footer;
    var head, foot := Header(p), Footer(p);
    HeaderAndFooterAgree(p);
    var r := Range(head, |p.a| - foot, head, |p.b| - foot);
    var ts := AppendCopy([], head);
    NothingIsFine(p);
    AppendCopyKeepsNormal([], head, ts);
    if head > 0 { FineAppendCopy(p, [], 0, 0, head); }
    DiffStepFine(p, r, ts);
    if foot > 0 { FineAppendCopy(p, DiffStep(p, r, ts), |p.a| - foot, |p.b| - foot, foot); }
  }

  lemma NothingIsFine(p: Files)
    requires Fit(p.b)
    ensures FineHunks(p, [], 0, 0) && Normal([])
  {
  }

  // ----- both ends -----

  lemma {:induction false} BackwardFinds(p: Files, i: nat, j: nat, n: nat, m: nat)
    requires n <= i <= |p.a| && n <= j <= |p.b| && m <= n && p.a[i - m..i] == p.b[j - m..j]
    ensures m <= Backward(p, i, j, n)
    decreases n
  {
    if m > 0 {
      assert p.a[i - 1] == p.a[i - m..i][m - 1] && p.b[j - 1] == p.b[j - m..j][m - 1];
      assert p.a[i - m..i - 1] == p.a[i - m..i][..m - 1] && p.b[j - m..j - 1] == p.b[j - m..j][..m - 1];
      BackwardFinds(p, i - 1, j - 1, n - 1, m - 1);
    }
  }

  ghost predicate SameEnd(p: Files, n: nat)
  {
    n <= |p.a| && n <= |p.b| && p.a[|p.a| - n..|p.a|] == p.b[|p.b| - n..|p.b|]
  }

  lemma FooterIsEnd(p: Files)
    ensures SameEnd(p, Footer(p)) && forall n: nat :: SameEnd(p, n) ==> n <= Footer(p)
  {
    hide Backward;
    HeaderAndFooterAgree(p);
    forall n: nat | SameEnd(p, n)
      ensures n <= Footer(p)
    {
      BackwardFinds(p, |p.a|, |p.b|, Min(|p.a|, |p.b|), n);
    }
  }

  lemma HeaderIsLong(p: Files, n: nat)
    requires n + Footer(p) <= |p.a| && n + Footer(p) <= |p.b| && p.a[0..n] == p.b[0..n]
    ensures n <= Header(p)
  {
    hide Footer, Forward;
    ForwardFinds(p, 0, 0, Min(|p.a| - Footer(p), |p.b| - Footer(p)), n);
  }

  lemma CarvedCopies(p: Files, head: nat, foot: nat)
    requires Indexed(p) && head + foot <= |p.a| && head + foot <= |p.b|
    ensures var ops := Ops(DiffCarved(p, head, foot));
      && head + foot <= |ops|
      && (forall k :: 0 <= k < head ==> ops[k] == C) && (forall k :: |ops| - foot <= k < |ops| ==> ops[k] == C)
  {
    hide Ops, DiffCarved;
    var middle := DiffCarvedRuns(p, head, foot, DiffCarved(p, head, foot));
  }

  /** The lines that both files end with are copied. */
  lemma EndIsCopied(p: Files, n: nat)
    requires Indexed(p) && SameEnd(p, n)
    ensures var ops := Ops(DiffAll(p)); n <= |ops| && forall k :: |ops| - n <= k < |ops| ==> ops[k] == C
  {
    hide Ops, DiffCarved, Footer, Header, SameEnd;
    FooterIsEnd(p);
    HeaderAndFooterAgree(p);
    CarvedCopies(p, Header(p), Footer(p));
  }

  /** And then those that both begin with, before that end. */
  lemma StartIsCopied(p: Files, n: nat, end: nat)
    requires Indexed(p) && n + end <= |p.a| && n + end <= |p.b| && p.a[0..n] == p.b[0..n]
    requires forall k: nat :: SameEnd(p, k) ==> k <= end
    ensures var ops := Ops(DiffAll(p)); n <= |ops| && forall k :: 0 <= k < n ==> ops[k] == C
  {
    hide Ops, DiffCarved, Footer, Header, SameEnd;
    FooterIsEnd(p);
    HeaderIsLong(p, n);
    HeaderAndFooterAgree(p);
    CarvedCopies(p, Header(p), Footer(p));
  }

  // ----- an example above 400 -----

  function Letter(k: nat): string
    requires k < 26
  {
    [('A' as int + k) as char]
  }

  /** The lines A, B..U, V, and the lines W, B..U, X. */
  function OldLines(): (a: seq<string>)
    ensures |a| == 22 && forall k :: 0 <= k < 22 ==> a[k] == Letter(k)
  {
    seq(22, k requires 0 <= k < 22 => Letter(k))
  }

  function NewLines(): (b: seq<string>)
    ensures |b| == 22 && b[0] == Letter(22) && b[21] == Letter(23)
    ensures forall k :: 0 < k < 21 ==> b[k] == Letter(k)
  {
    OldLines()[0 := Letter(22)][21 := Letter(23)]
  }

  lemma LettersDiffer(j: nat, k: nat)
    requires j < 26 && k < 26 && Letter(j) == Letter(k)
    ensures j == k
  {
    assert Letter(j)[0] == Letter(k)[0];
  }

  lemma SharedLetters(x: nat, y: nat)
    requires x < 22 && y < 22
    ensures OldLines()[x] == NewLines()[y] <==> x == y && 0 < x < 21
  {
    hide Letter, OldLines, NewLines;
    var a, b := OldLines(), NewLines();
    var k := if y == 0 then 22 else if y == 21 then 23 else y;
    assert b[y] == Letter(k) && a[x] == Letter(x);
    if a[x] == b[y] {
      LettersDiffer(x, k);
    }
  }

  lemma TwentyTwoBlock(p: Files)
    requires FromLines(p) && Indexed(p) && p.a == OldLines() && p.b == NewLines()
    ensures Lcs(p, Range(0, 22, 0, 22)) == Match(1, 21, 1, 21)
  {
    hide Lcs, FromLines, Behind, OldLines, NewLines, ScoresMost, Letter;
    LinesAreFit(p);
    var r := Range(0, 22, 0, 22);
    LcsSplits(p, r);
    SharedLetters(10, 10);
    assert Usable(p, r, 10, 10);
    ElevenBehind(p.b, 10);
    var z := NearMeansHit(p, r, 10, 10);
    assert !NoHit(p, r, 22) by { assert Hit(p, r, 10, z); }
    var m := Lcs(p, r);
    var x: nat, y: nat :| x < 22 && Hit(p, r, x, y) && MaximalAt(p, r, m, x, y);
    HitIsUsable(p, r, x, y);
    SharedLetters(x, y);
    DiagonalBlock(p, r, m, x);
  }

  lemma DiagonalBlock(p: Files, r: Range, m: Match, x: nat)
    requires p.a == OldLines() && p.b == NewLines() && r == Range(0, 22, 0, 22) && Within(r, p)
    requires 0 < x < 21 && MaximalAt(p, r, m, x, x)
    ensures m == Match(1, 21, 1, 21)
  {
    hide OldLines, NewLines, Letter;
    BlockAgrees(p, r, m, m.sx);
    BlockAgrees(p, r, m, m.ex - 1);
    SharedLetters(m.sx, m.sy);
    SharedLetters(m.ex - 1, m.ey - 1);
    SharedLetters(m.sx - 1, m.sy - 1);
    SharedLetters(m.ex, m.ey);
  }

  lemma ElevenBehind(b: seq<string>, y: nat)
    requires Fit(b) && |b| == 22 && y == 10
    ensures |Behind(b, y)| <= 11
  {
    hide LineHash;
    var all: set<nat> := {11, 12, 13, 14, 15, 16, 17, 18, 19, 20, 21};
    assert Behind(b, y) <= all;
    SubsetIsSmaller(Behind(b, y), all);
  }

  /** Two ranges of one line, which differ, hold no block. */
  lemma OneLineEach(p: Files, k: nat)
    requires FromLines(p) && Indexed(p) && k < |p.a| && k < |p.b| && p.a[k] != p.b[k]
    ensures Lcs(p, Range(k, k + 1, k, k + 1)).sx == Lcs(p, Range(k, k + 1, k, k + 1)).ex
  {
    hide Lcs, FromLines, Behind;
    LinesAreFit(p);
    LcsInside(p, Range(k, k + 1, k, k + 1));
    FindsIff(p, Range(k, k + 1, k, k + 1));
  }

  lemma NoCommonEnds(p: Files)
    requires p.a == OldLines() && p.b == NewLines()
    ensures Header(p) == 0 && Footer(p) == 0
  {
    hide OldLines, NewLines, Letter;
    SharedLetters(0, 0);
    SharedLetters(21, 21);
  }

  lemma TheAppends()
    ensures Append([], Triple(0, 1, 1)) == [Triple(0, 1, 1)]
    ensures Append([Triple(0, 1, 1)], Triple(20, 0, 0)) == [Triple(0, 1, 1), Triple(20, 0, 0)]
    ensures Append([Triple(0, 1, 1), Triple(20, 0, 0)], Triple(0, 1, 1)) == [Triple(0, 1, 1), Triple(20, 1, 1)]
  {
    var two := [Triple(0, 1, 1), Triple(20, 0, 0)];
    assert two[..1] == [Triple(0, 1, 1)];
  }

  lemma TwentyTwoSteps(p: Files)
    requires FromLines(p) && Indexed(p) && p.a == OldLines() && p.b == NewLines()
    ensures DiffStep(p, Range(0, 22, 0, 22), []) == [Triple(0, 1, 1), Triple(20, 1, 1)]
  {
    hide Lcs, FromLines, OldLines, NewLines, DiffStep, Append;
    TheAppends();
    TwentyTwoBlock(p);
    SharedLetters(0, 0);
    SharedLetters(21, 21);
    OneLineEach(p, 0);
    OneLineEach(p, 21);
    LcsInside(p, Range(0, 1, 0, 1));
    LcsInside(p, Range(21, 22, 21, 22));
    DiffStepCases(p, Range(0, 22, 0, 22), []);
    DiffStepCases(p, Range(0, 1, 0, 1), []);
    DiffStepCases(p, Range(21, 22, 21, 22), [Triple(0, 1, 1), Triple(20, 0, 0)]);
  }

  /** The twenty lines that both have are one copy, although the ranges are too large for
      the exhaustive search. */
  lemma TwentyTwoLines(p: Files)
    requires FromLines(p) && Indexed(p) && p.a == OldLines() && p.b == NewLines()
    ensures DiffAll(p) == [Triple(0, 1, 1), Triple(20, 1, 1)]
  {
    hide FromLines, OldLines, NewLines, DiffStep, Header, Footer, Append;
    NoCommonEnds(p);
    TwentyTwoSteps(p);
  }
}
