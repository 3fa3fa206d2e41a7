/** What a merge that fails has written: when it has written nothing at all. */
module MergeFailure {
  import opened EditScript
  import opened MergeSpec
  import opened MergeMeaning
  import opened MergeLaws

  /** Two edits that overlap and are not the same. */
  ghost predicate Clash(x: Edit, y: Edit)
  {
    x != y && !Apart(x, y)
  }

  function FirstLine(x: Edit, y: Edit): nat
  {
    if x.start < y.start then x.start else y.start
  }

  /** Some edit deletes line `k` of the pivot. */
  ghost predicate Deletes(es: seq<Edit>, k: nat)
  {
    exists x :: x in es && x.start <= k < x.start + x.del
  }

  /** From line `pos` up to line `q` nothing is kept by both versions, and nothing is
      inserted by an edit that starts before `q`. */
  ghost predicate Silent(e1: seq<Edit>, e2: seq<Edit>, pos: nat, q: nat)
  {
    && (forall k: nat :: pos <= k < q ==> Deletes(e1, k) || Deletes(e2, k))
    && (forall x :: (x in e1 || x in e2) && x.start < q ==> x.ins == [])
  }

  ghost predicate ClashAt(e1: seq<Edit>, e2: seq<Edit>, x: Edit, y: Edit)
  {
    x in e1 && y in e2 && Clash(x, y)
  }

  /** Two edits clash, and there is nothing to write before them. */
  ghost predicate SilentClash(e1: seq<Edit>, e2: seq<Edit>, pos: nat)
  {
    exists x, y :: ClashAt(e1, e2, x, y) && Silent(e1, e2, pos, FirstLine(x, y))
  }

  lemma SilentClashSwap(e1: seq<Edit>, e2: seq<Edit>, pos: nat)
    ensures SilentClash(e1, e2, pos) <==> SilentClash(e2, e1, pos)
  {
    if x, y :| ClashAt(e1, e2, x, y) && Silent(e1, e2, pos, FirstLine(x, y)) {
      assert ClashAt(e2, e1, y, x) && Silent(e2, e1, pos, FirstLine(y, x));
    }
    if x, y :| ClashAt(e2, e1, x, y) && Silent(e2, e1, pos, FirstLine(x, y)) {
      assert ClashAt(e1, e2, y, x) && Silent(e1, e2, pos, FirstLine(y, x));
    }
  }

  /** Where both versions keep the next line there is something to write. */
  lemma KeptLineIsNotSilent(e1: seq<Edit>, e2: seq<Edit>, pos: nat)
    requires forall x :: x in e1 || x in e2 ==> x.start > pos
    ensures !SilentClash(e1, e2, pos)
  {
    forall x, y | ClashAt(e1, e2, x, y)
      ensures !Silent(e1, e2, pos, FirstLine(x, y))
    {
      assert !Deletes(e1, pos) && !Deletes(e2, pos);
    }
  }

  /** An edit apart from all others takes no part in a clash. */
  lemma FirstTakesNoPart(e: Edit, e1: seq<Edit>, e2: seq<Edit>, rest: seq<Edit>, x: Edit, y: Edit)
    requires e2 == [e] + rest
    requires forall z :: z in e1 ==> z.start > e.start && z.start >= e.start + e.del
    ensures ClashAt(e1, e2, x, y) <==> ClashAt(e1, rest, x, y)
  {
  }

  /** An edit that inserts is written before any clash of later edits. */
  lemma InsertIsNotSilent(e: Edit, e1: seq<Edit>, e2: seq<Edit>, rest: seq<Edit>)
    requires e2 == [e] + rest && e.ins != []
    requires forall z :: z in e1 ==> z.start > e.start && z.start >= e.start + e.del
    requires forall z :: z in rest ==> z.start > e.start
    ensures !SilentClash(e1, e2, e.start)
  {
    forall x, y | ClashAt(e1, e2, x, y)
      ensures !Silent(e1, e2, e.start, FirstLine(x, y))
    {
      FirstTakesNoPart(e, e1, e2, rest, x, y);
      assert e in e2;
    }
  }

  /** A deletion at the front, in one version, changes nothing but where it starts. */
  lemma SilentAfterDeletion(e: Edit, e1: seq<Edit>, e2: seq<Edit>, rest: seq<Edit>, q: nat)
    requires e2 == [e] + rest && e.ins == [] && q >= e.start + e.del
    ensures Silent(e1, e2, e.start, q) <==> Silent(e1, rest, e.start + e.del, q)
  {
    var pos, d := e.start, e.del;
    assert forall k: nat :: Deletes(e2, k) <==> pos <= k < pos + d || Deletes(rest, k) by {
      forall k: nat
        ensures Deletes(e2, k) <==> pos <= k < pos + d || Deletes(rest, k)
      {
        if pos <= k < pos + d {
          assert e in e2;
        }
      }
    }
    assert forall x :: x in e2 <==> x == e || x in rest;
  }

  lemma DeletionKeepsSilence(e: Edit, e1: seq<Edit>, e2: seq<Edit>, rest: seq<Edit>)
    requires e2 == [e] + rest && e.ins == []
    requires forall z :: z in e1 ==> z.start > e.start && z.start >= e.start + e.del
    requires forall z :: z in rest ==> z.start > e.start + e.del
    ensures SilentClash(e1, e2, e.start) <==> SilentClash(e1, rest, e.start + e.del)
  {
    hide Silent;
    forall x, y | ClashAt(e1, e2, x, y) || ClashAt(e1, rest, x, y)
      ensures ClashAt(e1, e2, x, y) && ClashAt(e1, rest, x, y)
      ensures Silent(e1, e2, e.start, FirstLine(x, y)) <==> Silent(e1, rest, e.start + e.del, FirstLine(x, y))
    {
      FirstTakesNoPart(e, e1, e2, rest, x, y);
      SilentAfterDeletion(e, e1, e2, rest, FirstLine(x, y));
    }
    hide ClashAt;
  }

  /** The same edit at the front of both. */
  lemma SharedTakesNoPart(e: Edit, e1: seq<Edit>, r1: seq<Edit>, e2: seq<Edit>, r2: seq<Edit>, x: Edit, y: Edit)
    requires e1 == [e] + r1 && e2 == [e] + r2
    requires forall z :: z in r1 || z in r2 ==> z.start > e.start + e.del
    ensures ClashAt(e1, e2, x, y) <==> ClashAt(r1, r2, x, y)
    ensures ClashAt(e1, e2, x, y) ==> FirstLine(x, y) > e.start + e.del
  {
  }

  lemma SharedInsertIsNotSilent(e: Edit, e1: seq<Edit>, r1: seq<Edit>, e2: seq<Edit>, r2: seq<Edit>)
    requires e1 == [e] + r1 && e2 == [e] + r2 && e.ins != []
    requires forall z :: z in r1 || z in r2 ==> z.start > e.start + e.del
    ensures !SilentClash(e1, e2, e.start)
  {
    forall x, y | ClashAt(e1, e2, x, y)
      ensures !Silent(e1, e2, e.start, FirstLine(x, y))
    {
      SharedTakesNoPart(e, e1, r1, e2, r2, x, y);
      assert e in e1;
    }
  }

  lemma SharedDeletionKeepsSilence(e: Edit, e1: seq<Edit>, r1: seq<Edit>, e2: seq<Edit>, r2: seq<Edit>)
    requires e1 == [e] + r1 && e2 == [e] + r2 && e.ins == []
    requires forall z :: z in r1 || z in r2 ==> z.start > e.start + e.del
    ensures SilentClash(e1, e2, e.start) <==> SilentClash(r1, r2, e.start + e.del)
  {
    hide Silent;
    forall x, y | ClashAt(e1, e2, x, y) || ClashAt(r1, r2, x, y)
      ensures ClashAt(e1, e2, x, y) && ClashAt(r1, r2, x, y)
      ensures Silent(e1, e2, e.start, FirstLine(x, y)) <==> Silent(r1, r2, e.start + e.del, FirstLine(x, y))
    {
      var q := FirstLine(x, y);
      SharedTakesNoPart(e, e1, r1, e2, r2, x, y);
      SilentOfShared(e, e1, r1, e2, r2, q);
    }
    hide ClashAt;
  }

  lemma SilentOfShared(e: Edit, e1: seq<Edit>, r1: seq<Edit>, e2: seq<Edit>, r2: seq<Edit>, q: nat)
    requires e1 == [e] + r1 && e2 == [e] + r2 && e.ins == [] && q > e.start + e.del
    ensures Silent(e1, e2, e.start, q) <==> Silent(r1, r2, e.start + e.del, q)
  {
    SilentAfterDeletion(e, e1, e2, r2, q);
    forall k: nat | e.start + e.del <= k
      ensures Deletes(e1, k) <==> Deletes(r1, k)
    {
      assert forall x :: x in e1 <==> x == e || x in r1;
    }
    assert forall x :: x in e1 <==> x == e || x in r1;
  }

  // ----- the merge, step by step -----

  ghost predicate SilentSides(s1: Side, s2: Side, pos: nat)
  {
    SilentClash(Edits(s1.c, s1.v, pos), Edits(s2.c, s2.v, pos), pos)
  }

  /** The claim for one state of the merge. */
  ghost predicate EmptyDecided(p: seq<string>, s1: Side, s2: Side, pos: nat)
  {
    !MergeSides(p, s1, s2).ok && MergeSides(p, s1, s2).out == [] <==> SilentSides(s1, s2, pos)
  }

  lemma EmptySwap(p: seq<string>, s1: Side, s2: Side, pos: nat)
    ensures EmptyDecided(p, s1, s2, pos) <==> EmptyDecided(p, s2, s1, pos)
  {
    hide Merge, Edits, SilentClash;
    MergeSidesSwap(p, s1, s2);
    SilentClashSwap(Edits(s1.c, s1.v, pos), Edits(s2.c, s2.v, pos), pos);
  }

  lemma CopyEmpty(p: seq<string>, s1: Side, s2: Side, n: nat, pos: nat)
    requires CanCopy(s1, s2, n) && n <= |p|
    ensures EmptyDecided(p, s1, s2, pos)
  {
    hide Merge, Edits, SilentClash;
    MergeCopies(p, s1.v, s2.v, s1.c, s2.c, n);
    EditsStartLate(s1.c, s1.v, pos);
    EditsStartLate(s2.c, s2.v, pos);
    KeptLineIsNotSilent(Edits(s1.c, s1.v, pos), Edits(s2.c, s2.v, pos), pos);
    assert |Take(p, n)| == n;
  }

  lemma EditEmpty(p: seq<string>, s1: Side, s2: Side, d: nat, pos: nat)
    requires Ready(p, s1, s2) && CanEdit(s1, s2) && d == s2.c[0].del
    requires EmptyDecided(Drop(p, d), AfterCopy(s1, d), AfterEdit(s2), pos + d)
    ensures EmptyDecided(p, s1, s2, pos)
  {
    hide Merge, Edits, SilentClash, Normal, Covers;
    var e := Edit(pos, d, Take(s2.v, s2.c[0].ins));
    var e1, e2 := Edits(s1.c, s1.v, pos), Edits(s2.c, s2.v, pos);
    var rest := Edits(AfterEdit(s2).c, AfterEdit(s2).v, pos + d);
    EditsHead(s2.c, s2.v, pos, e);
    MergeEdits(p, s1.v, s2.v, s1.c, s2.c, d, s2.c[0].ins);
    EditsAfterCopy(s1.c, s1.v, pos, d);
    EditsStartLate(s1.c, s1.v, pos);
    if e.ins != [] {
      InsertIsNotSilent(e, e1, e2, rest);
    } else {
      DeletionKeepsSilence(e, e1, e2, rest);
    }
  }

  lemma ShareEmpty(p: seq<string>, s1: Side, s2: Side, d: nat, pos: nat)
    requires Ready(p, s1, s2) && CanShare(s1, s2) && d == s1.c[0].del
    requires EmptyDecided(Drop(p, d), AfterEdit(s1), AfterEdit(s2), pos + d)
    ensures EmptyDecided(p, s1, s2, pos)
  {
    hide Merge, Edits, SilentClash, Normal, Covers;
    var e := Edit(pos, d, Take(s1.v, s1.c[0].ins));
    var e1, r1 := Edits(s1.c, s1.v, pos), Edits(AfterEdit(s1).c, AfterEdit(s1).v, pos + d);
    var e2, r2 := Edits(s2.c, s2.v, pos), Edits(AfterEdit(s2).c, AfterEdit(s2).v, pos + d);
    EditsHead(s1.c, s1.v, pos, e);
    EditsHead(s2.c, s2.v, pos, e);
    MergeShares(p, s1.v, s2.v, s1.c, s2.c, d, s1.c[0].ins);
    if e.ins != [] {
      SharedInsertIsNotSilent(e, e1, r1, e2, r2);
    } else {
      SharedDeletionKeepsSilence(e, e1, r1, e2, r2);
    }
  }

  /** Where the merge is stuck two edits clash, one of them at the next line. */
  lemma StuckEmpty(p: seq<string>, s1: Side, s2: Side, pos: nat)
    requires Ready(p, s1, s2) && Stuck(s1, s2)
    ensures EmptyDecided(p, s1, s2, pos)
  {
    var e1, e2 := Edits(s1.c, s1.v, pos), Edits(s2.c, s2.v, pos);
    StuckWritesNothing(p, s1, s2);
    EditsStartLate(s1.c, s1.v, pos);
    EditsStartLate(s2.c, s2.v, pos);
    StuckDecided(p, s1, s2, pos);
    var x, y := StuckHeads(p, s1, s2, pos);
    assert ClashAt(e1, e2, x, y) && Silent(e1, e2, pos, FirstLine(x, y));
  }

  lemma StuckWritesNothing(p: seq<string>, s1: Side, s2: Side)
    requires Ready(p, s1, s2) && Stuck(s1, s2)
    ensures MergeSides(p, s1, s2) == Outcome(false, [])
  {
    assert s1.c[0] != ZERO && s2.c[0] != ZERO;
  }

  lemma StuckHeads(p: seq<string>, s1: Side, s2: Side, pos: nat) returns (x: Edit, y: Edit)
    requires Ready(p, s1, s2) && Stuck(s1, s2)
    ensures ClashAt(Edits(s1.c, s1.v, pos), Edits(s2.c, s2.v, pos), x, y) && FirstLine(x, y) == pos
  {
    assert s1.c[0] != ZERO && s2.c[0] != ZERO;
    if s1.c[0].copy > 0 && s1.c[0].del + s1.c[0].ins == 0 {
      CopyToTheEnd(s1.c, |p|, |s1.v|);
    }
    if s2.c[0].copy > 0 && s2.c[0].del + s2.c[0].ins == 0 {
      CopyToTheEnd(s2.c, |p|, |s2.v|);
    }
    x, y := HeadEdit(s1.c[0], s1.v, pos), HeadEdit(s2.c[0], s2.v, pos);
    HeadIsEdit(s1.c, s1.v, pos);
    HeadIsEdit(s2.c, s2.v, pos);
    assert Drop(s1.v, 0) == s1.v && Drop(s2.v, 0) == s2.v;
  }

  /** A merge fails and has written nothing exactly if two edits clash with nothing to
      write before them. */
  lemma {:induction false} EmptyFailureIffSilent(p: seq<string>, s1: Side, s2: Side, pos: nat)
    requires Ready(p, s1, s2)
    ensures EmptyDecided(p, s1, s2, pos)
    decreases |s1.c| + |s2.c|, HeadCopy(s1.c) + HeadCopy(s2.c)
  {
    hide Ready, EmptyDecided;
    if s1.c == [] || s2.c == [] {
      EndIsNotSilent(p, s1, s2, pos);
    } else if s1.c[0].copy > 0 && s2.c[0].copy > 0 {
      var n := Shorter(s1.c[0].copy, s2.c[0].copy);
      CopyStep(p, s1, s2, n);
      CopyEmpty(p, s1, s2, n, pos);
    } else if CanEdit(s1, s2) {
      var d := s2.c[0].del;
      EditStep(p, s1, s2);
      EmptyFailureIffSilent(Drop(p, d), AfterCopy(s1, d), AfterEdit(s2), pos + d);
      EditEmpty(p, s1, s2, d, pos);
    } else if CanEdit(s2, s1) {
      var d := s1.c[0].del;
      ReadySwap(p, s1, s2);
      EditStep(p, s2, s1);
      EmptyFailureIffSilent(Drop(p, d), AfterCopy(s2, d), AfterEdit(s1), pos + d);
      EditEmpty(p, s2, s1, d, pos);
      EmptySwap(p, s1, s2, pos);
    } else if CanShare(s1, s2) {
      var d := s1.c[0].del;
      ShareStep(p, s1, s2);
      EmptyFailureIffSilent(Drop(p, d), AfterEdit(s1), AfterEdit(s2), pos + d);
      ShareEmpty(p, s1, s2, d, pos);
    } else {
      StuckEmpty(p, s1, s2, pos);
    }
  }

  lemma EndIsNotSilent(p: seq<string>, s1: Side, s2: Side, pos: nat)
    requires s1.c == [] || s2.c == []
    ensures EmptyDecided(p, s1, s2, pos)
  {
    hide Silent;
  }
}
