/** The laws of the three-way merge: what a success writes, exactly when it
    succeeds, and what happens when one version changed nothing or both made the
    same changes. */
module MergeLaws {
  import opened EditScript
  import opened MergeSpec
  import opened MergeMeaning

  // ----- the steps of the merge -----

  /** Before a triple whose copies are used up comes a line the version keeps. */
  ghost predicate Flagged(s: Side)
  {
    s.c != [] && s.c[0].copy == 0 ==> s.kept
  }

  ghost predicate Ready(p: seq<string>, s1: Side, s2: Side)
  {
    Good(s1.c, p, s1.v) && Good(s2.c, p, s2.v) && Flagged(s1) && Flagged(s2)
  }

  function MergeSides(p: seq<string>, s1: Side, s2: Side): Outcome
  {
    Merge(p, s1.v, s2.v, s1.c, s2.c)
  }

  /** A version after `n` lines it copies. */
  function AfterCopy(s: Side, n: nat): Side
    requires n <= HeadCopy(s.c) && s.c != []
  {
    Side(Advance(Copied(s.c, n)), Drop(s.v, n), true)
  }

  /** A version after the edit at its head. */
  function AfterEdit(s: Side): Side
    requires s.c != []
  {
    Side(Advance(s.c[1..]), Drop(s.v, s.c[0].ins), s.c[0].del == 0)
  }

  /** Both versions copy `n` lines. */
  ghost predicate CanCopy(s1: Side, s2: Side, n: nat)
  {
    s1.c != [] && s2.c != [] && 0 < n && n == Shorter(s1.c[0].copy, s2.c[0].copy)
  }

  /** Version 2 edits inside lines that version 1 copies. */
  ghost predicate CanEdit(s1: Side, s2: Side)
  {
    && s1.c != [] && s2.c != [] && s2.c[0].copy == 0 && s2.c[0].del + s2.c[0].ins > 0
    && s2.c[0].del <= s1.c[0].copy && 0 < s1.c[0].copy
  }

  /** Both versions make the same edit. */
  ghost predicate CanShare(s1: Side, s2: Side)
  {
    && s1.c != [] && s2.c != [] && s1.c[0].copy == 0 && s2.c[0].copy == 0
    && SameEdit(s1.c[0], s2.c[0], s1.v, s2.v)
  }

  ghost predicate Stuck(s1: Side, s2: Side)
  {
    && s1.c != [] && s2.c != []
    && !(s1.c[0].copy > 0 && s2.c[0].copy > 0)
    && !CanEdit(s1, s2) && !CanEdit(s2, s1) && !CanShare(s1, s2)
  }

  lemma MergeSidesSwap(p: seq<string>, s1: Side, s2: Side)
    ensures MergeSides(p, s1, s2) == MergeSides(p, s2, s1)
  {
    MergeSymmetric(p, s1.v, s2.v, s1.c, s2.c);
  }

  // ----- what a merge writes -----

  /** The claim for one state of the merge: a success writes the three-way result, and
      a failure has written the beginning of it. */
  ghost predicate WritesThreeWay(p: seq<string>, s1: Side, s2: Side)
  {
    && (MergeSides(p, s1, s2).ok ==> MergeSides(p, s1, s2).out == ThreeWay(p, s1, s2, 0))
    && MergeSides(p, s1, s2).out <= ThreeWay(p, s1, s2, 0)
  }

  lemma WritesSwap(p: seq<string>, s1: Side, s2: Side)
    ensures WritesThreeWay(p, s1, s2) <==> WritesThreeWay(p, s2, s1)
  {
    MergeSidesSwap(p, s1, s2);
    ThreeWaySymmetric(p, s1, s2, 0);
  }

  lemma CopyStep(p: seq<string>, s1: Side, s2: Side, n: nat)
    requires Ready(p, s1, s2) && CanCopy(s1, s2, n)
    ensures n <= |p| && Ready(Drop(p, n), AfterCopy(s1, n), AfterCopy(s2, n))
  {
    GoodCopied(s1.c, p, s1.v, n);
    GoodCopied(s2.c, p, s2.v, n);
  }

  lemma CopyWrites(p: seq<string>, s1: Side, s2: Side, n: nat)
    requires Ready(p, s1, s2) && CanCopy(s1, s2, n)
    requires WritesThreeWay(Drop(p, n), AfterCopy(s1, n), AfterCopy(s2, n))
    ensures WritesThreeWay(p, s1, s2)
  {
    CopyStep(p, s1, s2, n);
    hide Merge;
    MergeCopies(p, s1.v, s2.v, s1.c, s2.c, n);
    ThreeWayCopies(p, s1, s2, n);
    ThreeWayAdvance(Drop(p, n), CopySide(s1, n), CopySide(s2, n));
  }

  lemma EditStep(p: seq<string>, s1: Side, s2: Side)
    requires Ready(p, s1, s2) && CanEdit(s1, s2)
    ensures s2.c[0].del <= |p| && Ready(Drop(p, s2.c[0].del), AfterCopy(s1, s2.c[0].del), AfterEdit(s2))
    ensures AfterEdit(s2).c == s2.c[1..] && (s2.c[1..] != [] ==> s2.c[1..][0].copy > 0)
  {
    GoodCopied(s1.c, p, s1.v, s2.c[0].del);
    GoodTail(s2.c, p, s2.v);
  }

  lemma EditWrites(p: seq<string>, s1: Side, s2: Side)
    requires Ready(p, s1, s2) && CanEdit(s1, s2)
    requires WritesThreeWay(Drop(p, s2.c[0].del), AfterCopy(s1, s2.c[0].del), AfterEdit(s2))
    ensures WritesThreeWay(p, s1, s2)
  {
    EditStep(p, s1, s2);
    EditMeans(p, s1, s2);
    MergeEdits(p, s1.v, s2.v, s1.c, s2.c, s2.c[0].del, s2.c[0].ins);
  }

  lemma EditMeans(p: seq<string>, s1: Side, s2: Side)
    requires Ready(p, s1, s2) && CanEdit(s1, s2) && s2.c[0].del <= |p|
    requires AfterEdit(s2).c == s2.c[1..] && (s2.c[1..] != [] ==> s2.c[1..][0].copy > 0)
    ensures ThreeWay(p, s1, s2, 0) ==
            Take(s2.v, s2.c[0].ins) + ThreeWay(Drop(p, s2.c[0].del), AfterCopy(s1, s2.c[0].del), AfterEdit(s2), 0)
  {
    var d := s2.c[0].del;
    ThreeWayDeletes(p, s1, s2, d);
    var w1 := Side(Copied(s1.c, d), Drop(s1.v, d), true);
    AfterDeletes(Drop(p, d), CopySide(s1, d), DeleteSide(s2, d), w1, AfterEdit(s2));
    ThreeWayAdvance(Drop(p, d), w1, AfterEdit(s2));
  }

  /** The insert that follows the deletions. */
  lemma AfterDeletes(p: seq<string>, s1: Side, s2: Side, u1: Side, u2: Side)
    requires s2.c != [] && s2.c[0].copy == 0 && s2.c[0].del == 0
    requires u2.c == s2.c[1..] && u2.v == Drop(s2.v, s2.c[0].ins) && u2.kept == s2.kept
    requires u2.c != [] ==> u2.c[0].copy > 0
    requires u1.c == s1.c && u1.v == s1.v && u1.kept
    requires s1.kept || Inserted(s1.c, s1.v, 0) == []
    requires Inserted(s1.c, s1.v, 0) == [] || !s2.kept
    ensures ThreeWay(p, s1, s2, 0) == Take(s2.v, s2.c[0].ins) + ThreeWay(p, u1, u2, 0)
  {
    InsertSide(s2, u2);
    assert SameAfterFirstGap(s1, u1);
    JoinedFirst(Inserted(s1.c, s1.v, 0), Take(s2.v, s2.c[0].ins), s1.kept, s2.kept);
    hide Joined, Inserted, SameAfterFirstGap;
    ThreeWayFirstGap(p, s1, s2, u1, u2, Take(s2.v, s2.c[0].ins));
  }

  lemma JoinedFirst(ins1: seq<string>, ins2: seq<string>, kept1: bool, kept2: bool)
    requires ins1 == [] || (kept1 && !kept2)
    ensures Joined(ins1, ins2, kept1, kept2) == ins2 + Joined(ins1, [], true, kept2)
  {
  }

  lemma ShareStep(p: seq<string>, s1: Side, s2: Side)
    requires Ready(p, s1, s2) && CanShare(s1, s2)
    ensures s1.c[0].del <= |p| && Ready(Drop(p, s1.c[0].del), AfterEdit(s1), AfterEdit(s2))
    ensures AfterEdit(s1).c == s1.c[1..] && (s1.c[1..] != [] ==> s1.c[1..][0].copy > 0)
    ensures AfterEdit(s2).c == s2.c[1..] && (s2.c[1..] != [] ==> s2.c[1..][0].copy > 0)
  {
    GoodTail(s1.c, p, s1.v);
    GoodTail(s2.c, p, s2.v);
  }

  lemma ShareWrites(p: seq<string>, s1: Side, s2: Side)
    requires Ready(p, s1, s2) && CanShare(s1, s2)
    requires WritesThreeWay(Drop(p, s1.c[0].del), AfterEdit(s1), AfterEdit(s2))
    ensures WritesThreeWay(p, s1, s2)
  {
    hide ThreeWay, Merge, Normal, Covers;
    var d := s1.c[0].del;
    ShareStep(p, s1, s2);
    ThreeWayBothDelete(p, s1, s2, d);
    InsertSide(DeleteSide(s1, d), AfterEdit(s1));
    InsertSide(DeleteSide(s2, d), AfterEdit(s2));
    ThreeWayFirstGap(Drop(p, d), DeleteSide(s1, d), DeleteSide(s2, d), AfterEdit(s1), AfterEdit(s2),
      Take(s1.v, s1.c[0].ins));
    MergeShares(p, s1.v, s2.v, s1.c, s2.c, s1.c[0].del, s1.c[0].ins);
  }

  lemma MergeEnds(p: seq<string>, s1: Side, s2: Side)
    requires s1.c == [] || s2.c == []
    ensures MergeSides(p, s1, s2) == Outcome(true, Leftover(s1.v, s2.v, s1.c, s2.c))
  {
  }

  lemma ThreeWayEnds(s1: Side, s2: Side)
    ensures ThreeWay([], s1, s2, 0) ==
      Joined(Inserted(s1.c, s1.v, 0), Inserted(s2.c, s2.v, 0), KeptBefore(s1, 0), KeptBefore(s2, 0))
  {
    hide Joined, Inserted;
  }

  /** One vector has ended. */
  lemma EndStep(p: seq<string>, s1: Side, s2: Side)
    requires Ready(p, s1, s2) && (s1.c == [] || s2.c == [])
    ensures WritesThreeWay(p, s1, s2)
  {
    hide MergeSides, ThreeWay, Inserted, Good;
    EndOfPivot(p, s1, s2);
    MergeEnds(p, s1, s2);
    ThreeWayEnds(s1, s2);
    InsertedAtEnd(s1.c, s1.v);
    InsertedAtEnd(s2.c, s2.v);
    assert s1.v + [] == s1.v && s2.v + [] == s2.v;
  }

  lemma EndOfPivot(p: seq<string>, s1: Side, s2: Side)
    requires Ready(p, s1, s2) && (s1.c == [] || s2.c == [])
    ensures p == []
  {
  }

  lemma InsertedAtEnd(c: seq<Triple>, v: seq<string>)
    requires Good(c, [], v)
    ensures Inserted(c, v, 0) == v && (c == [] <==> v == [])
    ensures c != [] ==> c[0].ins > 0 && Take(v, c[0].ins) == v
  {
    GoodAtEnd(c, v);
    if c != [] {
      assert Drop(v, 0) == v;
      assert Inserted(c[1..], Drop(v, c[0].ins), 0) == [];
    }
  }

  /** A merge that succeeds writes, in order, each line of the pivot that both
      versions keep and each version's inserts in their gaps; one that fails has
      written the beginning of that. */
  lemma {:induction false} MergeIsThreeWay(p: seq<string>, s1: Side, s2: Side)
    requires Ready(p, s1, s2)
    ensures WritesThreeWay(p, s1, s2)
    decreases |s1.c| + |s2.c|, HeadCopy(s1.c) + HeadCopy(s2.c)
  {
    hide Ready, WritesThreeWay;
    if s1.c == [] || s2.c == [] {
      EndStep(p, s1, s2);
    } else if s1.c[0].copy > 0 && s2.c[0].copy > 0 {
      var n := Shorter(s1.c[0].copy, s2.c[0].copy);
      CopyStep(p, s1, s2, n);
      MergeIsThreeWay(Drop(p, n), AfterCopy(s1, n), AfterCopy(s2, n));
      CopyWrites(p, s1, s2, n);
    } else if CanEdit(s1, s2) {
      EditStep(p, s1, s2);
      MergeIsThreeWay(Drop(p, s2.c[0].del), AfterCopy(s1, s2.c[0].del), AfterEdit(s2));
      EditWrites(p, s1, s2);
    } else if CanEdit(s2, s1) {
      ReadySwap(p, s1, s2);
      EditStep(p, s2, s1);
      MergeIsThreeWay(Drop(p, s1.c[0].del), AfterCopy(s2, s1.c[0].del), AfterEdit(s1));
      EditWrites(p, s2, s1);
      WritesSwap(p, s1, s2);
    } else if CanShare(s1, s2) {
      ShareStep(p, s1, s2);
      MergeIsThreeWay(Drop(p, s1.c[0].del), AfterEdit(s1), AfterEdit(s2));
      ShareWrites(p, s1, s2);
    } else {
      StuckFails(p, s1, s2);
    }
  }

  lemma ReadySwap(p: seq<string>, s1: Side, s2: Side)
    ensures Ready(p, s1, s2) <==> Ready(p, s2, s1)
  {
  }

  lemma StuckFails(p: seq<string>, s1: Side, s2: Side)
    requires Ready(p, s1, s2) && Stuck(s1, s2)
    ensures !MergeSides(p, s1, s2).ok && WritesThreeWay(p, s1, s2)
  {
    assert s1.c[0] != ZERO && s2.c[0] != ZERO;
  }

  // ----- exactly when a merge succeeds -----

  /** One edit: the lines start..start+del of the pivot become `ins`. */
  datatype Edit = Edit(start: nat, del: nat, ins: seq<string>)

  /** The edit of the triple at the head of a vector that starts at line `pos` of
      the pivot. */
  function HeadEdit(t: Triple, v: seq<string>, pos: nat): Edit
  {
    Edit(pos + t.copy, t.del, Take(Drop(v, t.copy), t.ins))
  }

  /** The edits of a vector that starts at line `pos` of the pivot. */
  function Edits(c: seq<Triple>, v: seq<string>, pos: nat): seq<Edit>
  {
    if c == [] then []
    else
      var t := c[0];
      var rest := Edits(c[1..], Drop(v, t.copy + t.ins), pos + t.copy + t.del);
      if t.del + t.ins > 0 then [HeadEdit(t, v, pos)] + rest else rest
  }

  /** One edit starts, strictly, before the other and ends no later than the other
      starts. */
  ghost predicate Apart(x: Edit, y: Edit)
  {
    || (x.start < y.start && x.start + x.del <= y.start)
    || (y.start < x.start && y.start + y.del <= x.start)
  }

  /** Any two edits of the two versions are the same edit or lie apart. */
  ghost predicate Compatible(e1: seq<Edit>, e2: seq<Edit>)
  {
    forall x, y :: x in e1 && y in e2 ==> x == y || Apart(x, y)
  }

  /** No edit starts before `pos`. */
  lemma {:induction false} EditsStartLate(c: seq<Triple>, v: seq<string>, pos: nat)
    ensures forall x :: x in Edits(c, v, pos) ==> x.start >= pos + HeadCopy(c)
  {
    if c != [] {
      EditsStartLate(c[1..], Drop(v, c[0].copy + c[0].ins), pos + c[0].copy + c[0].del);
    }
  }

  lemma HeadEditOfCopied(t: Triple, v: seq<string>, pos: nat, n: nat)
    requires n <= t.copy
    ensures HeadEdit(t.(copy := t.copy - n), Drop(v, n), pos + n) == HeadEdit(t, v, pos)
    ensures Drop(Drop(v, n), t.copy - n + t.ins) == Drop(v, t.copy + t.ins)
  {
    DropSum(v, n, t.copy - n);
    DropSum(v, n, t.copy - n + t.ins);
  }

  /** Consuming copied lines changes no edit. */
  lemma EditsAfterCopy(c: seq<Triple>, v: seq<string>, pos: nat, n: nat)
    requires c != [] && n <= c[0].copy
    ensures Edits(Advance(Copied(c, n)), Drop(v, n), pos + n) == Edits(c, v, pos)
  {
    hide HeadEdit, Drop;
    HeadEditOfCopied(c[0], v, pos, n);
  }

  /** The head edit of a vector whose copies are used up, and the others, which
      start strictly after it ends. */
  lemma EditsHead(c: seq<Triple>, v: seq<string>, pos: nat, e: Edit)
    requires Normal(c) && c != [] && c[0].copy == 0
    requires e == Edit(pos, c[0].del, Take(v, c[0].ins))
    ensures Edits(c, v, pos) == [e] + Edits(Advance(c[1..]), Drop(v, c[0].ins), pos + c[0].del)
    ensures forall x :: x in Edits(Advance(c[1..]), Drop(v, c[0].ins), pos + c[0].del) ==> x.start > pos + c[0].del
  {
    NormalTail(c);
    assert Drop(v, 0) == v;
    EditsStartLate(c[1..], Drop(v, c[0].ins), pos + c[0].del);
  }

  lemma CompatibleSplit(e: Edit, rest: seq<Edit>, others: seq<Edit>)
    requires forall y :: y in others ==> e == y || Apart(e, y)
    ensures Compatible([e] + rest, others) <==> Compatible(rest, others)
  {
  }

  lemma CompatibleSwap(e1: seq<Edit>, e2: seq<Edit>)
    ensures Compatible(e1, e2) <==> Compatible(e2, e1)
  {
  }

  lemma HeadIsEdit(c: seq<Triple>, v: seq<string>, pos: nat)
    requires c != [] && c[0].del + c[0].ins > 0
    ensures HeadEdit(c[0], v, pos) in Edits(c, v, pos)
  {
    assert HeadEdit(c[0], v, pos) == Edits(c, v, pos)[0];
  }

  /** Two different edits that start at the same line. */
  lemma ClashIsIncompatible(p: seq<string>, s1: Side, s2: Side, pos: nat)
    requires Ready(p, s1, s2) && s1.c != [] && s2.c != []
    requires s1.c[0].copy == 0 && s2.c[0].copy == 0 && !SameEdit(s1.c[0], s2.c[0], s1.v, s2.v)
    ensures !Compatible(Edits(s1.c, s1.v, pos), Edits(s2.c, s2.v, pos))
  {
    HeadIsEdit(s1.c, s1.v, pos);
    HeadIsEdit(s2.c, s2.v, pos);
    var x, y := HeadEdit(s1.c[0], s1.v, pos), HeadEdit(s2.c[0], s2.v, pos);
    assert x != y by {
      assert Drop(s1.v, 0) == s1.v && Drop(s2.v, 0) == s2.v;
      assert |x.ins| == s1.c[0].ins && |y.ins| == s2.c[0].ins;
    }
    assert !Apart(x, y);
  }

  /** Only the last triple may copy without editing. */
  lemma CopyToTheEnd(c: seq<Triple>, np: nat, nv: nat)
    requires Normal(c) && Covers(c, np, nv) && c != [] && c[0].del + c[0].ins == 0
    ensures np == c[0].copy
  {
    assert |c| == 1 && c[1..] == [];
    assert Covers(c[1..], np - c[0].copy - c[0].del, nv - c[0].copy - c[0].ins);
  }

  /** An edit that reaches beyond the start of the other version's next one. */
  lemma OverlapIsIncompatible(p: seq<string>, s1: Side, s2: Side, pos: nat)
    requires Ready(p, s1, s2) && s1.c != [] && s2.c != []
    requires s1.c[0].copy == 0 < s2.c[0].copy < s1.c[0].del
    ensures !Compatible(Edits(s1.c, s1.v, pos), Edits(s2.c, s2.v, pos))
  {
    if s2.c[0].del + s2.c[0].ins == 0 {
      CopyToTheEnd(s2.c, |p|, |s2.v|);
      assert false;
    }
    HeadIsEdit(s1.c, s1.v, pos);
    HeadIsEdit(s2.c, s2.v, pos);
    assert !Apart(HeadEdit(s1.c[0], s1.v, pos), HeadEdit(s2.c[0], s2.v, pos));
  }

  // ----- success, step by step -----

  ghost predicate CompatibleSides(s1: Side, s2: Side, pos: nat)
  {
    Compatible(Edits(s1.c, s1.v, pos), Edits(s2.c, s2.v, pos))
  }

  /** The claim for one state of the merge. */
  ghost predicate DecidedByEdits(p: seq<string>, s1: Side, s2: Side, pos: nat)
  {
    MergeSides(p, s1, s2).ok <==> CompatibleSides(s1, s2, pos)
  }

  lemma DecidedSwap(p: seq<string>, s1: Side, s2: Side, pos: nat)
    ensures DecidedByEdits(p, s1, s2, pos) <==> DecidedByEdits(p, s2, s1, pos)
  {
    hide Merge, Edits, Compatible;
    MergeSidesSwap(p, s1, s2);
    CompatibleSwap(Edits(s1.c, s1.v, pos), Edits(s2.c, s2.v, pos));
  }

  lemma CopyDecided(p: seq<string>, s1: Side, s2: Side, n: nat, pos: nat)
    requires CanCopy(s1, s2, n)
    requires DecidedByEdits(Drop(p, n), AfterCopy(s1, n), AfterCopy(s2, n), pos + n)
    ensures DecidedByEdits(p, s1, s2, pos)
  {
    hide Merge, Edits, Compatible;
    MergeCopies(p, s1.v, s2.v, s1.c, s2.c, n);
    EditsAfterCopy(s1.c, s1.v, pos, n);
    EditsAfterCopy(s2.c, s2.v, pos, n);
  }

  /** An edit inside lines the other version copies lies apart from all its edits. */
  lemma EditDecided(p: seq<string>, s1: Side, s2: Side, d: nat, pos: nat)
    requires Ready(p, s1, s2) && CanEdit(s1, s2) && d == s2.c[0].del
    requires DecidedByEdits(Drop(p, d), AfterCopy(s1, d), AfterEdit(s2), pos + d)
    ensures DecidedByEdits(p, s1, s2, pos)
  {
    hide Merge, Edits, Compatible, Normal, Covers;
    var e := Edit(pos, d, Take(s2.v, s2.c[0].ins));
    EditsHead(s2.c, s2.v, pos, e);
    MergeEdits(p, s1.v, s2.v, s1.c, s2.c, s2.c[0].del, s2.c[0].ins);
    EditsAfterCopy(s1.c, s1.v, pos, d);
    EditsStartLate(s1.c, s1.v, pos);
    FirstIsApart(e, Edits(s1.c, s1.v, pos), Edits(s2.c, s2.v, pos),
                 Edits(AfterEdit(s2).c, AfterEdit(s2).v, pos + d), pos + HeadCopy(s1.c));
  }

  lemma FirstIsApart(e: Edit, e1: seq<Edit>, e2: seq<Edit>, rest: seq<Edit>, bound: nat)
    requires e2 == [e] + rest
    requires forall y :: y in e1 ==> y.start >= bound
    requires e.start < bound && e.start + e.del <= bound
    ensures Compatible(e1, e2) <==> Compatible(e1, rest)
  {
    CompatibleSplit(e, rest, e1);
    CompatibleSwap(e2, e1);
    CompatibleSwap(rest, e1);
  }

  /** The same edit in both versions lies apart from all later edits of both. */
  lemma ShareDecided(p: seq<string>, s1: Side, s2: Side, d: nat, pos: nat)
    requires Ready(p, s1, s2) && CanShare(s1, s2) && d == s1.c[0].del
    requires DecidedByEdits(Drop(p, d), AfterEdit(s1), AfterEdit(s2), pos + d)
    ensures DecidedByEdits(p, s1, s2, pos)
  {
    hide Merge, Edits, Compatible, Normal, Covers;
    var e := Edit(pos, d, Take(s1.v, s1.c[0].ins));
    EditsHead(s1.c, s1.v, pos, e);
    EditsHead(s2.c, s2.v, pos, e);
    MergeShares(p, s1.v, s2.v, s1.c, s2.c, s1.c[0].del, s1.c[0].ins);
    BothFirst(e, Edits(s1.c, s1.v, pos), Edits(AfterEdit(s1).c, AfterEdit(s1).v, pos + d),
              Edits(s2.c, s2.v, pos), Edits(AfterEdit(s2).c, AfterEdit(s2).v, pos + d));
  }

  lemma BothFirst(e: Edit, e1: seq<Edit>, r1: seq<Edit>, e2: seq<Edit>, r2: seq<Edit>)
    requires e1 == [e] + r1 && e2 == [e] + r2
    requires forall y :: y in r1 || y in r2 ==> y.start > e.start + e.del
    ensures Compatible(e1, e2) <==> Compatible(r1, r2)
  {
    CompatibleSplit(e, r1, e2);
    CompatibleSwap(r1, e2);
    CompatibleSplit(e, r2, r1);
    CompatibleSwap(r1, r2);
  }

  lemma StuckDecided(p: seq<string>, s1: Side, s2: Side, pos: nat)
    requires Ready(p, s1, s2) && Stuck(s1, s2)
    ensures DecidedByEdits(p, s1, s2, pos)
  {
    StuckFails(p, s1, s2);
    hide Edits, Compatible;
    assert s1.c[0] != ZERO && s2.c[0] != ZERO;
    if s1.c[0].copy > 0 {
      OverlapIsIncompatible(p, s2, s1, pos);
      CompatibleSwap(Edits(s1.c, s1.v, pos), Edits(s2.c, s2.v, pos));
    } else if s2.c[0].copy > 0 {
      OverlapIsIncompatible(p, s1, s2, pos);
    } else {
      ClashIsIncompatible(p, s1, s2, pos);
    }
  }

  /** A merge succeeds exactly when any two edits of the two versions are the same
      or lie apart. */
  lemma {:induction false} MergeSucceedsIffCompatible(p: seq<string>, s1: Side, s2: Side, pos: nat)
    requires Ready(p, s1, s2)
    ensures DecidedByEdits(p, s1, s2, pos)
    decreases |s1.c| + |s2.c|, HeadCopy(s1.c) + HeadCopy(s2.c)
  {
    hide Ready, DecidedByEdits;
    if s1.c == [] || s2.c == [] {
      NoEdits(p, s1, s2, pos);
    } else if s1.c[0].copy > 0 && s2.c[0].copy > 0 {
      var n := Shorter(s1.c[0].copy, s2.c[0].copy);
      CopyStep(p, s1, s2, n);
      MergeSucceedsIffCompatible(Drop(p, n), AfterCopy(s1, n), AfterCopy(s2, n), pos + n);
      CopyDecided(p, s1, s2, n, pos);
    } else if CanEdit(s1, s2) {
      var d := s2.c[0].del;
      EditStep(p, s1, s2);
      MergeSucceedsIffCompatible(Drop(p, d), AfterCopy(s1, d), AfterEdit(s2), pos + d);
      EditDecided(p, s1, s2, d, pos);
    } else if CanEdit(s2, s1) {
      var d := s1.c[0].del;
      ReadySwap(p, s1, s2);
      EditStep(p, s2, s1);
      MergeSucceedsIffCompatible(Drop(p, d), AfterCopy(s2, d), AfterEdit(s1), pos + d);
      EditDecided(p, s2, s1, d, pos);
      DecidedSwap(p, s1, s2, pos);
    } else if CanShare(s1, s2) {
      var d := s1.c[0].del;
      ShareStep(p, s1, s2);
      MergeSucceedsIffCompatible(Drop(p, d), AfterEdit(s1), AfterEdit(s2), pos + d);
      ShareDecided(p, s1, s2, d, pos);
    } else {
      StuckDecided(p, s1, s2, pos);
    }
  }

  lemma NoEdits(p: seq<string>, s1: Side, s2: Side, pos: nat)
    requires s1.c == [] || s2.c == []
    ensures DecidedByEdits(p, s1, s2, pos)
  {
  }
}
