/** What a successful merge writes, line by line of the pivot and gap by gap.
    The statement does not follow the merge loop. */
module MergeMeaning {
  import opened EditScript
  import opened MergeSpec

  /** The edit vector keeps line `k` of the pivot. */
  predicate Kept(c: seq<Triple>, k: nat)
  {
    if c == [] then false
    else if k < c[0].copy then true
    else if k < c[0].copy + c[0].del then false
    else Kept(c[1..], k - c[0].copy - c[0].del)
  }

  /** What the version inserts just before line `g` of the pivot, or at its end. */
  function Inserted(c: seq<Triple>, v: seq<string>, g: nat): seq<string>
  {
    if c == [] then []
    else
      var t := c[0];
      if g < t.copy + t.del then []
      else
        (if g == t.copy + t.del then Take(Drop(v, t.copy), t.ins) else [])
        + Inserted(c[1..], Drop(v, t.copy + t.ins), g - t.copy - t.del)
  }

  /** One version: its edit vector, its chunks, and whether it kept the line of
      the pivot just before. */
  datatype Side = Side(c: seq<Triple>, v: seq<string>, kept: bool)

  predicate KeptBefore(s: Side, g: nat)
  {
    if g == 0 then s.kept else Kept(s.c, g - 1)
  }

  /** Two versions' inserts in the same gap.  If only one version deleted the line
      before the gap, its insert comes first; otherwise the inserts are equal or
      one of them is empty (the last case below does not arise in a merge that
      succeeds). */
  function Joined(ins1: seq<string>, ins2: seq<string>, kept1: bool, kept2: bool): seq<string>
  {
    if kept1 != kept2 then (if kept1 then ins2 + ins1 else ins1 + ins2)
    else if ins2 == [] || ins1 == ins2 then ins1
    else if ins1 == [] then ins2
    else []
  }

  /** From gap `g` on: the inserts of the gap, then the line after it if both
      versions keep it. */
  function ThreeWay(p: seq<string>, s1: Side, s2: Side, g: nat): seq<string>
    requires g <= |p|
    decreases |p| - g
  {
    Joined(Inserted(s1.c, s1.v, g), Inserted(s2.c, s2.v, g), KeptBefore(s1, g), KeptBefore(s2, g))
    + (if g == |p| then []
       else (if Kept(s1.c, g) && Kept(s2.c, g) then [p[g]] else []) + ThreeWay(p, s1, s2, g + 1))
  }

  lemma JoinedSymmetric(ins1: seq<string>, ins2: seq<string>, kept1: bool, kept2: bool)
    ensures Joined(ins1, ins2, kept1, kept2) == Joined(ins2, ins1, kept2, kept1)
  {
  }

  lemma {:induction false} ThreeWaySymmetric(p: seq<string>, s1: Side, s2: Side, g: nat)
    requires g <= |p|
    ensures ThreeWay(p, s1, s2, g) == ThreeWay(p, s2, s1, g)
    decreases |p| - g
  {
    hide Joined, Inserted, Kept, KeptBefore;
    JoinedSymmetric(Inserted(s1.c, s1.v, g), Inserted(s2.c, s2.v, g), KeptBefore(s1, g), KeptBefore(s2, g));
    if g < |p| {
      ThreeWaySymmetric(p, s1, s2, g + 1);
    }
  }

  lemma Assoc(x: seq<string>, y: seq<string>, z: seq<string>)
    ensures (x + y) + z == x + (y + z)
  {
  }

  lemma FirstAndRest(p: seq<string>, n: nat)
    requires 0 < n <= |p|
    ensures p[..n] == [p[0]] + p[1..][..n - 1] && p[n..] == p[1..][n - 1..]
  {
  }

  // ----- passing one line of the pivot -----

  ghost predicate Passable(s: Side)
  {
    s.c != [] && s.c[0].copy + s.c[0].del > 0
  }

  /** A version after one line of the pivot. */
  function Pass(s: Side): Side
    requires s.c != [] && s.c[0].copy + s.c[0].del > 0
  {
    if s.c[0].copy > 0 then Side(s.c[0 := s.c[0].(copy := s.c[0].copy - 1)], Drop(s.v, 1), true)
    else Side(s.c[0 := s.c[0].(del := s.c[0].del - 1)], s.v, false)
  }

  lemma DropSum(v: seq<string>, m: nat, n: nat)
    ensures Drop(Drop(v, m), n) == Drop(v, m + n)
  {
  }

  lemma PassKeeps(s: Side, g: nat)
    requires Passable(s)
    ensures Kept(s.c, 0) == Pass(s).kept
    ensures Kept(s.c, g + 1) == Kept(Pass(s).c, g)
  {
  }

  lemma PassInserts(s: Side, g: nat)
    requires Passable(s)
    ensures Inserted(s.c, s.v, 0) == []
    ensures Inserted(s.c, s.v, g + 1) == Inserted(Pass(s).c, Pass(s).v, g)
  {
    hide Take, Drop;
    var t := s.c[0];
    if t.copy > 0 {
      DropSum(s.v, 1, t.copy - 1);
      DropSum(s.v, 1, t.copy - 1 + t.ins);
    }
  }

  lemma PassAgrees(s: Side, g: nat)
    requires Passable(s)
    ensures Kept(s.c, 0) == Pass(s).kept && Inserted(s.c, s.v, 0) == []
    ensures Kept(s.c, g + 1) == Kept(Pass(s).c, g)
    ensures Inserted(s.c, s.v, g + 1) == Inserted(Pass(s).c, Pass(s).v, g)
    ensures KeptBefore(s, g + 1) == KeptBefore(Pass(s), g)
  {
    hide Kept, Inserted, Pass;
    PassKeeps(s, g);
    PassInserts(s, g);
    if g > 0 {
      PassKeeps(s, g - 1);
    }
  }

  lemma {:induction false} ThreeWayShift(p: seq<string>, s1: Side, s2: Side, g: nat)
    requires Passable(s1) && Passable(s2) && g < |p|
    ensures ThreeWay(p, s1, s2, g + 1) == ThreeWay(p[1..], Pass(s1), Pass(s2), g)
    decreases |p| - g
  {
    hide Kept, Inserted, KeptBefore, Joined, Pass;
    PassAgrees(s1, g);
    PassAgrees(s2, g);
    if g + 1 < |p| {
      PassAgrees(s1, g + 1);
      ThreeWayShift(p, s1, s2, g + 1);
    }
  }

  /** The merge after one line is the merge of what is left. */
  lemma ThreeWayStart(p: seq<string>, s1: Side, s2: Side)
    requires p != [] && Inserted(s1.c, s1.v, 0) == [] && Inserted(s2.c, s2.v, 0) == []
    ensures ThreeWay(p, s1, s2, 0) ==
            (if Kept(s1.c, 0) && Kept(s2.c, 0) then [p[0]] else []) + ThreeWay(p, s1, s2, 1)
  {
    hide Inserted, Kept;
    assert Joined([], [], KeptBefore(s1, 0), KeptBefore(s2, 0)) == [];
  }

  lemma ThreeWayPass(p: seq<string>, s1: Side, s2: Side)
    requires Passable(s1) && Passable(s2) && p != []
    ensures ThreeWay(p, s1, s2, 0) ==
            (if Pass(s1).kept && Pass(s2).kept then [p[0]] else []) + ThreeWay(p[1..], Pass(s1), Pass(s2), 0)
  {
    hide ThreeWay, Inserted, Kept, Pass;
    PassAgrees(s1, 0);
    PassAgrees(s2, 0);
    ThreeWayStart(p, s1, s2);
    ThreeWayShift(p, s1, s2, 0);
  }

  // ----- passing many lines -----

  /** A version after `n` of the lines it copies. */
  function CopySide(s: Side, n: nat): Side
    requires n <= HeadCopy(s.c)
  {
    if n == 0 then s else Side(Copied(s.c, n), Drop(s.v, n), true)
  }

  /** A version after `n` of the lines it deletes next. */
  function DeleteSide(s: Side, n: nat): Side
    requires s.c != [] && s.c[0].copy == 0 && n <= s.c[0].del
  {
    if n == 0 then s else Side(s.c[0 := s.c[0].(del := s.c[0].del - n)], s.v, false)
  }

  lemma CopySideStep(s: Side, n: nat)
    requires 0 < n <= HeadCopy(s.c)
    ensures Passable(s) && Pass(s).kept && n - 1 <= HeadCopy(Pass(s).c)
    ensures CopySide(Pass(s), n - 1) == CopySide(s, n)
  {
    hide Drop;
    DropSum(s.v, 1, n - 1);
    DropNone(s.v);
  }

  lemma DropNone(v: seq<string>)
    ensures Drop(v, 0) == v
  {
  }

  lemma DeleteSideStep(s: Side, n: nat)
    requires s.c != [] && s.c[0].copy == 0 && 0 < n <= s.c[0].del
    ensures Passable(s) && !Pass(s).kept
    ensures Pass(s).c != [] && Pass(s).c[0].copy == 0 && n - 1 <= Pass(s).c[0].del
    ensures DeleteSide(Pass(s), n - 1) == DeleteSide(s, n)
  {
  }

  /** Lines that both versions copy are kept. */
  lemma {:induction false} ThreeWayCopies(p: seq<string>, s1: Side, s2: Side, n: nat)
    requires n <= HeadCopy(s1.c) && n <= HeadCopy(s2.c) && n <= |p|
    ensures ThreeWay(p, s1, s2, 0) == p[..n] + ThreeWay(p[n..], CopySide(s1, n), CopySide(s2, n), 0)
    decreases n
  {
    hide ThreeWay, Pass;
    if n == 0 {
      assert p[0..] == p && p[..0] == [];
    } else {
      hide CopySide;
      CopySideStep(s1, n);
      CopySideStep(s2, n);
      ThreeWayPass(p, s1, s2);
      ThreeWayCopies(p[1..], Pass(s1), Pass(s2), n - 1);
      FirstAndRest(p, n);
      Assoc([p[0]], p[1..][..n - 1], ThreeWay(p[n..], CopySide(s1, n), CopySide(s2, n), 0));
    }
  }

  /** Lines that one version copies and the other deletes are dropped. */
  lemma {:induction false} ThreeWayDeletes(p: seq<string>, s1: Side, s2: Side, n: nat)
    requires n <= HeadCopy(s1.c) && n <= |p|
    requires s2.c != [] && s2.c[0].copy == 0 && n <= s2.c[0].del
    ensures ThreeWay(p, s1, s2, 0) == ThreeWay(p[n..], CopySide(s1, n), DeleteSide(s2, n), 0)
    decreases n
  {
    hide ThreeWay, Pass;
    if n == 0 {
      assert p[0..] == p;
    } else {
      hide CopySide, DeleteSide;
      CopySideStep(s1, n);
      DeleteSideStep(s2, n);
      ThreeWayPass(p, s1, s2);
      ThreeWayDeletes(p[1..], Pass(s1), Pass(s2), n - 1);
      FirstAndRest(p, n);
    }
  }

  /** So are lines that both delete. */
  lemma {:induction false} ThreeWayBothDelete(p: seq<string>, s1: Side, s2: Side, n: nat)
    requires s1.c != [] && s1.c[0].copy == 0 && n <= s1.c[0].del && n <= |p|
    requires s2.c != [] && s2.c[0].copy == 0 && n <= s2.c[0].del
    ensures ThreeWay(p, s1, s2, 0) == ThreeWay(p[n..], DeleteSide(s1, n), DeleteSide(s2, n), 0)
    decreases n
  {
    hide ThreeWay, Pass;
    if n == 0 {
      assert p[0..] == p;
    } else {
      hide DeleteSide;
      DeleteSideStep(s1, n);
      DeleteSideStep(s2, n);
      ThreeWayPass(p, s1, s2);
      ThreeWayBothDelete(p[1..], Pass(s1), Pass(s2), n - 1);
      FirstAndRest(p, n);
    }
  }

  // ----- inserts and used-up triples -----

  /** Two sides that look the same from gap 1 on and agree on line 0. */
  ghost predicate SameAfterFirstGap(s: Side, u: Side)
  {
    && (forall k: nat :: Kept(s.c, k) == Kept(u.c, k))
    && (forall g: nat :: g > 0 ==> Inserted(s.c, s.v, g) == Inserted(u.c, u.v, g))
  }

  lemma {:induction false} ThreeWayLater(p: seq<string>, s1: Side, s2: Side, u1: Side, u2: Side, g: nat)
    requires SameAfterFirstGap(s1, u1) && SameAfterFirstGap(s2, u2) && 0 < g <= |p|
    ensures ThreeWay(p, s1, s2, g) == ThreeWay(p, u1, u2, g)
    decreases |p| - g
  {
    if g < |p| {
      ThreeWayLater(p, s1, s2, u1, u2, g + 1);
    }
  }

  /** The merge without the inserts of its first gap. */
  function ThreeWayAfter(p: seq<string>, s1: Side, s2: Side): seq<string>
  {
    if p == [] then []
    else (if Kept(s1.c, 0) && Kept(s2.c, 0) then [p[0]] else []) + ThreeWay(p, s1, s2, 1)
  }

  /** Only the inserts of the first gap tell them apart. */
  lemma ThreeWayFirstGap(p: seq<string>, s1: Side, s2: Side, u1: Side, u2: Side, emitted: seq<string>)
    requires SameAfterFirstGap(s1, u1) && SameAfterFirstGap(s2, u2)
    requires Joined(Inserted(s1.c, s1.v, 0), Inserted(s2.c, s2.v, 0), s1.kept, s2.kept) ==
             emitted + Joined(Inserted(u1.c, u1.v, 0), Inserted(u2.c, u2.v, 0), u1.kept, u2.kept)
    ensures ThreeWay(p, s1, s2, 0) == emitted + ThreeWay(p, u1, u2, 0)
  {
    hide Joined, Inserted;
    var after := ThreeWayAfter(p, u1, u2);
    assert after == ThreeWayAfter(p, s1, s2) by {
      if p != [] {
        ThreeWayLater(p, s1, s2, u1, u2, 1);
      }
    }
    var gap := Joined(Inserted(u1.c, u1.v, 0), Inserted(u2.c, u2.v, 0), u1.kept, u2.kept);
    Assoc(emitted, gap, after);
  }

  lemma InsertSide(s: Side, u: Side)
    requires s.c != [] && s.c[0].copy == 0 && s.c[0].del == 0
    requires u.c == s.c[1..] && u.v == Drop(s.v, s.c[0].ins) && (u.c != [] ==> u.c[0].copy > 0)
    ensures SameAfterFirstGap(s, u)
    ensures Inserted(s.c, s.v, 0) == Take(s.v, s.c[0].ins) && Inserted(u.c, u.v, 0) == []
  {
  }

  /** A used-up triple means nothing. */
  lemma AdvanceSide(s: Side)
    ensures SameAfterFirstGap(s, s.(c := Advance(s.c)))
    ensures Inserted(s.c, s.v, 0) == Inserted(Advance(s.c), s.v, 0)
  {
    assert Drop(s.v, 0) == s.v;
  }

  lemma ThreeWayAdvance(p: seq<string>, s1: Side, s2: Side)
    ensures ThreeWay(p, s1, s2, 0) == ThreeWay(p, s1.(c := Advance(s1.c)), s2.(c := Advance(s2.c)), 0)
  {
    AdvanceSide(s1);
    AdvanceSide(s2);
    hide Inserted, Joined, SameAfterFirstGap, Advance;
    ThreeWayFirstGap(p, s1, s2, s1.(c := Advance(s1.c)), s2.(c := Advance(s2.c)), []);
  }
}
