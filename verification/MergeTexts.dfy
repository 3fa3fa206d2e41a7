/** The three-way merge of texts (libpkg/merge3.c): its laws on whole texts. */
module MergeTexts {
  import opened EditScript
  import opened LineTable
  import opened DiffContext
  import opened MergeSpec
  import opened MergeMeaning
  import opened MergeLaws
  import opened MergeFailure
  import opened DiffSpec
  import DiffFinds

  ghost predicate Diffable(pivot: string, v1: string, v2: string)
  {
    !TooLong(pivot) && !TooLong(v1) && !TooLong(v2)
  }

  /** The edit vector from one text to another. */
  ghost function TextScript(z1: string, z2: string): seq<Triple>
    requires !TooLong(z1) && !TooLong(z2)
  {
    LinesFit(z1, true);
    LinesFit(z2, true);
    Script(Contents(z1), Contents(z2))
  }

  /** What `merge_3way` returns and writes. */
  datatype Result = Result(rc: int, out: string)

  ghost function ThreeWayMerge(pivot: string, v1: string, v2: string): Result
  {
    if !Diffable(pivot, v1, v2) then Result(-1, "")
    else
      var r := Merge(Chunks(pivot), Chunks(v1), Chunks(v2), TextScript(pivot, v1), TextScript(pivot, v2));
      Result(if r.ok then 0 else -1, Text(r.out))
  }

  lemma TextScriptIsGood(z1: string, z2: string, c: seq<Triple>)
    requires !TooLong(z1) && !TooLong(z2) && c == TextScript(z1, z2)
    ensures Good(c, Chunks(z1), Chunks(z2)) && IsScript(c, Contents(z1), Contents(z2))
    ensures z1 == z2 ==> c == Unchanged(|Chunks(z1)|)
  {
    LinesFit(z1, true);
    LinesFit(z2, true);
    ScriptIsRight(Contents(z1), Contents(z2));
    ScriptCovers(c, Contents(z1), Contents(z2));
  }

  /** The edit vector of a version that changed nothing. */
  function Unchanged(n: nat): seq<Triple>
  {
    if n == 0 then [] else [Triple(n, 0, 0)]
  }

  ghost function SideOf(pivot: string, v: string): Side
    requires !TooLong(pivot) && !TooLong(v)
  {
    Side(TextScript(pivot, v), Chunks(v), true)
  }

  /** Swapping the two versions gives the same result and the same output. */
  lemma VersionsAreInterchangeable(pivot: string, v1: string, v2: string)
    ensures ThreeWayMerge(pivot, v1, v2) == ThreeWayMerge(pivot, v2, v1)
  {
    if Diffable(pivot, v1, v2) {
      MergeSymmetric(Chunks(pivot), Chunks(v1), Chunks(v2), TextScript(pivot, v1), TextScript(pivot, v2));
    }
  }

  /** The chunks the merge has written, whether or not it succeeds. */
  ghost function Written(pivot: string, v1: string, v2: string): seq<string>
    requires Diffable(pivot, v1, v2)
  {
    MergeSides(Chunks(pivot), SideOf(pivot, v1), SideOf(pivot, v2)).out
  }

  /** The lines both versions keep and the inserts of each. */
  ghost function ThreeWayOf(pivot: string, v1: string, v2: string): seq<string>
    requires Diffable(pivot, v1, v2)
  {
    ThreeWay(Chunks(pivot), SideOf(pivot, v1), SideOf(pivot, v2), 0)
  }

  ghost function EditsOf(pivot: string, v: string): seq<Edit>
    requires !TooLong(pivot) && !TooLong(v)
  {
    Edits(TextScript(pivot, v), Chunks(v), 0)
  }

  lemma SidesAreReady(pivot: string, v1: string, v2: string, s1: Side, s2: Side)
    requires Diffable(pivot, v1, v2) && s1 == SideOf(pivot, v1) && s2 == SideOf(pivot, v2)
    ensures Ready(Chunks(pivot), s1, s2)
  {
    hide Chunks, TextScript, Contents, IsScript;
    TextScriptIsGood(pivot, v1, s1.c);
    TextScriptIsGood(pivot, v2, s2.c);
  }

  /** The merge fails exactly on texts the diff refuses and on edits that overlap.
      Whatever it returns, it has written the beginning of the three-way result, and
      all of that if it succeeds. */
  lemma MergeOfTexts(pivot: string, v1: string, v2: string)
    requires Diffable(pivot, v1, v2)
    ensures ThreeWayMerge(pivot, v1, v2).rc == 0 <==> Compatible(EditsOf(pivot, v1), EditsOf(pivot, v2))
    ensures ThreeWayMerge(pivot, v1, v2).out == Text(Written(pivot, v1, v2))
    ensures Written(pivot, v1, v2) <= ThreeWayOf(pivot, v1, v2)
    ensures ThreeWayMerge(pivot, v1, v2).rc == 0 ==> Written(pivot, v1, v2) == ThreeWayOf(pivot, v1, v2)
  {
    hide Compatible, Edits, ThreeWay, Merge, Chunks, Text, TextScript, TooLong;
    var s1, s2 := SideOf(pivot, v1), SideOf(pivot, v2);
    SidesAreReady(pivot, v1, v2, s1, s2);
    MergeSucceedsIffCompatible(Chunks(pivot), s1, s2, 0);
    MergeIsThreeWay(Chunks(pivot), s1, s2);
  }

  // ----- what a merge that fails leaves behind -----

  /** A merge fails with an empty output exactly if the diff refuses a text, or two
      edits clash while every line before them is deleted by a version and nothing is
      inserted there. */
  lemma FailsEmptyIff(pivot: string, v1: string, v2: string)
    ensures ThreeWayMerge(pivot, v1, v2).rc != 0 && ThreeWayMerge(pivot, v1, v2).out == "" <==>
      !Diffable(pivot, v1, v2) || SilentClash(EditsOf(pivot, v1), EditsOf(pivot, v2), 0)
  {
    hide SilentClash, Edits, Merge, TooLong, Full, Chunks, Text, Good, IsScript, TextScript;
    if !Diffable(pivot, v1, v2) {
      return;
    }
    var p, s1, s2 := Chunks(pivot), SideOf(pivot, v1), SideOf(pivot, v2);
    TextScriptIsGood(pivot, v1, s1.c);
    TextScriptIsGood(pivot, v2, s2.c);
    EmptyFailureIffSilent(p, s1, s2, 0);
    ChunksAreFull(pivot);
    ChunksAreFull(v1);
    ChunksAreFull(v2);
    MergeWritesFull(p, s1.v, s2.v, s1.c, s2.c);
    FullTextIsEmptyIff(Written(pivot, v1, v2));
  }

  ghost predicate Full(chunks: seq<string>)
  {
    forall i :: 0 <= i < |chunks| ==> chunks[i] != ""
  }

  lemma {:induction false} ChunksAreFull(z: string)
    ensures Full(Chunks(z))
    decreases |z|
  {
    if z != "" {
      ChunksAreFull(z[ChunkLength(z)..]);
    }
  }

  lemma FullTextIsEmptyIff(chunks: seq<string>)
    requires Full(chunks)
    ensures Text(chunks) == "" <==> chunks == []
  {
  }

  lemma FullParts(chunks: seq<string>, n: nat)
    requires Full(chunks)
    ensures Full(Take(chunks, n)) && Full(Drop(chunks, n))
  {
  }

  lemma FullEmit(from: seq<string>, k: nat, rest: Outcome)
    requires Full(from) && Full(rest.out)
    ensures Full(Emit(Take(from, k), rest).out)
  {
  }

  /** What is written are whole chunks of the three texts. */
  lemma {:induction false} MergeWritesFull(p: seq<string>, v1: seq<string>, v2: seq<string>,
                                           c1: seq<Triple>, c2: seq<Triple>)
    requires Full(p) && Full(v1) && Full(v2)
    ensures Full(Merge(p, v1, v2, c1, c2).out)
    decreases |c1| + |c2|, HeadCopy(c1) + HeadCopy(c2), 1
  {
    hide Take, Drop, Emit, Full;
    NothingIsFull();
    if c1 == [] || c2 == [] {
      if c1 != [] { FullParts(v1, c1[0].ins); }
      if c2 != [] { FullParts(v2, c2[0].ins); }
    } else {
      var t1, t2 := c1[0], c2[0];
      if t1.copy > 0 && t2.copy > 0 {
        var n := if t1.copy < t2.copy then t1.copy else t2.copy;
        RestWritesFull(p, n, v1, n, v2, n, c1, c2, Advance(Copied(c1, n)), Advance(Copied(c2, n)), p, n);
      } else if t1.copy >= t2.del && t1.copy > 0 && t2.del + t2.ins > 0 {
        RestWritesFull(p, t2.del, v1, t2.del, v2, t2.ins, c1, c2,
                       Advance(Copied(c1, t2.del)), Advance(c2[1..]), v2, t2.ins);
      } else if t2.copy >= t1.del && t2.copy > 0 && t1.del + t1.ins > 0 {
        RestWritesFull(p, t1.del, v1, t1.ins, v2, t1.del, c1, c2,
                       Advance(c1[1..]), Advance(Copied(c2, t1.del)), v1, t1.ins);
      } else if SameEdit(t1, t2, v1, v2) {
        RestWritesFull(p, t1.del, v1, t1.ins, v2, t1.ins, c1, c2, Advance(c1[1..]), Advance(c2[1..]), v1, t1.ins);
      }
    }
  }

  lemma NothingIsFull()
    ensures Full([])
  {
  }

  /** One turn of the merge: `k` chunks of `from` are written, and the rest follows. */
  lemma RestWritesFull(p: seq<string>, n: nat, v1: seq<string>, n1: nat, v2: seq<string>, n2: nat,
                       c1: seq<Triple>, c2: seq<Triple>, d1: seq<Triple>, d2: seq<Triple>, from: seq<string>, k: nat)
    requires Full(p) && Full(v1) && Full(v2) && Full(from)
    requires |d1| + |d2| < |c1| + |c2| ||
             (|d1| + |d2| == |c1| + |c2| && HeadCopy(d1) + HeadCopy(d2) < HeadCopy(c1) + HeadCopy(c2))
    ensures Full(Emit(Take(from, k), Merge(Drop(p, n), Drop(v1, n1), Drop(v2, n2), d1, d2)).out)
    decreases |c1| + |c2|, HeadCopy(c1) + HeadCopy(c2), 0
  {
    hide Take, Drop, Emit, Full, Merge;
    FullParts(p, n);
    FullParts(v1, n1);
    FullParts(v2, n2);
    MergeWritesFull(Drop(p, n), Drop(v1, n1), Drop(v2, n2), d1, d2);
    FullEmit(from, k, Merge(Drop(p, n), Drop(v1, n1), Drop(v2, n2), d1, d2));
  }

  lemma FirstLineSame(p: Files, x: string, y: string, z: string)
    requires p.a == [x, y] && p.b == [x, z] && y != z
    ensures Header(p) == 1 && Footer(p) == 0
  {
    assert Forward(p, 1, 1, 1) == 0;
  }

  /** The script from two lines to two that differ in the second. */
  lemma SecondLineChanged(x: string, y: string, z: string)
    requires Fit([x, y]) && Fit([x, z]) && y != z
    ensures Script([x, y], [x, z]) == [Triple(1, 1, 1)]
  {
    hide DiffFinds.FromLines;
    var p := FilesOf([x, y], [x, z]);
    var r := Range(1, 2, 1, 2);
    FirstLineSame(p, x, y, z);
    hide Header, Footer;
    var m := Lcs(p, r);
    if m.sx < m.ex {
      SoundSharesLine(p, r, m);
      assert false;
    }
    assert AppendCopy([], 1) == [Triple(1, 0, 0)];
  }

  /** The source's comment promises an output left alone when the merge fails: here it
      has written the line before the clash. */
  lemma FailedMergeHasWritten()
    ensures ThreeWayMerge("a\nb\n", "a\nc\n", "a\nd\n") == Result(-1, "a\n")
  {
    hide Merge, Chunks, Contents, TooLong, Script, Text;
    assert "a\nb\n" == "a\n" + ['b'] + "\n" && ['b'] == "b" && ['b'] + "\n" == "b\n";
    assert "a\nc\n" == "a\n" + ['c'] + "\n" && ['c'] == "c" && ['c'] + "\n" == "c\n";
    assert "a\nd\n" == "a\n" + ['d'] + "\n" && ['d'] == "d" && ['d'] + "\n" == "d\n";
    TwoLines('b');
    TwoLines('c');
    TwoLines('d');
    LinesFit("a\nb\n", true);
    LinesFit("a\nc\n", true);
    LinesFit("a\nd\n", true);
    SecondLineChanged("a", "b", "c");
    SecondLineChanged("a", "b", "d");
    ClashAfterOne("a\n", "b\n", "c\n", "d\n");
    TextOfOne("a\n");
  }

  lemma TextOfOne(z: string)
    ensures Text([z]) == z
  {
    assert Text([z]) == z + Text([]);
  }

  lemma TwoLines(c: char)
    requires c != '\n'
    ensures var z := "a\n" + [c] + "\n";
      !TooLong(z) && Chunks(z) == ["a\n", [c] + "\n"] && Contents(z) == ["a", [c]]
  {
    var z, y := "a\n" + [c] + "\n", [c] + "\n";
    assert z[1..] == "\n" + y && FirstNewline(z) == 1 && z[..2] == "a\n" && z[2..] == y;
    assert y[1..] == "\n" && FirstNewline(y) == 1 && y[..2] == y && y[2..] == "";
    assert Chunks(y) == [y] + Chunks("") && Chunks(z) == ["a\n"] + Chunks(y);
    assert "a\n"[..1] == "a" && y[..1] == [c];
  }

  lemma ClashAfterOne(a: string, b: string, c: string, d: string)
    requires c != d
    ensures Merge([a, b], [a, c], [a, d], [Triple(1, 1, 1)], [Triple(1, 1, 1)]) == Outcome(false, [a])
  {
    var t := [Triple(0, 1, 1)];
    MergeCopies([a, b], [a, c], [a, d], [Triple(1, 1, 1)], [Triple(1, 1, 1)], 1);
    assert Advance(Copied([Triple(1, 1, 1)], 1)) == t;
    assert Take([c], 1) == [c] && Take([d], 1) == [d] && [c][0] != [d][0];
    assert Merge([b], [c], [d], t, t) == Outcome(false, []);
    assert Take([a, b], 1) == [a] && [a] + [] == [a];
  }

  // ----- a version that changed nothing, and two versions that agree -----

  lemma ReplayCopies(c: seq<Triple>, p: seq<string>, v: seq<string>)
    requires c != []
    ensures Replay(c, p, v) ==
            Take(p, c[0].copy) + Replay(Advance(Copied(c, c[0].copy)), Drop(p, c[0].copy), Drop(v, c[0].copy))
  {
    var t, d := c[0], Copied(c, c[0].copy);
    var p', v' := Drop(p, t.copy), Drop(v, t.copy);
    hide Take, Drop;
    TakeNone(p', []);
    TakeNone(v', Replay(c[1..], p', v'));
    if d[0] != ZERO {
      ReplayEdits(d, p', v');
    }
  }

  lemma TakeNone(s: seq<string>, rest: seq<string>)
    ensures Take(s, 0) + rest == rest && Drop(s, 0) == s
  {
  }

  lemma ReplayEdits(c: seq<Triple>, p: seq<string>, v: seq<string>)
    requires c != [] && c[0].copy == 0
    ensures Replay(c, p, v) == Take(v, c[0].ins) + Replay(c[1..], Drop(p, c[0].del), Drop(v, c[0].ins))
  {
    var rest := Replay(c[1..], Drop(p, c[0].del), Drop(v, c[0].ins));
    hide Take, Drop;
    TakeNone(v, rest);
    TakeNone(p, Take(v, c[0].ins) + rest);
  }

  lemma UnchangedAfter(n: nat, k: nat)
    requires k <= n && n > 0
    ensures Unchanged(n) != [] && Unchanged(n)[0].copy == n
    ensures Advance(Copied(Unchanged(n), k)) == Unchanged(n - k)
  {
  }

  /** Merging with a version that changed nothing replays the other's edits. */
  lemma {:induction false} MergeWithUnchanged(p: seq<string>, v: seq<string>, w: seq<string>, c: seq<Triple>)
    requires Good(c, p, v) && |w| == |p|
    ensures Merge(p, v, w, c, Unchanged(|p|)) == Outcome(true, Replay(c, p, v))
    decreases |c|, HeadCopy(c), 1
  {
    if c == [] {
      ReplayNothing(p, v);
    } else if p == [] {
      InsertIsReplayed(c, v);
    } else if c[0].copy > 0 {
      UnchangedCopies(p, v, w, c, c[0].copy);
    } else {
      UnchangedEdits(p, v, w, c, c[0].del);
    }
  }

  lemma UnchangedCopies(p: seq<string>, v: seq<string>, w: seq<string>, c: seq<Triple>, n: nat)
    requires Good(c, p, v) && |w| == |p| && c != [] && p != [] && n == c[0].copy > 0
    ensures Merge(p, v, w, c, Unchanged(|p|)) == Outcome(true, Replay(c, p, v))
    decreases |c|, HeadCopy(c), 0
  {
    hide Replay, Merge, Unchanged;
    GoodCopied(c, p, v, n);
    ReplayCopies(c, p, v);
    UnchangedAfter(|p|, n);
    MergeCopies(p, v, w, c, Unchanged(|p|), n);
    MergeWithUnchanged(Drop(p, n), Drop(v, n), Drop(w, n), Advance(Copied(c, n)));
  }

  lemma UnchangedEdits(p: seq<string>, v: seq<string>, w: seq<string>, c: seq<Triple>, d: nat)
    requires Good(c, p, v) && |w| == |p| && c != [] && p != [] && c[0].copy == 0 && d == c[0].del
    ensures Merge(p, v, w, c, Unchanged(|p|)) == Outcome(true, Replay(c, p, v))
    decreases |c|, HeadCopy(c), 0
  {
    hide Replay, Merge, Unchanged;
    GoodTail(c, p, v);
    ReplayEdits(c, p, v);
    UnchangedAfter(|p|, d);
    MergeEditsLeft(p, v, w, c, Unchanged(|p|), d, c[0].ins);
    MergeWithUnchanged(Drop(p, d), Drop(v, c[0].ins), Drop(w, d), c[1..]);
  }

  lemma ReplayNothing(p: seq<string>, v: seq<string>)
    ensures Replay([], p, v) == []
  {
  }

  lemma InsertIsReplayed(c: seq<Triple>, v: seq<string>)
    requires Good(c, [], v) && c != []
    ensures Replay(c, [], v) == v && c[0].ins > 0 && Take(v, c[0].ins) == v
  {
    GoodAtEnd(c, v);
    ReplayEdits(c, [], v);
    assert c[1..] == [] && v + [] == v;
  }

  /** So does merging two versions that made the same edits. */
  lemma {:induction false} MergeWithSame(p: seq<string>, v: seq<string>, c: seq<Triple>)
    requires Good(c, p, v)
    ensures Merge(p, v, v, c, c) == Outcome(true, Replay(c, p, v))
    decreases |c|, HeadCopy(c)
  {
    if c == [] {
    } else if c[0].copy > 0 {
      var n := c[0].copy;
      GoodCopied(c, p, v, n);
      ReplayCopies(c, p, v);
      MergeWithSame(Drop(p, n), Drop(v, n), Advance(Copied(c, n)));
    } else {
      GoodTail(c, p, v);
      ReplayEdits(c, p, v);
      MergeWithSame(Drop(p, c[0].del), Drop(v, c[0].ins), c[1..]);
    }
  }

  /** The new text with every copied line taken from the old one. */
  ghost function Patched(z1: string, z2: string): seq<string>
    requires !TooLong(z1) && !TooLong(z2)
  {
    Replay(TextScript(z1, z2), Chunks(z1), Chunks(z2))
  }

  /** On all texts: if one version is the pivot, or both versions are the same,
      the merge succeeds and gives the changed text, its copied lines taken from
      the pivot. */
  lemma OneSidedMerges(pivot: string, v: string)
    requires !TooLong(pivot) && !TooLong(v)
    ensures ThreeWayMerge(pivot, v, pivot) == Result(0, Text(Patched(pivot, v)))
    ensures ThreeWayMerge(pivot, pivot, v) == Result(0, Text(Patched(pivot, v)))
    ensures ThreeWayMerge(pivot, v, v) == Result(0, Text(Patched(pivot, v)))
  {
    var c := TextScript(pivot, v);
    hide Merge;
    TextScriptIsGood(pivot, v, c);
    TextScriptIsGood(pivot, pivot, TextScript(pivot, pivot));
    MergeWithUnchanged(Chunks(pivot), Chunks(v), Chunks(pivot), c);
    VersionsAreInterchangeable(pivot, v, pivot);
    MergeWithSame(Chunks(pivot), Chunks(v), c);
  }

  // ----- when the merge gives back the changed text itself -----

  /** Every copied chunk is the same in both texts, newline included. */
  ghost predicate CopiedAlike(c: seq<Triple>, p: seq<string>, v: seq<string>)
  {
    c == [] ||
    (Take(p, c[0].copy) == Take(v, c[0].copy) &&
     CopiedAlike(c[1..], Drop(Drop(p, c[0].copy), c[0].del), Drop(Drop(v, c[0].copy), c[0].ins)))
  }

  /** Both texts are well cut and `c` is a script between their lines. */
  ghost predicate Linked(c: seq<Triple>, p: seq<string>, v: seq<string>)
  {
    WellCut(p) && WellCut(v) && IsScript(c, ContentsOf(p), ContentsOf(v))
  }

  lemma {:induction false} WellCutDrop(p: seq<string>, n: nat)
    requires WellCut(p) && n <= |p|
    ensures WellCut(p[n..])
  {
    if n > 0 {
      WellCutDrop(p[1..], n - 1);
      assert p[n..] == p[1..][n - 1..];
    } else {
      assert p[0..] == p;
    }
  }

  lemma ContentsDrop(p: seq<string>, n: nat)
    requires n <= |p|
    ensures ContentsOf(p[n..]) == ContentsOf(p)[n..]
  {
  }

  lemma LinkedHead(c: seq<Triple>, p: seq<string>, v: seq<string>)
    requires Linked(c, p, v) && c != []
    ensures c[0].copy + c[0].del <= |p| && c[0].copy + c[0].ins <= |v|
    ensures forall x :: 0 <= x < c[0].copy ==> Content(p[x]) == Content(v[x])
  {
    hide WellCut, Content;
    var t := c[0];
    var a, b := ContentsOf(p), ContentsOf(v);
    assert a[..t.copy] == b[..t.copy];
    forall x | 0 <= x < t.copy
      ensures Content(p[x]) == Content(v[x])
    {
      assert a[..t.copy][x] == b[..t.copy][x];
    }
  }

  lemma LinkedTail(c: seq<Triple>, p: seq<string>, v: seq<string>, p': seq<string>, v': seq<string>)
    requires Linked(c, p, v) && c != []
    requires p' == Drop(Drop(p, c[0].copy), c[0].del) && v' == Drop(Drop(v, c[0].copy), c[0].ins)
    ensures c[0].copy + c[0].del <= |p| && c[0].copy + c[0].ins <= |v|
    ensures Linked(c[1..], p', v')
    ensures forall x :: 0 <= x < c[0].copy ==> Content(p[x]) == Content(v[x])
  {
    hide WellCut, Content, ContentsOf;
    var t := c[0];
    LinkedHead(c, p, v);
    assert p' == p[t.copy + t.del..] && v' == v[t.copy + t.ins..];
    WellCutDrop(p, t.copy + t.del);
    WellCutDrop(v, t.copy + t.ins);
    ContentsDrop(p, t.copy + t.del);
    ContentsDrop(v, t.copy + t.ins);
  }

  /** Chunks with the same content differ only in the newline at the end, and the
      one without it is the last of its text. */
  lemma {:induction false} FirstDifference(p: seq<string>, v: seq<string>, n: nat)
    requires WellCut(p) && WellCut(v) && n <= |p| && n <= |v|
    requires forall x :: 0 <= x < n ==> Content(p[x]) == Content(v[x])
    requires p[..n] != v[..n]
    ensures n == |p| || n == |v|
    ensures |Text(p[..n])| != |Text(v[..n])|
  {
    assert p[..n][1..] == p[1..][..n - 1] && v[..n][1..] == v[1..][..n - 1];
    if p[0] == v[0] {
      FirstDifference(p[1..], v[1..], n - 1);
    } else {
      assert Terminated(p[0]) != Terminated(v[0]);
      assert n == 1;
      assert p[..1][1..] == [] && v[..1][1..] == [];
      assert Text(p[..1]) == p[0] + Text([]) && Text(v[..1]) == v[0] + Text([]);
    }
  }

  lemma {:induction false} ReplayOnNothing(c: seq<Triple>, v: seq<string>)
    requires Covers(c, 0, |v|)
    ensures Replay(c, [], v) == v
  {
    hide Replay;
    if c != [] {
      ReplayEdits(c, [], v);
      ReplayOnNothing(c[1..], v[c[0].ins..]);
      assert v == v[..c[0].ins] + v[c[0].ins..];
    } else {
      ReplayNothing([], v);
    }
  }

  lemma {:induction false} ReplayToNothing(c: seq<Triple>, p: seq<string>)
    requires Covers(c, |p|, 0)
    ensures Replay(c, p, []) == []
  {
    hide Replay;
    if c != [] {
      ReplayEdits(c, p, []);
      ReplayToNothing(c[1..], p[c[0].del..]);
    } else {
      ReplayNothing(p, []);
    }
  }

  lemma ReplayLength(c: seq<Triple>, p: seq<string>, v: seq<string>, v': seq<string>, rest: seq<string>)
    requires c != [] && c[0].copy + c[0].ins <= |v|
    requires v' == Drop(Drop(v, c[0].copy), c[0].ins)
    requires rest == Replay(c[1..], Drop(Drop(p, c[0].copy), c[0].del), v')
    ensures |Text(Replay(c, p, v))| - |Text(v)| ==
            |Text(Take(p, c[0].copy))| - |Text(Take(v, c[0].copy))| + |Text(rest)| - |Text(v')|
  {
    var t := c[0];
    var inserted := Take(Drop(v, t.copy), t.ins);
    TextConcat(Take(p, t.copy), inserted + rest);
    TextConcat(inserted, rest);
    ThreeParts(v, t.copy, t.ins);
    assert v == Take(v, t.copy) + (inserted + v');
    TextConcat(Take(v, t.copy), inserted + v');
    TextConcat(inserted, v');
  }

  /** Replaying keeps the length of the new text only if it changes nothing. */
  lemma {:induction false} SameLengthIsAlike(c: seq<Triple>, p: seq<string>, v: seq<string>)
    requires Linked(c, p, v) && |Text(Replay(c, p, v))| == |Text(v)|
    ensures CopiedAlike(c, p, v)
  {
    if c != [] {
      var n := c[0].copy;
      var p', v' := Drop(Drop(p, n), c[0].del), Drop(Drop(v, n), c[0].ins);
      var rest := Replay(c[1..], p', v');
      LinkedTail(c, p, v, p', v');
      ReplayLength(c, p, v, v', rest);
      if p[..n] == v[..n] {
        SameLengthIsAlike(c[1..], p', v');
      } else {
        FirstDifference(p, v, n);
        ScriptCovers(c[1..], ContentsOf(p'), ContentsOf(v'));
        if n == |p| {
          ReplayOnNothing(c[1..], v');
        } else {
          ReplayToNothing(c[1..], p');
        }
        assert false;
      }
    }
  }

  lemma {:induction false} AlikeReplays(c: seq<Triple>, p: seq<string>, v: seq<string>)
    requires Covers(c, |p|, |v|) && CopiedAlike(c, p, v)
    ensures Replay(c, p, v) == v
  {
    if c != [] {
      var t := c[0];
      AlikeReplays(c[1..], Drop(Drop(p, t.copy), t.del), Drop(Drop(v, t.copy), t.ins));
      ThreeParts(v, t.copy, t.ins);
    }
  }

  /** The one-sided merges of `OneSidedMerges` give back the changed text exactly
      when every copied line ends the same way in both texts. */
  lemma GivesBackIffAlike(pivot: string, v: string)
    requires !TooLong(pivot) && !TooLong(v)
    ensures Text(Patched(pivot, v)) == v <==> CopiedAlike(TextScript(pivot, v), Chunks(pivot), Chunks(v))
  {
    var c := TextScript(pivot, v);
    TextScriptIsGood(pivot, v, c);
    ChunksOfText(pivot, Chunks(pivot));
    ChunksOfText(v, Chunks(v));
    if CopiedAlike(c, Chunks(pivot), Chunks(v)) {
      AlikeReplays(c, Chunks(pivot), Chunks(v));
    }
    if Text(Patched(pivot, v)) == v {
      SameLengthIsAlike(c, Chunks(pivot), Chunks(v));
    }
  }

  // ----- texts that end in a newline -----

  ghost predicate NewlineEnded(z: string)
  {
    z == "" || z[|z| - 1] == '\n'
  }

  ghost predicate AllTerminated(p: seq<string>)
  {
    forall k :: 0 <= k < |p| ==> Terminated(p[k])
  }

  lemma {:induction false} NewlineEndedChunks(p: seq<string>)
    requires WellCut(p) && NewlineEnded(Text(p))
    ensures AllTerminated(p)
  {
    if |p| == 1 {
      assert Text(p) == p[0] + Text([]);
    } else if |p| > 1 {
      assert p[1] != "" && Text(p[1..]) == p[1] + Text(p[1..][1..]);
      NewlineEndedChunks(p[1..]);
      forall k | 0 <= k < |p|
        ensures Terminated(p[k])
      {
        if k > 0 {
          assert p[k] == p[1..][k - 1];
        }
      }
    }
  }

  lemma AllTerminatedDrop(p: seq<string>, n: nat)
    requires AllTerminated(p)
    ensures AllTerminated(Drop(p, n))
  {
  }

  lemma TerminatedRunAlike(p: seq<string>, v: seq<string>, n: nat)
    requires n <= |p| && n <= |v| && AllTerminated(p) && AllTerminated(v)
    requires forall x :: 0 <= x < n ==> Content(p[x]) == Content(v[x])
    ensures p[..n] == v[..n]
  {
    forall x | 0 <= x < n
      ensures p[x] == v[x]
    {
      assert p[x] == Content(p[x]) + "\n" && v[x] == Content(v[x]) + "\n";
    }
  }

  lemma {:induction false} TerminatedAlike(c: seq<Triple>, p: seq<string>, v: seq<string>)
    requires Linked(c, p, v) && AllTerminated(p) && AllTerminated(v)
    ensures CopiedAlike(c, p, v)
  {
    if c != [] {
      hide AllTerminated, Linked;
      var n := c[0].copy;
      var p', v' := Drop(Drop(p, n), c[0].del), Drop(Drop(v, n), c[0].ins);
      LinkedTail(c, p, v, p', v');
      TerminatedRunAlike(p, v, n);
      AllTerminatedDrop(p, n);
      AllTerminatedDrop(Drop(p, n), c[0].del);
      AllTerminatedDrop(v, n);
      AllTerminatedDrop(Drop(v, n), c[0].ins);
      TerminatedAlike(c[1..], p', v');
    }
  }

  /** The laws of the merge on texts that are empty or end in a newline. */
  lemma MergeLawsForLines(pivot: string, v: string)
    requires !TooLong(pivot) && !TooLong(v) && NewlineEnded(pivot) && NewlineEnded(v)
    ensures ThreeWayMerge(pivot, v, pivot) == Result(0, v)
    ensures ThreeWayMerge(pivot, pivot, v) == Result(0, v)
    ensures ThreeWayMerge(pivot, v, v) == Result(0, v)
  {
    OneSidedMerges(pivot, v);
    GivesBackIffAlike(pivot, v);
    var c := TextScript(pivot, v);
    TextScriptIsGood(pivot, v, c);
    ChunksOfText(pivot, Chunks(pivot));
    ChunksOfText(v, Chunks(v));
    NewlineEndedChunks(Chunks(pivot));
    NewlineEndedChunks(Chunks(v));
    TerminatedAlike(c, Chunks(pivot), Chunks(v));
  }

  lemma OneLineTexts()
    ensures Chunks("a") == ["a"] && Chunks("a\n") == ["a\n"]
    ensures Contents("a") == ["a"] && Contents("a\n") == ["a"]
    ensures !TooLong("a") && !TooLong("a\n") && Text(["a"]) == "a"
  {
    var p, v := "a", "a\n";
    assert p[1..] == "" && v[1..] == "\n";
    assert FirstNewline(p) == 1 && FirstNewline(v) == 1;
    assert v[..2] == v && v[2..] == "" && p[..1] == p;
    assert Chunks(p) == [p] + Chunks(p[1..]) && Chunks(v) == [v] + Chunks(v[2..]);
    assert v[..1] == "a";
    assert Text([p]) == p + Text([]);
  }

  lemma CopyOfOne(c: seq<Triple>, p: string, v: string)
    requires c == [Triple(1, 0, 0)]
    ensures Replay(c, [p], [v]) == [p]
  {
    ReplayCopies(c, [p], [v]);
    assert Advance(Copied(c, 1)) == [];
  }

  /** Without the newline the laws fail: the copied line loses the newline that the
      changed text gave it. */
  lemma LawsFailWithoutNewline()
    ensures !TooLong("a") && !TooLong("a\n")
    ensures ThreeWayMerge("a", "a\n", "a") == Result(0, "a")
  {
    hide Chunks, Contents, TooLong, Text, ThreeWayMerge, Replay;
    var p, v := "a", "a\n";
    OneLineTexts();
    OneSidedMerges(p, v);
    LinesFit(p, true);
    ScriptIsRight(["a"], ["a"]);
    CopyOfOne(TextScript(p, v), p, v);
  }
}
