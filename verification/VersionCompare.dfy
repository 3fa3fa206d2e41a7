/** Comparing package versions as the program does (libpkg/pkg_version.c), and the
    choice of the newest candidate (libpkg/pkg_jobs_universe.c).  A cursor is the
    text from where it points. */
module VersionCompare {
  import opened Wrappers
  import opened Characters
  import opened VersionSpec
  import opened VersionOrder

  // ----- splitting a package name -----

  /** Where the version proper starts and ends, and the two numbers after it. */
  datatype Parts = Parts(start: nat, end: nat, epoch: nat, revision: nat)

  /** The length of the version proper: it ends at the last underscore, or else at the
      last comma, if there is one. */
  function VersionLength(version: string): (end: nat)
    ensures end <= |version| && Boundary(version[end..])
  {
    var u, q := LastIndex(version, '_'), LastIndex(version, ',');
    if u >= 0 then u else if q >= 0 then q else |version|
  }

  /** The number after the last underscore. */
  function RevisionOf(version: string): nat
  {
    var u := LastIndex(version, '_');
    if u >= 0 then Unsigned(version[u + 1..]) else 0
  }

  /** The number after the last comma of what comes after that underscore. */
  function EpochOf(version: string): nat
  {
    var rest := version[LastIndex(version, '_') + 1..];
    var q := LastIndex(rest, ',');
    if q >= 0 then Unsigned(rest[q + 1..]) else 0
  }

  /** `split_version` */
  function SplitVersion(pkgname: string): (p: Parts)
    ensures p.start <= p.end <= |pkgname|
  {
    var start := LastIndex(pkgname, '-') + 1;
    var version := pkgname[start..];
    Parts(start, start + VersionLength(version), EpochOf(version), RevisionOf(version))
  }

  /** The version a package name carries. */
  function VersionOf(pkgname: string): Version
  {
    var p := SplitVersion(pkgname);
    Version(p.epoch, Blocks(pkgname[p.start..p.end]), p.revision)
  }

  /** The value of `pkg_version_cmp`. */
  function Cmp(pkg1: string, pkg2: string): int
  {
    Compare(VersionOf(pkg1), VersionOf(pkg2))
  }

  // ----- reading one component -----

  /** `get_component` */
  method ReadComponent(position: string) returns (component: Component, pos: string)
    requires position != ""
    ensures (component, pos) == GetComponent(position)
  {
    hide Number, FindStage, AlphaRun, SeparatorRun, DigitRun, ToPlus;
    pos := position;
    var hasStage, hasPatchLevel := false, false;
    var n: int, a: int, pl: int;
    if IsDigit(pos[0]) {
      n := Number(pos);
      pos := pos[DigitRun(pos)..];
    } else if pos[0] == '*' {
      n := -2;
      pos := SkipStar(pos);
    } else {
      n := -1;
      hasStage := true;
    }
    assert (n, pos) == NumberPart(position);
    ghost var s1 := pos;
    if pos != "" && IsAlpha(pos[0]) {
      hasPatchLevel := true;
      var i := |STAGES|;
      if IsAlpha(At(pos, 1)) {
        i := SearchStages(pos);
      }
      if i < |STAGES| {
        if hasStage {
          a := STAGES[i].value;
          pos := pos[|STAGES[i].name|..];
        } else {
          a := 0;
          hasPatchLevel := false;
        }
      } else {
        a := (ToLower(pos[0]) - 'a') as int + 1;
        pos := SkipLetters(pos);
      }
    } else {
      a := 0;
      hasPatchLevel := false;
    }
    assert (a, hasPatchLevel, pos) == LetterPart(s1, hasStage);
    if hasPatchLevel {
      if pos != "" && IsDigit(pos[0]) {
        pl := Number(pos);
        pos := pos[DigitRun(pos)..];
      } else {
        pl := -1;
      }
    } else {
      pl := 0;
    }
    pos := SkipSeparators(pos);
    component := Component(n, a, pl);
  }

  /** The loop over the table of stages. */
  method SearchStages(pos: string) returns (i: nat)
    ensures i == FindStage(pos, 0)
  {
    i := 0;
    while i < |STAGES|
      invariant i <= |STAGES| && FindStage(pos, 0) == FindStage(pos, i)
    {
      if StartsWithStage(pos, STAGES[i]) {
        break;
      }
      i := i + 1;
    }
  }

  method SkipStar(position: string) returns (pos: string)
    requires position != ""
    ensures pos == position[1..][ToPlus(position[1..])..]
  {
    pos := position[1..];
    ghost var start := pos;
    while pos != "" && pos[0] != '+'
      invariant |pos| <= |start| && start[ToPlus(start)..] == pos[ToPlus(pos)..]
      decreases pos
    {
      pos := pos[1..];
    }
  }

  method SkipLetters(position: string) returns (pos: string)
    requires position != "" && IsAlpha(position[0])
    ensures pos == position[AlphaRun(position)..]
  {
    pos := position[1..];
    while pos != "" && IsAlpha(pos[0])
      invariant position[AlphaRun(position)..] == pos[AlphaRun(pos)..]
      decreases pos
    {
      pos := pos[1..];
    }
  }

  method SkipSeparators(position: string) returns (pos: string)
    ensures pos == position[SeparatorRun(position)..]
  {
    pos := position;
    while pos != "" && !IsDigit(pos[0]) && !IsAlpha(pos[0]) && pos[0] != '+' && pos[0] != '*'
      invariant position[SeparatorRun(position)..] == pos[SeparatorRun(pos)..]
      decreases pos
    {
      pos := pos[1..];
    }
  }

  // ----- the comparison loop -----

  /** The cursor `v` and what is left of the version proper. */
  ghost predicate Cursor(v: string, own: string, tail: string)
  {
    && Boundary(tail)
    && (own != "" ==> v == own + tail)
    && (own == "" ==> |v| <= |tail|)
  }

  /** The next component, or zero at the end of a block. */
  function NextComponent(own: string): Component
  {
    if own == "" || own[0] == '+' then MISSING else GetComponent(own).0
  }

  function AfterComponent(own: string): string
  {
    if own == "" || own[0] == '+' then own else GetComponent(own).1
  }

  function AfterPlus(own: string): string
    requires own == "" || own[0] == '+'
  {
    if own == "" then own else own[1..]
  }

  lemma BlocksHead(own: string)
    ensures var bs := Blocks(own);
      && Padded(bs[0], 0) == NextComponent(own)
      && Tail(bs[0]) == Blocks(AfterComponent(own))[0]
      && bs[1..] == Blocks(AfterComponent(own))[1..]
  {
    if own != "" && own[0] != '+' {
      var (c, rest) := GetComponent(own);
      var bs := Blocks(rest);
      assert ([c] + bs[0])[1..] == bs[0];
      assert ([[c] + bs[0]] + bs[1..])[1..] == bs[1..];
    }
  }

  /** Within a block, a pass of the loop compares two components. */
  lemma ComponentPass(t1: string, t2: string)
    requires !((t1 == "" || t1[0] == '+') && (t2 == "" || t2[0] == '+'))
    ensures var r := CompareComponents(NextComponent(t1), NextComponent(t2));
      CompareBlocks(Blocks(t1), Blocks(t2)) ==
      if r != 0 then r else CompareBlocks(Blocks(AfterComponent(t1)), Blocks(AfterComponent(t2)))
  {
    BlocksHead(t1);
    BlocksHead(t2);
    var x, y := Blocks(t1), Blocks(t2);
    var u, v := Blocks(AfterComponent(t1)), Blocks(AfterComponent(t2));
    assert x[0] != [] || y[0] != [];
    var r := CompareComponents(NextComponent(t1), NextComponent(t2));
    assert CompareBlock(x[0], y[0]) == if r != 0 then r else CompareBlock(u[0], v[0]);
  }

  lemma EmptyBlockIsNothing(y: seq<seq<Component>>)
    ensures CompareBlocks([[]], y) == CompareBlocks([], y)
    ensures CompareBlocks(y, [[]]) == CompareBlocks(y, [])
  {
  }

  /** At the end of both blocks the next blocks are compared. */
  lemma BlockPass(t1: string, t2: string)
    requires (t1 == "" || t1[0] == '+') && (t2 == "" || t2[0] == '+')
    ensures CompareBlocks(Blocks(t1), Blocks(t2)) == CompareBlocks(Blocks(AfterPlus(t1)), Blocks(AfterPlus(t2)))
  {
    var u, v := Blocks(AfterPlus(t1)), Blocks(AfterPlus(t2));
    var x, y := Tail(Blocks(t1)), Tail(Blocks(t2));
    assert t1 != "" ==> x == u;
    assert t1 == "" ==> x == [] && u == [[]];
    assert t2 != "" ==> y == v;
    assert t2 == "" ==> y == [] && v == [[]];
    EmptyBlockIsNothing(y);
    EmptyBlockIsNothing(v);
    EmptyBlockIsNothing(x);
    EmptyBlockIsNothing(u);
  }

  /** One side of a pass: read a component, or notice the end of the block. */
  method ReadSideAt(v: string, tail: string, ghost own: string) returns (next: string, vc: Component, block: bool)
    requires Cursor(v, own, tail)
    ensures block <==> own == "" || own[0] == '+'
    ensures vc == NextComponent(own) && Cursor(next, AfterComponent(own), tail)
    ensures |next| <= |v| && (!block ==> |next| < |v|)
    ensures block ==> next == v
  {
    next, vc, block := v, MISSING, false;
    if |v| > |tail| && v[0] != '+' {
      ComponentInStep(own, tail);
      GetComponentAdvances(v);
      vc, next := ReadComponent(v);
    } else {
      block := true;
    }
  }

  /** At the end of a block a cursor that is not yet at the end passes the plus sign. */
  method PassPlus(v: string, tail: string, ghost own: string) returns (next: string)
    requires Cursor(v, own, tail) && (own == "" || own[0] == '+')
    ensures Cursor(next, AfterPlus(own), tail)
    ensures |next| <= |v| && (|v| > |tail| ==> |next| < |v|)
  {
    next := v;
    if |v| > |tail| {
      next := v[1..];
      assert next == own[1..] + tail;
    }
  }

  lemma SplitAtEnd(pkgname: string, p: Parts)
    requires p == SplitVersion(pkgname)
    ensures Cursor(pkgname[p.start..], pkgname[p.start..p.end], pkgname[p.end..])
  {
    hide LastIndex, VersionLength, EpochOf, RevisionOf, Boundary, Cursor;
    var version := pkgname[p.start..];
    CursorAt(version, VersionLength(version));
    DropDrop(pkgname, p.start, VersionLength(version));
  }

  lemma CursorAt(version: string, n: nat)
    requires n <= |version| && Boundary(version[n..])
    ensures Cursor(version, version[..n], version[n..])
  {
    assert version[..n] + version[n..] == version;
  }

  lemma DropDrop(s: string, a: nat, b: nat)
    requires a + b <= |s|
    ensures s[a..][b..] == s[a + b..] && s[a..][..b] == s[a..a + b]
  {
  }

  /** `pkg_version_cmp` */
  method VersionCmp(pkg1: string, pkg2: string) returns (result: int)
    ensures result == Cmp(pkg1, pkg2)
  {
    hide Blocks, CompareBlocks, SplitVersion, Boundary, Cursor;
    var p1, p2 := SplitVersion(pkg1), SplitVersion(pkg2);
    SplitAtEnd(pkg1, p1);
    SplitAtEnd(pkg2, p2);
    var v1, v2 := pkg1[p1.start..], pkg2[p2.start..];
    var tail1, tail2 := pkg1[p1.end..], pkg2[p2.end..];
    ghost var t1, t2 := pkg1[p1.start..p1.end], pkg2[p2.start..p2.end];
    result := 0;
    if p1.epoch != p2.epoch {
      result := if p1.epoch < p2.epoch then -1 else 1;
    }
    var same := CaseEqual(pkg1[p1.start..p1.end], pkg2[p2.start..p2.end]);
    if result == 0 && !same {
      result := CompareTexts(v1, tail1, v2, tail2, t1, t2);
    }
    if result == 0 && p1.revision != p2.revision {
      result := if p1.revision < p2.revision then -1 else 1;
    }
  }

  /** The shortcut: same length, and equal but for case.  Such versions have the
      same components. */
  method CaseEqual(x: string, y: string) returns (same: bool)
    ensures same <==> |x| == |y| && Lower(x) == Lower(y)
    ensures same ==> CompareBlocks(Blocks(x), Blocks(y)) == 0
  {
    same := |x| == |y| && Lower(x) == Lower(y);
    if same {
      BlocksIgnoreCase(x);
      BlocksIgnoreCase(y);
      CompareBlocksSwap(Blocks(x), Blocks(x));
    }
  }

  /** The loop over the components of two versions. */
  method CompareTexts(start1: string, tail1: string, start2: string, tail2: string, ghost own1: string,
                      ghost own2: string)
    returns (result: int)
    requires Cursor(start1, own1, tail1) && Cursor(start2, own2, tail2)
    ensures result == CompareBlocks(Blocks(own1), Blocks(own2))
  {
    var v1, v2 := start1, start2;
    ghost var t1, t2 := own1, own2;
    ghost var target := CompareBlocks(Blocks(own1), Blocks(own2));
    result := 0;
    while result == 0 && (|v1| > |tail1| || |v2| > |tail2|)
      invariant Cursor(v1, t1, tail1) && Cursor(v2, t2, tail2)
      invariant result == 0 ==> target == CompareBlocks(Blocks(t1), Blocks(t2))
      invariant result != 0 ==> result == target
      decreases if result == 0 then 1 else 0, |v1| + |v2|
    {
      hide Blocks, CompareBlocks, GetComponent, NextComponent, AfterComponent, AfterPlus;
      var vc1: Component, vc2: Component;
      var block1: bool, block2: bool;
      v1, vc1, block1 := ReadSideAt(v1, tail1, t1);
      v2, vc2, block2 := ReadSideAt(v2, tail2, t2);
      if block1 && block2 {
        BlockPass(t1, t2);
        v1 := PassPlus(v1, tail1, t1);
        v2 := PassPlus(v2, tail2, t2);
        t1, t2 := AfterPlus(t1), AfterPlus(t2);
      } else {
        ComponentPass(t1, t2);
        if vc1.n != vc2.n {
          result := if vc1.n < vc2.n then -1 else 1;
        } else if vc1.a != vc2.a {
          result := if vc1.a < vc2.a then -1 else 1;
        } else if vc1.pl != vc2.pl {
          result := if vc1.pl < vc2.pl then -1 else 1;
        }
        t1, t2 := AfterComponent(t1), AfterComponent(t2);
      }
    }
    if result == 0 {
      assert t1 == "" && t2 == "";
      assert CompareBlocks([[]], [[]]) == 0;
    }
  }

  // ----- the order on package names -----

  /** `pkg_version_cmp` is a total preorder on all strings. */
  lemma CmpIsPreorder(a: string, b: string, c: string)
    ensures -1 <= Cmp(a, b) <= 1
    ensures Cmp(a, a) == 0
    ensures Cmp(a, b) == -Cmp(b, a)
    ensures Cmp(a, b) <= 0 && Cmp(b, c) <= 0 ==> Cmp(a, c) <= 0
    ensures Cmp(a, b) < 0 && Cmp(b, c) <= 0 ==> Cmp(a, c) < 0
    ensures Cmp(a, b) <= 0 && Cmp(b, c) < 0 ==> Cmp(a, c) < 0
  {
    hide VersionOf, Compare;
    CompareIsPreorder(VersionOf(a), VersionOf(b), VersionOf(c));
  }

  lemma LastIndexIs(s: string, c: char, k: nat)
    requires k < |s| && s[k] == c && c !in s[k + 1..]
    ensures LastIndex(s, c) == k
  {
    hide LastIndex;
    forall j | k < j < |s|
      ensures s[j] != c
    {
      assert s[j] == s[k + 1..][j - k - 1];
    }
  }

  lemma PartsAre(front: string, c: char, back: string)
    ensures var s := front + [c] + back; s[|front|] == c && s[|front| + 1..] == back
  {
  }

  lemma LastIndexOfParts(front: string, c: char, back: string)
    requires c !in back
    ensures LastIndex(front + [c] + back, c) == |front|
  {
    hide LastIndex;
    PartsAre(front, c, back);
    LastIndexIs(front + [c] + back, c, |front|);
  }

  /** Digits and nothing else. */
  ghost predicate AllDigits(s: string)
  {
    s != "" && forall k :: 0 <= k < |s| ==> IsDigit(s[k])
  }

  lemma {:induction false} NumberBefore(digits: string, rest: string, acc: nat)
    requires forall k :: 0 <= k < |digits| ==> IsDigit(digits[k])
    requires rest == "" || !IsDigit(rest[0])
    ensures Number(digits + rest, acc) == Number(digits, acc)
    decreases |digits|
  {
    if digits == "" {
      assert digits + rest == rest;
    } else {
      assert (digits + rest)[1..] == digits[1..] + rest;
      NumberBefore(digits[1..], rest, 10 * acc + (digits[0] - '0') as nat);
    }
  }

  lemma UnsignedOfDigits(digits: string, rest: string)
    requires AllDigits(digits) && (rest == "" || !IsDigit(rest[0]))
    ensures Unsigned(digits + rest) == Number(digits)
  {
    assert (digits + rest)[0] == digits[0];
    assert IsDigit(digits[0]);
    NumberBefore(digits, rest, 0);
  }

  /** What a package name may lack: the name before the version, and the numbers
      after it, each with its sign. */
  function Front(name: Option<string>): string
  {
    if name.Some? then name.value + ['-'] else ""
  }

  function Back(sign: char, digits: Option<string>): string
  {
    if digits.Some? then [sign] + digits.value else ""
  }

  ghost predicate IsNumeral(digits: Option<string>)
  {
    digits.Some? ==> AllDigits(digits.value)
  }

  function NumberOr(digits: Option<string>): nat
  {
    if digits.Some? then Number(digits.value) else 0
  }

  /** A package name put together as [name-]version[_revision][,epoch] is taken apart
      again. The version proper keeps its commas, if a number comes after it. */
  lemma SplitOfParts(name: Option<string>, version: string, revision: Option<string>, epoch: Option<string>)
    requires '-' !in version && '_' !in version && IsNumeral(revision) && IsNumeral(epoch)
    requires revision.None? && epoch.None? ==> ',' !in version
    ensures SplitVersion(Front(name) + (version + (Back('_', revision) + Back(',', epoch)))) ==
            Parts(|Front(name)|, |Front(name)| + |version|, NumberOr(epoch), NumberOr(revision))
  {
    hide LastIndex, VersionLength, EpochOf, RevisionOf, Front, Back, AllDigits, Number;
    var full := version + (Back('_', revision) + Back(',', epoch));
    NoneOf(revision, epoch);
    VersionStarts(name, full);
    if revision.Some? {
      AfterUnderscore(version, revision.value, epoch, full);
    } else {
      NoUnderscore(version, epoch, full);
    }
  }

  lemma VersionStarts(name: Option<string>, full: string)
    requires '-' !in full
    ensures LastIndex(Front(name) + full, '-') + 1 == |Front(name)| && (Front(name) + full)[|Front(name)|..] == full
  {
    hide LastIndex;
    if name.Some? {
      LastIndexOfParts(name.value, '-', full);
    }
  }

  /** After the underscore: the revision, and the epoch if there is one. */
  lemma AfterUnderscore(version: string, revision: string, epoch: Option<string>, full: string)
    requires AllDigits(revision) && IsNumeral(epoch) && full == version + (Back('_', Some(revision)) + Back(',', epoch))
    ensures VersionLength(full) == |version| && RevisionOf(full) == Number(revision) && EpochOf(full) == NumberOr(epoch)
  {
    hide LastIndex, Unsigned, Number, AllDigits;
    var rest := revision + Back(',', epoch);
    NoneOf(Some(revision), epoch);
    assert full == version + ['_'] + rest;
    LastIndexOfParts(version, '_', rest);
    PartsAre(version, '_', rest);
    UnsignedOfDigits(revision, Back(',', epoch));
    NoDigitIs(revision, ',');
    LastNumber(revision, epoch);
  }

  /** Without a revision: the epoch comes after the last comma. */
  lemma NoUnderscore(version: string, epoch: Option<string>, full: string)
    requires '_' !in version && IsNumeral(epoch) && full == version + (Back('_', None) + Back(',', epoch))
    requires epoch.None? ==> ',' !in version
    ensures VersionLength(full) == |version| && RevisionOf(full) == 0 && EpochOf(full) == NumberOr(epoch)
  {
    hide LastIndex, Unsigned, Number, AllDigits;
    NoneOf(None, epoch);
    assert full == version + Back(',', epoch);
    assert full[0..] == full;
    LastNumber(version, epoch);
  }

  /** The number after the last comma. */
  lemma LastNumber(front: string, epoch: Option<string>)
    requires IsNumeral(epoch) && (epoch.None? ==> ',' !in front)
    ensures LastIndex(front + Back(',', epoch), ',') == if epoch.Some? then |front| else -1
    ensures epoch.Some? ==> Unsigned((front + Back(',', epoch))[|front| + 1..]) == Number(epoch.value)
  {
    hide LastIndex, Unsigned, Number, AllDigits;
    if epoch.Some? {
      assert front + Back(',', epoch) == front + [','] + epoch.value;
      LastDigits(front, epoch.value);
    } else {
      assert front + Back(',', epoch) == front;
    }
  }

  lemma LastDigits(front: string, digits: string)
    requires AllDigits(digits)
    ensures LastIndex(front + [','] + digits, ',') == |front|
    ensures Unsigned((front + [','] + digits)[|front| + 1..]) == Number(digits)
  {
    hide LastIndex, Unsigned, Number, AllDigits;
    NoDigitIs(digits, ',');
    LastIndexOfParts(front, ',', digits);
    PartsAre(front, ',', digits);
    assert digits + "" == digits;
    UnsignedOfDigits(digits, "");
  }

  lemma NoneOf(revision: Option<string>, epoch: Option<string>)
    requires IsNumeral(revision) && IsNumeral(epoch)
    ensures '-' !in Back('_', revision) + Back(',', epoch)
    ensures '_' !in Back(',', epoch) && (revision.Some? ==> '_' !in revision.value)
  {
    if revision.Some? {
      NoDigitIs(revision.value, '-');
      NoDigitIs(revision.value, '_');
    }
    if epoch.Some? {
      NoDigitIs(epoch.value, '-');
      NoDigitIs(epoch.value, '_');
    }
  }

  lemma NoDigitIs(digits: string, c: char)
    requires AllDigits(digits) && !IsDigit(c)
    ensures c !in digits
  {
  }

  lemma VersionOfDigit(c: char)
    requires IsDigit(c)
    ensures VersionOf([c]) == Version(0, [[Component((c - '0') as int, 0, 0)]], 0)
  {
    hide LastIndex, VersionLength, EpochOf, RevisionOf, Blocks;
    SplitOfParts(None, [c], None, None);
    assert Front(None) + ([c] + (Back('_', None) + Back(',', None))) == [c];
    assert [c][0..1] == [c];
    BlocksOfDigit(c);
  }

  lemma BlocksOfDigit(c: char)
    requires IsDigit(c)
    ensures Blocks([c]) == [[Component((c - '0') as int, 0, 0)]]
  {
    assert [c][1..] == "";
    assert Number([c]) == (c - '0') as nat && DigitRun([c]) == 1;
    assert GetComponent([c]) == (Component((c - '0') as int, 0, 0), "");
    assert Blocks("") == [[]] && [Component((c - '0') as int, 0, 0)] + [] == [Component((c - '0') as int, 0, 0)];
  }

  lemma OneComponentEach(c: Component, d: Component)
    requires c.n < d.n
    ensures CompareBlocks([[c]], [[d]]) == -1
  {
    assert PaddedBlock([[c]], 0) == [c] && PaddedBlock([[d]], 0) == [d];
    assert CompareBlock([c], [d]) == -1;
  }

  /** Digits are compared as numbers. */
  lemma DigitsCompare(c: char, d: char)
    requires IsDigit(c) && IsDigit(d) && c < d
    ensures Cmp([c], [d]) == -1
  {
    hide VersionOf, CompareBlocks;
    VersionOfDigit(c);
    VersionOfDigit(d);
    OneComponentEach(Component((c - '0') as int, 0, 0), Component((d - '0') as int, 0, 0));
  }

  // ----- choosing the newest candidate (pkg_jobs_universe.c) -----

  datatype Change = Upgrade | Downgrade | Reinstall

  /** `pkg_version_change_between`: what replacing version `current` by `version` is. */
  method ChangeBetween(version: string, current: string) returns (change: Change)
    ensures change == Upgrade <==> Cmp(current, version) < 0
    ensures change == Downgrade <==> Cmp(current, version) > 0
  {
    hide VersionOf, Compare;
    CmpIsPreorder(current, version, version);
    var r := VersionCmp(current, version);
    if r == -1 {
      change := Upgrade;
    } else if r == 1 {
      change := Downgrade;
    } else {
      change := Reinstall;
    }
  }

  datatype Candidate = Candidate(version: string, installed: bool)

  /** Candidate `k` is remote and no older than any remote candidate below `n`, and
      newer than those before it. */
  ghost predicate Newest(chain: seq<Candidate>, n: nat, k: nat)
    requires n <= |chain|
  {
    && k < n && !chain[k].installed
    && (forall i :: 0 <= i < n && !chain[i].installed ==> Cmp(chain[i].version, chain[k].version) <= 0)
    && (forall i :: 0 <= i < k && !chain[i].installed ==> Cmp(chain[i].version, chain[k].version) < 0)
  }

  /** All remote candidates below `n` have equal versions. */
  ghost predicate AllEqual(chain: seq<Candidate>, n: nat)
    requires n <= |chain|
  {
    forall i, j :: 0 <= i < n && 0 <= j < n && !chain[i].installed && !chain[j].installed ==>
      Cmp(chain[i].version, chain[j].version) == 0
  }

  /** Reading candidate `n`: how it compares with the newest so far decides
      everything. */
  lemma NextCandidate(chain: seq<Candidate>, n: nat, k: nat)
    requires n < |chain| && !chain[n].installed && Newest(chain, n, k)
    ensures Cmp(chain[k].version, chain[n].version) < 0 ==> Newest(chain, n + 1, n) && !AllEqual(chain, n + 1)
    ensures Cmp(chain[k].version, chain[n].version) >= 0 ==> Newest(chain, n + 1, k)
    ensures Cmp(chain[k].version, chain[n].version) > 0 ==> !AllEqual(chain, n + 1)
    ensures Cmp(chain[k].version, chain[n].version) == 0 ==> (AllEqual(chain, n + 1) <==> AllEqual(chain, n))
  {
    hide Cmp;
    var best, cur := chain[k].version, chain[n].version;
    CmpIsPreorder(best, cur, cur);
    forall i | 0 <= i < n && !chain[i].installed
      ensures Cmp(best, cur) < 0 ==> Cmp(chain[i].version, cur) < 0
      ensures Cmp(best, cur) == 0 && AllEqual(chain, n) ==>
        Cmp(chain[i].version, cur) == 0 && Cmp(cur, chain[i].version) == 0
    {
      CmpIsPreorder(chain[i].version, best, cur);
      CmpIsPreorder(cur, best, chain[i].version);
      CmpIsPreorder(chain[i].version, cur, cur);
    }
    CmpIsPreorder(cur, cur, cur);
  }

  /** `pkg_jobs_universe_select_max_ver`: the first of the newest remote candidates,
      or nothing when all remote versions are equal. */
  method SelectMaxVer(chain: seq<Candidate>) returns (found: bool, res: nat)
    ensures found <==> !AllEqual(chain, |chain|)
    ensures found ==> Newest(chain, |chain|, res)
  {
    hide Cmp, Newest, AllEqual;
    found, res := false, 0;
    var any := false;
    NoCandidate(chain, 0);
    var n := 0;
    while n < |chain|
      invariant n <= |chain|
      invariant any ==> Newest(chain, n, res)
      invariant found <==> !AllEqual(chain, n)
      invariant !any ==> forall i :: 0 <= i < n ==> chain[i].installed
    {
      if chain[n].installed {
        InstalledCandidate(chain, n, res);
      } else if any {
        InRange(chain, n, res);
        var r := ChangeBetween(chain[n].version, chain[res].version);
        NextCandidate(chain, n, res);
        if r == Upgrade {
          res := n;
          found := true;
        } else if r != Reinstall {
          found := true;
        }
      } else {
        FirstCandidate(chain, n);
        any, res := true, n;
      }
      n := n + 1;
    }
    if !any {
      NoCandidate(chain, n);
    }
  }

  lemma InRange(chain: seq<Candidate>, n: nat, k: nat)
    requires n <= |chain| && Newest(chain, n, k)
    ensures k < n
  {
  }

  lemma NoCandidate(chain: seq<Candidate>, n: nat)
    requires n <= |chain| && forall i :: 0 <= i < n ==> chain[i].installed
    ensures AllEqual(chain, n)
  {
  }

  lemma InstalledCandidate(chain: seq<Candidate>, n: nat, k: nat)
    requires n < |chain| && chain[n].installed
    ensures Newest(chain, n, k) ==> Newest(chain, n + 1, k)
    ensures AllEqual(chain, n) <==> AllEqual(chain, n + 1)
  {
    hide Cmp;
  }

  lemma FirstCandidate(chain: seq<Candidate>, n: nat)
    requires n < |chain| && !chain[n].installed && forall i :: 0 <= i < n ==> chain[i].installed
    ensures Newest(chain, n + 1, n) && AllEqual(chain, n + 1) && AllEqual(chain, n)
  {
    hide Cmp;
    CmpIsPreorder(chain[n].version, chain[n].version, chain[n].version);
  }
}
