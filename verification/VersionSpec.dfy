/** What a package version means (libpkg/pkg_version.c): its epoch, its blocks of
    components, its revision, and the order on these. */
module VersionSpec {
  import opened Characters

  // ----- lower case -----

  function ToLower(c: char): char
  {
    if 'A' <= c <= 'Z' then c - 'A' + 'a' else c
  }

  function Lower(s: string): (r: string)
    ensures |r| == |s|
    ensures forall k :: 0 <= k < |s| ==> r[k] == ToLower(s[k])
  {
    seq(|s|, k requires 0 <= k < |s| => ToLower(s[k]))
  }

  // ----- numbers -----

  /** Length of the run of digits at the front. */
  function DigitRun(s: string): (n: nat)
    ensures n <= |s|
  {
    if s == "" || !IsDigit(s[0]) then 0 else 1 + DigitRun(s[1..])
  }

  /** `strtoll` on the digits at the front. */
  function Number(s: string, acc: nat := 0): nat
  {
    if s == "" || !IsDigit(s[0]) then acc
    else Number(s[1..], 10 * acc + (s[0] - '0') as nat)
  }

  function AlphaRun(s: string): (n: nat)
    ensures n <= |s|
  {
    if s == "" || !IsAlpha(s[0]) then 0 else 1 + AlphaRun(s[1..])
  }

  /** `strtoul`: white space, a plus sign, digits.  No minus sign can follow the
      last '-' of a package name. */
  function Unsigned(s: string): nat
  {
    if s != "" && IsSpace(s[0]) then Unsigned(s[1..])
    else if s != "" && s[0] == '+' then Number(s[1..])
    else Number(s)
  }

  // ----- components -----

  /** A number, a letter, a patch level. */
  datatype Component = Component(n: int, a: int, pl: int)

  const MISSING := Component(0, 0, 0)

  datatype Stage = Stage(name: string, value: nat)

  const STAGES := [Stage("pl", 0), Stage("alpha", 1), Stage("beta", 2), Stage("pre", 16), Stage("rc", 18)]

  /** `pos` starts with the name of a stage that no letter follows. */
  predicate StartsWithStage(s: string, stage: Stage)
  {
    |stage.name| <= |s| && Lower(s[..|stage.name|]) == stage.name && !IsAlpha(At(s, |stage.name|))
  }

  /** The first stage of the table from entry `i` on that the text starts with. */
  function FindStage(s: string, i: nat): (k: nat)
    requires i <= |STAGES|
    ensures i <= k <= |STAGES| && (k < |STAGES| ==> StartsWithStage(s, STAGES[k]))
    decreases |STAGES| - i
  {
    if i == |STAGES| || StartsWithStage(s, STAGES[i]) then i else FindStage(s, i + 1)
  }

  /** Distance to the first '+' or to the end. */
  function ToPlus(s: string): (n: nat)
    ensures n <= |s|
  {
    if s == "" || s[0] == '+' then 0 else 1 + ToPlus(s[1..])
  }

  predicate IsSeparator(c: char)
  {
    !IsDigit(c) && !IsAlpha(c) && c != '+' && c != '*'
  }

  function SeparatorRun(s: string): (n: nat)
    ensures n <= |s|
  {
    if s == "" || !IsSeparator(s[0]) then 0 else 1 + SeparatorRun(s[1..])
  }

  /** The number of a component and the text after it. */
  function NumberPart(s: string): (int, string)
    requires s != ""
  {
    if IsDigit(s[0]) then (Number(s) as int, s[DigitRun(s)..])
    else if s[0] == '*' then (-2, s[1..][ToPlus(s[1..])..])
    else (-1, s)
  }

  /** The letter, whether a patch level may follow, and the text after it. */
  function LetterPart(s: string, hasStage: bool): (int, bool, string)
  {
    if s == "" || !IsAlpha(s[0]) then (0, false, s)
    else
      var k := if IsAlpha(At(s, 1)) then FindStage(s, 0) else |STAGES|;
      if k < |STAGES| then
        if hasStage then (STAGES[k].value, true, s[|STAGES[k].name|..]) else (0, false, s)
      else
        ((ToLower(s[0]) - 'a') as int + 1, true, s[AlphaRun(s)..])
  }

  function PatchPart(s: string, hasPatchLevel: bool): (int, string)
  {
    if !hasPatchLevel then (0, s)
    else if s != "" && IsDigit(s[0]) then (Number(s) as int, s[DigitRun(s)..])
    else (-1, s)
  }

  /** `get_component`: the component at the front of a text and the text after it
      and its trailing separators. */
  function GetComponent(s: string): (r: (Component, string))
    requires s != ""
  {
    var (n, s1) := NumberPart(s);
    var (a, hasPatchLevel, s2) := LetterPart(s1, n == -1);
    var (pl, s3) := PatchPart(s2, hasPatchLevel);
    (Component(n, a, pl), s3[SeparatorRun(s3)..])
  }

  /** Every component uses up at least one character, except at a '+'. */
  lemma GetComponentAdvances(s: string)
    requires s != "" && s[0] != '+'
    ensures |GetComponent(s).1| < |s|
  {
  }

  // ----- the text of a version, and what follows it in the package name -----

  /** What follows the version proper: nothing, a revision or an epoch. */
  ghost predicate Boundary(tail: string)
  {
    tail == "" || tail[0] == '_' || tail[0] == ','
  }

  lemma {:induction false} DigitsStop(own: string, tail: string, acc: nat)
    requires Boundary(tail)
    ensures DigitRun(own + tail) == DigitRun(own) && Number(own + tail, acc) == Number(own, acc)
    decreases |own|
  {
    if own == "" {
      assert own + tail == tail;
    } else if IsDigit(own[0]) {
      assert (own + tail)[1..] == own[1..] + tail;
      DigitsStop(own[1..], tail, 10 * acc + (own[0] - '0') as nat);
    }
  }

  lemma {:induction false} LettersStop(own: string, tail: string)
    requires Boundary(tail)
    ensures AlphaRun(own + tail) == AlphaRun(own)
  {
    if own == "" {
      assert own + tail == tail;
    } else if IsAlpha(own[0]) {
      assert (own + tail)[1..] == own[1..] + tail;
      LettersStop(own[1..], tail);
    }
  }

  lemma {:induction false} PlusStops(own: string, tail: string)
    ensures ToPlus(own) < |own| ==> ToPlus(own + tail) == ToPlus(own)
    ensures ToPlus(own) == |own| ==> ToPlus(own + tail) >= |own|
    ensures ToPlus(own + tail) < |own + tail| ==> (own + tail)[ToPlus(own + tail)] == '+'
  {
    if own == "" {
      assert own + tail == tail;
      ToPlusIs(tail);
    } else {
      assert (own + tail)[1..] == own[1..] + tail;
      PlusStops(own[1..], tail);
    }
  }

  lemma {:induction false} ToPlusIs(s: string)
    ensures ToPlus(s) < |s| ==> s[ToPlus(s)] == '+'
  {
    if s != "" && s[0] != '+' {
      ToPlusIs(s[1..]);
    }
  }

  lemma {:induction false} SeparatorsStop(own: string, tail: string)
    ensures SeparatorRun(own) < |own| ==> SeparatorRun(own + tail) == SeparatorRun(own)
    ensures SeparatorRun(own) == |own| ==> SeparatorRun(own + tail) >= |own|
  {
    if own != "" {
      assert (own + tail)[1..] == own[1..] + tail;
      SeparatorsStop(own[1..], tail);
    }
  }

  lemma StagesAreLetters(k: nat, x: nat)
    requires k < |STAGES| && x < |STAGES[k].name|
    ensures IsAlpha(STAGES[k].name[x])
  {
  }

  lemma StageStops(own: string, tail: string, k: nat)
    requires Boundary(tail) && k < |STAGES|
    ensures StartsWithStage(own + tail, STAGES[k]) <==> StartsWithStage(own, STAGES[k])
  {
    var len := |STAGES[k].name|;
    if len <= |own| {
      assert (own + tail)[..len] == own[..len];
      assert own == "" ==> own + tail == tail;
    } else if len <= |own + tail| {
      assert Lower((own + tail)[..len])[|own|] == ToLower(tail[0]);
      StagesAreLetters(k, |own|);
    }
  }

  lemma {:induction false} FindStageStops(own: string, tail: string, i: nat)
    requires Boundary(tail) && i <= |STAGES|
    ensures FindStage(own + tail, i) == FindStage(own, i)
    decreases |STAGES| - i
  {
    if i < |STAGES| {
      StageStops(own, tail, i);
      FindStageStops(own, tail, i + 1);
    }
  }

  /** The scan of the whole package name and the scan of the version alone are at
      the same place, or the version is used up and nothing more will be read. */
  ghost predicate InStep(full: string, own: string, tail: string)
  {
    full == own + tail || (own == "" && |full| <= |tail| && (full == "" || full[0] == '+'))
  }

  lemma NumberInStep(own: string, tail: string)
    requires own != "" && Boundary(tail)
    ensures NumberPart(own + tail).0 == NumberPart(own).0
    ensures InStep(NumberPart(own + tail).1, NumberPart(own).1, tail)
  {
    var full := own + tail;
    assert full[0] == own[0];
    if IsDigit(own[0]) {
      DigitsStop(own, tail, 0);
      assert full[DigitRun(own)..] == own[DigitRun(own)..] + tail;
    } else if own[0] == '*' {
      var rest := own[1..];
      assert full[1..] == rest + tail;
      PlusStops(rest, tail);
      var k := ToPlus(rest);
      if k < |rest| {
        assert (rest + tail)[k..] == rest[k..] + tail;
      }
    }
  }

  lemma DropConcat(own: string, tail: string, k: nat)
    requires k <= |own|
    ensures (own + tail)[k..] == own[k..] + tail
  {
  }

  lemma LettersInStep(own: string, tail: string, k: nat)
    requires own != "" && Boundary(tail) && k == FindStage(own, 0)
    ensures FindStage(own + tail, 0) == k && AlphaRun(own + tail) == AlphaRun(own)
    ensures IsAlpha(At(own + tail, 1)) == IsAlpha(At(own, 1))
    ensures (own + tail)[AlphaRun(own)..] == own[AlphaRun(own)..] + tail
    ensures k < |STAGES| ==>
      |STAGES[k].name| <= |own| && (own + tail)[|STAGES[k].name|..] == own[|STAGES[k].name|..] + tail
  {
    assert k < |STAGES| ==> |STAGES[k].name| <= |own|;
    hide FindStage, AlphaRun, StartsWithStage;
    FindStageStops(own, tail, 0);
    LettersStop(own, tail);
    DropConcat(own, tail, AlphaRun(own));
    if k < |STAGES| {
      DropConcat(own, tail, |STAGES[k].name|);
    }
  }

  lemma LetterInStep(full: string, own: string, tail: string, hasStage: bool)
    requires Boundary(tail) && InStep(full, own, tail)
    ensures LetterPart(full, hasStage).0 == LetterPart(own, hasStage).0
    ensures LetterPart(full, hasStage).1 == LetterPart(own, hasStage).1
    ensures InStep(LetterPart(full, hasStage).2, LetterPart(own, hasStage).2, tail)
  {
    if own == "" {
      assert "" + tail == tail;
    } else {
      LettersInStep(own, tail, FindStage(own, 0));
      hide FindStage, AlphaRun, StartsWithStage, At, ToLower;
      assert full[0] == own[0];
    }
  }

  lemma PatchInStep(full: string, own: string, tail: string, hasPatchLevel: bool)
    requires Boundary(tail) && InStep(full, own, tail)
    ensures PatchPart(full, hasPatchLevel).0 == PatchPart(own, hasPatchLevel).0
    ensures InStep(PatchPart(full, hasPatchLevel).1, PatchPart(own, hasPatchLevel).1, tail)
  {
    if own == "" {
      assert "" + tail == tail;
    } else {
      DigitsStop(own, tail, 0);
      assert full[DigitRun(own)..] == own[DigitRun(own)..] + tail;
    }
  }

  /** Reading a component out of the whole package name gives the component of the
      version alone; past it, either both have the same text left or the version is
      used up. */
  lemma ComponentInStep(own: string, tail: string)
    requires own != "" && Boundary(tail)
    ensures var (c, rest), (d, left) := GetComponent(own + tail), GetComponent(own);
      && c == d
      && (left != "" ==> rest == left + tail)
      && (left == "" ==> |rest| <= |tail|)
  {
    var (n, s1) := NumberPart(own + tail);
    var (m, t1) := NumberPart(own);
    NumberInStep(own, tail);
    LetterInStep(s1, t1, tail, n == -1);
    var (a, p, s2) := LetterPart(s1, n == -1);
    var (b, q, t2) := LetterPart(t1, m == -1);
    PatchInStep(s2, t2, tail, p);
    var s3, t3 := PatchPart(s2, p).1, PatchPart(t2, q).1;
    SkipInStep(s3, t3, tail);
  }

  lemma SkipInStep(full: string, own: string, tail: string)
    requires InStep(full, own, tail)
    ensures var rest, left := full[SeparatorRun(full)..], own[SeparatorRun(own)..];
      && (left != "" ==> rest == left + tail)
      && (left == "" ==> |rest| <= |tail|)
  {
    if full == own + tail {
      SeparatorsStop(own, tail);
      var k := SeparatorRun(own);
      if k < |own| {
        assert full[k..] == own[k..] + tail;
      }
    }
  }

  // ----- upper and lower case -----

  lemma LowerFrom(s: string, k: nat)
    requires k <= |s|
    ensures Lower(s)[k..] == Lower(s[k..]) && Lower(s)[..k] == Lower(s[..k])
  {
  }

  lemma LowerTwice(s: string)
    ensures Lower(Lower(s)) == Lower(s)
  {
  }

  lemma {:induction false} RunsIgnoreCase(s: string, acc: nat)
    ensures DigitRun(Lower(s)) == DigitRun(s) && Number(Lower(s), acc) == Number(s, acc)
    ensures AlphaRun(Lower(s)) == AlphaRun(s) && ToPlus(Lower(s)) == ToPlus(s)
    ensures SeparatorRun(Lower(s)) == SeparatorRun(s)
    decreases |s|
  {
    if s != "" {
      LowerFrom(s, 1);
      RunsIgnoreCase(s[1..], if IsDigit(s[0]) then 10 * acc + (s[0] - '0') as nat else acc);
    }
  }

  lemma {:induction false} FindStageIgnoresCase(s: string, i: nat)
    requires i <= |STAGES|
    ensures FindStage(Lower(s), i) == FindStage(s, i)
    decreases |STAGES| - i
  {
    if i < |STAGES| {
      var len := |STAGES[i].name|;
      if len <= |s| {
        LowerFrom(s, len);
        LowerTwice(s[..len]);
      }
      FindStageIgnoresCase(s, i + 1);
    }
  }

  lemma NumberIgnoresCase(s: string)
    requires s != ""
    ensures NumberPart(Lower(s)) == (NumberPart(s).0, Lower(NumberPart(s).1))
  {
    RunsIgnoreCase(s, 0);
    LowerFrom(s, DigitRun(s));
    LowerFrom(s, 1);
    RunsIgnoreCase(s[1..], 0);
    LowerFrom(s[1..], ToPlus(s[1..]));
  }

  lemma LetterIgnoresCase(s: string, hasStage: bool)
    ensures LetterPart(Lower(s), hasStage) ==
            (LetterPart(s, hasStage).0, LetterPart(s, hasStage).1, Lower(LetterPart(s, hasStage).2))
  {
    hide FindStage, AlphaRun, Lower;
    if s != "" && IsAlpha(s[0]) {
      FindStageIgnoresCase(s, 0);
      RunsIgnoreCase(s, 0);
      var k := FindStage(s, 0);
      if IsAlpha(At(s, 1)) && k < |STAGES| {
        LowerFrom(s, |STAGES[k].name|);
      } else {
        LowerFrom(s, AlphaRun(s));
      }
    }
  }

  lemma PatchIgnoresCase(s: string, hasPatchLevel: bool)
    ensures PatchPart(Lower(s), hasPatchLevel) ==
            (PatchPart(s, hasPatchLevel).0, Lower(PatchPart(s, hasPatchLevel).1))
  {
    RunsIgnoreCase(s, 0);
    LowerFrom(s, DigitRun(s));
  }

  lemma ComponentIgnoresCase(s: string)
    requires s != ""
    ensures GetComponent(Lower(s)) == (GetComponent(s).0, Lower(GetComponent(s).1))
  {
    hide NumberPart, LetterPart, PatchPart;
    var (n, s1) := NumberPart(s);
    NumberIgnoresCase(s);
    var (a, hasPatchLevel, s2) := LetterPart(s1, n == -1);
    LetterIgnoresCase(s1, n == -1);
    var (pl, s3) := PatchPart(s2, hasPatchLevel);
    PatchIgnoresCase(s2, hasPatchLevel);
    RunsIgnoreCase(s3, 0);
    LowerFrom(s3, SeparatorRun(s3));
  }

  // ----- blocks of components -----

  /** The components of a version, cut into blocks at every '+'. */
  function Blocks(t: string): (bs: seq<seq<Component>>)
    ensures bs != []
    decreases |t|
  {
    if t == "" then [[]]
    else if t[0] == '+' then [[]] + Blocks(t[1..])
    else
      GetComponentAdvances(t);
      var (c, rest) := GetComponent(t);
      var bs := Blocks(rest);
      [[c] + bs[0]] + bs[1..]
  }

  lemma {:induction false} BlocksIgnoreCase(t: string)
    ensures Blocks(Lower(t)) == Blocks(t)
    decreases |t|
  {
    if t == "" {
    } else if t[0] == '+' {
      LowerFrom(t, 1);
      BlocksIgnoreCase(t[1..]);
    } else {
      hide GetComponent;
      GetComponentAdvances(t);
      ComponentIgnoresCase(t);
      BlocksIgnoreCase(GetComponent(t).1);
    }
  }
}
