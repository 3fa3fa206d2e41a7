/** What the comparison says of version texts (libpkg/pkg_version.c:98-128, 260-265): the
    numbers, the letters and the special strings, and the order of the three parts. */
module VersionTexts {
  import opened Wrappers
  import opened Characters
  import opened VersionSpec
  import opened VersionOrder
  import opened VersionCompare

  // ----- texts without name, revision and epoch -----

  ghost predicate Plain(v: string)
  {
    '-' !in v && '_' !in v && ',' !in v
  }

  lemma PlainIs(v: string)
    requires Plain(v)
    ensures VersionOf(v) == Version(0, Blocks(v), 0)
  {
    hide LastIndex, VersionLength, EpochOf, RevisionOf, Blocks;
    SplitOfParts(None, v, None, None);
    assert Front(None) + (v + (Back('_', None) + Back(',', None))) == v;
    assert v[0..|v|] == v;
  }

  /** Plain texts compare as their blocks do. */
  lemma PlainCmp(v: string, w: string)
    requires Plain(v) && Plain(w)
    ensures Cmp(v, w) == CompareBlocks(Blocks(v), Blocks(w))
  {
    hide VersionOf, Blocks, CompareBlocks;
    PlainIs(v);
    PlainIs(w);
  }

  // ----- epoch, version, revision -----

  function Name(v: string, revision: Option<string>, epoch: Option<string>): string
  {
    v + (Back('_', revision) + Back(',', epoch))
  }

  lemma NameIs(v: string, revision: Option<string>, epoch: Option<string>)
    requires Plain(v) && IsNumeral(revision) && IsNumeral(epoch)
    ensures VersionOf(Name(v, revision, epoch)) == Version(NumberOr(epoch), Blocks(v), NumberOr(revision))
  {
    hide LastIndex, VersionLength, EpochOf, RevisionOf, Blocks, IsNumeral, NumberOr, Back;
    SplitOfParts(None, v, revision, epoch);
    var full := Name(v, revision, epoch);
    assert Front(None) + full == full;
    assert full[0..|v|] == v;
  }

  /** The epoch supersedes the version, and that the revision. */
  lemma EpochThenVersionThenRevision(v: string, r: Option<string>, e: Option<string>,
                                     w: string, s: Option<string>, f: Option<string>)
    requires Plain(v) && IsNumeral(r) && IsNumeral(e) && Plain(w) && IsNumeral(s) && IsNumeral(f)
    ensures var c := Cmp(Name(v, r, e), Name(w, s, f));
      && (NumberOr(e) < NumberOr(f) ==> c == -1)
      && (NumberOr(e) > NumberOr(f) ==> c == 1)
      && (NumberOr(e) == NumberOr(f) && Cmp(v, w) != 0 ==> c == Cmp(v, w))
      && (NumberOr(e) == NumberOr(f) && Cmp(v, w) == 0 && NumberOr(r) < NumberOr(s) ==> c == -1)
      && (NumberOr(e) == NumberOr(f) && Cmp(v, w) == 0 && NumberOr(r) > NumberOr(s) ==> c == 1)
      && (NumberOr(e) == NumberOr(f) && Cmp(v, w) == 0 && NumberOr(r) == NumberOr(s) ==> c == 0)
  {
    hide VersionOf, Blocks, CompareBlocks, Name, NumberOr, IsNumeral;
    NameIs(v, r, e);
    NameIs(w, s, f);
    PlainCmp(v, w);
  }

  // ----- numbers -----

  function Power(n: nat): (p: nat)
    ensures p > 0
  {
    if n == 0 then 1 else 10 * Power(n - 1)
  }

  /** The number that digits make, the last the lowest. */
  function Decimal(digits: string): nat
    requires AllNumeric(digits)
  {
    if digits == "" then 0
    else 10 * Decimal(digits[..|digits| - 1]) + (digits[|digits| - 1] - '0') as nat
  }

  ghost predicate AllNumeric(s: string)
  {
    forall k :: 0 <= k < |s| ==> IsDigit(s[k])
  }

  lemma {:induction false} NumberIs(digits: string, acc: nat)
    requires AllNumeric(digits)
    ensures Number(digits, acc) == acc * Power(|digits|) + Decimal(digits)
    decreases |digits|
  {
    if digits != "" {
      var d := (digits[0] - '0') as nat;
      NumberIs(digits[1..], 10 * acc + d);
      FirstDigit(digits);
      Carry(acc, d, Power(|digits| - 1), Decimal(digits[1..]));
    }
  }

  lemma Carry(acc: nat, d: nat, p: nat, rest: nat)
    ensures (10 * acc + d) * p + rest == acc * (10 * p) + (d * p + rest)
  {
  }

  /** The first digit is the highest. */
  lemma {:induction false} FirstDigit(digits: string)
    requires AllNumeric(digits) && digits != ""
    ensures Decimal(digits) == (digits[0] - '0') as nat * Power(|digits| - 1) + Decimal(digits[1..])
    decreases |digits|
  {
    var n, d := |digits| - 1, (digits[0] - '0') as nat;
    if n == 0 {
      assert digits[1..] == "" && digits[..0] == "";
      assert Power(0) == 1;
    } else {
      FirstDigit(digits[..n]);
      assert digits[..n][1..] == digits[1..][..n - 1] && digits[1..][n - 1] == digits[n];
      Tenfold(d, Power(n - 1), Decimal(digits[..n][1..]));
    }
  }

  lemma Tenfold(d: nat, p: nat, rest: nat)
    ensures 10 * (d * p + rest) == d * (10 * p) + 10 * rest
  {
  }

  lemma {:induction false} DecimalBelow(digits: string)
    requires AllNumeric(digits)
    ensures Decimal(digits) < Power(|digits|)
  {
    if digits != "" {
      DecimalBelow(digits[..|digits| - 1]);
    }
  }

  lemma DecimalAtLeast(digits: string)
    requires AllNumeric(digits) && digits != "" && digits[0] != '0'
    ensures Decimal(digits) >= Power(|digits| - 1)
  {
    FirstDigit(digits);
    AtLeastOnce((digits[0] - '0') as nat, Power(|digits| - 1));
  }

  lemma AtLeastOnce(d: nat, p: nat)
    requires d >= 1
    ensures d * p >= p
  {
  }

  lemma {:induction false} PowerGrows(m: nat, n: nat)
    requires m <= n
    ensures Power(m) <= Power(n)
  {
    if m < n {
      PowerGrows(m, n - 1);
    }
  }

  /** The texts are as long, and the first comes earlier in the dictionary. */
  ghost predicate EarlierAt(d: string, e: string, k: nat)
    requires |d| == |e| && k < |d|
  {
    d[..k] == e[..k] && d[k] < e[k]
  }

  ghost predicate EarlierText(d: string, e: string)
    requires |d| == |e|
  {
    exists k :: 0 <= k < |d| && EarlierAt(d, e, k)
  }

  lemma {:induction false} SameLengthNumbers(d: string, e: string)
    requires AllNumeric(d) && AllNumeric(e) && |d| == |e|
    ensures Decimal(d) < Decimal(e) <==> EarlierText(d, e)
    ensures Decimal(d) == Decimal(e) <==> d == e
    decreases |d|
  {
    if d == "" {
    } else {
      var n := |d| - 1;
      var x, y := d[..n], e[..n];
      SameLengthNumbers(x, y);
      assert d == x + [d[n]] && e == y + [e[n]];
      if EarlierText(x, y) {
        var k :| 0 <= k < n && EarlierAt(x, y, k);
        assert d[..k] == x[..k] && e[..k] == y[..k];
        assert EarlierAt(d, e, k);
      }
      if EarlierText(d, e) {
        var k :| 0 <= k <= n && EarlierAt(d, e, k);
        if k < n {
          assert d[..k] == x[..k] && e[..k] == y[..k];
          assert EarlierAt(x, y, k);
        }
      }
      assert x == y && d[n] < e[n] ==> EarlierAt(d, e, n);
    }
  }

  /** Digits without a leading zero. */
  ghost predicate IsNumber(d: string)
  {
    d != "" && AllNumeric(d) && d[0] != '0'
  }

  /** Shorter, or as long and earlier. */
  ghost predicate Smaller(d: string, e: string)
  {
    |d| < |e| || (|d| == |e| && EarlierText(d, e))
  }

  lemma NumbersOrder(d: string, e: string)
    requires IsNumber(d) && IsNumber(e)
    ensures Number(d) < Number(e) <==> Smaller(d, e)
    ensures Number(d) == Number(e) <==> d == e
  {
    hide Number, Decimal, Power;
    NumberIs(d, 0);
    NumberIs(e, 0);
    if |d| == |e| {
      SameLengthNumbers(d, e);
    } else if |d| < |e| {
      ShorterIsLess(d, e);
    } else {
      ShorterIsLess(e, d);
    }
  }

  lemma ShorterIsLess(d: string, e: string)
    requires IsNumber(d) && IsNumber(e) && |d| < |e|
    ensures Decimal(d) < Decimal(e)
  {
    hide Decimal, Power;
    DecimalBelow(d);
    DecimalAtLeast(e);
    PowerGrows(|d|, |e| - 1);
  }

  // ----- a number as a component -----

  lemma {:induction false} DigitsRun(digits: string, rest: string)
    requires AllNumeric(digits) && (rest == "" || !IsDigit(rest[0]))
    ensures DigitRun(digits + rest) == |digits|
  {
    if digits == "" {
      assert digits + rest == rest;
    } else {
      assert (digits + rest)[1..] == digits[1..] + rest;
      DigitsRun(digits[1..], rest);
    }
  }

  /** A number is a component, before a dot or at the end. */
  lemma NumberComponent(d: string, rest: string)
    requires d != "" && AllNumeric(d) && (rest == "" || rest[0] == '.')
    ensures GetComponent(d + rest) == (Component(Number(d), 0, 0), rest[SeparatorRun(rest)..])
  {
    hide Number, DigitRun, SeparatorRun;
    var s := d + rest;
    assert s[0] == d[0] && IsDigit(d[0]);
    DigitsRun(d, rest);
    NumberBefore(d, rest, 0);
    assert s[|d|..] == rest;
  }

  lemma NumberBlocks(d: string)
    requires d != "" && AllNumeric(d)
    ensures Blocks(d) == [[Component(Number(d), 0, 0)]]
  {
    hide GetComponent;
    NumberComponent(d, "");
    assert d + "" == d;
    OneComponent(d, Component(Number(d), 0, 0));
  }

  lemma OneComponent(t: string, c: Component)
    requires t != "" && t[0] != '+' && GetComponent(t) == (c, "")
    ensures Blocks(t) == [[c]]
  {
    hide GetComponent;
    assert Blocks("") == [[]] && [c] + [] == [c];
    OneMoreComponent(t, c, "", []);
  }

  lemma OneMoreComponent(t: string, c: Component, rest: string, cs: seq<Component>)
    requires t != "" && t[0] != '+' && GetComponent(t) == (c, rest) && Blocks(rest) == [cs]
    ensures Blocks(t) == [[c] + cs]
  {
    hide GetComponent;
    GetComponentAdvances(t);
    assert [[c] + cs] + Blocks(rest)[1..] == [[c] + cs];
  }

  lemma TwoNumberBlocks(n: string, d: string)
    requires n != "" && AllNumeric(n) && d != "" && AllNumeric(d)
    ensures Blocks(n + "." + d) == [[Component(Number(n), 0, 0), Component(Number(d), 0, 0)]]
  {
    hide GetComponent, Number;
    NumberComponent(n, "." + d);
    NumberBlocks(d);
    assert n + "." + d == n + ("." + d);
    assert ("." + d)[1..] == d && IsDigit(d[0]);
    assert SeparatorRun("." + d) == 1;
    OneMoreComponent(n + "." + d, Component(Number(n), 0, 0), d, [Component(Number(d), 0, 0)]);
    var b, c := Component(Number(n), 0, 0), Component(Number(d), 0, 0);
    assert [b] + [c] == [b, c];
    assert (n + "." + d)[0] == n[0] && IsDigit(n[0]);
  }

  /** Numbers compare by length, and then as the dictionary orders them. */
  lemma NumbersCompare(d: string, e: string)
    requires IsNumber(d) && IsNumber(e)
    ensures Cmp(d, e) == -1 <==> Smaller(d, e)
    ensures Cmp(d, e) == 0 <==> d == e
  {
    hide Cmp, Blocks, Number, Smaller;
    NumericIsPlain(d);
    NumericIsPlain(e);
    PlainCmp(d, e);
    NumberBlocks(d);
    NumberBlocks(e);
    NumbersOrder(d, e);
    OneEach(Component(Number(d), 0, 0), Component(Number(e), 0, 0));
  }

  lemma NumericIsPlain(d: string)
    requires AllNumeric(d)
    ensures Plain(d)
  {
  }

  lemma OneEach(c: Component, d: Component)
    ensures CompareBlocks([[c]], [[d]]) == CompareComponents(c, d)
  {
    assert PaddedBlock([[c]], 0) == [c] && PaddedBlock([[d]], 0) == [d];
    assert CompareBlock([], []) == 0 && CompareBlocks([], []) == 0;
    assert CompareBlock([c], [d]) == CompareComponents(c, d);
  }

  lemma SameThenOne(b: Component, c: Component, d: Component)
    ensures CompareBlocks([[b, c]], [[b, d]]) == CompareComponents(c, d)
  {
    var x, y := [b, c], [b, d];
    assert x[1..] == [c] && y[1..] == [d];
    assert PaddedBlock([x], 0) == x && PaddedBlock([y], 0) == y;
    assert CompareBlock([c], [d]) == CompareComponents(c, d) by { OneEach(c, d); }
    assert CompareBlock(x, y) == CompareBlock([c], [d]);
    assert CompareBlocks([], []) == 0;
  }

  /** So they do behind a common number and a dot: 1.9 is before 1.10. */
  lemma LaterNumbersCompare(n: string, d: string, e: string)
    requires n != "" && AllNumeric(n) && IsNumber(d) && IsNumber(e)
    ensures Cmp(n + "." + d, n + "." + e) == -1 <==> Smaller(d, e)
    ensures Cmp(n + "." + d, n + "." + e) == 0 <==> d == e
  {
    hide Cmp, Blocks, Number, Smaller;
    DottedIsPlain(n, d);
    DottedIsPlain(n, e);
    PlainCmp(n + "." + d, n + "." + e);
    TwoNumberBlocks(n, d);
    TwoNumberBlocks(n, e);
    NumbersOrder(d, e);
    SameThenOne(Component(Number(n), 0, 0), Component(Number(d), 0, 0), Component(Number(e), 0, 0));
  }

  lemma DottedIsPlain(n: string, d: string)
    requires AllNumeric(n) && AllNumeric(d)
    ensures Plain(n + "." + d)
  {
  }

  // ----- what a component is -----

  ghost predicate AllLetters(s: string)
  {
    forall k :: 0 <= k < |s| ==> IsAlpha(s[k])
  }

  ghost predicate AllSeparators(s: string)
  {
    forall k :: 0 <= k < |s| ==> IsSeparator(s[k])
  }

  /** The special strings and their places among the letters; 0 is before all of them. */
  function SpecialValue(word: string): Option<nat>
  {
    if Lower(word) == "pl" then Some(0)
    else if Lower(word) == "alpha" then Some(1)
    else if Lower(word) == "beta" then Some(2)
    else if Lower(word) == "pre" then Some(16)
    else if Lower(word) == "rc" then Some(18)
    else None
  }

  lemma LowerIsAlpha(c: char)
    ensures IsAlpha(ToLower(c)) <==> IsAlpha(c)
  {
  }

  /** A text starts with a special string if its first word is that string. */
  lemma StartsIff(word: string, rest: string, stage: Stage)
    requires AllLetters(word) && (rest == "" || !IsAlpha(rest[0])) && AllLetters(stage.name)
    ensures StartsWithStage(word + rest, stage) <==> Lower(word) == stage.name
  {
    var s, n := word + rest, |stage.name|;
    if n == |word| {
      assert s[..n] == word;
    } else if n > |word| && n <= |s| {
      LowerIsAlpha(rest[0]);
      assert Lower(s[..n])[|word|] == ToLower(rest[0]);
    }
  }

  lemma {:induction false} FindStageFinds(s: string, i: nat, k: nat)
    requires i <= k < |STAGES| && StartsWithStage(s, STAGES[k])
    ensures FindStage(s, i) <= k
    decreases k - i
  {
    hide StartsWithStage;
    if i < k && !StartsWithStage(s, STAGES[i]) {
      FindStageFinds(s, i + 1, k);
    }
  }

  lemma StageNames()
    ensures |STAGES| == 5 && forall k :: 0 <= k < 5 ==> AllLetters(STAGES[k].name)
    ensures STAGES[0] == Stage("pl", 0) && STAGES[1] == Stage("alpha", 1) && STAGES[2] == Stage("beta", 2)
    ensures STAGES[3] == Stage("pre", 16) && STAGES[4] == Stage("rc", 18)
  {
  }

  lemma NamesDiffer()
    ensures forall j, k :: 0 <= j < k < 5 ==> STAGES[j].name != STAGES[k].name
  {
    assert |"pl"| == 2 && |"alpha"| == 5 && |"beta"| == 4 && |"pre"| == 3 && |"rc"| == 2 && "pl"[0] != "rc"[0];
  }

  /** The table finds the special string that the first word is. */
  lemma StageOfWord(word: string, rest: string)
    requires AllLetters(word) && (rest == "" || !IsAlpha(rest[0]))
    ensures var k := FindStage(word + rest, 0);
      if k < |STAGES| then SpecialValue(word) == Some(STAGES[k].value) && |STAGES[k].name| == |word|
      else SpecialValue(word) == None
  {
    hide FindStage, StartsWithStage, Lower;
    StageNames();
    NamesDiffer();
    var s := word + rest;
    forall k | 0 <= k < 5
      ensures StartsWithStage(s, STAGES[k]) <==> Lower(word) == STAGES[k].name
      ensures StartsWithStage(s, STAGES[k]) ==> FindStage(s, 0) <= k
    {
      StartsIff(word, rest, STAGES[k]);
      if StartsWithStage(s, STAGES[k]) { FindStageFinds(s, 0, k); }
    }
  }

  lemma {:induction false} LettersRun(word: string, rest: string)
    requires AllLetters(word) && (rest == "" || !IsAlpha(rest[0]))
    ensures AlphaRun(word + rest) == |word|
  {
    if word == "" {
      assert word + rest == rest;
    } else {
      assert (word + rest)[1..] == word[1..] + rest;
      LettersRun(word[1..], rest);
    }
  }

  lemma {:induction false} SeparatorsRun(seps: string, next: string)
    requires AllSeparators(seps) && (next == "" || !IsSeparator(next[0]))
    ensures SeparatorRun(seps + next) == |seps|
  {
    if seps == "" {
      assert seps + next == next;
    } else {
      assert (seps + next)[1..] == seps[1..] + next;
      SeparatorsRun(seps[1..], next);
    }
  }

  /** The letter of a word: a special string where no number is before it, or the first
      letter; a special string behind a number starts a component of its own. */
  lemma LetterOfWord(word: string, rest: string, hasStage: bool)
    requires AllLetters(word) && word != "" && (rest == "" || !IsAlpha(rest[0]))
    ensures LetterPart(word + rest, hasStage) ==
      match SpecialValue(word)
      case None => ((ToLower(word[0]) - 'a') as int + 1, true, rest)
      case Some(value) => if hasStage then (value, true, rest) else (0, false, word + rest)
  {
    hide FindStage, AlphaRun, SpecialValue;
    var s := word + rest;
    StageOfWord(word, rest);
    LettersRun(word, rest);
    OneLetterIsNone(word);
    assert s[0] == word[0] && s[|word|..] == rest;
    assert At(s, 1) == if |word| > 1 then word[1] else At(rest, 0);
  }

  lemma OneLetterIsNone(word: string)
    ensures |word| == 1 ==> SpecialValue(word) == None
  {
  }

  lemma NumberOfFront(num: string, rest: string)
    requires AllNumeric(num) && (rest == "" || !IsDigit(rest[0])) && num != ""
    ensures NumberPart(num + rest) == (Number(num), rest)
  {
    hide Number, DigitRun;
    DigitsRun(num, rest);
    NumberBefore(num, rest, 0);
    assert (num + rest)[0] == num[0] && (num + rest)[|num|..] == rest;
  }

  lemma PatchOfFront(patch: string, rest: string)
    requires AllNumeric(patch) && (rest == "" || !IsDigit(rest[0]))
    ensures PatchPart(patch + rest, true) == (if patch == "" then -1 else Number(patch), rest)
  {
    hide Number, DigitRun;
    if patch == "" {
      assert patch + rest == rest;
    } else {
      DigitsRun(patch, rest);
      NumberBefore(patch, rest, 0);
      assert (patch + rest)[0] == patch[0] && (patch + rest)[|patch|..] == rest;
    }
  }

  /** Nothing that is read goes on in what follows. */
  ghost predicate EndsHere(rest: string)
  {
    rest == "" || (!IsDigit(rest[0]) && !IsAlpha(rest[0]))
  }

  lemma SkipsSeparators(seps: string, next: string)
    requires AllSeparators(seps) && (next == "" || !IsSeparator(next[0]))
    ensures (seps + next)[SeparatorRun(seps + next)..] == next
  {
    SeparatorsRun(seps, next);
  }

  /** A number alone. */
  lemma OnlyNumber(num: string, seps: string, next: string)
    requires AllNumeric(num) && num != "" && AllSeparators(seps) && (next == "" || !IsSeparator(next[0]))
    requires EndsHere(seps + next)
    ensures GetComponent(num + (seps + next)) == (Component(Number(num), 0, 0), next)
  {
    hide NumberPart, SeparatorRun, Number;
    NumberOfFront(num, seps + next);
    SkipsSeparators(seps, next);
  }

  /** A word, perhaps behind a number, and perhaps with a patch level. */
  lemma WordComponent(num: string, word: string, patch: string, seps: string, next: string)
    requires AllNumeric(num) && AllLetters(word) && word != "" && AllNumeric(patch)
    requires AllSeparators(seps) && (next == "" || !IsSeparator(next[0]))
    requires if patch == "" then EndsHere(seps + next) else seps + next == "" || !IsDigit((seps + next)[0])
    ensures var n, pl := if num == "" then -1 else Number(num), if patch == "" then -1 else Number(patch);
      GetComponent(num + (word + (patch + (seps + next)))) ==
      match SpecialValue(word)
      case None => (Component(n, (ToLower(word[0]) - 'a') as int + 1, pl), next)
      case Some(value) =>
        if num == "" then (Component(-1, value, pl), next)
        else (Component(n, 0, 0), word + (patch + (seps + next)))
  {
    hide NumberPart, LetterPart, SeparatorRun, Number, SpecialValue, PatchPart;
    var rest := patch + (seps + next);
    assert rest == "" || !IsAlpha(rest[0]) by {
      assert patch != "" ==> rest[0] == patch[0];
      assert patch == "" ==> rest == seps + next;
    }
    if num == "" {
      assert num + (word + rest) == word + rest;
      WordHasNoNumber(word, rest);
    } else {
      NumberOfFront(num, word + rest);
    }
    LetterOfWord(word, rest, num == "");
    PatchOfFront(patch, seps + next);
    SkipsSeparators(seps, next);
    NothingSkipped(word, rest);
    NoPatch(word + rest);
  }

  lemma WordHasNoNumber(word: string, rest: string)
    requires AllLetters(word) && word != ""
    ensures NumberPart(word + rest) == (-1, word + rest)
  {
    assert (word + rest)[0] == word[0];
  }

  lemma NoPatch(s: string)
    ensures PatchPart(s, false) == (0, s)
  {
  }

  lemma NothingSkipped(word: string, rest: string)
    requires AllLetters(word) && word != ""
    ensures (word + rest)[SeparatorRun(word + rest)..] == word + rest
  {
    assert (word + rest)[0] == word[0];
  }

  /** The star is a component below all numbers and letters, up to a plus sign. */
  lemma StarComponent(junk: string)
    requires '+' !in junk
    ensures GetComponent("*" + junk) == (Component(-2, 0, 0), "")
  {
    var s := "*" + junk;
    assert s[1..] == junk;
    NoPlus(junk);
    assert junk[|junk|..] == "";
  }

  lemma {:induction false} NoPlus(s: string)
    requires '+' !in s
    ensures ToPlus(s) == |s|
  {
    if s != "" {
      NoPlus(s[1..]);
    }
  }

  // ----- the examples that come with the source -----

  /** A plain text of one block, and its components. */
  ghost predicate ReadAs(t: string, cs: seq<Component>)
  {
    Plain(t) && Blocks(t) == [cs]
  }

  lemma ReadsEnd()
    ensures ReadAs("", [])
  {
  }

  lemma ReadsStep(t: string, c: Component, rest: string, cs: seq<Component>)
    requires Plain(t) && t != "" && t[0] != '+' && GetComponent(t) == (c, rest) && ReadAs(rest, cs)
    ensures ReadAs(t, [c] + cs)
  {
    hide GetComponent;
    OneMoreComponent(t, c, rest, cs);
  }

  /** Texts of one block compare as their components do, padded with zeros. */
  lemma ReadsCompare(v: string, cs: seq<Component>, w: string, ds: seq<Component>)
    requires ReadAs(v, cs) && ReadAs(w, ds)
    ensures Cmp(v, w) == CompareBlock(cs, ds)
  {
    hide Cmp, Blocks, CompareBlock;
    PlainCmp(v, w);
    OneBlockEach(cs, ds);
  }

  lemma OneBlockEach(cs: seq<Component>, ds: seq<Component>)
    ensures CompareBlocks([cs], [ds]) == CompareBlock(cs, ds)
  {
    hide CompareBlock;
    assert PaddedBlock([cs], 0) == cs && PaddedBlock([ds], 0) == ds;
    assert CompareBlocks([], []) == 0;
  }

  lemma HeadsDecide(c: Component, cs: seq<Component>, d: Component, ds: seq<Component>)
    ensures CompareBlock([c] + cs, [d] + ds) ==
      if CompareComponents(c, d) != 0 then CompareComponents(c, d) else CompareBlock(cs, ds)
  {
    hide CompareComponents;
    assert ([c] + cs)[1..] == cs && ([d] + ds)[1..] == ds;
  }

  lemma ZeroAgainst(d: Component, ds: seq<Component>)
    ensures CompareBlock([], [d] + ds) ==
      if CompareComponents(MISSING, d) != 0 then CompareComponents(MISSING, d) else CompareBlock([], ds)
  {
    hide CompareComponents;
    assert ([d] + ds)[1..] == ds;
  }

  /** A number, and what comes after it and its separators. */
  lemma ReadNumber(num: string, seps: string, next: string, t: string, cs: seq<Component>)
    requires AllNumeric(num) && num != "" && AllSeparators(seps) && (next == "" || !IsSeparator(next[0]))
    requires EndsHere(seps + next) && t == num + (seps + next) && Plain(t) && ReadAs(next, cs)
    ensures ReadAs(t, [Component(Number(num), 0, 0)] + cs)
  {
    hide GetComponent, ReadAs, Number;
    OnlyNumber(num, seps, next);
    assert t[0] == num[0];
    ReadsStep(t, Component(Number(num), 0, 0), next, cs);
  }

  /** A word with or without a number before it, that is no special string or has none. */
  lemma ReadWord(num: string, word: string, patch: string, seps: string, next: string, t: string, cs: seq<Component>)
    requires AllNumeric(num) && AllLetters(word) && word != "" && AllNumeric(patch)
    requires AllSeparators(seps) && (next == "" || !IsSeparator(next[0]))
    requires if patch == "" then EndsHere(seps + next) else seps + next == "" || !IsDigit((seps + next)[0])
    requires num == "" || SpecialValue(word) == None
    requires t == num + (word + (patch + (seps + next))) && Plain(t) && ReadAs(next, cs)
    ensures ReadAs(t, [Component(if num == "" then -1 else Number(num),
                                 if SpecialValue(word) == None then (ToLower(word[0]) - 'a') as int + 1
                                 else SpecialValue(word).value,
                                 if patch == "" then -1 else Number(patch))] + cs)
  {
    hide GetComponent, ReadAs, Number, SpecialValue;
    WordComponent(num, word, patch, seps, next);
    assert t[0] == if num == "" then word[0] else num[0];
    ReadsStep(t, GetComponent(t).0, next, cs);
  }

  /** A number right before a special string. */
  lemma ReadSplit(num: string, word: string, patch: string, seps: string, next: string, t: string, cs: seq<Component>)
    requires AllNumeric(num) && num != "" && AllLetters(word) && word != "" && AllNumeric(patch)
    requires AllSeparators(seps) && (next == "" || !IsSeparator(next[0]))
    requires if patch == "" then EndsHere(seps + next) else seps + next == "" || !IsDigit((seps + next)[0])
    requires SpecialValue(word) != None
    requires t == num + (word + (patch + (seps + next))) && Plain(t) && ReadAs(word + (patch + (seps + next)), cs)
    ensures ReadAs(t, [Component(Number(num), 0, 0)] + cs)
  {
    hide GetComponent, ReadAs, Number, SpecialValue;
    WordComponent(num, word, patch, seps, next);
    assert t[0] == num[0];
    ReadsStep(t, GetComponent(t).0, word + (patch + (seps + next)), cs);
  }

  lemma Numbers()
    ensures Number("10") == 10 && Number("0") == 0 && Number("1") == 1 && Number("2") == 2 && Number("3") == 3
    ensures Number("9") == 9 && Number("7") == 7 && Number("11") == 11
  {
  }

  lemma Words()
    ensures SpecialValue("pl") == Some(0) && SpecialValue("alpha") == Some(1) && SpecialValue("beta") == Some(2)
    ensures SpecialValue("pre") == Some(16) && SpecialValue("rc") == Some(18)
    ensures SpecialValue("a") == None && SpecialValue("b") == None && SpecialValue("f") == None && SpecialValue("d") ==
      None
    ensures SpecialValue("dev") == None && SpecialValue("Development") == None
    ensures SpecialValue("p") == None && SpecialValue("r") == None
  {
    assert Lower("pl") == "pl" && Lower("alpha") == "alpha" && Lower("beta") == "beta";
    assert Lower("pre") == "pre" && Lower("rc") == "rc";
    assert |Lower("a")| == 1 && |Lower("b")| == 1 && |Lower("f")| == 1 && |Lower("d")| == 1;
    assert |Lower("p")| == 1 && |Lower("r")| == 1;
    assert Lower("dev")[0] == 'd' && |Lower("Development")| == 11;
  }

  lemma SameReading(v: string, w: string, cs: seq<Component>)
    requires ReadAs(v, cs) && ReadAs(w, cs)
    ensures Cmp(v, w) == 0
  {
    hide ReadAs, Cmp, CompareBlock;
    ReadsCompare(v, cs, w, cs);
    ReadsCompare(v, cs, v, cs);
    CmpIsPreorder(v, v, v);
  }

  lemma FirstDiffers(v: string, c: Component, cs: seq<Component>, w: string, d: Component, ds: seq<Component>)
    requires ReadAs(v, [c] + cs) && ReadAs(w, [d] + ds) && CompareComponents(c, d) != 0
    ensures Cmp(v, w) == CompareComponents(c, d)
  {
    hide ReadAs, Cmp, CompareBlock, CompareComponents;
    ReadsCompare(v, [c] + cs, w, [d] + ds);
    HeadsDecide(c, cs, d, ds);
  }

  lemma EmptyBlocks()
    ensures CompareBlock([], []) == 0
  {
  }

  lemma NothingAfter(t: string, c: Component)
    requires ReadAs(t, [c] + [])
    ensures ReadAs(t, [c])
  {
    assert [c] + [] == [c];
  }

  lemma SecondDiffers(v: string, b: Component, c: Component, w: string, d: Component)
    requires ReadAs(v, [b, c]) && ReadAs(w, [b, d])
    ensures Cmp(v, w) == CompareComponents(c, d)
  {
    hide ReadAs, Cmp, CompareBlock;
    ReadsCompare(v, [b, c], w, [b, d]);
    assert [b, c] == [b] + [c] && [b, d] == [b] + [d] && [c] + [] == [c] && [d] + [] == [d];
    HeadsDecide(b, [c], b, [d]);
    HeadsDecide(c, [], d, []);
    EmptyBlocks();
  }

  /** What is missing counts as zero. */
  lemma PaddedDiffers(v: string, b: Component, w: string, d: Component)
    requires ReadAs(v, [b]) && ReadAs(w, [b, d])
    ensures Cmp(v, w) == CompareComponents(Component(0, 0, 0), d)
    ensures Cmp(w, v) == -CompareComponents(Component(0, 0, 0), d)
  {
    hide ReadAs, Cmp, CompareBlock;
    ReadsCompare(v, [b], w, [b, d]);
    assert [b, d] == [b] + [d] && [b] + [] == [b] && [d] + [] == [d];
    HeadsDecide(b, [], b, [d]);
    ZeroAgainst(d, []);
    EmptyBlocks();
    CmpIsPreorder(v, w, v);
  }

  lemma EndWord(num: string, word: string, patch: string, t: string)
    requires AllNumeric(num) && AllLetters(word) && word != "" && AllNumeric(patch)
    requires num == "" || SpecialValue(word) == None
    requires t == num + (word + patch) && Plain(t)
    ensures ReadAs(t, [Component(if num == "" then -1 else Number(num),
                                 if SpecialValue(word) == None then (ToLower(word[0]) - 'a') as int + 1
                                 else SpecialValue(word).value,
                                 if patch == "" then -1 else Number(patch))])
  {
    hide ReadAs, SpecialValue, Number;
    ReadsEnd();
    assert patch + ("" + "") == patch;
    ReadWord(num, word, patch, "", "", t, []);
    NothingAfter(t, Component(if num == "" then -1 else Number(num),
                              if SpecialValue(word) == None then (ToLower(word[0]) - 'a') as int + 1
                              else SpecialValue(word).value,
                              if patch == "" then -1 else Number(patch)));
  }

  lemma EndNumber(num: string)
    requires AllNumeric(num) && num != "" && Plain(num)
    ensures ReadAs(num, [Component(Number(num), 0, 0)])
  {
    hide ReadAs, Number;
    ReadsEnd();
    assert num + ("" + "") == num;
    ReadNumber(num, "", "", num, []);
    NothingAfter(num, Component(Number(num), 0, 0));
  }

  /** A number, a dot, and one component more. */
  lemma DotThen(num: string, next: string, t: string, c: Component)
    requires AllNumeric(num) && num != "" && ReadAs(next, [c]) && next != "" && !IsSeparator(next[0])
    requires t == num + ("." + next) && Plain(t)
    ensures ReadAs(t, [Component(Number(num), 0, 0), c])
  {
    hide ReadAs, Number;
    var b := Component(Number(num), 0, 0);
    assert ("." + next)[0] == '.';
    ReadNumber(num, ".", next, t, [c]);
    assert [b] + [c] == [b, c];
  }

  /** A number, and a special string right behind it. */
  lemma SplitThen(num: string, word: string, patch: string, t: string, c: Component)
    requires AllNumeric(num) && num != "" && AllLetters(word) && word != "" && AllNumeric(patch) &&
      SpecialValue(word) != None
    requires t == num + (word + patch) && Plain(t) && ReadAs(word + patch, [c])
    ensures ReadAs(t, [Component(Number(num), 0, 0), c])
  {
    hide ReadAs, Number, SpecialValue;
    var b := Component(Number(num), 0, 0);
    assert patch + ("" + "") == patch;
    ReadSplit(num, word, patch, "", "", t, [c]);
    assert [b] + [c] == [b, c];
  }

  /** pl < alpha < beta < pre < rc; the last four are as the letters a, b, p and r. */
  lemma SpecialStrings()
    ensures Cmp("pl", "alpha") == -1 && Cmp("alpha", "beta") == -1 && Cmp("beta", "pre") == -1 && Cmp("pre", "rc") == -1
    ensures Cmp("alpha", "a") == 0 && Cmp("beta", "b") == 0 && Cmp("pre", "p") == 0 && Cmp("rc", "r") == 0
  {
    hide ReadAs, Cmp, SpecialValue;
    Words();
    EndWord("", "pl", "", "pl");
    EndWord("", "alpha", "", "alpha");
    EndWord("", "beta", "", "beta");
    EndWord("", "pre", "", "pre");
    EndWord("", "rc", "", "rc");
    EndWord("", "a", "", "a");
    EndWord("", "b", "", "b");
    EndWord("", "p", "", "p");
    EndWord("", "r", "", "r");
    SingleDiffers("pl", Component(-1, 0, -1), "alpha", Component(-1, 1, -1));
    SingleDiffers("alpha", Component(-1, 1, -1), "beta", Component(-1, 2, -1));
    SingleDiffers("beta", Component(-1, 2, -1), "pre", Component(-1, 16, -1));
    SingleDiffers("pre", Component(-1, 16, -1), "rc", Component(-1, 18, -1));
    SameReading("alpha", "a", [Component(-1, 1, -1)]);
    SameReading("beta", "b", [Component(-1, 2, -1)]);
    SameReading("pre", "p", [Component(-1, 16, -1)]);
    SameReading("rc", "r", [Component(-1, 18, -1)]);
  }

  lemma SingleDiffers(v: string, c: Component, w: string, d: Component)
    requires ReadAs(v, [c]) && ReadAs(w, [d]) && CompareComponents(c, d) != 0
    ensures Cmp(v, w) == CompareComponents(c, d)
  {
    hide ReadAs, Cmp, CompareComponents;
    assert [c] + [] == [c] && [d] + [] == [d];
    FirstDiffers(v, c, [], w, d, []);
  }

  lemma ReadTenAlpha()
    ensures ReadAs("10alpha", [Component(10, 0, 0), Component(-1, 1, -1)])
  {
    hide ReadAs, SpecialValue, Number;
    Numbers();
    Words();
    EndWord("", "alpha", "", "alpha");
    assert "alpha" + "" == "alpha";
    SplitThen("10", "alpha", "", "10alpha", Component(-1, 1, -1));
  }

  /** a < 0, and 10.a = 10alpha < 10 < 10a < 10b. */
  lemma LettersAfterNumbers()
    ensures Cmp("a", "0") == -1 && Cmp("10.a", "10alpha") == 0
    ensures Cmp("10.a", "10") == -1 && Cmp("10", "10a") == -1 && Cmp("10a", "10b") == -1
  {
    hide ReadAs, Cmp, SpecialValue, Number;
    Numbers();
    Words();
    EndWord("", "a", "", "a");
    EndNumber("0");
    EndNumber("10");
    EndWord("10", "a", "", "10a");
    EndWord("10", "b", "", "10b");
    DotThen("10", "a", "10.a", Component(-1, 1, -1));
    ReadTenAlpha();
    SingleDiffers("a", Component(-1, 1, -1), "0", Component(0, 0, 0));
    SameReading("10.a", "10alpha", [Component(10, 0, 0), Component(-1, 1, -1)]);
    PaddedDiffers("10", Component(10, 0, 0), "10.a", Component(-1, 1, -1));
    SingleDiffers("10", Component(10, 0, 0), "10a", Component(10, 1, -1));
    SingleDiffers("10a", Component(10, 1, -1), "10b", Component(10, 2, -1));
  }

  lemma ReadStar()
    ensures ReadAs("*", [Component(-2, 0, 0)])
  {
    hide GetComponent;
    StarComponent("");
    assert "*" + "" == "*";
    OneComponent("*", Component(-2, 0, 0));
  }

  /** 2.* < 2pl1 < 2alpha3 < 2.9f7 < 3.* */
  lemma StarIsLeast()
    ensures Cmp("2.*", "2pl1") == -1 && Cmp("2pl1", "2alpha3") == -1 && Cmp("2alpha3", "2.9f7") == -1
    ensures Cmp("2.9f7", "3.*") == -1
  {
    hide ReadAs, Cmp, SpecialValue, Number;
    Numbers();
    Words();
    ReadStar();
    DotThen("2", "*", "2.*", Component(-2, 0, 0));
    DotThen("3", "*", "3.*", Component(-2, 0, 0));
    EndWord("", "pl", "1", "pl1");
    assert "pl" + "1" == "pl1";
    SplitThen("2", "pl", "1", "2pl1", Component(-1, 0, 1));
    EndWord("", "alpha", "3", "alpha3");
    assert "alpha" + "3" == "alpha3";
    SplitThen("2", "alpha", "3", "2alpha3", Component(-1, 1, 3));
    EndWord("9", "f", "7", "9f7");
    DotThen("2", "9f7", "2.9f7", Component(9, 6, 7));
    SecondDiffers("2.*", Component(2, 0, 0), Component(-2, 0, 0), "2pl1", Component(-1, 0, 1));
    SecondDiffers("2pl1", Component(2, 0, 0), Component(-1, 0, 1), "2alpha3", Component(-1, 1, 3));
    SecondDiffers("2alpha3", Component(2, 0, 0), Component(-1, 1, 3), "2.9f7", Component(9, 6, 7));
    FirstOfTwoDiffers("2.9f7", Component(2, 0, 0), Component(9, 6, 7), "3.*", Component(3, 0, 0), Component(-2, 0, 0));
  }

  lemma FirstOfTwoDiffers(v: string, a: Component, b: Component, w: string, c: Component, d: Component)
    requires ReadAs(v, [a, b]) && ReadAs(w, [c, d]) && CompareComponents(a, c) != 0
    ensures Cmp(v, w) == CompareComponents(a, c)
  {
    hide ReadAs, Cmp, CompareComponents;
    assert [a, b] == [a] + [b] && [c, d] == [c] + [d];
    FirstDiffers(v, a, [b], w, c, [d]);
  }

  lemma ReadDevelopment()
    ensures ReadAs("1.Development2", [Component(1, 0, 0), Component(-1, 4, 2)])
  {
    hide ReadAs, SpecialValue, Number;
    Numbers();
    Words();
    EndWord("", "Development", "2", "Development2");
    DotThen("1", "Development2", "1.Development2", Component(-1, 4, 2));
  }

  /** 1.d2 = 1.dev2 = 1.Development2 */
  lemma OnlyFirstLetters()
    ensures Cmp("1.d2", "1.dev2") == 0 && Cmp("1.dev2", "1.Development2") == 0
  {
    hide ReadAs, Cmp, SpecialValue, Number;
    Numbers();
    Words();
    EndWord("", "d", "2", "d2");
    EndWord("", "dev", "2", "dev2");
    ReadDevelopment();
    DotThen("1", "d2", "1.d2", Component(-1, 4, 2));
    DotThen("1", "dev2", "1.dev2", Component(-1, 4, 2));
    SameReading("1.d2", "1.dev2", [Component(1, 0, 0), Component(-1, 4, 2)]);
    SameReading("1.dev2", "1.Development2", [Component(1, 0, 0), Component(-1, 4, 2)]);
  }

  /** 10 = 10.0, 10..1 = 10.1, 10:1 = 10.1, and 10a1b2 = 10a1.b2. */
  lemma SeparatorsAreOne()
    ensures Cmp("10", "10.0") == 0 && Cmp("10..1", "10.1") == 0 && Cmp("10:1", "10.1") == 0
    ensures Cmp("10a1b2", "10a1.b2") == 0
  {
    hide ReadAs, Cmp, SpecialValue, Number;
    Numbers();
    Words();
    EndNumber("10");
    EndNumber("0");
    EndNumber("1");
    DotThen("10", "0", "10.0", Component(0, 0, 0));
    PaddedDiffers("10", Component(10, 0, 0), "10.0", Component(0, 0, 0));
    DotThen("10", "1", "10.1", Component(1, 0, 0));
    var b, c, d := Component(10, 0, 0), Component(1, 0, 0), Component(10, 1, 1);
    assert [b] + [c] == [b, c];
    ReadNumber("10", "..", "1", "10..1", [c]);
    ReadNumber("10", ":", "1", "10:1", [c]);
    SameReading("10..1", "10.1", [b, c]);
    SameReading("10:1", "10.1", [b, c]);
    EndWord("", "b", "2", "b2");
    ReadWord("10", "a", "1", "", "b2", "10a1b2", [Component(-1, 2, 2)]);
    ReadWord("10", "a", "1", ".", "b2", "10a1.b2", [Component(-1, 2, 2)]);
    SameReading("10a1b2", "10a1.b2", [d] + [Component(-1, 2, 2)]);
  }

  /** So is every other character that is no digit, letter, plus or star, and that splits
      off no name, revision or epoch. */
  lemma AnySeparator(c: char)
    requires !('0' <= c <= '9') && !('a' <= c <= 'z') && !('A' <= c <= 'Z') && c !in "+*-_,"
    ensures Cmp("10" + [c] + "1", "10.1") == 0
  {
    hide ReadAs, Cmp, SpecialValue, Number;
    Numbers();
    EndNumber("1");
    var b, d := Component(10, 0, 0), Component(1, 0, 0);
    var t := "10" + [c] + "1";
    assert "+*-_," == ['+', '*', '-', '_', ','];
    assert t == "10" + ([c] + "1");
    assert [b] + [d] == [b, d];
    ReadNumber("10", [c], "1", t, [d]);
    DotThen("10", "1", "10.1", d);
    SameReading(t, "10.1", [b, d]);
  }

  /** A revision or epoch: blanks, perhaps a plus sign, and digits; the rest is not read. */
  lemma {:induction false} UnsignedReads(spaces: string, sign: string, digits: string, rest: string)
    requires forall k :: 0 <= k < |spaces| ==> spaces[k] == ' ' || 9 <= spaces[k] as int <= 13
    requires (sign == "" || sign == "+") && digits != "" && AllNumeric(digits) && (rest == "" || !IsDigit(rest[0]))
    ensures Unsigned(spaces + (sign + (digits + rest))) == Decimal(digits)
  {
    hide Number, Decimal;
    if spaces == "" {
      NumberBefore(digits, rest, 0);
      NumberIs(digits, 0);
      assert (digits + rest)[0] == digits[0];
      assert spaces + (sign + (digits + rest)) == sign + (digits + rest);
      if sign == "+" {
        assert (sign + (digits + rest))[1..] == digits + rest;
      } else {
        assert sign + (digits + rest) == digits + rest;
      }
    } else {
      UnsignedReads(spaces[1..], sign, digits, rest);
      assert (spaces + (sign + (digits + rest)))[1..] == spaces[1..] + (sign + (digits + rest));
    }
  }

  /** A plus sign ends a block: 1+2 is before 1.5, and after 1. */
  lemma PlusEndsBlock()
    ensures Cmp("1+2", "1.5") == -1 && Cmp("1", "1+2") == -1
  {
    hide ReadAs, Cmp, Number, GetComponent;
    Numbers();
    assert Number("5") == 5 by { FiveIs(); }
    PlusBlocks();
    NumberBlocks("1");
    TwoNumberBlocks("1", "5");
    assert "1" + "." + "5" == "1.5";
    PlainCmp("1+2", "1.5");
    PlainCmp("1", "1+2");
    PlusCompares(Component(1, 0, 0), Component(2, 0, 0), Component(5, 0, 0));
  }

  lemma FiveIs()
    ensures Number("5") == 5
  {
  }

  lemma PlusBlocks()
    ensures Blocks("1+2") == [[Component(1, 0, 0)], [Component(2, 0, 0)]]
  {
    hide GetComponent, Number;
    Numbers();
    NumberBlocks("2");
    assert "+2"[1..] == "2";
    assert Blocks("+2") == [[]] + [[Component(2, 0, 0)]];
    assert GetComponent("1+2") == (Component(1, 0, 0), "+2") by {
      assert "1" + ("" + "+2") == "1+2";
      OnlyNumber("1", "", "+2");
    }
    GetComponentAdvances("1+2");
    assert [Component(1, 0, 0)] + [] == [Component(1, 0, 0)];
  }

  lemma PlusCompares(a: Component, b: Component, c: Component)
    requires CompareComponents(Component(0, 0, 0), c) == -1 && CompareComponents(Component(0, 0, 0), b) == -1
    requires CompareComponents(a, a) == 0
    ensures CompareBlocks([[a], [b]], [[a, c]]) == -1
    ensures CompareBlocks([[a]], [[a], [b]]) == -1
  {
    hide CompareComponents;
    OneAgainstTwo(a, a, c);
    assert CompareBlock([a], [a, c]) == -1;
    assert [[a], [b]][1..] == [[b]];
    assert CompareBlock([], [b]) == -1;
    assert CompareBlock([a], [a]) == 0;
    assert CompareBlocks([], [[b]]) == -1;
  }

  lemma OneAgainstTwo(b: Component, c: Component, d: Component)
    requires CompareComponents(b, c) == 0
    ensures CompareBlock([b], [c, d]) == CompareComponents(Component(0, 0, 0), d)
  {
    hide CompareComponents;
    assert [b] == [b] + [] && [c, d] == [c] + [d] && [d] == [d] + [];
    HeadsDecide(b, [], c, [d]);
    ZeroAgainst(d, []);
    EmptyBlocks();
  }
}
