/** What single texts are parsed to (libpkg/pkg_deps.c:114-224): every operator by its
    characters, and some that are no formula. */
module FormulaTexts {
  import opened Wrappers
  import opened Characters
  import opened FormulaSpec
  import opened FormulaRoundTrip
  import opened FormulaParser

  /** What an operator text stands for. */
  function OperatorOf(text: string): Option<Op>
  {
    if text == "=" || text == "==" then Some(Eq)
    else if text == "!" || text == "!=" then Some(Not)
    else if text == "<" then Some(Lt)
    else if text == "<=" then Some(Le)
    else if text == ">" then Some(Gt)
    else if text == ">=" then Some(Ge)
    else None
  }

  ghost predicate IsOperator(text: string)
  {
    text != "" && forall i :: 0 <= i < |text| ==> text[i] == '<' || text[i] == '>' || text[i] == '=' || text[i] == '!'
  }

  lemma OperatorIs(text: string)
    requires IsOperator(text)
    ensures OpOf(text) == OperatorOf(text)
    ensures forall i :: 0 <= i < |text| ==> IsOpChar(text[i])
  {
  }

  lemma StepToOperator(s: string, m: Parser)
    requires (m.state == AfterName || m.state == AfterVersion || m.state == AfterOption) && AfterSpaces(m.next)
    requires m.p <= |s| && IsOpChar(At(s, m.p))
    ensures Run(s, m) == Run(s, m.(c := m.p, op := AnyOp, state := VerOp))
  {
    hide Run;
    OneStep(s, m);
  }

  lemma WordBetween(s: string, m: Parser, word: string)
    requires m.c <= m.p <= |s| && s[m.c..m.p] == word
    ensures Word(s, m) == word
  {
  }

  /** The characters of an operator are read, and what comes after them is looked at. */
  lemma ScanOperator(s: string, m: Parser, text: string, rest: string) returns (m': Parser)
    requires m.state == SkipSpaces && (m.next == AfterName || m.next == AfterVersion || m.next == AfterOption)
    requires IsOperator(text) && Reads(s, m.p, " " + text, rest) && !IsOpChar(At(rest, 0))
    ensures m' == m.(p := m.p + 1 + |text|, c := m.p + 1, op := AnyOp, state := VerOp)
    ensures m'.p <= |s| && Word(s, m') == text && !IsOpChar(At(s, m'.p)) && Run(s, m) == Run(s, m')
    ensures Reads(s, m'.p, "", rest)
  {
    hide Run, Reads, StepOf, Word;
    OperatorIs(text);
    SkipTo(s, m, text, rest);
    StepToOperator(s, m.(p := m.p + 1, c := m.p + 1, state := m.next));
    var m2 := m.(p := m.p + 1, c := m.p + 1, op := AnyOp, state := VerOp);
    ScanOp(s, m2, text, rest);
    ReadsOn(s, m2.p, text, rest);
    ReadsRest(s, m2.p, text, rest);
    m' := m2.(p := m2.p + |text|);
    WordBetween(s, m', text);
  }

  lemma OperatorRead(s: string, m: Parser, text: string)
    requires m.state == VerOp && AfterSpaces(m.next) && m.p <= |s| && Word(s, m) == text
    requires IsOperator(text) && !IsOpChar(At(s, m.p))
    ensures OperatorOf(text) == None ==> Run(s, m) == Failed
    ensures OperatorOf(text).Some? ==>
      Run(s, m) == Run(s, m.(op := OperatorOf(text).value, state := SkipSpaces, next := AfterOp))
  {
    hide Run, OpOf, OperatorOf;
    OperatorIs(text);
    OneStep(s, m);
    if OperatorOf(text) == None {
      ErrorFails(s, m.(state := Error));
    }
  }

  lemma ErrorFails(s: string, m: Parser)
    requires m.state == Error && AfterSpaces(m.next)
    ensures Run(s, m) == Failed
  {
  }

  lemma Grouped(name: string, text: string, ver: string)
    ensures name + " " + text + " " + ver == name + ((" " + text) + (" " + ver))
  {
  }

  lemma OneClause(m: Parser, i: Item)
    requires m.res == [] && m.cur == []
    ensures m.res + [m.cur + [i]] == [[i]]
  {
    assert m.cur + [i] == [i];
  }

  /** A name, an operator and a version: parsed if the operator is one of eight, and an
      error if it is not. */
  lemma OperatorsParse(name: string, text: string, ver: string)
    requires GoodName(name) && IsOperator(text) && GoodVersion(Version(Eq, ver))
    ensures Run(name + " " + text + " " + ver, Start()) ==
      match OperatorOf(text)
      case None => Failed
      case Some(op) => Parsed([[Item(name, [Version(op, ver)], [])]])
  {
    hide Run, Reads, OperatorOf, GoodName, GoodVersion, IsOperator;
    var s, rest := name + " " + text + " " + ver, " " + ver;
    Grouped(name, text, ver);
    var m := NameAndOperator(s, name, text, rest);
    OperatorRead(s, m, text);
    if OperatorOf(text).Some? {
      OperatorIsNotAny(text);
      VersionIsGood(OperatorOf(text).value, ver);
      VersionThenEnd(s, m.(op := OperatorOf(text).value, state := SkipSpaces, next := AfterOp), name, ver);
    }
  }

  lemma NameAndOperator(s: string, name: string, text: string, rest: string) returns (m': Parser)
    requires GoodName(name) && IsOperator(text) && s == name + ((" " + text) + rest) && !IsOpChar(At(rest, 0))
    ensures m'.state == VerOp && AfterSpaces(m'.next) && m'.item == Some(Item(name, [], [])) && m'.cur == [] &&
      m'.res == []
    ensures m'.p <= |s| && Word(s, m') == text && !IsOpChar(At(s, m'.p)) && Run(s, Start()) == Run(s, m')
    ensures Reads(s, m'.p, "", rest)
  {
    hide Run, Reads, GoodName, IsOperator, StepOf, Word;
    ReadsWhole(s, name, (" " + text) + rest);
    var m := ReadName(s, Start(), name, (" " + text) + rest);
    ReadsRest(s, 0, name, (" " + text) + rest);
    ReadsTail(s, m.p, (" " + text) + rest, " " + text, rest);
    AtSpace(s, m, Item(name, [], []), " " + text, rest);
    NextIsAfterName(s, m, name);
    m' := ScanOperator(s, m, text, rest);
  }

  lemma VersionThenEnd(s: string, m: Parser, name: string, ver: string)
    requires m.state == SkipSpaces && m.next == AfterOp && m.item == Some(Item(name, [], [])) && m.cur == [] &&
      m.res == []
    requires GoodVersion(Version(m.op, ver)) && Reads(s, m.p, "", " " + ver)
    ensures Run(s, m) == Parsed([[Item(name, [Version(m.op, ver)], [])]])
  {
    hide Run, Reads, GoodVersion, StepOf;
    assert " " + ver == " " + ver + "";
    ReadsTail(s, m.p, " " + ver, " " + ver, "");
    var m' := ReadNumber(s, m, Item(name, [], []), Version(m.op, ver), "");
    ReadsRest(s, m.p, " " + ver, "");
    AtTextEnd(s, m'.p);
    var i := Item(name, [Version(m.op, ver)], []);
    assert [] + [Version(m.op, ver)] == [Version(m.op, ver)];
    ReadEnd(s, m', i);
    OneClause(m', i);
  }

  /** After a name and a space the machine looks for what may follow a name. */
  lemma NextIsAfterName(s: string, m: Parser, name: string)
    requires AtEnd(s, m, Item(name, [], [])) && m.state == SkipSpaces
    ensures m.next == AfterName || m.next == AfterVersion || m.next == AfterOption
  {
  }

  lemma OperatorIsNotAny(text: string)
    requires OperatorOf(text).Some?
    ensures OperatorOf(text).value != AnyOp
  {
  }

  lemma VersionIsGood(op: Op, ver: string)
    requires GoodVersion(Version(Eq, ver)) && op != AnyOp
    ensures GoodVersion(Version(op, ver))
  {
  }

  /** An operator without a version at the end of the text is dropped. */
  lemma LoneOperatorIsDropped(name: string, text: string)
    requires GoodName(name) && IsOperator(text) && OperatorOf(text).Some?
    ensures Run(name + (" " + text), Start()) == Parsed([[Item(name, [], [])]])
  {
    hide Run, Reads, OperatorOf, GoodName, IsOperator;
    var s := name + (" " + text);
    assert (" " + text) + "" == " " + text;
    var m2 := NameAndOperator(s, name, text, "");
    AtTextEnd(s, m2.p);
    OperatorRead(s, m2, text);
    var m3 := m2.(op := OperatorOf(text).value, state := SkipSpaces, next := AfterOp);
    EndAfterSpaces(s, m3, Item(name, [], []));
    OneClause(m3, Item(name, [], []));
  }

  lemma EndAfterSpaces(s: string, m: Parser, i: Item)
    requires m.state == SkipSpaces && AfterSpaces(m.next) && m.p == |s| && m.item == Some(i)
    ensures Run(s, m) == Parsed(m.res + [m.cur + [i]])
  {
    assert At(s, m.p) == NUL;
    OneStep(s, m);
    OneStep(s, m.(state := Comma));
  }

  /** After a name comes a version, an option, a bar or a comma; all else is an error. */
  lemma JunkFails(name: string, junk: string)
    requires GoodName(name) && junk != "" && !IsSpace(junk[0]) && junk[0] != NUL
    requires junk[0] !in ",|+-<>=!"
    ensures Run(name + (" " + junk), Start()) == Failed
  {
    hide Run, Reads, GoodName;
    var s := name + (" " + junk);
    ReadsWhole(s, name, " " + junk);
    var m := ReadName(s, Start(), name, " " + junk);
    ReadsRest(s, 0, name, " " + junk);
    assert " " + junk == " " + junk + "";
    ReadsTail(s, m.p, " " + junk, " " + junk, "");
    AtSpace(s, m, Item(name, [], []), " " + junk, "");
    NextIsAfterName(s, m, name);
    SkipTo(s, m, junk, "");
    var m2 := m.(p := m.p + 1, c := m.p + 1, state := m.next);
    assert ",|+-<>=!" == [',', '|', '+', '-', '<', '>', '=', '!'];
    assert !IsOpChar(junk[0]);
    OneStep(s, m2);
    ErrorFails(s, m2.(state := Error));
  }

  /** The sign of an option, and what is after it, if that is no option. */
  lemma OptionParses(name: string, on: bool, opt: string)
    requires GoodName(name) && GoodOpt(Opt(on, opt))
    ensures Run(name + ([' ', if on then '+' else '-'] + opt), Start()) == Parsed([[Item(name, [], [Opt(on, opt)])]])
  {
    hide Run, GoodName, GoodOpt;
    var f := [[Item(name, [], [Opt(on, opt)])]];
    OneOption(name, on, opt);
    PrintedParsesBack(f);
  }

  lemma OneOption(name: string, on: bool, opt: string)
    requires GoodName(name) && GoodOpt(Opt(on, opt))
    ensures var f := [[Item(name, [], [Opt(on, opt)])]];
      GoodFormula(f) && FormulaText(f) == name + ([' ', if on then '+' else '-'] + opt)
  {
    hide GoodName, GoodOpt;
    var i := Item(name, [], [Opt(on, opt)]);
    assert OptsText([Opt(on, opt)]) == [' ', if on then '+' else '-'] + opt + "";
    assert ItemText(i) == name + ([' ', if on then '+' else '-'] + opt);
    assert ClauseText([i]) == ItemText(i);
  }

  // ----- the characters of names, versions and options -----

  lemma GoodAlone(i: Item)
    requires GoodItem(i)
    ensures GoodFormula([[i]])
  {
  }

  lemma FirstIsGood(f: Formula, i: Item)
    requires f == [[i]] && GoodFormula(f)
    ensures GoodItem(i)
  {
    assert f[0] != [] && f[0][0] == i;
  }

  lemma TextOfName(name: string)
    ensures FormulaText([[Item(name, [], [])]]) == name
  {
    assert ItemText(Item(name, [], [])) == name;
    assert ClauseText([Item(name, [], [])]) == name;
  }

  lemma StartIsSound(s: string)
    ensures Sound(s, Start())
  {
  }

  lemma GoodNameIs(name: string)
    ensures GoodName(name) <==>
      name != "" && forall k :: 0 <= k < |name| ==> '!' <= name[k] <= '~' && name[k] != ','
  {
  }

  /** A text is a name exactly if its characters are those from ! to ~ but the comma. */
  lemma NamesAre(name: string)
    ensures Run(name, Start()) == Parsed([[Item(name, [], [])]]) <==>
      name != "" && forall k :: 0 <= k < |name| ==> '!' <= name[k] <= '~' && name[k] != ','
  {
    GoodNameIs(name);
    hide Run, GoodName, FormulaText, GoodFormula;
    var i := Item(name, [], []);
    if GoodName(name) {
      GoodAlone(i);
      TextOfName(name);
      PrintedParsesBack([[i]]);
    }
    if Run(name, Start()) == Parsed([[i]]) {
      StartIsSound(name);
      RunIsSound(name, Start());
      FirstIsGood([[i]], i);
    }
  }

  /** A word behind a sign is an option exactly if it is of letters, digits, - and _. */
  lemma OptionsAre(name: string, on: bool, opt: string)
    requires GoodName(name)
    ensures
      var s := name + ([' ', if on then '+' else '-'] + opt);
      Run(s, Start()) == Parsed([[Item(name, [], [Opt(on, opt)])]]) <==>
        opt != "" && forall k :: 0 <= k < |opt| ==>
          'a' <= opt[k] <= 'z' || 'A' <= opt[k] <= 'Z' || '0' <= opt[k] <= '9' || opt[k] == '-' || opt[k] == '_'
  {
    hide Run, GoodName;
    var i, s := Item(name, [], [Opt(on, opt)]), name + ([' ', if on then '+' else '-'] + opt);
    if opt != "" && forall k :: 0 <= k < |opt| ==>
        'a' <= opt[k] <= 'z' || 'A' <= opt[k] <= 'Z' || '0' <= opt[k] <= '9' || opt[k] == '-' || opt[k] == '_' {
      OptionParses(name, on, opt);
    }
    if Run(s, Start()) == Parsed([[i]]) {
      RunIsSound(s, Start());
      FirstIsGood([[i]], i);
      assert GoodOpt(i.options[0]);
    }
  }

  /** A character of a version, and the one after it. */
  ghost predicate VersionChar(c: char, next: char)
  {
    || 'a' <= c <= 'z' || 'A' <= c <= 'Z' || '0' <= c <= '9' || c == '-' || c == '_' || c == '.'
    || (c == ',' && '0' <= next <= '9')
  }

  /** The next character, and a blank behind the last. */
  function Behind(s: string, k: nat): char
  {
    if k + 1 < |s| then s[k + 1] else ' '
  }

  /** A word behind an operator is a version exactly if it is of letters, digits, -, _, dots,
      and commas before digits. */
  lemma VersionsAre(name: string, ver: string)
    requires GoodName(name)
    ensures Run(name + " " + "=" + " " + ver, Start()) == Parsed([[Item(name, [Version(Eq, ver)], [])]]) <==>
      ver != "" && forall k :: 0 <= k < |ver| ==> VersionChar(ver[k], Behind(ver, k))
  {
    hide Run, GoodName;
    var i, s := Item(name, [Version(Eq, ver)], []), name + " " + "=" + " " + ver;
    GoodVersionIs(ver);
    if GoodVersion(Version(Eq, ver)) {
      OperatorsParse(name, "=", ver);
    }
    if Run(s, Start()) == Parsed([[i]]) {
      RunIsSound(s, Start());
      FirstIsGood([[i]], i);
      assert GoodVersion(i.versions[0]);
    }
  }

  lemma GoodVersionIs(ver: string)
    ensures GoodVersion(Version(Eq, ver)) <==>
      ver != "" && forall k :: 0 <= k < |ver| ==> VersionChar(ver[k], Behind(ver, k))
  {
    forall k | 0 <= k < |ver|
      ensures InVersion(ver[k], At(ver, k + 1)) <==> VersionChar(ver[k], Behind(ver, k))
    {
    }
  }

  /** A blank, and any of the characters from tab to carriage return, may precede a name. */
  lemma SpacesPrecede(space: char, name: string)
    requires GoodName(name) && (space == ' ' || 9 <= space as int <= 13)
    ensures Run([space] + name, Start()) == Parsed([[Item(name, [], [])]])
  {
    hide Run, Reads;
    var s := [space] + name;
    assert s[1..] == name && At(s, 0) == space && At(s, 1) == name[0];
    assert Reads(s, 1, name, "") by { ReadsBehind(s, name); }
    hide GoodName;
    var m := Start().(state := SkipSpaces);
    OneStep(s, Start());
    OneStep(s, m);
    OneStep(s, m.(p := 1));
    var m' := ReadName(s, m.(p := 1, c := 1, state := DepName), name, "");
    ReadEnd(s, m', Item(name, [], []));
    OneClause(m', Item(name, [], []));
  }

  lemma ReadsBehind(s: string, name: string)
    requires |s| > 0 && s[1..] == name
    ensures Reads(s, 1, name, "")
  {
    assert name + "" == name;
  }

  /** The operators as they are printed, each with a version. */
  lemma OperatorsPrint()
    ensures VersionText(Version(Eq, "1")) == " = 1" && VersionText(Version(Not, "1")) == " != 1"
    ensures VersionText(Version(Lt, "1")) == " < 1" && VersionText(Version(Le, "1")) == " <= 1"
    ensures VersionText(Version(Gt, "1")) == " > 1" && VersionText(Version(Ge, "1")) == " >= 1"
    ensures VersionText(Version(AnyOp, "1")) == " ? 1"
  {
  }

  /** A formula with everything, as it is printed. */
  lemma TextOfAll()
    ensures FormulaText([[Item("a", [Version(Ge, "1"), Version(Lt, "2")], [Opt(true, "x"), Opt(false, "y")]),
                          Item("b", [], [])], [Item("c", [], [])]]) == "a >= 1 < 2 +x -y | b, c"
  {
    hide VersionText, OptText;
    OperatorsPrint();
    assert VersionText(Version(Lt, "2")) == " < 2" by { LessThanTwo(); }
    assert OptText(Opt(true, "x")) == " +x" && OptText(Opt(false, "y")) == " -y" by { TwoOptions(); }
    var a, b, c := Item("a", [Version(Ge, "1"), Version(Lt, "2")], [Opt(true, "x"), Opt(false, "y")]),
      Item("b", [], []),
                   Item("c", [], []);
    assert ItemText(a) == "a >= 1 < 2 +x -y" by { TextOfFirst(a); }
    assert ItemText(b) == "b" && ItemText(c) == "c";
    hide ItemText;
    assert [a, b][1..] == [b] && [[a, b], [c]][1..] == [[c]];
    assert ClauseText([b]) == "b" && ClauseText([c]) == "c";
    assert ClauseText([a, b]) == "a >= 1 < 2 +x -y | b";
    assert FormulaText([[c]]) == "c";
  }

  lemma LessThanTwo()
    ensures VersionText(Version(Lt, "2")) == " < 2"
  {
  }

  lemma TwoOptions()
    ensures OptText(Opt(true, "x")) == " +x" && OptText(Opt(false, "y")) == " -y"
  {
  }

  lemma TextOfFirst(a: Item)
    requires a == Item("a", [Version(Ge, "1"), Version(Lt, "2")], [Opt(true, "x"), Opt(false, "y")])
    ensures ItemText(a) == "a >= 1 < 2 +x -y"
  {
    hide VersionText, OptText;
    OperatorsPrint();
    LessThanTwo();
    TwoOptions();
    assert a.versions[1..] == [Version(Lt, "2")] && a.options[1..] == [Opt(false, "y")];
    assert VersionsText([Version(Lt, "2")]) == " < 2" && OptsText([Opt(false, "y")]) == " -y";
    assert VersionsText(a.versions) == " >= 1 < 2" && OptsText(a.options) == " +x -y";
  }
}
