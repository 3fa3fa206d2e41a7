/** The text of a well-formed formula is parsed back to the formula. */
module FormulaRoundTrip {
  import opened Wrappers
  import opened Characters
  import opened FormulaSpec

  /** Text from place p on starts with a word. */
  ghost predicate Reads(s: string, p: nat, word: string, rest: string)
  {
    p <= |s| && s[p..] == word + rest
  }

  lemma ReadsOn(s: string, p: nat, word: string, rest: string)
    requires Reads(s, p, word, rest)
    ensures p + |word| <= |s| && s[p..p + |word|] == word && s[p + |word|..] == rest
    ensures forall i :: 0 <= i < |word| ==> At(s, p + i) == word[i]
    ensures At(s, p + |word|) == At(rest, 0) && At(s, p + |word| + 1) == At(rest, 1)
  {
    assert forall i :: 0 <= i < |word| ==> s[p..][i] == word[i] && s[p..][i] == s[p + i];
    assert forall i :: 0 <= i < |rest| ==> s[p..][|word| + i] == rest[i] && s[p..][|word| + i] == s[p + |word| + i];
    assert |s[p..]| == |word| + |rest|;
  }

  /** What ends a word in the text: a space, a comma with a space after it, or the end. */
  predicate Ends(rest: string)
  {
    rest == "" || rest[0] == ' ' || (rest[0] == ',' && At(rest, 1) == ' ')
  }

  /** One step of the machine. */
  lemma OneStep(s: string, m: Parser)
    requires m.p <= |s| && AfterSpaces(m.next) && StepOf(s, m).Go?
    ensures AfterSpaces(StepOf(s, m).to.next) && Run(s, m) == Run(s, StepOf(s, m).to)
  {
    StepsEnd(s, m);
  }

  // ----- words -----

  lemma {:induction false} ScanName(s: string, m: Parser, name: string, rest: string)
    requires m.state == DepName && AfterSpaces(m.next) && Reads(s, m.p, name, rest)
    requires forall i :: 0 <= i < |name| ==> InName(name[i])
    ensures Run(s, m) == Run(s, m.(p := m.p + |name|))
    decreases |name|
  {
    hide Run, Reads;
    if name != "" {
      ReadsFirst(s, m.p, name, rest);
      OneStep(s, m);
      ScanName(s, m.(p := m.p + 1), name[1..], rest);
    }
  }

  lemma ReadsFirst(s: string, p: nat, word: string, rest: string)
    requires Reads(s, p, word, rest) && word != ""
    ensures p < |s| && At(s, p) == word[0] && Reads(s, p + 1, word[1..], rest)
  {
    assert s[p..][0] == word[0];
    assert s[p + 1..] == s[p..][1..];
  }

  lemma {:induction false} ScanVersion(s: string, m: Parser, ver: string, rest: string)
    requires m.state == VersionNumber && AfterSpaces(m.next) && Reads(s, m.p, ver, rest)
    requires forall i :: 0 <= i < |ver| ==> InVersion(ver[i], At(ver, i + 1))
    ensures Run(s, m) == Run(s, m.(p := m.p + |ver|))
    decreases |ver|
  {
    hide Run, Reads;
    if ver != "" {
      ReadsFirst(s, m.p, ver, rest);
      assert |ver| > 1 ==> At(s, m.p + 1) == ver[1] by {
        if |ver| > 1 { ReadsFirst(s, m.p + 1, ver[1..], rest); }
      }
      OneStep(s, m);
      assert forall i :: 0 <= i < |ver| - 1 ==> ver[1..][i] == ver[i + 1] && At(ver[1..], i + 1) == At(ver, i + 2);
      ScanVersion(s, m.(p := m.p + 1), ver[1..], rest);
    }
  }

  lemma {:induction false} ScanOption(s: string, m: Parser, opt: string, rest: string)
    requires m.state == InOpt && AfterSpaces(m.next) && Reads(s, m.p, opt, rest)
    requires forall i :: 0 <= i < |opt| ==> InOption(opt[i])
    ensures Run(s, m) == Run(s, m.(p := m.p + |opt|))
    decreases |opt|
  {
    hide Run, Reads;
    if opt != "" {
      ReadsFirst(s, m.p, opt, rest);
      OneStep(s, m);
      ScanOption(s, m.(p := m.p + 1), opt[1..], rest);
    }
  }

  lemma {:induction false} ScanOp(s: string, m: Parser, op: string, rest: string)
    requires m.state == VerOp && AfterSpaces(m.next) && Reads(s, m.p, op, rest)
    requires forall i :: 0 <= i < |op| ==> IsOpChar(op[i])
    ensures Run(s, m) == Run(s, m.(p := m.p + |op|))
    decreases |op|
  {
    hide Run, Reads;
    if op != "" {
      ReadsFirst(s, m.p, op, rest);
      OneStep(s, m);
      ScanOp(s, m.(p := m.p + 1), op[1..], rest);
    }
  }

  // ----- a space, and what follows it -----

  /** A space is skipped, and the next word begins. */
  lemma SkipOne(s: string, m: Parser)
    requires m.state == SkipSpaces && AfterSpaces(m.next) && m.p < |s| && s[m.p] == ' '
    requires !IsSpace(At(s, m.p + 1)) && At(s, m.p + 1) != NUL
    ensures Run(s, m) == Run(s, m.(p := m.p + 1, c := m.p + 1, state := m.next))
  {
    hide Run;
    OneStep(s, m);
    OneStep(s, m.(p := m.p + 1));
  }

  /** A space is skipped, and what follows it is looked at. */
  lemma SkipTo(s: string, m: Parser, word: string, rest: string)
    requires m.state == SkipSpaces && AfterSpaces(m.next)
    requires Reads(s, m.p, " " + word, rest) && word != "" && !IsSpace(word[0]) && word[0] != NUL
    ensures Run(s, m) == Run(s, m.(p := m.p + 1, c := m.p + 1, state := m.next))
    ensures m.p + 1 <= |s| && At(s, m.p + 1) == word[0] && Reads(s, m.p + 1, word, rest)
  {
    ReadsFirst(s, m.p, " " + word, rest);
    assert (" " + word)[1..] == word;
    ReadsFirst(s, m.p + 1, word, rest);
    SkipOne(s, m);
  }

  lemma OpKnown(op: Op)
    requires op != AnyOp
    ensures OpOf(OpText(op)) == Some(op) && OpText(op) != ""
    ensures forall i :: 0 <= i < |OpText(op)| ==> IsOpChar(OpText(op)[i])
  {
  }

  /** The operator of a version is read, after the space before it. */
  lemma ReadOp(s: string, m: Parser, op: Op, rest: string)
    requires m.state == SkipSpaces && (m.next == AfterName || m.next == AfterVersion || m.next == AfterOption)
    requires op != AnyOp && Reads(s, m.p, " " + OpText(op), rest) && At(rest, 0) == ' '
    ensures var p' := m.p + 1 + |OpText(op)|;
      Run(s, m) == Run(s, m.(p := p', c := m.p + 1, op := op, state := SkipSpaces, next := AfterOp))
  {
    hide Run, Reads, OpText, OpOf;
    var text := OpText(op);
    OpKnown(op);
    SkipTo(s, m, text, rest);
    OneStep(s, m.(p := m.p + 1, c := m.p + 1, state := m.next));
    var m2 := m.(p := m.p + 1, c := m.p + 1, op := AnyOp, state := VerOp);
    ScanOp(s, m2, text, rest);
    var m3 := m2.(p := m2.p + |text|);
    ReadsOn(s, m2.p, text, rest);
    assert Word(s, m3) == text;
    OneStep(s, m3);
  }

  /** The number of a version is read, after the space before it. */
  lemma ReadNumber(s: string, m: Parser, i: Item, v: Version, rest: string) returns (m': Parser)
    requires m.state == SkipSpaces && m.next == AfterOp && m.op == v.op && m.item == Some(i)
    requires GoodVersion(v) && Reads(s, m.p, " " + v.ver, rest) && Ends(rest)
    ensures m' == m.(p := m.p + 1 + |v.ver|, c := m.p + 1, next := AfterVersion,
                     item := Some(i.(versions := i.versions + [v])))
    ensures Run(s, m) == Run(s, m')
  {
    hide Run, Reads;
    assert InVersion(v.ver[0], At(v.ver, 1));
    SkipTo(s, m, v.ver, rest);
    OneStep(s, m.(p := m.p + 1, c := m.p + 1, state := AfterOp));
    m' := ReadNumberWord(s, m.(p := m.p + 1, c := m.p + 1, state := VersionNumber), i, v, rest);
  }

  lemma ReadNumberWord(s: string, m: Parser, i: Item, v: Version, rest: string) returns (m': Parser)
    requires m.state == VersionNumber && AfterSpaces(m.next) && m.c == m.p && m.op == v.op
    requires m.item == Some(i) && GoodVersion(v) && Reads(s, m.p, v.ver, rest) && Ends(rest)
    ensures m' == m.(p := m.p + |v.ver|, state := SkipSpaces, next := AfterVersion,
                     item := Some(i.(versions := i.versions + [v])))
    ensures Run(s, m) == Run(s, m')
  {
    hide Run, Reads;
    ScanVersion(s, m, v.ver, rest);
    ReadsOn(s, m.p, v.ver, rest);
    var m4 := m.(p := m.p + |v.ver|);
    assert Word(s, m4) == v.ver;
    OneStep(s, m4);
    m' := StepOf(s, m4).to;
  }

  /** The text of a version is its operator and then its number. */
  lemma OpThenNumber(s: string, p: nat, v: Version, rest: string)
    requires Reads(s, p, VersionText(v), rest) && GoodVersion(v)
    ensures v.op != AnyOp && |VersionText(v)| == 2 + |OpText(v.op)| + |v.ver|
    ensures Reads(s, p, " " + OpText(v.op), (" " + v.ver) + rest) && At((" " + v.ver) + rest, 0) == ' '
    ensures Reads(s, p + 1 + |OpText(v.op)|, " " + v.ver, rest)
  {
    hide OpText;
    var op, number := " " + OpText(v.op), " " + v.ver;
    assert VersionText(v) == op + number;
    assert VersionText(v) + rest == op + (number + rest);
    ReadsOn(s, p, op, number + rest);
  }

  /** A version is read, with its operator. */
  lemma ReadVersion(s: string, m: Parser, i: Item, v: Version, rest: string) returns (m': Parser)
    requires m.state == SkipSpaces && (m.next == AfterName || m.next == AfterVersion || m.next == AfterOption)
    requires m.item == Some(i) && GoodVersion(v) && Reads(s, m.p, VersionText(v), rest) && Ends(rest)
    ensures m' == m.(p := m.p + |VersionText(v)|, c := m'.c, op := m'.op, state := SkipSpaces, next := AfterVersion,
                     item := Some(i.(versions := i.versions + [v])))
    ensures Run(s, m) == Run(s, m')
  {
    hide Run, StepOf, Reads, VersionText, OpText, GoodVersion;
    var op, ver := OpText(v.op), v.ver;
    OpThenNumber(s, m.p, v, rest);
    ReadOp(s, m, v.op, (" " + ver) + rest);
    var m1 := m.(p := m.p + 1 + |op|, c := m.p + 1, op := v.op, state := SkipSpaces, next := AfterOp);
    m' := ReadNumber(s, m1, i, v, rest);
  }

  /** An option is read. */
  lemma ReadOption(s: string, m: Parser, i: Item, o: Opt, rest: string) returns (m': Parser)
    requires m.state == SkipSpaces && (m.next == AfterName || m.next == AfterVersion || m.next == AfterOption)
    requires m.item == Some(i) && GoodOpt(o) && Reads(s, m.p, OptText(o), rest) && Ends(rest)
    ensures m' == m.(p := m.p + |OptText(o)|, c := m'.c, on := m'.on, state := SkipSpaces, next := AfterOption,
                     item := Some(i.(options := i.options + [o])))
    ensures Run(s, m) == Run(s, m')
  {
    hide Run, Reads;
    var sign: string := [if o.on then '+' else '-'];
    assert OptText(o) == " " + (sign + o.opt);
    SkipTo(s, m, sign + o.opt, rest);
    ReadsFirst(s, m.p + 1, sign + o.opt, rest);
    assert (sign + o.opt)[1..] == o.opt;
    OneStep(s, m.(p := m.p + 1, c := m.p + 1, state := m.next));
    var m2 := m.(p := m.p + 1, c := m.p + 1, state := OptionStart);
    OneStep(s, m2);
    m' := ReadOptionWord(s, m2.(on := o.on, p := m2.p + 1, c := m2.p + 1, state := InOpt), i, o, rest);
  }

  lemma ReadOptionWord(s: string, m: Parser, i: Item, o: Opt, rest: string) returns (m': Parser)
    requires m.state == InOpt && AfterSpaces(m.next) && m.c == m.p && m.on == o.on
    requires m.item == Some(i) && GoodOpt(o) && Reads(s, m.p, o.opt, rest) && Ends(rest)
    ensures m' == m.(p := m.p + |o.opt|, state := SkipSpaces, next := AfterOption,
                     item := Some(i.(options := i.options + [o])))
    ensures Run(s, m) == Run(s, m')
  {
    hide Run, Reads;
    ScanOption(s, m, o.opt, rest);
    ReadsOn(s, m.p, o.opt, rest);
    var m4 := m.(p := m.p + |o.opt|);
    assert Word(s, m4) == o.opt;
    OneStep(s, m4);
    m' := StepOf(s, m4).to;
  }

  // ----- what follows an alternative -----

  /** The text after an alternative: the others of its clause, and the other clauses. */
  function Rest(alts: seq<Item>, clauses: Formula): string
  {
    (if alts == [] then "" else " | " + ClauseText(alts)) + (if clauses == [] then "" else ", " + FormulaText(clauses))
  }

  /** The text after a name. */
  function More(vs: seq<Version>, os: seq<Opt>, alts: seq<Item>, clauses: Formula): string
  {
    VersionsText(vs) + (OptsText(os) + Rest(alts, clauses))
  }

  lemma MoreEnds(vs: seq<Version>, os: seq<Opt>, alts: seq<Item>, clauses: Formula)
    ensures Ends(More(vs, os, alts, clauses))
    ensures vs == [] && os == [] && alts == [] && clauses == [] ==> More(vs, os, alts, clauses) == ""
  {
    var rest := Rest(alts, clauses);
    assert Ends(rest);
    assert Ends(OptsText(os) + rest) by {
      if os == [] {
        assert OptsText(os) + rest == rest;
      } else {
        assert (OptsText(os) + rest)[0] == ' ';
      }
    }
    if vs == [] {
      assert More(vs, os, alts, clauses) == OptsText(os) + rest;
    } else {
      assert More(vs, os, alts, clauses)[0] == ' ';
    }
  }

  lemma Assoc(x: string, y: string, z: string)
    ensures (x + y) + z == x + (y + z)
  {
  }

  lemma Regroup(n: string, v: string, o: string, a: string, c: string)
    ensures ((n + (v + o)) + a) + c == n + (v + (o + (a + c)))
  {
    Assoc(n + (v + o), a, c);
    Assoc(n, v + o, a + c);
    Assoc(v, o, a + c);
  }

  /** The text of a formula is a name and what follows it. */
  lemma FormulaIsName(clauses: Formula)
    requires clauses != [] && clauses[0] != []
    ensures var i := clauses[0][0];
      FormulaText(clauses) == i.name + More(i.versions, i.options, clauses[0][1..], clauses[1..])
  {
    var i, alts, others := clauses[0][0], clauses[0][1..], clauses[1..];
    var v, o := VersionsText(i.versions), OptsText(i.options);
    var a := if alts == [] then "" else " | " + ClauseText(alts);
    var c := if others == [] then "" else ", " + FormulaText(others);
    assert FormulaText(clauses) == ((i.name + (v + o)) + a) + c;
    Regroup(i.name, v, o, a, c);
  }

  lemma AlternativesAreName(alts: seq<Item>, clauses: Formula)
    requires alts != []
    ensures Rest(alts, clauses) == " | " + (alts[0].name + More(alts[0].versions, alts[0].options, alts[1..], clauses))
  {
    var i := alts[0];
    var v, o := VersionsText(i.versions), OptsText(i.options);
    var a := if |alts| > 1 then " | " + ClauseText(alts[1..]) else "";
    var c := if clauses == [] then "" else ", " + FormulaText(clauses);
    var text := (i.name + (v + o)) + a;
    assert Rest(alts, clauses) == (" | " + text) + c;
    Assoc(" | ", text, c);
    Regroup(i.name, v, o, a, c);
  }

  /** Ready for what follows an alternative. */
  ghost predicate AtEnd(s: string, m: Parser, i: Item)
  {
    && m.p <= |s| && m.item == Some(i) && AfterSpaces(m.next)
    && ((m.state == SkipSpaces && (m.next == AfterName || m.next == AfterVersion || m.next == AfterOption))
        || (m.state == AfterName && At(s, m.p) == ','))
  }

  /** A name is read. */
  lemma ReadName(s: string, m: Parser, name: string, rest: string) returns (m': Parser)
    requires m.state == DepName && AfterSpaces(m.next) && m.c == m.p
    requires GoodName(name) && Reads(s, m.p, name, rest) && Ends(rest)
    ensures m'.p == m.p + |name| && m'.cur == m.cur && m'.res == m.res && AtEnd(s, m', Item(name, [], []))
    ensures Run(s, m) == Run(s, m')
  {
    hide Run, Reads;
    ScanName(s, m, name, rest);
    ReadsOn(s, m.p, name, rest);
    var m1 := m.(p := m.p + |name|);
    assert Word(s, m1) == name;
    OneStep(s, m1);
    m' := StepOf(s, m1).to;
  }

  /** A bar leads to the next alternative. */
  lemma ReadBar(s: string, m: Parser, i: Item, name: string, rest: string) returns (m': Parser)
    requires AtEnd(s, m, i) && GoodName(name) && Reads(s, m.p, " | " + name, rest)
    ensures m'.state == DepName && AfterSpaces(m'.next) && m'.c == m'.p == m.p + 3
    ensures m'.cur == m.cur + [i] && m'.res == m.res && Reads(s, m'.p, name, rest)
    ensures Run(s, m) == Run(s, m')
  {
    hide Run, Reads;
    assert InName(name[0]);
    assert " | " + name == " " + ("| " + name) && ("| " + name)[1..] == " " + name;
    ReadsFirst(s, m.p, " | " + name, rest);
    SkipTo(s, m, "| " + name, rest);
    ReadsFirst(s, m.p + 1, "| " + name, rest);
    var m1 := m.(p := m.p + 1, c := m.p + 1, state := m.next);
    OneStep(s, m1);
    OneStep(s, m1.(state := Or));
    var m2 := StepOf(s, m1.(state := Or)).to;
    SkipTo(s, m2, name, rest);
    m' := m2.(p := m2.p + 1, c := m2.p + 1, state := DepName);
  }

  /** A comma leads to the next clause. */
  lemma ReadComma(s: string, m: Parser, i: Item, name: string, rest: string) returns (m': Parser)
    requires AtEnd(s, m, i) && GoodName(name) && Reads(s, m.p, ", " + name, rest)
    ensures m'.state == DepName && AfterSpaces(m'.next) && m'.c == m'.p == m.p + 2
    ensures m'.cur == [] && m'.res == m.res + [m.cur + [i]] && Reads(s, m'.p, name, rest)
    ensures Run(s, m) == Run(s, m')
  {
    hide Run, Reads;
    assert InName(name[0]);
    ReadsFirst(s, m.p, ", " + name, rest);
    assert (", " + name)[1..] == " " + name;
    var m1 := m;
    if m.state == SkipSpaces {
      OneStep(s, m);
      m1 := StepOf(s, m).to;
    }
    OneStep(s, m1);
    OneStep(s, m1.(state := Comma));
    var m2 := StepOf(s, m1.(state := Comma)).to;
    SkipTo(s, m2, name, rest);
    m' := m2.(p := m2.p + 1, c := m2.p + 1, state := DepName);
  }

  /** At the end of the text the formula is complete. */
  lemma ReadEnd(s: string, m: Parser, i: Item)
    requires AtEnd(s, m, i) && m.p == |s|
    ensures Run(s, m) == Parsed(m.res + [m.cur + [i]])
  {
    assert At(s, m.p) == NUL;
    OneStep(s, m);
    OneStep(s, m.(state := Comma));
  }

  // ----- the whole formula -----

  lemma ReadsTail(s: string, p: nat, text: string, word: string, rest: string)
    requires Reads(s, p, "", text) && text == word + rest
    ensures Reads(s, p, word, rest)
  {
  }

  lemma ReadsRest(s: string, p: nat, word: string, rest: string)
    requires Reads(s, p, word, rest)
    ensures Reads(s, p + |word|, "", rest)
  {
    ReadsOn(s, p, word, rest);
  }

  lemma MoreVersion(vs: seq<Version>, os: seq<Opt>, alts: seq<Item>, clauses: Formula)
    requires vs != []
    ensures More(vs, os, alts, clauses) == VersionText(vs[0]) + More(vs[1..], os, alts, clauses)
  {
    hide VersionText, OptsText, Rest;
    Assoc(VersionText(vs[0]), VersionsText(vs[1..]), OptsText(os) + Rest(alts, clauses));
  }

  lemma MoreOption(os: seq<Opt>, alts: seq<Item>, clauses: Formula)
    requires os != []
    ensures More([], os, alts, clauses) == OptText(os[0]) + More([], os[1..], alts, clauses)
  {
    hide OptText, Rest;
    Assoc(OptText(os[0]), OptsText(os[1..]), Rest(alts, clauses));
    assert More([], os, alts, clauses) == OptsText(os) + Rest(alts, clauses);
    assert More([], os[1..], alts, clauses) == OptsText(os[1..]) + Rest(alts, clauses);
  }

  lemma MoreRest(alts: seq<Item>, clauses: Formula)
    ensures More([], [], alts, clauses) == Rest(alts, clauses)
  {
  }

  /** What the alternative, those after it and the clauses after that make, together
      with what was read before. */
  function Whole(m: Parser, i: Item, vs: seq<Version>, os: seq<Opt>, alts: seq<Item>, clauses: Formula): Formula
  {
    m.res + [m.cur + [i.(versions := i.versions + vs, options := i.options + os)] + alts] + clauses
  }

  /** The rest of a formula is read, from the end of a name, a version or an option. */
  lemma {:induction false} ReadMore(s: string, m: Parser, i: Item, vs: seq<Version>, os: seq<Opt>,
                                    alts: seq<Item>, clauses: Formula)
    requires AtEnd(s, m, i) && Reads(s, m.p, "", More(vs, os, alts, clauses))
    requires (forall k :: 0 <= k < |vs| ==> GoodVersion(vs[k])) && (forall k :: 0 <= k < |os| ==> GoodOpt(os[k]))
    requires GoodItems(alts) && GoodFormula(clauses)
    ensures Run(s, m) == Parsed(Whole(m, i, vs, os, alts, clauses))
    decreases |s| - m.p, 1
  {
    hide Run, Reads, GoodVersion, GoodOpt, GoodItem, VersionText, OptText, VersionsText, OptsText, ClauseText,
      FormulaText;
    hide More, Rest, Whole;
    if vs != [] {
      ReadMoreVersion(s, m, i, vs, os, alts, clauses);
    } else if os != [] {
      ReadMoreOption(s, m, i, os, alts, clauses);
    } else if alts != [] {
      ReadMoreAlternative(s, m, i, alts, clauses);
    } else if clauses != [] {
      ReadMoreClause(s, m, i, clauses);
    } else {
      MoreEnds([], [], [], []);
      AtTextEnd(s, m.p);
      ReadEnd(s, m, i);
      WholeIsItem(m, i);
    }
  }

  lemma AtTextEnd(s: string, p: nat)
    requires Reads(s, p, "", "")
    ensures p == |s|
  {
  }

  lemma WholeIsItem(m: Parser, i: Item)
    ensures Whole(m, i, [], [], [], []) == m.res + [m.cur + [i]]
  {
    assert i.versions + [] == i.versions && i.options + [] == i.options;
    assert m.cur + [i] + [] == m.cur + [i];
  }

  /** After a space there is no comma. */
  lemma AtSpace(s: string, m: Parser, i: Item, word: string, rest: string)
    requires AtEnd(s, m, i) && Reads(s, m.p, word, rest) && word != "" && word[0] == ' '
    ensures m.state == SkipSpaces && m.p + |word| <= |s|
  {
    ReadsOn(s, m.p, word, rest);
    assert At(s, m.p + 0) == word[0];
  }

  lemma ReadMoreVersion(s: string, m: Parser, i: Item, vs: seq<Version>, os: seq<Opt>, alts: seq<Item>,
                        clauses: Formula)
    requires AtEnd(s, m, i) && Reads(s, m.p, "", More(vs, os, alts, clauses)) && vs != []
    requires (forall k :: 0 <= k < |vs| ==> GoodVersion(vs[k])) && (forall k :: 0 <= k < |os| ==> GoodOpt(os[k]))
    requires GoodItems(alts) && GoodFormula(clauses)
    ensures Run(s, m) == Parsed(Whole(m, i, vs, os, alts, clauses))
    decreases |s| - m.p, 0
  {
    hide Run, Reads, GoodVersion, GoodOpt, GoodItem, OptText, VersionsText, OptsText, ClauseText, FormulaText, More,
      Rest;
    var v, rest := vs[0], More(vs[1..], os, alts, clauses);
    MoreVersion(vs, os, alts, clauses);
    MoreEnds(vs[1..], os, alts, clauses);
    ReadsTail(s, m.p, More(vs, os, alts, clauses), VersionText(v), rest);
    AtSpace(s, m, i, VersionText(v), rest);
    var m' := ReadVersion(s, m, i, v, rest);
    ReadsRest(s, m.p, VersionText(v), rest);
    var i' := i.(versions := i.versions + [v]);
    ReadMore(s, m', i', vs[1..], os, alts, clauses);
    assert i'.versions + vs[1..] == i.versions + vs;
  }

  lemma ReadMoreOption(s: string, m: Parser, i: Item, os: seq<Opt>, alts: seq<Item>, clauses: Formula)
    requires AtEnd(s, m, i) && Reads(s, m.p, "", More([], os, alts, clauses)) && os != []
    requires forall k :: 0 <= k < |os| ==> GoodOpt(os[k])
    requires GoodItems(alts) && GoodFormula(clauses)
    ensures Run(s, m) == Parsed(Whole(m, i, [], os, alts, clauses))
    decreases |s| - m.p, 0
  {
    hide Run, Reads, GoodVersion, GoodOpt, GoodItem, VersionText, VersionsText, OptsText, ClauseText, FormulaText,
      More, Rest;
    var o, rest := os[0], More([], os[1..], alts, clauses);
    MoreOption(os, alts, clauses);
    MoreEnds([], os[1..], alts, clauses);
    ReadsTail(s, m.p, More([], os, alts, clauses), OptText(o), rest);
    AtSpace(s, m, i, OptText(o), rest);
    var m' := ReadOption(s, m, i, o, rest);
    ReadsRest(s, m.p, OptText(o), rest);
    var i' := i.(options := i.options + [o]);
    ReadMore(s, m', i', [], os[1..], alts, clauses);
    assert i'.options + os[1..] == i.options + os;
  }

  lemma ReadMoreAlternative(s: string, m: Parser, i: Item, alts: seq<Item>, clauses: Formula)
    requires AtEnd(s, m, i) && Reads(s, m.p, "", More([], [], alts, clauses)) && alts != []
    requires GoodItems(alts) && GoodFormula(clauses)
    ensures Run(s, m) == Parsed(Whole(m, i, [], [], alts, clauses))
    decreases |s| - m.p, 0
  {
    hide Run, Reads, GoodName, GoodVersion, GoodOpt, VersionText, OptText, VersionsText, OptsText, ClauseText,
      FormulaText, More, Rest;
    var a := alts[0];
    var rest := More(a.versions, a.options, alts[1..], clauses);
    assert GoodItem(a);
    MoreRest(alts, clauses);
    AlternativesAreName(alts, clauses);
    Assoc(" | ", a.name, rest);
    MoreEnds(a.versions, a.options, alts[1..], clauses);
    ReadsTail(s, m.p, More([], [], alts, clauses), " | " + a.name, rest);
    ReadsRest(s, m.p, " | " + a.name, rest);
    AtSpace(s, m, i, " | " + a.name, rest);
    var m1 := ReadBar(s, m, i, a.name, rest);
    var m2 := ReadName(s, m1, a.name, rest);
    var a' := Item(a.name, [], []);
    ReadMore(s, m2, a', a.versions, a.options, alts[1..], clauses);
    WholeOfNext(m, m2, i, a, alts, clauses);
  }

  lemma WholeOfNext(m: Parser, m': Parser, i: Item, a: Item, alts: seq<Item>, clauses: Formula)
    requires alts != [] && a == alts[0] && m'.res == m.res && m'.cur == m.cur + [i]
    ensures Whole(m', Item(a.name, [], []), a.versions, a.options, alts[1..], clauses) ==
      Whole(m, i, [], [], alts, clauses)
  {
    assert [] + a.versions == a.versions && [] + a.options == a.options;
    assert i.versions + [] == i.versions && i.options + [] == i.options;
    assert m.cur + [i] + [a] + alts[1..] == m.cur + [i] + alts;
  }

  lemma ReadMoreClause(s: string, m: Parser, i: Item, clauses: Formula)
    requires AtEnd(s, m, i) && Reads(s, m.p, "", More([], [], [], clauses)) && clauses != []
    requires GoodFormula(clauses)
    ensures Run(s, m) == Parsed(Whole(m, i, [], [], [], clauses))
    decreases |s| - m.p, 0
  {
    hide Run, Reads, GoodName, GoodVersion, GoodOpt, VersionText, OptText, VersionsText, OptsText, ClauseText,
      FormulaText, More;
    var a, alts, others := clauses[0][0], clauses[0][1..], clauses[1..];
    var rest := More(a.versions, a.options, alts, others);
    assert GoodItem(a);
    MoreRest([], clauses);
    FormulaIsName(clauses);
    Assoc(", ", a.name, rest);
    MoreEnds(a.versions, a.options, alts, others);
    assert Rest([], clauses) == ", " + FormulaText(clauses);
    hide Rest;
    ReadsTail(s, m.p, More([], [], [], clauses), ", " + a.name, rest);
    ReadsRest(s, m.p, ", " + a.name, rest);
    var m1 := ReadComma(s, m, i, a.name, rest);
    var m2 := ReadName(s, m1, a.name, rest);
    ReadMore(s, m2, Item(a.name, [], []), a.versions, a.options, alts, others);
    WholeOfClause(m, m2, i, a, clauses);
  }

  lemma WholeOfClause(m: Parser, m': Parser, i: Item, a: Item, clauses: Formula)
    requires clauses != [] && clauses[0] != [] && a == clauses[0][0] && m'.res == m.res + [m.cur + [i]] && m'.cur == []
    ensures Whole(m', Item(a.name, [], []), a.versions, a.options, clauses[0][1..], clauses[1..]) ==
      Whole(m, i, [], [], [], clauses)
  {
    assert [] + a.versions == a.versions && [] + a.options == a.options;
    assert i.versions + [] == i.versions && i.options + [] == i.options;
    assert [] + [a] + clauses[0][1..] == clauses[0];
    assert m.cur + [i] + [] == m.cur + [i];
    assert m.res + [m.cur + [i]] + [clauses[0]] + clauses[1..] == m.res + [m.cur + [i]] + clauses;
  }

  /** Parsing the text of a well-formed formula gives back the formula. */
  lemma PrintedParsesBack(f: Formula)
    requires f != [] && GoodFormula(f)
    ensures Run(FormulaText(f), Start()) == Parsed(f)
  {
    hide Run, Reads, GoodName, GoodVersion, GoodOpt, VersionsText, OptsText, ClauseText, More, Whole;
    var s, a := FormulaText(f), f[0][0];
    var rest := More(a.versions, a.options, f[0][1..], f[1..]);
    assert GoodItem(a);
    FormulaIsName(f);
    hide FormulaText;
    MoreEnds(a.versions, a.options, f[0][1..], f[1..]);
    ReadsWhole(s, a.name, rest);
    ReadsRest(s, 0, a.name, rest);
    var m := ReadName(s, Start(), a.name, rest);
    ReadMore(s, m, Item(a.name, [], []), a.versions, a.options, f[0][1..], f[1..]);
    WholeOfAll(m, a, f);
  }

  lemma ReadsWhole(s: string, word: string, rest: string)
    requires s == word + rest
    ensures Reads(s, 0, word, rest)
  {
  }

  lemma WholeOfAll(m: Parser, a: Item, f: Formula)
    requires f != [] && f[0] != [] && a == f[0][0] && m.res == [] && m.cur == []
    ensures Whole(m, Item(a.name, [], []), a.versions, a.options, f[0][1..], f[1..]) == f
  {
    assert [] + a.versions == a.versions && [] + a.options == a.options;
    assert [] + [a] + f[0][1..] == f[0];
  }
}
