/** The parser and the printer of formulas as the source runs them
    (libpkg/pkg_deps.c:41-329, 331-462), and what a parsed formula looks like. */
module FormulaParser {
  import opened Wrappers
  import opened Characters
  import opened FormulaSpec
  import opened FormulaRoundTrip

  // ----- every formula that is parsed is well formed -----

  /** What holds of the parser at every step. */
  ghost predicate Sound(s: string, m: Parser)
  {
    && AfterSpaces(m.next) && m.p <= |s| + 1
    && GoodFormula(m.res) && GoodItems(m.cur) && (m.item.Some? ==> GoodItem(m.item.value))
    && (m.p > |s| ==> m.res != [])
    && WordSoFar(s, m)
  }

  /** The characters of the word being read are those of its kind. */
  ghost predicate WordSoFar(s: string, m: Parser)
  {
    && (m.state == DepName || m.state == VersionNumber || m.state == InOpt ==> m.c <= m.p <= |s|)
    && (m.state == DepName ==> forall i :: m.c <= i < m.p ==> InName(At(s, i)))
    && (m.state == VersionNumber ==> m.op != AnyOp && forall i :: m.c <= i < m.p ==> InVersion(At(s, i), At(s, i + 1)))
    && (m.state == InOpt ==> forall i :: m.c <= i < m.p ==> InOption(At(s, i)))
    && (m.next == AfterOp && m.state == SkipSpaces ==> m.op != AnyOp)
    && (m.state == AfterOp ==> m.c == m.p <= |s|)
    && (m.state == OptionStart || m.state == Or ==> m.p < |s|)
  }

  lemma StepKeepsSound(s: string, m: Parser)
    requires Sound(s, m) && m.p <= |s| && StepOf(s, m).Go?
    ensures Sound(s, StepOf(s, m).to)
  {
    hide Sound, StepOf;
    match m.state {
      case DepName => NameKeepsSound(s, m);
      case VersionNumber => VersionKeepsSound(s, m);
      case InOpt => OptionKeepsSound(s, m);
      case Comma | Or => CommaKeepsSound(s, m);
      case AfterName | AfterVersion | AfterOption => AfterKeepsSound(s, m);
      case SkipSpaces => SkipKeepsSound(s, m);
      case _ => OperatorKeepsSound(s, m);
    }
  }

  /** Only the item, the clause and the formula matter, when no word is being read. */
  lemma SoundBetween(s: string, m: Parser, m': Parser)
    requires Sound(s, m) && m'.res == m.res && m'.cur == m.cur && m'.item == m.item && m'.p == m.p <= |s|
    requires AfterSpaces(m'.next) && WordSoFar(s, m')
    ensures Sound(s, m')
  {
    hide GoodFormula, GoodItems, GoodItem, WordSoFar, AfterSpaces;
  }

  lemma AfterKeepsSound(s: string, m: Parser)
    requires Sound(s, m) && m.p <= |s| && StepOf(s, m).Go?
    requires m.state == AfterName || m.state == AfterVersion || m.state == AfterOption
    ensures Sound(s, StepOf(s, m).to)
  {
    assert AfterSpaces(m.next);
    hide Sound, AfterSpaces, InVersion, InOption, InName;
    SoundBetween(s, m, StepOf(s, m).to);
  }

  lemma SkipKeepsSound(s: string, m: Parser)
    requires Sound(s, m) && m.p <= |s| && StepOf(s, m).Go? && m.state == SkipSpaces
    ensures Sound(s, StepOf(s, m).to)
  {
    hide GoodFormula, GoodItems, GoodItem, InVersion, InOption, InName, StepName, StepVerOp, StepVersion, StepOption;
  }

  lemma OperatorKeepsSound(s: string, m: Parser)
    requires Sound(s, m) && m.p <= |s| && StepOf(s, m).Go?
    requires m.state == VerOp || m.state == AfterOp || m.state == OptionStart || m.state == Error
    ensures Sound(s, StepOf(s, m).to)
  {
    hide GoodFormula, GoodItems, GoodItem, InVersion, InOption, InName, StepName, StepVersion, StepOption, StepAfter,
      StepSkip;
  }

  lemma NameKeepsSound(s: string, m: Parser)
    requires Sound(s, m) && m.p <= |s| && m.state == DepName && StepOf(s, m).Go?
    ensures Sound(s, StepOf(s, m).to)
  {
    hide GoodFormula, GoodItems, GoodName, StepVerOp, StepVersion, StepOption, StepAfter, StepSkip, InVersion, InOption;
    if m.p > m.c {
      NameWordGood(s, m);
    }
    hide Word;
  }

  lemma NameWordGood(s: string, m: Parser)
    requires WordSoFar(s, m) && m.state == DepName && m.p > m.c
    ensures GoodName(Word(s, m))
  {
    var name := Word(s, m);
    assert forall i :: 0 <= i < |name| ==> name[i] == At(s, m.c + i);
  }

  lemma VersionKeepsSound(s: string, m: Parser)
    requires Sound(s, m) && m.p <= |s| && m.state == VersionNumber && StepOf(s, m).Go?
    ensures Sound(s, StepOf(s, m).to)
  {
    hide GoodFormula, GoodItems, StepName, StepVerOp, StepOption, StepAfter, StepSkip, InName, InOption;
    if !InVersion(At(s, m.p), At(s, m.p + 1)) && m.p > m.c {
      VersionWordGood(s, m);
    }
    hide Word, GoodVersion, InVersion;
  }

  lemma VersionWordGood(s: string, m: Parser)
    requires WordSoFar(s, m) && m.state == VersionNumber && m.p > m.c && !InVersion(At(s, m.p), At(s, m.p + 1))
    ensures GoodVersion(Version(m.op, Word(s, m)))
  {
    var ver := Word(s, m);
    assert forall i :: 0 <= i < |ver| ==> ver[i] == At(s, m.c + i);
  }

  lemma OptionKeepsSound(s: string, m: Parser)
    requires Sound(s, m) && m.p <= |s| && m.state == InOpt && StepOf(s, m).Go?
    ensures Sound(s, StepOf(s, m).to)
  {
    hide GoodFormula, GoodItems, StepName, StepVerOp, StepVersion, StepAfter, StepSkip, InName, InVersion;
    assert m.p > m.c ==> GoodOpt(Opt(m.on, Word(s, m))) by {
      var opt := Word(s, m);
      assert forall i :: 0 <= i < |opt| ==> opt[i] == At(s, m.c + i);
    }
    hide Word, GoodOpt;
  }

  lemma CommaKeepsSound(s: string, m: Parser)
    requires Sound(s, m) && m.p <= |s| && (m.state == Comma || m.state == Or) && StepOf(s, m).Go?
    ensures Sound(s, StepOf(s, m).to)
  {
    hide GoodItem;
  }

  lemma {:induction false} RunIsSound(s: string, m: Parser)
    requires Sound(s, m)
    ensures Run(s, m).Parsed? ==> Run(s, m).formula != [] && GoodFormula(Run(s, m).formula)
    decreases |s| + 1 - m.p, Rank(s, m)
  {
    if m.p <= |s| && StepOf(s, m).Go? {
      StepsEnd(s, m);
      StepKeepsSound(s, m);
      RunIsSound(s, StepOf(s, m).to);
    }
  }

  /** The formulas that the parser returns are exactly the well-formed ones. */
  lemma ParsedIffGood(f: Formula)
    ensures (exists s :: Run(s, Start()) == Parsed(f)) <==> f != [] && GoodFormula(f)
  {
    if s :| Run(s, Start()) == Parsed(f) {
      RunIsSound(s, Start());
    }
    if f != [] && GoodFormula(f) {
      PrintedParsesBack(f);
    }
  }

  /** Printing what was parsed, and parsing that, changes nothing. */
  lemma ReparsedIsSame(s: string)
    requires Run(s, Start()).Parsed?
    ensures Run(FormulaText(Run(s, Start()).formula), Start()) == Run(s, Start())
  {
    RunIsSound(s, Start());
    PrintedParsesBack(Run(s, Start()).formula);
  }

  /** Different well-formed formulas have different texts. */
  lemma TextsDiffer(f: Formula, g: Formula)
    requires f != [] && g != [] && GoodFormula(f) && GoodFormula(g) && FormulaText(f) == FormulaText(g)
    ensures f == g
  {
    PrintedParsesBack(f);
    PrintedParsesBack(g);
  }

  /** Where nothing is left to name, an assertion of the source stops the parser. */
  lemma NothingToName(s: string, m: Parser)
    requires m.p <= |s| && (m.state == SkipSpaces || m.state == DepName) && m.next == DepName && m.item == None &&
      m.c <= m.p
    requires m.state == DepName ==> m.c == m.p
    requires forall i :: m.p <= i < |s| ==> IsSpace(s[i])
    ensures Run(s, m) == Stopped
    decreases |s| - m.p, if m.state == DepName then 1 else 0
  {
    OneStep(s, m);
    var m' := StepOf(s, m).to;
    if m.state == DepName {
      NothingToName(s, m');
    } else if m.p < |s| {
      NothingToName(s, m');
    } else {
      assert m'.state == Comma && StepOf(s, m') == Stop(Stopped);
    }
  }

  // ----- the loops of the source -----

  /** `pkg_deps_parse_formula` */
  method Parse(s: string) returns (outcome: Outcome)
    ensures outcome == Run(s, Start())
  {
    hide Run;
    var state, next := DepName, DepName;
    var p, c := 0, 0;
    var op, on := AnyOp, false;
    var item: Option<Item> := None;
    var cur: seq<Item>, res: Formula := [], [];
    while p <= |s|
      invariant AfterSpaces(next) && p <= |s| + 1
      invariant Run(s, Parser(state, next, p, c, op, on, item, cur, res)) == Run(s, Start())
      decreases |s| + 1 - p, Rank(s, Parser(state, next, p, c, op, on, item, cur, res))
    {
      ghost var m := Parser(state, next, p, c, op, on, item, cur, res);
      StepsEnd(s, m);
      RunStep(s, m);
      hide Rank;
      var ch := At(s, p);
      var word := if c <= p <= |s| then s[c..p] else "";
      match state {
        case DepName =>
          if IsSpace(ch) || ch == NUL {
            state := SkipSpaces;
            if p == c {
              next := DepName;
            } else {
              item := Some(Item(word, [], []));
              next := AfterName;
            }
          } else if ch == ',' {
            if p == c {
              state := Error;
            } else {
              item := Some(Item(word, [], []));
              state := AfterName;
            }
          } else if !IsPrint(ch) {
            state := Error;
          } else {
            p := p + 1;
          }
        case AfterName | AfterVersion | AfterOption =>
          if ch == ',' || ch == NUL {
            state := Comma;
          } else if ch == '|' {
            state := Or;
          } else if ch == '+' || ch == '-' {
            c := p;
            state := OptionStart;
          } else if IsOpChar(ch) {
            c := p;
            op := AnyOp;
            state := VerOp;
          } else {
            state := Error;
          }
        case VerOp =>
          if IsOpChar(ch) {
            p := p + 1;
          } else {
            var known := OpOf(word);
            if known == None {
              state := Error;
            } else {
              op := known.value;
              state := SkipSpaces;
              next := AfterOp;
            }
          }
        case AfterOp =>
          if op == AnyOp {
            state := Error;
          } else {
            state := VersionNumber;
          }
        case VersionNumber =>
          if InVersion(ch, At(s, p + 1)) {
            p := p + 1;
          } else if p > c {
            if item == None {
              return Stopped;
            }
            item := Some(item.value.(versions := item.value.versions + [Version(op, word)]));
            state := SkipSpaces;
            next := AfterVersion;
          } else {
            state := Error;
          }
        case OptionStart =>
          on := ch == '+';
          p := p + 1;
          c := p;
          state := InOpt;
        case InOpt =>
          if InOption(ch) {
            p := p + 1;
          } else if p > c {
            if item == None {
              return Stopped;
            }
            item := Some(item.value.(options := item.value.options + [Opt(on, word)]));
            state := SkipSpaces;
            next := AfterOption;
          } else {
            state := Error;
          }
        case Comma =>
          if item == None {
            return Stopped;
          }
          cur := cur + [item.value];
          res := res + [cur];
          item, cur := None, [];
          p := p + 1;
          state := SkipSpaces;
          next := DepName;
        case Or =>
          if item == None {
            return Stopped;
          }
          cur := cur + [item.value];
          item := None;
          p := p + 1;
          state := SkipSpaces;
          next := DepName;
        case SkipSpaces =>
          if IsSpace(ch) {
            p := p + 1;
          } else if ch == NUL {
            state := Comma;
          } else {
            c := p;
            state := next;
          }
        case Error =>
          return Failed;
      }
      assert StepOf(s, m) == Go(Parser(state, next, p, c, op, on, item, cur, res));
    }
    RunEnds(s, Parser(state, next, p, c, op, on, item, cur, res));
    outcome := if state == SkipSpaces || state == Comma then Parsed(res) else Failed;
  }

  lemma RunStep(s: string, m: Parser)
    requires m.p <= |s| && AfterSpaces(m.next)
    ensures StepOf(s, m).Go? ==> AfterSpaces(StepOf(s, m).to.next) && Run(s, m) == Run(s, StepOf(s, m).to)
    ensures StepOf(s, m).Stop? ==> Run(s, m) == StepOf(s, m).outcome
  {
    StepsEnd(s, m);
  }

  lemma RunEnds(s: string, m: Parser)
    requires m.p > |s| && AfterSpaces(m.next)
    ensures Run(s, m) == if m.state == SkipSpaces || m.state == Comma then Parsed(m.res) else Failed
  {
  }

  // ----- printing -----

  lemma TextOfVersions(vs: seq<Version>, k: nat)
    requires k < |vs|
    ensures VersionsText(vs[k..]) == VersionText(vs[k]) + VersionsText(vs[k + 1..])
  {
    assert vs[k..][1..] == vs[k + 1..];
  }

  lemma TextOfOptions(os: seq<Opt>, k: nat)
    requires k < |os|
    ensures OptsText(os[k..]) == OptText(os[k]) + OptsText(os[k + 1..])
  {
    assert os[k..][1..] == os[k + 1..];
  }

  lemma TextOfItems(items: seq<Item>, k: nat)
    requires k < |items|
    ensures ClauseText(items[k..]) ==
      (ItemText(items[k]) + if k + 1 < |items| then " | " else "") + ClauseText(items[k + 1..])
  {
    assert items[k..][1..] == items[k + 1..];
    if k + 1 < |items| {
      Assoc(ItemText(items[k]), " | ", ClauseText(items[k + 1..]));
    }
  }

  lemma TextOfClauses(f: Formula, k: nat)
    requires k < |f|
    ensures FormulaText(f[k..]) == (ClauseText(f[k]) + if k + 1 < |f| then ", " else "") + FormulaText(f[k + 1..])
  {
    assert f[k..][1..] == f[k + 1..];
    if k + 1 < |f| {
      Assoc(ClauseText(f[k]), ", ", FormulaText(f[k + 1..]));
    }
  }

  method PrintItem(i: Item) returns (text: string)
    ensures text == ItemText(i)
  {
    hide VersionText, OptText;
    text := i.name;
    ghost var all := i.name + VersionsText(i.versions);
    var k := 0;
    assert i.versions[0..] == i.versions;
    while k < |i.versions|
      invariant 0 <= k <= |i.versions|
      invariant text + VersionsText(i.versions[k..]) == all
    {
      TextOfVersions(i.versions, k);
      Assoc(text, VersionText(i.versions[k]), VersionsText(i.versions[k + 1..]));
      text := text + VersionText(i.versions[k]);
      k := k + 1;
    }
    assert text == all;
    k := 0;
    assert i.options[0..] == i.options;
    while k < |i.options|
      invariant 0 <= k <= |i.options|
      invariant text + OptsText(i.options[k..]) == all + OptsText(i.options)
    {
      TextOfOptions(i.options, k);
      Assoc(text, OptText(i.options[k]), OptsText(i.options[k + 1..]));
      text := text + OptText(i.options[k]);
      k := k + 1;
    }
    Assoc(i.name, VersionsText(i.versions), OptsText(i.options));
  }

  method PrintClause(items: seq<Item>) returns (text: string)
    ensures text == ClauseText(items)
  {
    hide ItemText;
    text := "";
    var k := 0;
    assert items[0..] == items;
    while k < |items|
      invariant 0 <= k <= |items|
      invariant text + ClauseText(items[k..]) == ClauseText(items)
    {
      var more := PrintItem(items[k]);
      more := more + if k + 1 < |items| then " | " else "";
      TextOfItems(items, k);
      Assoc(text, more, ClauseText(items[k + 1..]));
      text := text + more;
      k := k + 1;
    }
  }

  /** `pkg_deps_formula_tostring`, with room for the text; nothing for an empty formula. */
  method Print(f: Formula) returns (text: Option<string>)
    ensures text == if f == [] then None else Some(FormulaText(f))
  {
    hide ClauseText;
    if f == [] {
      return None;
    }
    var out := "";
    var k := 0;
    assert f[0..] == f;
    while k < |f|
      invariant 0 <= k <= |f|
      invariant out + FormulaText(f[k..]) == FormulaText(f)
    {
      var more := PrintClause(f[k]);
      more := more + if k + 1 < |f| then ", " else "";
      TextOfClauses(f, k);
      Assoc(out, more, FormulaText(f[k + 1..]));
      out := out + more;
      k := k + 1;
    }
    assert f[k..] == [] && out + "" == out;
    return Some(out);
  }
}
