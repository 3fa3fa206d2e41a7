/** Dependency formulas (libpkg/pkg_deps.c:41-462): their text, and the machine that
    parses it. */
module FormulaSpec {
  import opened Wrappers
  import opened Characters

  datatype Op = AnyOp | Eq | Ge | Le | Lt | Gt | Not

  datatype Version = Version(op: Op, ver: string)

  datatype Opt = Opt(on: bool, opt: string)

  datatype Item = Item(name: string, versions: seq<Version>, options: seq<Opt>)

  /** Clauses, each with its alternatives. */
  type Formula = seq<seq<Item>>

  // ----- the characters of a formula -----

  predicate IsAlnum(c: char)
  {
    IsDigit(c) || IsAlpha(c)
  }

  predicate IsPrint(c: char)
  {
    ' ' <= c <= '~'
  }

  predicate IsOpChar(c: char)
  {
    c == '>' || c == '<' || c == '=' || c == '!'
  }

  /** A character that goes on with a version: a comma only if a digit follows. */
  predicate InVersion(c: char, next: char)
  {
    IsAlnum(c) || c == '-' || c == '_' || c == '.' || (c == ',' && IsDigit(next))
  }

  predicate InOption(c: char)
  {
    IsAlnum(c) || c == '-' || c == '_'
  }

  predicate InName(c: char)
  {
    IsPrint(c) && !IsSpace(c) && c != ','
  }

  // ----- printing -----

  function OpText(op: Op): string
  {
    match op
    case AnyOp => "?"
    case Eq => "="
    case Le => "<="
    case Ge => ">="
    case Lt => "<"
    case Gt => ">"
    case Not => "!="
  }

  function VersionText(v: Version): string
  {
    " " + OpText(v.op) + " " + v.ver
  }

  function OptText(o: Opt): string
  {
    [' ', if o.on then '+' else '-'] + o.opt
  }

  function VersionsText(vs: seq<Version>): string
  {
    if vs == [] then "" else VersionText(vs[0]) + VersionsText(vs[1..])
  }

  function OptsText(os: seq<Opt>): string
  {
    if os == [] then "" else OptText(os[0]) + OptsText(os[1..])
  }

  function ItemText(i: Item): string
  {
    i.name + (VersionsText(i.versions) + OptsText(i.options))
  }

  function ClauseText(items: seq<Item>): string
  {
    if items == [] then ""
    else ItemText(items[0]) + if |items| > 1 then " | " + ClauseText(items[1..]) else ""
  }

  function FormulaText(f: Formula): string
  {
    if f == [] then ""
    else ClauseText(f[0]) + if |f| > 1 then ", " + FormulaText(f[1..]) else ""
  }

  // ----- what can be printed and read back -----

  ghost predicate GoodName(name: string)
  {
    name != "" && forall i :: 0 <= i < |name| ==> InName(name[i])
  }

  ghost predicate GoodVersion(v: Version)
  {
    v.op != AnyOp && v.ver != "" && forall i :: 0 <= i < |v.ver| ==> InVersion(v.ver[i], At(v.ver, i + 1))
  }

  ghost predicate GoodOpt(o: Opt)
  {
    o.opt != "" && forall i :: 0 <= i < |o.opt| ==> InOption(o.opt[i])
  }

  ghost predicate GoodItem(i: Item)
  {
    && GoodName(i.name)
    && (forall k :: 0 <= k < |i.versions| ==> GoodVersion(i.versions[k]))
    && (forall k :: 0 <= k < |i.options| ==> GoodOpt(i.options[k]))
  }

  ghost predicate GoodItems(items: seq<Item>)
  {
    forall k :: 0 <= k < |items| ==> GoodItem(items[k])
  }

  ghost predicate GoodFormula(f: Formula)
  {
    forall k :: 0 <= k < |f| ==> f[k] != [] && GoodItems(f[k])
  }

  // ----- the machine -----

  datatype State =
    | DepName | AfterName | VerOp | AfterOp | VersionNumber | AfterVersion
    | OptionStart | InOpt | AfterOption | Comma | Or | SkipSpaces | Error

  /** Where the parser is: `p` reads, `c` is where a word began; `cur` holds the
      alternatives of the clause so far, and `item` the one being read. */
  datatype Parser = Parser(state: State, next: State, p: nat, c: nat, op: Op, on: bool,
                           item: Option<Item>, cur: seq<Item>, res: Formula)

  /** The source returns a formula or fails, or an assertion stops it. */
  datatype Outcome = Parsed(formula: Formula) | Failed | Stopped

  datatype Step = Go(to: Parser) | Stop(outcome: Outcome)

  function Start(): Parser
  {
    Parser(DepName, DepName, 0, 0, AnyOp, false, None, [], [])
  }

  function Word(s: string, m: Parser): string
  {
    if m.c <= m.p <= |s| then s[m.c..m.p] else ""
  }

  function StepName(s: string, m: Parser): Step
  {
    var ch := At(s, m.p);
    if IsSpace(ch) || ch == NUL then
      if m.p == m.c then Go(m.(state := SkipSpaces, next := DepName))
      else Go(m.(state := SkipSpaces, next := AfterName, item := Some(Item(Word(s, m), [], []))))
    else if ch == ',' then
      if m.p == m.c then Go(m.(state := Error))
      else Go(m.(state := AfterName, item := Some(Item(Word(s, m), [], []))))
    else if !IsPrint(ch) then Go(m.(state := Error))
    else Go(m.(p := m.p + 1))
  }

  function StepAfter(s: string, m: Parser): Step
  {
    var ch := At(s, m.p);
    if ch == ',' || ch == NUL then Go(m.(state := Comma))
    else if ch == '|' then Go(m.(state := Or))
    else if ch == '+' || ch == '-' then Go(m.(c := m.p, state := OptionStart))
    else if IsOpChar(ch) then Go(m.(c := m.p, op := AnyOp, state := VerOp))
    else Go(m.(state := Error))
  }

  /** The operator written, if it is one. */
  function OpOf(word: string): Option<Op>
  {
    if word == ">=" then Some(Ge)
    else if word == "<=" then Some(Le)
    else if word == "!=" then Some(Not)
    else if word == "==" then Some(Eq)
    else if word == ">" then Some(Gt)
    else if word == "<" then Some(Lt)
    else if word == "!" then Some(Not)
    else if word == "=" then Some(Eq)
    else None
  }

  function StepVerOp(s: string, m: Parser): Step
  {
    if IsOpChar(At(s, m.p)) then Go(m.(p := m.p + 1))
    else
      match OpOf(Word(s, m))
      case None => Go(m.(state := Error))
      case Some(op) => Go(m.(op := op, state := SkipSpaces, next := AfterOp))
  }

  function StepVersion(s: string, m: Parser): Step
  {
    if InVersion(At(s, m.p), At(s, m.p + 1)) then Go(m.(p := m.p + 1))
    else if m.p > m.c then
      if m.item == None then Stop(Stopped)
      else
        var i := m.item.value;
        Go(m.(item := Some(i.(versions := i.versions + [Version(m.op, Word(s, m))])),
              state := SkipSpaces, next := AfterVersion))
    else Go(m.(state := Error))
  }

  function StepOption(s: string, m: Parser): Step
  {
    if InOption(At(s, m.p)) then Go(m.(p := m.p + 1))
    else if m.p > m.c then
      if m.item == None then Stop(Stopped)
      else
        var i := m.item.value;
        Go(m.(item := Some(i.(options := i.options + [Opt(m.on, Word(s, m))])),
              state := SkipSpaces, next := AfterOption))
    else Go(m.(state := Error))
  }

  function StepSkip(s: string, m: Parser): Step
  {
    var ch := At(s, m.p);
    if IsSpace(ch) then Go(m.(p := m.p + 1))
    else if ch == NUL then Go(m.(state := Comma))
    else Go(m.(c := m.p, state := m.next))
  }

  function StepOf(s: string, m: Parser): Step
  {
    match m.state
    case DepName => StepName(s, m)
    case AfterName => StepAfter(s, m)
    case AfterVersion => StepAfter(s, m)
    case AfterOption => StepAfter(s, m)
    case VerOp => StepVerOp(s, m)
    case AfterOp => Go(m.(state := if m.op == AnyOp then Error else VersionNumber))
    case VersionNumber => StepVersion(s, m)
    case OptionStart => Go(m.(on := At(s, m.p) == '+', p := m.p + 1, c := m.p + 1, state := InOpt))
    case InOpt => StepOption(s, m)
    case Comma =>
      if m.item == None then Stop(Stopped)
      else Go(m.(res := m.res + [m.cur + [m.item.value]], cur := [], item := None, p := m.p + 1,
                 state := SkipSpaces, next := DepName))
    case Or =>
      if m.item == None then Stop(Stopped)
      else Go(m.(cur := m.cur + [m.item.value], item := None, p := m.p + 1,
                 state := SkipSpaces, next := DepName))
    case SkipSpaces => StepSkip(s, m)
    case Error => Stop(Failed)
  }

  /** The states that follow spaces. */
  predicate AfterSpaces(st: State)
  {
    st == DepName || st == AfterName || st == AfterOp || st == AfterVersion || st == AfterOption
  }

  /** How many steps the machine can make without reading on, at most. */
  function Rank(s: string, m: Parser): nat
  {
    var ch := At(s, m.p);
    if IsSpace(ch) || ch == NUL then
      match m.state
      case Error => 0
      case Comma => 1
      case Or => 1
      case SkipSpaces => 2
      case AfterOp => 4
      case _ => 3
    else
      match m.state
      case Error => 0
      case SkipSpaces => RankAfter(m.next) + 1
      case VerOp => if IsOpChar(ch) then 1 else 7
      case VersionNumber => if m.p > m.c then 4 else 1
      case InOpt => if m.p > m.c then 4 else 1
      case Comma => 1
      case Or => 1
      case OptionStart => 1
      case _ => RankAfter(m.state)
  }

  function RankAfter(st: State): nat
  {
    if st == DepName then 3 else if st == AfterOp then 5 else 2
  }

  /** Every step reads on, or lowers the rank. */
  lemma StepsEnd(s: string, m: Parser)
    requires m.p <= |s| && AfterSpaces(m.next)
    ensures StepOf(s, m).Go? ==> Closer(s, m, StepOf(s, m).to)
  {
    hide Closer, StepOf;
    match m.state {
      case DepName => NameEnds(s, m);
      case AfterName | AfterVersion | AfterOption => AfterEnds(s, m);
      case SkipSpaces => SkipEnds(s, m);
      case VerOp | AfterOp | VersionNumber => VersionEnds(s, m);
      case _ => OthersEnd(s, m);
    }
  }

  ghost predicate Closer(s: string, m: Parser, m': Parser)
  {
    AfterSpaces(m'.next) && (m'.p == m.p + 1 || (m'.p == m.p && Rank(s, m') < Rank(s, m)))
  }

  lemma NameEnds(s: string, m: Parser)
    requires m.p <= |s| && AfterSpaces(m.next) && m.state == DepName
    ensures StepOf(s, m).Go? ==> Closer(s, m, StepOf(s, m).to)
  {
  }

  lemma AfterEnds(s: string, m: Parser)
    requires m.p <= |s| && AfterSpaces(m.next)
    requires m.state == AfterName || m.state == AfterVersion || m.state == AfterOption
    ensures StepOf(s, m).Go? ==> Closer(s, m, StepOf(s, m).to)
  {
  }

  lemma SkipEnds(s: string, m: Parser)
    requires m.p <= |s| && AfterSpaces(m.next) && m.state == SkipSpaces
    ensures StepOf(s, m).Go? ==> Closer(s, m, StepOf(s, m).to)
  {
  }

  lemma VersionEnds(s: string, m: Parser)
    requires m.p <= |s| && AfterSpaces(m.next)
    requires m.state == VerOp || m.state == AfterOp || m.state == VersionNumber
    ensures StepOf(s, m).Go? ==> Closer(s, m, StepOf(s, m).to)
  {
  }

  lemma OthersEnd(s: string, m: Parser)
    requires m.p <= |s| && AfterSpaces(m.next)
    requires m.state == OptionStart || m.state == InOpt || m.state == Comma || m.state == Or || m.state == Error
    ensures StepOf(s, m).Go? ==> Closer(s, m, StepOf(s, m).to)
  {
  }

  function Run(s: string, m: Parser): Outcome
    requires AfterSpaces(m.next)
    decreases |s| + 1 - m.p, Rank(s, m)
  {
    if m.p > |s| then
      if m.state == SkipSpaces || m.state == Comma then Parsed(m.res) else Failed
    else
      StepsEnd(s, m);
      match StepOf(s, m)
      case Go(m') => Run(s, m')
      case Stop(outcome) => outcome
  }
}
