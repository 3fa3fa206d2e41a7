/** Matching installed packages against the vulnerability entries (libpkg/pkg_audit.c). */
module AuditSpec {
  import opened Wrappers
  import VersionCompare

  datatype Op = EQ | LT | LTE | GT | GTE

  /** One end of a range of versions, if there is one. */
  datatype Limit = NoLimit | Limit(op: Op, version: string)

  datatype Range = Range(v1: Limit, v2: Limit)

  datatype Entry = Entry(pkgname: string, versions: seq<Range>)

  /** Does a glob pattern match a name? */
  type Matcher = (string, string) -> bool

  // ----- versions -----

  predicate InLimit(version: string, v: Limit)
  {
    match v
    case NoLimit => true
    case Limit(EQ, w) => VersionCompare.Cmp(version, w) == 0
    case Limit(LT, w) => VersionCompare.Cmp(version, w) < 0
    case Limit(LTE, w) => VersionCompare.Cmp(version, w) <= 0
    case Limit(GT, w) => VersionCompare.Cmp(version, w) > 0
    case Limit(GTE, w) => VersionCompare.Cmp(version, w) >= 0
  }

  predicate InRange(version: string, r: Range)
  {
    InLimit(version, r.v1) && InLimit(version, r.v2)
  }

  /** What each operator takes in of two versions and the limit between or at them. */
  lemma OperatorsAre()
    ensures InLimit("1", Limit(LT, "2")) && !InLimit("2", Limit(LT, "2")) && !InLimit("2", Limit(LT, "1"))
    ensures InLimit("1", Limit(LTE, "2")) && InLimit("2", Limit(LTE, "2")) && !InLimit("2", Limit(LTE, "1"))
    ensures !InLimit("1", Limit(EQ, "2")) && InLimit("2", Limit(EQ, "2")) && !InLimit("2", Limit(EQ, "1"))
    ensures !InLimit("1", Limit(GTE, "2")) && InLimit("2", Limit(GTE, "2")) && InLimit("2", Limit(GTE, "1"))
    ensures !InLimit("1", Limit(GT, "2")) && !InLimit("2", Limit(GT, "2")) && InLimit("2", Limit(GT, "1"))
    ensures InLimit("1", NoLimit)
  {
    hide VersionCompare.Cmp;
    VersionCompare.DigitsCompare('1', '2');
    VersionCompare.CmpIsPreorder("1", "2", "1");
    VersionCompare.CmpIsPreorder("2", "2", "2");
    assert ['1'] == "1" && ['2'] == "2";
  }

  /** A range has no holes: a version between two that are in it is in it. */
  lemma RangesHaveNoHoles(r: Range, a: string, b: string, c: string)
    requires InRange(a, r) && InRange(c, r)
    requires VersionCompare.Cmp(a, b) <= 0 && VersionCompare.Cmp(b, c) <= 0
    ensures InRange(b, r)
  {
    LimitHasNoHoles(r.v1, a, b, c);
    LimitHasNoHoles(r.v2, a, b, c);
  }

  lemma LimitHasNoHoles(v: Limit, a: string, b: string, c: string)
    requires InLimit(a, v) && InLimit(c, v)
    requires VersionCompare.Cmp(a, b) <= 0 && VersionCompare.Cmp(b, c) <= 0
    ensures InLimit(b, v)
  {
    hide VersionCompare.Cmp;
    if v.Limit? {
      VersionCompare.CmpIsPreorder(b, c, v.version);
      VersionCompare.CmpIsPreorder(v.version, a, b);
      VersionCompare.CmpIsPreorder(v.version, b, b);
      VersionCompare.CmpIsPreorder(a, v.version, a);
      VersionCompare.CmpIsPreorder(c, v.version, c);
    }
  }

  /** Without a version to check every entry applies. */
  predicate Affects(e: Entry, version: Option<string>)
  {
    version.None? || exists r :: 0 <= r < |e.versions| && InRange(version.value, e.versions[r])
  }

  // ----- prefixes -----

  predicate IsGlob(c: char)
  {
    c == '*' || c == '?' || c == '[' || c == '{' || c == '\\'
  }

  /** The part of a pattern before its first glob character. */
  function Prefix(pattern: string): (p: string)
    ensures p <= pattern
    ensures |p| < |pattern| ==> IsGlob(pattern[|p|])
    ensures forall i :: 0 <= i < |p| ==> !IsGlob(p[i])
  {
    if pattern == "" || IsGlob(pattern[0]) then "" else [pattern[0]] + Prefix(pattern[1..])
  }

  /** The prefix ends where one of five characters stands for the first time. */
  lemma {:induction false} PrefixEndsAt(front: string, rest: string)
    requires forall k :: 0 <= k < |front| ==> front[k] !in "*?[{\\"
    requires rest == "" || rest[0] in "*?[{\\"
    ensures Prefix(front + rest) == front
  {
    assert "*?[{\\" == ['*', '?', '[', '{', '\\'];
    if front == "" {
      assert front + rest == rest;
    } else {
      assert (front + rest)[1..] == front[1..] + rest;
      PrefixEndsAt(front[1..], rest);
      assert front == [front[0]] + front[1..];
    }
  }

  /** `strncmp`: the sign of the comparison of the first n characters. */
  function StrNCmp(a: string, b: string, n: nat): int
  {
    if n == 0 || (a == "" && b == "") then 0
    else if a == "" then -1
    else if b == "" then 1
    else if a[0] < b[0] then -1
    else if a[0] > b[0] then 1
    else StrNCmp(a[1..], b[1..], n - 1)
  }

  /** `pkg_audit_entry_cmp`: by the prefixes, and a prefix of another comes first. */
  function EntryCmp(e1: Entry, e2: Entry): int
  {
    var n1, n2 := |Prefix(e1.pkgname)|, |Prefix(e2.pkgname)|;
    var result := StrNCmp(e1.pkgname, e2.pkgname, if n1 < n2 then n1 else n2);
    if result != 0 then result else if n1 < n2 then -1 else if n1 > n2 then 1 else 0
  }

  /** The order of the dictionary. */
  function Lex(a: string, b: string): int
  {
    if a == "" && b == "" then 0
    else if a == "" then -1
    else if b == "" then 1
    else if a[0] < b[0] then -1
    else if a[0] > b[0] then 1
    else Lex(a[1..], b[1..])
  }

  lemma {:induction false} PrefixesCompare(s: string, t: string, n: nat, m: nat)
    requires n <= |s| && m <= |t|
    ensures var r := StrNCmp(s, t, if n < m then n else m);
      Lex(s[..n], t[..m]) == if r != 0 then r else if n < m then -1 else if n > m then 1 else 0
  {
    if n > 0 && m > 0 {
      PrefixesCompare(s[1..], t[1..], n - 1, m - 1);
      assert s[..n][1..] == s[1..][..n - 1] && t[..m][1..] == t[1..][..m - 1];
    }
  }

  /** Entries are compared as their prefixes are in the dictionary. */
  lemma EntriesCompareByPrefix(e1: Entry, e2: Entry)
    ensures EntryCmp(e1, e2) == Lex(Prefix(e1.pkgname), Prefix(e2.pkgname))
  {
    var p, q := Prefix(e1.pkgname), Prefix(e2.pkgname);
    PrefixesCompare(e1.pkgname, e2.pkgname, |p|, |q|);
    assert e1.pkgname[..|p|] == p && e2.pkgname[..|q|] == q;
  }

  lemma {:induction false} LexIsOrder(a: string, b: string, c: string)
    ensures Lex(a, b) == -Lex(b, a)
    ensures Lex(a, b) == 0 <==> a == b
    ensures Lex(a, b) <= 0 && Lex(b, c) <= 0 ==> Lex(a, c) <= 0
    decreases |a| + |b| + |c|
  {
    if a != "" && b != "" {
      LexIsOrder(a[1..], b[1..], if c != "" then c[1..] else "");
      assert a[0] == b[0] ==> (a == b <==> a[1..] == b[1..]) by {
        assert a == [a[0]] + a[1..] && b == [b[0]] + b[1..];
      }
    }
  }

  /** A name agrees with a prefix exactly if it starts with it. */
  lemma {:induction false} AgreesIffStarts(name: string, pattern: string, p: string)
    requires p <= pattern
    ensures StrNCmp(name, pattern, |p|) == 0 <==> p <= name
  {
    if p != "" && name != "" {
      assert pattern[0] == p[0];
      AgreesIffStarts(name[1..], pattern[1..], p[1..]);
      assert p == [p[0]] + p[1..] && name == [name[0]] + name[1..];
      assert p <= name <==> p[0] == name[0] && p[1..] <= name[1..];
    }
  }

  /** A name before a prefix does not start with that, nor with any later prefix. */
  lemma {:induction false} BeforeAllLater(name: string, pattern: string, p: string, q: string)
    requires p <= pattern && StrNCmp(name, pattern, |p|) < 0 && Lex(p, q) <= 0
    ensures !(q <= name)
  {
    if name != "" && q != "" && q[0] == name[0] {
      assert p != "" && pattern[0] == p[0];
      assert q <= name ==> q[1..] <= name[1..];
      BeforeAllLater(name[1..], pattern[1..], p[1..], q[1..]);
    }
  }

  // ----- the sorted entries -----

  ghost predicate SortedEntries(es: seq<Entry>)
  {
    forall i, j :: 0 <= i < j < |es| ==> EntryCmp(es[i], es[j]) <= 0
  }

  function InsertEntry(e: Entry, es: seq<Entry>): seq<Entry>
  {
    if es == [] || EntryCmp(e, es[0]) <= 0 then [e] + es else [es[0]] + InsertEntry(e, es[1..])
  }

  function SortEntries(es: seq<Entry>): seq<Entry>
  {
    if es == [] then [] else InsertEntry(es[0], SortEntries(es[1..]))
  }

  lemma EntryCmpIsPreorder(a: Entry, b: Entry, c: Entry)
    ensures EntryCmp(a, b) <= 0 || EntryCmp(b, a) <= 0
    ensures EntryCmp(a, b) <= 0 && EntryCmp(b, c) <= 0 ==> EntryCmp(a, c) <= 0
  {
    EntriesCompareByPrefix(a, b);
    EntriesCompareByPrefix(b, a);
    EntriesCompareByPrefix(b, c);
    EntriesCompareByPrefix(a, c);
    LexIsOrder(Prefix(a.pkgname), Prefix(b.pkgname), Prefix(c.pkgname));
  }

  lemma {:induction false} InsertKeepsEntries(e: Entry, es: seq<Entry>)
    ensures multiset(InsertEntry(e, es)) == multiset(es) + multiset{e}
  {
    hide EntryCmp;
    if es == [] || EntryCmp(e, es[0]) <= 0 {
    } else {
      InsertKeepsEntries(e, es[1..]);
      assert es == [es[0]] + es[1..];
    }
  }

  lemma {:induction false} InsertSorts(e: Entry, es: seq<Entry>)
    requires SortedEntries(es)
    ensures SortedEntries(InsertEntry(e, es))
  {
    hide EntryCmp;
    if es == [] {
    } else if EntryCmp(e, es[0]) <= 0 {
      forall j | 0 <= j < |es|
        ensures EntryCmp(e, es[j]) <= 0
      {
        EntryCmpIsPreorder(e, es[0], es[j]);
      }
    } else {
      var r := InsertEntry(e, es[1..]);
      InsertSorts(e, es[1..]);
      InsertKeepsEntries(e, es[1..]);
      EntryCmpIsPreorder(e, es[0], e);
      forall j | 0 <= j < |r|
        ensures EntryCmp(es[0], r[j]) <= 0
      {
        assert r[j] in multiset(r);
        assert r[j] == e || r[j] in es[1..];
      }
    }
  }

  /** Sorting orders the entries, and keeps each of them. */
  lemma {:induction false} SortSorts(es: seq<Entry>)
    ensures SortedEntries(SortEntries(es)) && multiset(SortEntries(es)) == multiset(es)
  {
    hide InsertEntry, EntryCmp;
    if es != [] {
      SortSorts(es[1..]);
      InsertSorts(es[0], SortEntries(es[1..]));
      InsertKeepsEntries(es[0], SortEntries(es[1..]));
      assert es == [es[0]] + es[1..];
    }
  }

  /** An entry as it was parsed: the pattern may be missing. */
  datatype Parsed = Parsed(pkgname: Option<string>, versions: seq<Range>)

  /** The entries with a pattern. */
  function Patterned(parsed: seq<Parsed>): seq<Entry>
  {
    if parsed == [] then []
    else
      Patterned(parsed[..|parsed| - 1]) +
      match parsed[|parsed| - 1].pkgname {
        case None => []
        case Some(pkgname) => [Entry(pkgname, parsed[|parsed| - 1].versions)]
      }
  }

  /** The places at which an entry was parsed. */
  ghost function PlacesOf(parsed: seq<Parsed>, e: Entry): set<nat>
  {
    set k: nat | k < |parsed| && parsed[k] == Parsed(Some(e.pkgname), e.versions)
  }

  /** Each entry is there as often as it was parsed, with its pattern and its ranges. */
  ghost predicate HoldsParsed(es: seq<Entry>, parsed: seq<Parsed>)
  {
    forall e :: multiset(es)[e] == |PlacesOf(parsed, e)|
  }

  lemma PlacesStep(init: seq<Parsed>, last: Parsed, e: Entry)
    ensures |PlacesOf(init + [last], e)| ==
      |PlacesOf(init, e)| + if last == Parsed(Some(e.pkgname), e.versions) then 1 else 0
  {
    var n, parsed := |init|, init + [last];
    assert forall k :: 0 <= k < n ==> parsed[k] == init[k];
    if last == Parsed(Some(e.pkgname), e.versions) {
      assert PlacesOf(parsed, e) == PlacesOf(init, e) + {n};
    } else {
      assert PlacesOf(parsed, e) == PlacesOf(init, e);
    }
  }

  lemma PatternedStep(init: seq<Parsed>, last: Parsed, e: Entry)
    ensures multiset(Patterned(init + [last]))[e] ==
      multiset(Patterned(init))[e] + if last == Parsed(Some(e.pkgname), e.versions) then 1 else 0
  {
    var parsed := init + [last];
    assert parsed[..|parsed| - 1] == init;
    assert last.pkgname.Some? ==>
      Patterned(parsed) == Patterned(init) + [Entry(last.pkgname.value, last.versions)];
    assert last.pkgname.None? ==> Patterned(parsed) == Patterned(init) + [];
  }

  lemma {:induction false} PatternedHolds(parsed: seq<Parsed>)
    ensures HoldsParsed(Patterned(parsed), parsed)
  {
    if parsed == [] {
      assert forall e :: PlacesOf([], e) == {};
    } else {
      hide Patterned, PlacesOf;
      var init, last := parsed[..|parsed| - 1], parsed[|parsed| - 1];
      assert parsed == init + [last];
      PatternedHolds(init);
      forall e
        ensures multiset(Patterned(parsed))[e] == |PlacesOf(parsed, e)|
      {
        PlacesStep(init, last, e);
        PatternedStep(init, last, e);
      }
    }
  }

  lemma SortedHolds(parsed: seq<Parsed>)
    ensures HoldsParsed(SortEntries(Patterned(parsed)), parsed)
  {
    hide PlacesOf;
    PatternedHolds(parsed);
    SortSorts(Patterned(parsed));
  }

  // ----- the plain scan -----

  ghost predicate Hits(e: Entry, name: string, version: Option<string>, glob: Matcher)
  {
    glob(e.pkgname, name) && Affects(e, version)
  }

  /** The entries from place `lo` up to `hi` that apply, in order. */
  ghost function Reports(es: seq<Entry>, lo: nat, hi: nat, name: string, version: Option<string>,
                         glob: Matcher): seq<nat>
    requires lo <= hi <= |es|
    decreases hi - lo
  {
    if lo == hi then []
    else
      Reports(es, lo, hi - 1, name, version, glob) + if Hits(es[hi - 1], name, version, glob) then [hi - 1] else []
  }

  /** A matcher matches no name that does not start with the pattern's prefix. */
  ghost predicate Lawful(glob: Matcher)
  {
    forall pattern, name :: glob(pattern, name) ==> Prefix(pattern) <= name
  }

  // ----- where the scan starts -----

  function FirstByte(s: string): nat
  {
    if s == "" then 0 else s[0] as nat
  }

  /** The place of the first entry whose pattern starts with the byte, or a larger one. */
  function Start(es: seq<Entry>, byte: nat): (r: nat)
    ensures r <= |es|
    ensures forall j :: 0 <= j < r ==> FirstByte(es[j].pkgname) < byte
    ensures r < |es| ==> FirstByte(es[r].pkgname) >= byte
  {
    if es == [] || FirstByte(es[0].pkgname) >= byte then 0 else 1 + Start(es[1..], byte)
  }

  lemma {:induction false} ReportsSplit(es: seq<Entry>, lo: nat, mid: nat, hi: nat, name: string,
                                        version: Option<string>, glob: Matcher)
    requires lo <= mid <= hi <= |es|
    ensures Reports(es, lo, hi, name, version, glob) ==
      Reports(es, lo, mid, name, version, glob) + Reports(es, mid, hi, name, version, glob)
    decreases hi
  {
    hide Hits;
    if mid < hi {
      ReportsSplit(es, lo, mid, hi - 1, name, version, glob);
    }
  }

  lemma ReportsNext(es: seq<Entry>, lo: nat, k: nat, name: string, version: Option<string>, glob: Matcher)
    requires lo <= k < |es|
    ensures Reports(es, lo, k + 1, name, version, glob) ==
      Reports(es, lo, k, name, version, glob) + if Hits(es[k], name, version, glob) then [k] else []
  {
  }

  /** All that is reported, or only the first. */
  function AtMostFirst(quiet: bool, reports: seq<nat>): seq<nat>
  {
    if quiet && |reports| > 1 then reports[..1] else reports
  }

  lemma FirstReported(es: seq<Entry>, lo: nat, k: nat, name: string, version: Option<string>, glob: Matcher)
    requires lo <= k < |es| && Reports(es, lo, k, name, version, glob) == [] && Hits(es[k], name, version, glob)
    ensures AtMostFirst(true, Reports(es, lo, |es|, name, version, glob)) == [k]
  {
    ReportsSplit(es, lo, k + 1, |es|, name, version, glob);
  }

  lemma {:induction false} ReportsAre(es: seq<Entry>, lo: nat, hi: nat, name: string,
                                      version: Option<string>, glob: Matcher)
    requires lo <= hi <= |es|
    ensures forall k :: k in Reports(es, lo, hi, name, version, glob) <==>
      lo <= k < hi && Hits(es[k], name, version, glob)
    decreases hi
  {
    hide Hits;
    if lo < hi {
      ReportsAre(es, lo, hi - 1, name, version, glob);
    }
  }

  lemma {:induction false} NothingReported(es: seq<Entry>, lo: nat, hi: nat, name: string, version: Option<string>,
                                           glob: Matcher)
    requires lo <= hi <= |es|
    requires forall k :: lo <= k < hi ==> !Hits(es[k], name, version, glob)
    ensures Reports(es, lo, hi, name, version, glob) == []
    decreases hi
  {
    hide Hits;
    if lo < hi {
      NothingReported(es, lo, hi - 1, name, version, glob);
    }
  }

  /** Whatever starts with a smaller byte than the name, and is not glob from the start,
      does not match. */
  lemma SkippedDoNotMatch(e: Entry, name: string, version: Option<string>, glob: Matcher)
    requires Lawful(glob) && Prefix(e.pkgname) != "" && FirstByte(e.pkgname) < FirstByte(name)
    ensures !Hits(e, name, version, glob)
  {
    var p := Prefix(e.pkgname);
    assert p[0] == e.pkgname[0];
    assert FirstByte(e.pkgname) == p[0] as nat;
  }

  /** The matcher that looks at nothing but the prefix: no lawful one matches more. */
  ghost function Widest(): Matcher
  {
    (pattern, name) => Prefix(pattern) <= name
  }

  /** Starting at the first byte's place loses nothing, with any lawful matcher, if and
      only if every entry before it that applies has a prefix: a pattern that starts
      with a glob character is lost where its own first byte is smaller. */
  lemma StartLosesNothingIff(es: seq<Entry>, name: string, version: Option<string>)
    ensures (forall glob: Matcher :: Lawful(glob) ==>
        Reports(es, Start(es, FirstByte(name)), |es|, name, version, glob) ==
          Reports(es, 0, |es|, name, version, glob)) <==>
      forall j :: 0 <= j < Start(es, FirstByte(name)) && Affects(es[j], version) ==> Prefix(es[j].pkgname) != ""
  {
    var start := Start(es, FirstByte(name));
    if forall j :: 0 <= j < start && Affects(es[j], version) ==> Prefix(es[j].pkgname) != "" {
      forall glob: Matcher | Lawful(glob)
        ensures Reports(es, start, |es|, name, version, glob) == Reports(es, 0, |es|, name, version, glob)
      {
        StartLosesNothing(es, name, version, glob);
      }
    } else {
      var j :| 0 <= j < start && Affects(es[j], version) && Prefix(es[j].pkgname) == "";
      assert Lawful(Widest());
      ReportsAre(es, start, |es|, name, version, Widest());
      ReportsAre(es, 0, |es|, name, version, Widest());
      assert Hits(es[j], name, version, Widest());
      assert j in Reports(es, 0, |es|, name, version, Widest());
    }
  }

  /** A pattern that is glob from the start, and a name that it may match: the scan
      starts behind it. */
  lemma GlobFirstIsLost()
    ensures var es, name := [Entry("*foo", [])], "foo";
      && Lawful(Widest()) && Start(es, FirstByte(name)) == 1
      && Reports(es, 0, 1, name, None, Widest()) == [0] && Reports(es, 1, 1, name, None, Widest()) == []
  {
    var e, name := Entry("*foo", []), "foo";
    assert FirstByte("*foo") == '*' as nat < 'f' as nat == FirstByte(name);
    assert Prefix(e.pkgname) == "";
    assert Hits(e, name, None, Widest());
    assert Reports([e], 0, 0, name, None, Widest()) == [];
    assert [e][1..] == [];
  }

  /** From the parsed entries to the report: where every entry that applies and lies before
      the starting place has a prefix, an entry is reported, at each of its places in the
      index, exactly if its pattern matches and the version is in one of its ranges. */
  lemma ParsedIsReported(parsed: seq<Parsed>, es: seq<Entry>, k: nat, name: string, version: Option<string>,
                         glob: Matcher)
    requires HoldsParsed(es, parsed) && Lawful(glob) && k < |parsed| && parsed[k].pkgname.Some?
    requires forall j :: 0 <= j < Start(es, FirstByte(name)) && Affects(es[j], version) ==> Prefix(es[j].pkgname) != ""
    ensures var e := Entry(parsed[k].pkgname.value, parsed[k].versions);
      var reports := Reports(es, Start(es, FirstByte(name)), |es|, name, version, glob);
      && (exists i :: 0 <= i < |es| && es[i] == e)
      && forall i :: 0 <= i < |es| && es[i] == e ==>
        (i in reports <==>
         glob(parsed[k].pkgname.value, name) &&
         (version.None? || exists r :: 0 <= r < |parsed[k].versions| && InRange(version.value, parsed[k].versions[r])))
  {
    hide Start, InRange, Reports;
    var e := Entry(parsed[k].pkgname.value, parsed[k].versions);
    assert k in PlacesOf(parsed, e);
    assert e in multiset(es);
    StartLosesNothing(es, name, version, glob);
    ReportsAre(es, 0, |es|, name, version, glob);
  }

  /** Whatever is reported was parsed. */
  lemma ReportedWasParsed(parsed: seq<Parsed>, es: seq<Entry>, i: nat)
    requires HoldsParsed(es, parsed) && i < |es|
    ensures exists k :: 0 <= k < |parsed| && parsed[k] == Parsed(Some(es[i].pkgname), es[i].versions)
  {
    assert es[i] in multiset(es);
    var k :| k in PlacesOf(parsed, es[i]);
  }

  lemma StartLosesNothing(es: seq<Entry>, name: string, version: Option<string>, glob: Matcher)
    requires Lawful(glob)
    requires forall j :: 0 <= j < Start(es, FirstByte(name)) && Affects(es[j], version) ==> Prefix(es[j].pkgname) != ""
    ensures Reports(es, Start(es, FirstByte(name)), |es|, name, version, glob) ==
      Reports(es, 0, |es|, name, version, glob)
  {
    var start := Start(es, FirstByte(name));
    forall j | 0 <= j < start
      ensures !Hits(es[j], name, version, glob)
    {
      if Affects(es[j], version) {
        SkippedDoNotMatch(es[j], name, version, glob);
      }
    }
    NothingReported(es, 0, start, name, version, glob);
    ReportsSplit(es, 0, start, |es|, name, version, glob);
  }

  /** Nothing is lost by stopping at an entry that the name comes before. */
  lemma StopLosesNothing(es: seq<Entry>, k: nat, name: string, version: Option<string>, glob: Matcher)
    requires Lawful(glob) && SortedEntries(es) && k < |es|
    requires StrNCmp(name, es[k].pkgname, |Prefix(es[k].pkgname)|) < 0
    ensures Reports(es, k, |es|, name, version, glob) == []
  {
    forall i | k <= i < |es|
      ensures !Hits(es[i], name, version, glob)
    {
      EntriesCompareByPrefix(es[k], es[i]);
      LexIsOrder(Prefix(es[k].pkgname), Prefix(es[k].pkgname), "");
      BeforeAllLater(name, es[k].pkgname, Prefix(es[k].pkgname), Prefix(es[i].pkgname));
    }
    NothingReported(es, k, |es|, name, version, glob);
  }

  /** Nothing is lost by passing over entries with a pattern that the name comes after. */
  lemma JumpLosesNothing(es: seq<Entry>, k: nat, incr: nat, name: string, version: Option<string>, glob: Matcher)
    requires Lawful(glob) && k + incr <= |es| && incr > 0
    requires forall i :: k <= i < k + incr ==> es[i].pkgname == es[k].pkgname
    requires StrNCmp(name, es[k].pkgname, |Prefix(es[k].pkgname)|) != 0
    ensures Reports(es, k, k + incr, name, version, glob) == []
  {
    hide StrNCmp, Prefix, Reports;
    AgreesIffStarts(name, es[k].pkgname, Prefix(es[k].pkgname));
    NothingReported(es, k, k + incr, name, version, glob);
  }
}
