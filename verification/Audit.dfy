/** The index of the vulnerability entries, and the scan that uses it
    (libpkg/pkg_audit.c:574-679, 767-843). */
module Audit {
  import opened Wrappers
  import opened AuditSpec
  import VersionCompare

  datatype Item = Item(e: Entry, noglobLen: nat, nextPfxIncr: nat)

  /** `pkg_audit_str_noglob_len` */
  method NoglobLen(s: string) returns (n: nat)
    ensures n == |Prefix(s)|
  {
    n := 0;
    while n < |s| && !IsGlob(s[n])
      invariant n <= |s| && |Prefix(s)| == n + |Prefix(s[n..])|
    {
      assert s[n..][1..] == s[n + 1..];
      n := n + 1;
    }
  }

  /** `pkg_audit_version_match` */
  method VersionMatch(pkgversion: string, v: Limit) returns (res: bool)
    ensures res == InLimit(pkgversion, v)
  {
    hide VersionCompare.Cmp;
    res := false;
    if v == NoLimit {
      return true;
    }
    VersionCompare.CmpIsPreorder(pkgversion, v.version, v.version);
    var c := VersionCompare.VersionCmp(pkgversion, v.version);
    if c == -1 {
      if v.op == LT || v.op == LTE {
        res := true;
      }
    } else if c == 0 {
      if v.op == EQ || v.op == LTE || v.op == GTE {
        res := true;
      }
    } else if c == 1 {
      if v.op == GT || v.op == GTE {
        res := true;
      }
    }
  }

  /** Is there a range of the entry that the version is in? */
  method SomeRange(pkgversion: string, ranges: seq<Range>) returns (hit: bool)
    ensures hit <==> exists r :: 0 <= r < |ranges| && InRange(pkgversion, ranges[r])
  {
    hide InLimit;
    hit := false;
    var r := 0;
    while r < |ranges|
      invariant 0 <= r <= |ranges|
      invariant forall k :: 0 <= k < r ==> !InRange(pkgversion, ranges[k])
    {
      var res1 := VersionMatch(pkgversion, ranges[r].v1);
      var res2 := VersionMatch(pkgversion, ranges[r].v2);
      if res1 && res2 {
        assert InRange(pkgversion, ranges[r]);
        return true;
      }
      r := r + 1;
    }
  }

  // ----- the index -----

  /** Where the run of entries with the same pattern ends that goes on from place i. */
  function RunEnd(es: seq<Entry>, i: nat): (hi: nat)
    requires i < |es|
    ensures i < hi <= |es|
    ensures forall j :: i <= j < hi ==> es[j].pkgname == es[i].pkgname
    ensures hi < |es| ==> es[hi].pkgname != es[i].pkgname
    decreases |es| - i
  {
    if i + 1 < |es| && es[i + 1].pkgname == es[i].pkgname then RunEnd(es, i + 1) else i + 1
  }

  function PrefixLength(es: seq<Entry>, i: nat): nat
    requires i < |es|
  {
    |Prefix(es[i].pkgname)|
  }

  /** A jump goes to the end of the run, but from the first entry of all, and where the
      run ends the list or a pattern follows whose prefix is as long: there it is 1. */
  function JumpOf(es: seq<Entry>, i: nat): (k: nat)
    requires i < |es|
    ensures 1 <= k <= RunEnd(es, i) - i
  {
    var hi := RunEnd(es, i);
    if i > 0 && hi < |es| && PrefixLength(es, hi - 1) != PrefixLength(es, hi) then hi - i else 1
  }

  /** When a jump passes over the whole run. */
  lemma JumpsWholeRunIff(es: seq<Entry>, i: nat)
    requires i < |es|
    ensures var hi := RunEnd(es, i);
      JumpOf(es, i) == hi - i <==>
      hi == i + 1 || (i > 0 && hi < |es| && PrefixLength(es, hi - 1) != PrefixLength(es, hi))
  {
  }

  function EntriesNamed(patterns: seq<string>): (es: seq<Entry>)
    ensures |es| == |patterns| && forall i :: 0 <= i < |es| ==> es[i] == Entry(patterns[i], [])
  {
    seq(|patterns|, i requires 0 <= i < |patterns| => Entry(patterns[i], []))
  }

  /** Runs of two over which nothing jumps: the first of the list, the last, and one
      that a prefix of the same length follows. */
  lemma RunsNotJumped()
    ensures var es := EntriesNamed(["abc", "abc", "zzzz"]); RunEnd(es, 0) == 2 && JumpOf(es, 0) == 1
    ensures var es := EntriesNamed(["aaaa", "abc", "abc"]); RunEnd(es, 1) == 3 && JumpOf(es, 1) == 1
    ensures var es := EntriesNamed(["aaa", "abc", "abc", "abd", "zzzz"]); RunEnd(es, 1) == 3 && JumpOf(es, 1) == 1
  {
    var es := EntriesNamed(["aaa", "abc", "abc", "abd", "zzzz"]);
    PrefixOfPlain("abc");
    PrefixOfPlain("abd");
    assert "abc"[2] != "abd"[2] && |"abc"| != |"zzzz"|;
    assert es[1].pkgname == es[2].pkgname == "abc" && es[3].pkgname == "abd";
  }

  lemma {:induction false} PrefixOfPlain(s: string)
    requires forall k :: 0 <= k < |s| ==> !IsGlob(s[k])
    ensures Prefix(s) == s
  {
    if s != "" {
      PrefixOfPlain(s[1..]);
    }
  }

  /** The items hold the entries, with the lengths of their prefixes, and the jumps of
      those runs that end before place n. */
  ghost predicate FilledTo(items: seq<Item>, es: seq<Entry>, n: nat)
  {
    && |items| == |es|
    && forall i :: 0 <= i < |es| ==>
      items[i] == Item(es[i], PrefixLength(es, i), if RunEnd(es, i) < n then JumpOf(es, i) else 1)
  }

  ghost predicate GoodItems(items: seq<Item>, es: seq<Entry>)
  {
    |items| == |es| && forall i :: 0 <= i < |es| ==> items[i] == Item(es[i], PrefixLength(es, i), JumpOf(es, i))
  }

  lemma AllFilled(items: seq<Item>, es: seq<Entry>, n: nat)
    requires FilledTo(items, es, n) && n >= |es|
    ensures GoodItems(items, es)
  {
  }

  lemma SizeOf(items: seq<Item>, es: seq<Entry>)
    requires GoodItems(items, es)
    ensures |items| == |es|
  {
  }

  lemma NoReports(es: seq<Entry>, lo: nat, name: string, version: Option<string>, glob: Matcher)
    requires lo <= |es|
    ensures Reports(es, lo, lo, name, version, glob) == []
  {
  }

  lemma ItemAt(items: seq<Item>, es: seq<Entry>, i: nat)
    requires GoodItems(items, es) && i < |es|
    ensures |items| == |es| && items[i].e == es[i] && items[i].noglobLen == |Prefix(es[i].pkgname)|
    ensures 0 < items[i].nextPfxIncr && i + items[i].nextPfxIncr <= |es|
    ensures forall j :: i <= j < i + items[i].nextPfxIncr ==> es[j].pkgname == es[i].pkgname
  {
  }

  lemma StartIs(es: seq<Entry>, byte: nat, i: nat)
    requires i <= |es| && (forall j :: 0 <= j < i ==> FirstByte(es[j].pkgname) < byte)
    requires i < |es| ==> FirstByte(es[i].pkgname) >= byte
    ensures i == Start(es, byte)
  {
  }

  /** The counter while the jumps are filled: the run that place n - 1 lies in starts at
      n - tofill, but for the first, which is counted from its second entry on. */
  ghost predicate Counted(es: seq<Entry>, n: nat, tofill: nat)
    requires n <= |es|
  {
    && tofill < n
    && (forall i :: n - tofill <= i < n ==> RunEnd(es, i) >= n)
    && (forall i :: 0 < i < n - tofill ==> RunEnd(es, i) < n)
  }

  lemma NothingCounted(es: seq<Entry>)
    requires |es| > 0
    ensures Counted(es, 1, 0)
  {
  }

  lemma ItemsOf(items: seq<Item>, es: seq<Entry>, n: nat)
    requires FilledTo(items, es, n)
    ensures |items| == |es|
    ensures forall i :: 0 <= i < |es| ==> items[i].e == es[i] && items[i].noglobLen == PrefixLength(es, i)
  {
  }

  lemma OtherPattern(es: seq<Entry>, n: nat)
    requires 0 < n < |es| && PrefixLength(es, n - 1) != PrefixLength(es, n)
    ensures es[n - 1].pkgname != es[n].pkgname
  {
  }

  /** The runs that end before hi have their jumps, and of the one that ends there the
      first i entries from base. */
  ghost predicate RunFilled(items: seq<Item>, es: seq<Entry>, hi: nat, base: nat, i: nat)
  {
    && |items| == |es|
    && forall j :: 0 <= j < |es| ==> items[j] == Item(es[j], PrefixLength(es, j),
      if RunEnd(es, j) < hi || base <= j < base + i then JumpOf(es, j) else 1)
  }

  lemma RunStarts(items: seq<Item>, es: seq<Entry>, hi: nat, count: nat)
    requires FilledTo(items, es, hi) && count <= hi
    ensures RunFilled(items, es, hi, hi - count, 0)
  {
    hide RunEnd, PrefixLength, JumpOf;
  }

  lemma RunFills(items: seq<Item>, es: seq<Entry>, hi: nat, base: nat, i: nat)
    requires RunFilled(items, es, hi, base, i) && 0 < base && base + i < hi < |es|
    requires RunEnd(es, base + i) == hi && PrefixLength(es, hi - 1) != PrefixLength(es, hi)
    ensures RunFilled(items[base + i := items[base + i].(nextPfxIncr := hi - (base + i))], es, hi, base, i + 1)
  {
    hide RunEnd, PrefixLength;
    assert JumpOf(es, base + i) == hi - (base + i);
    hide JumpOf;
  }

  lemma RunIsFilled(items: seq<Item>, es: seq<Entry>, hi: nat, count: nat, i: nat)
    requires hi < |es| && Counted(es, hi, count) && RunFilled(items, es, hi, hi - count, i)
    requires forall j :: hi - count <= j < hi ==> RunEnd(es, j) == hi
    requires i <= count <= i + 1
    ensures FilledTo(items, es, hi + 1)
  {
    hide RunEnd, PrefixLength, JumpOf;
    forall j | 0 <= j < |es|
      ensures items[j] == Item(es[j], PrefixLength(es, j), if RunEnd(es, j) < hi + 1 then JumpOf(es, j) else 1)
    {
      FilledAt(es, hi, count, i, j);
    }
  }

  lemma FilledAt(es: seq<Entry>, hi: nat, count: nat, i: nat, j: nat)
    requires hi < |es| && Counted(es, hi, count) && i <= count <= i + 1 && j < |es|
    requires forall k :: hi - count <= k < hi ==> RunEnd(es, k) == hi
    ensures (if RunEnd(es, j) < hi || hi - count <= j < hi - count + i then JumpOf(es, j) else 1) ==
            (if RunEnd(es, j) < hi + 1 then JumpOf(es, j) else 1)
  {
    hide RunEnd, PrefixLength;
  }

  /** A run that a prefix of the same length follows keeps its ones. */
  lemma NotFilled(items: seq<Item>, es: seq<Entry>, n: nat, tofill: nat)
    requires 0 < n < |es| && Counted(es, n, tofill) && FilledTo(items, es, n)
    requires PrefixLength(es, n - 1) == PrefixLength(es, n)
    ensures FilledTo(items, es, n + 1)
  {
    hide RunEnd, PrefixLength;
  }

  lemma EndsOrGoesOn(es: seq<Entry>, i: nat, n: nat)
    requires i < n < |es|
    ensures RunEnd(es, i) == n ==> es[n - 1].pkgname != es[n].pkgname
    ensures RunEnd(es, i) > n ==> es[n - 1].pkgname == es[n].pkgname
  {
  }

  /** The next entry has the same pattern: the run goes on. */
  lemma RunGoesOn(items: seq<Item>, es: seq<Entry>, n: nat, tofill: nat)
    requires n < |es| && Counted(es, n, tofill) && FilledTo(items, es, n)
    requires 0 < n && es[n - 1].pkgname == es[n].pkgname
    ensures FilledTo(items, es, n + 1) && Counted(es, n + 1, tofill + 1)
  {
    hide JumpOf, PrefixLength, RunEnd;
    forall i | 0 <= i < n
      ensures RunEnd(es, i) != n
    {
      EndsOrGoesOn(es, i, n);
    }
  }

  /** The next entry has another pattern: every run that goes up to it ends there. */
  lemma RunStops(es: seq<Entry>, n: nat, tofill: nat)
    requires n < |es| && Counted(es, n, tofill)
    requires 0 < n && es[n - 1].pkgname != es[n].pkgname
    ensures forall i :: n - tofill <= i < n ==> RunEnd(es, i) == n
    ensures Counted(es, n + 1, 1)
  {
    hide JumpOf, RunEnd;
    forall i | n - tofill <= i < n
      ensures RunEnd(es, i) == n
    {
      EndsOrGoesOn(es, i, n);
    }
  }

  class Index {
    ghost const es: seq<Entry>
    const items: array<Item>
    const firstByte: array<nat>

    /** The entries are sorted, the items and the table of first bytes go with them. */
    ghost predicate Valid()
      reads items, firstByte
    {
      && SortedEntries(es) && GoodItems(items[..], es) && firstByte.Length == 256
      && forall c :: 0 <= c < 256 ==> firstByte[c] == Start(es, c)
    }

    /** `pkg_audit_preprocess`: entries without a pattern are dropped. */
    constructor (parsed: seq<Parsed>)
      ensures Valid() && fresh(items) && fresh(firstByte) && es == SortEntries(Patterned(parsed))
      ensures HoldsParsed(es, parsed)
      ensures items.Length == |es| && forall i :: 0 <= i < |es| ==> items[i].nextPfxIncr == JumpOf(es, i)
    {
      var sorted := SortEntries(Patterned(parsed));
      es := sorted;
      items := new Item[|sorted|](i requires 0 <= i < |sorted| => Item(sorted[i], 0, 1));
      firstByte := new nat[256](i => 0);
      new;
      SortSorts(Patterned(parsed));
      SortedHolds(parsed);
      FillLengths();
      FillJumps();
      FillFirstBytes();
    }

    /** The length of each pattern's prefix. */
    method FillLengths()
      requires items.Length == |es| && forall i :: 0 <= i < |es| ==> items[i] == Item(es[i], 0, 1)
      modifies items
      ensures FilledTo(items[..], es, 1)
    {
      hide Prefix;
      var i := 0;
      while i < items.Length
        invariant 0 <= i <= items.Length
        invariant forall j :: 0 <= j < i ==> items[j] == Item(es[j], PrefixLength(es, j), 1)
        invariant forall j :: i <= j < items.Length ==> items[j] == Item(es[j], 0, 1)
      {
        var n := NoglobLen(items[i].e.pkgname);
        items[i] := items[i].(noglobLen := n);
        i := i + 1;
      }
    }

    /** Fills the jumps: a run is filled when the length of the prefix changes after it,
        the others keep their ones. */
    method FillJumps()
      requires FilledTo(items[..], es, 1)
      modifies items
      ensures GoodItems(items[..], es)
    {
      hide FilledTo, GoodItems, Counted, RunEnd, JumpOf, PrefixLength;
      var n, tofill := 1, 0;
      ItemsOf(items[..], es, 1);
      if items.Length > 0 { NothingCounted(es); }
      while n < items.Length
        invariant 1 <= n && items.Length == |es| && FilledTo(items[..], es, n)
        invariant n <= items.Length ==> Counted(es, n, tofill)
      {
        ItemsOf(items[..], es, n);
        if items[n - 1].noglobLen != items[n].noglobLen {
          OtherPattern(es, n);
          RunStops(es, n, tofill);
          FillRun(n, tofill);
          tofill := 1;
        } else if items[n - 1].e.pkgname == items[n].e.pkgname {
          RunGoesOn(items[..], es, n, tofill);
          tofill := tofill + 1;
        } else {
          RunStops(es, n, tofill);
          NotFilled(items[..], es, n, tofill);
          tofill := 1;
        }
        n := n + 1;
      }
      AllFilled(items[..], es, n);
    }

    /** The jumps of a run that ends at place hi, each to its end. */
    method FillRun(hi: nat, count: nat)
      requires items.Length == |es| && 0 < hi < |es| && Counted(es, hi, count) && FilledTo(items[..], es, hi)
      requires forall i :: hi - count <= i < hi ==> RunEnd(es, i) == hi
      requires PrefixLength(es, hi - 1) != PrefixLength(es, hi)
      modifies items
      ensures FilledTo(items[..], es, hi + 1)
    {
      hide FilledTo, RunFilled, RunEnd, PrefixLength;
      var base, i, tofill := hi - count, 0, count;
      RunStarts(items[..], es, hi, count);
      while tofill > 1
        invariant i + tofill == count && (tofill >= 1 || i == 0)
        invariant RunFilled(items[..], es, hi, base, i)
      {
        ghost var before := items[..];
        items[base + i] := items[base + i].(nextPfxIncr := tofill);
        RunFills(before, es, hi, base, i);
        assert items[..] == before[base + i := before[base + i].(nextPfxIncr := hi - (base + i))];
        i, tofill := i + 1, tofill - 1;
      }
      RunIsFilled(items[..], es, hi, count, i);
    }

    /** The table of first bytes; the place for 0 stays at the start. */
    method FillFirstBytes()
      requires GoodItems(items[..], es) && firstByte.Length == 256
      modifies firstByte
      ensures forall c :: 0 <= c < 256 ==> firstByte[c] == Start(es, c)
    {
      hide GoodItems, FirstByte, Start;
      SizeOf(items[..], es);
      StartIs(es, 0, 0);
      firstByte[0] := 0;
      var n, i := 1, 0;
      while n < 256
        invariant 1 <= n <= 256 && i == Start(es, n - 1)
        invariant forall c :: 0 <= c < n ==> firstByte[c] == Start(es, c)
      {
        ghost var from := i;
        while i < items.Length && FirstByte(items[i].e.pkgname) < n
          invariant from <= i <= items.Length
          invariant forall j :: 0 <= j < i ==> FirstByte(es[j].pkgname) < n
          invariant forall c :: 0 <= c < n ==> firstByte[c] == Start(es, c)
        {
          ItemAt(items[..], es, i);
          i := i + 1;
        }
        if i < items.Length { ItemAt(items[..], es, i); }
        StartIs(es, n, i);
        firstByte[n] := i;
        n := n + 1;
      }
    }

    /** Whether an entry of the index applies; without a version all do. */
    method Applies(k: nat, name: string, version: Option<string>, glob: Matcher) returns (hit: bool)
      requires Valid() && k < items.Length
      ensures hit == Hits(es[k], name, version, glob)
    {
      ItemAt(items[..], es, k);
      var e := items[k].e;
      if !glob(e.pkgname, name) {
        return false;
      }
      if version == None {
        return true;
      }
      hit := SomeRange(version.value, e.versions);
    }

    /** `pkg_audit_is_vulnerable`: the entries reported, all or, if quiet, the first. The
        scan starts at the place of the name's first byte, jumps over patterns that the
        name comes after, and stops at one that it comes before. */
    method IsVulnerable(name: string, version: Option<string>, quiet: bool, glob: Matcher)
      returns (res: bool, reported: seq<nat>)
      requires Valid() && Lawful(glob) && FirstByte(name) < 256
      ensures res <==> reported != []
      ensures reported == AtMostFirst(quiet, Reports(es, Start(es, FirstByte(name)), |es|, name, version, glob))
    {
      hide Hits, Lawful, SortedEntries, Reports, GoodItems;
      reported := [];
      SizeOf(items[..], es);
      var start := firstByte[FirstByte(name)];
      NoReports(es, start, name, version, glob);
      var a := start;
      while a < items.Length
        invariant start <= a <= items.Length == |es|
        invariant reported == Reports(es, start, a, name, version, glob)
        invariant quiet ==> reported == []
      {
        var item := items[a];
        ItemAt(items[..], es, a);
        var cmp := StrNCmp(name, item.e.pkgname, item.noglobLen);
        if cmp > 0 {
          JumpLosesNothing(es, a, item.nextPfxIncr, name, version, glob);
          ReportsSplit(es, start, a, a + item.nextPfxIncr, name, version, glob);
        } else if cmp < 0 {
          StopLosesNothing(es, a, name, version, glob);
          ReportsSplit(es, start, a, |es|, name, version, glob);
          return reported != [], reported;
        } else {
          var done;
          done, reported := CheckRun(start, a, item.nextPfxIncr, name, version, quiet, glob, reported);
          if done {
            return true, reported;
          }
        }
        a := a + item.nextPfxIncr;
      }
      res := reported != [];
    }

    /** The entries of a run are tried one by one; done if quiet and one applied. */
    method CheckRun(ghost start: nat, a: nat, incr: nat, name: string, version: Option<string>, quiet: bool,
                    glob: Matcher, before: seq<nat>)
      returns (done: bool, reported: seq<nat>)
      requires Valid() && start <= a && a + incr <= items.Length == |es|
      requires before == Reports(es, start, a, name, version, glob) && (quiet ==> before == [])
      ensures done ==>
        quiet && reported != [] && reported == AtMostFirst(true, Reports(es, start, |es|, name, version, glob))
      ensures !done ==> reported == Reports(es, start, a + incr, name, version, glob) && (quiet ==> reported == [])
    {
      hide Hits, Reports, GoodItems, SortedEntries, AtMostFirst;
      done, reported := false, before;
      var i := 0;
      while i < incr
        invariant 0 <= i <= incr
        invariant reported == Reports(es, start, a + i, name, version, glob) && (quiet ==> reported == [])
      {
        ReportsNext(es, start, a + i, name, version, glob);
        var hit := Applies(a + i, name, version, glob);
        if hit {
          reported := reported + [a + i];
          if quiet {
            FirstReported(es, start, a + i, name, version, glob);
            return true, reported;
          }
        }
        i := i + 1;
      }
    }
  }
}
