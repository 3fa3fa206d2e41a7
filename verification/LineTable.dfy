/** Cutting a text into lines and indexing the lines by hash
    (libpkg/diff.c: DLine, break_into_lines, same_dline).

    A text is the characters before the terminating NUL of a C string.  A chunk is
    a line with its newline, if it has one; its content is the line without it. */
module LineTable {

  /** LENGTH_MASK: the low 13 bits of a line's hash hold its length. */
  const LENGTH_MASK := 8191
  const MASK_SIZE := 8192

  // ----- texts, chunks and contents -----

  function FirstNewline(z: string): (k: nat)
    ensures k <= |z|
  {
    if z == "" || z[0] == '\n' then 0 else 1 + FirstNewline(z[1..])
  }

  /** `k` characters without a newline, then a newline or the end. */
  ghost predicate LineEndsAt(z: string, k: nat)
  {
    && k <= |z|
    && (forall x :: 0 <= x < k ==> z[x] != '\n')
    && (k < |z| ==> z[k] == '\n')
  }

  lemma {:induction false} FirstNewlineIs(z: string, k: nat)
    ensures LineEndsAt(z, k) <==> k == FirstNewline(z)
  {
    if z != "" && z[0] != '\n' && k > 0 {
      FirstNewlineIs(z[1..], k - 1);
      assert LineEndsAt(z, k) <==> LineEndsAt(z[1..], k - 1) by {
        forall x | 0 <= x < k && k <= |z|
          ensures x > 0 ==> z[x] == z[1..][x - 1]
        {
        }
        forall x | 0 <= x < k - 1 && k <= |z|
          ensures z[1..][x] == z[x + 1]
        {
        }
      }
    }
  }

  /** Scanning: up to the first newline no character is one. */
  lemma {:induction false} ScanStep(z: string, k: nat)
    requires k < |z| && k <= FirstNewline(z)
    ensures z[k] == '\n' <==> k == FirstNewline(z)
  {
    if k > 0 {
      ScanStep(z[1..], k - 1);
    }
  }

  /** Length of the first line together with its newline. */
  function ChunkLength(z: string): (n: nat)
    ensures n <= |z|
    ensures z != "" ==> n > 0
  {
    if FirstNewline(z) < |z| then FirstNewline(z) + 1 else |z|
  }

  /** The text cut after every newline. */
  function Chunks(z: string): seq<string>
    decreases |z|
  {
    if z == "" then [] else [z[..ChunkLength(z)]] + Chunks(z[ChunkLength(z)..])
  }

  function Content(chunk: string): string
  {
    if chunk != "" && chunk[|chunk| - 1] == '\n' then chunk[..|chunk| - 1] else chunk
  }

  function ContentsOf(chunks: seq<string>): (r: seq<string>)
    ensures |r| == |chunks|
    ensures forall k :: 0 <= k < |r| ==> r[k] == Content(chunks[k])
  {
    seq(|chunks|, k requires 0 <= k < |chunks| => Content(chunks[k]))
  }

  /** The lines of a text, without their newlines. */
  function Contents(z: string): seq<string>
  {
    ContentsOf(Chunks(z))
  }

  function Text(chunks: seq<string>): string
  {
    if chunks == [] then "" else chunks[0] + Text(chunks[1..])
  }

  ghost predicate Terminated(chunk: string)
  {
    chunk != "" && chunk[|chunk| - 1] == '\n'
  }

  /** A chunk has no newline but perhaps the one at its end. */
  ghost predicate IsChunk(chunk: string)
  {
    chunk != "" && ChunkLength(chunk) == |chunk|
  }

  /** Chunks of some text: only the last may lack its newline. */
  ghost predicate WellCut(chunks: seq<string>)
  {
    chunks == [] ||
    (IsChunk(chunks[0]) && (|chunks| > 1 ==> Terminated(chunks[0])) && WellCut(chunks[1..]))
  }

  /** The first chunk of a text. */
  lemma FirstChunk(z: string, head: string)
    requires z != "" && head == z[..ChunkLength(z)]
    ensures IsChunk(head) && Content(head) == z[..FirstNewline(z)]
    ensures ChunkLength(z) < |z| ==> Terminated(head)
  {
    var k := FirstNewline(z);
    FirstNewlineIs(z, k);
    assert LineEndsAt(head, k);
    FirstNewlineIs(head, k);
    if k == |z| {
      assert head == z && z[|z| - 1] != '\n';
    } else {
      assert head[..k] == z[..k];
    }
  }

  lemma FirstChunkOfConcat(head: string, rest: string)
    requires IsChunk(head) && (rest != "" ==> Terminated(head))
    ensures ChunkLength(head + rest) == |head|
  {
    var k := FirstNewline(head);
    FirstNewlineIs(head, k);
    FirstNewlineIs(head + rest, k);
  }

  lemma WellCutCons(head: string, rest: seq<string>)
    requires IsChunk(head) && WellCut(rest) && (rest != [] ==> Terminated(head))
    ensures WellCut([head] + rest) && Text([head] + rest) == head + Text(rest)
  {
    assert ([head] + rest)[1..] == rest;
  }

  lemma OneChunk(z: string)
    requires z != ""
    ensures Chunks(z) == [z[..ChunkLength(z)]] + Chunks(z[ChunkLength(z)..])
  {
  }

  lemma NoChunks()
    ensures Chunks("") == [] && WellCut([]) && Text([]) == ""
  {
  }

  /** Cutting loses nothing ... */
  lemma {:induction false} ChunksOfText(z: string, chunks: seq<string>)
    requires chunks == Chunks(z)
    ensures WellCut(chunks) && Text(chunks) == z
    ensures z != "" <==> chunks != []
    decreases |z|
  {
    hide Chunks, ChunkLength, WellCut, Text, IsChunk, Content, Terminated;
    NoChunks();
    if z != "" {
      var n := ChunkLength(z);
      var head, rest := z[..n], Chunks(z[n..]);
      OneChunk(z);
      FirstChunk(z, head);
      ChunksOfText(z[n..], rest);
      WellCutCons(head, rest);
      assert z == head + z[n..];
    }
  }

  /** ... and any well-cut list of chunks is the cut of its text. */
  lemma {:induction false} TextOfChunks(chunks: seq<string>)
    requires WellCut(chunks)
    ensures Chunks(Text(chunks)) == chunks
  {
    if chunks != [] {
      var head, rest := chunks[0], Text(chunks[1..]);
      TextOfChunks(chunks[1..]);
      FirstChunkOfConcat(head, rest);
      assert (head + rest)[..|head|] == head && (head + rest)[|head|..] == rest;
    }
  }

  lemma {:induction false} TextConcat(a: seq<string>, b: seq<string>)
    ensures Text(a + b) == Text(a) + Text(b)
  {
    if a == [] {
      assert a + b == b;
    } else {
      assert (a + b)[1..] == a[1..] + b;
      TextConcat(a[1..], b);
    }
  }

  // ----- texts the diff refuses -----

  ghost predicate Fit(lines: seq<string>)
  {
    forall k :: 0 <= k < |lines| ==> |lines[k]| <= LENGTH_MASK
  }

  /** The counting loop finds a line longer than the mask allows.  The column
      counter starts at 0 on the first line and at 1 on every other, and on the
      last line it also counts the newline. */
  predicate TooLong(z: string, first: bool := true)
    decreases |z|
  {
    var start := if first then 0 else 1;
    var n := ChunkLength(z);
    if n == |z| then n + start > LENGTH_MASK
    else n - 1 + start > LENGTH_MASK || TooLong(z[n..], false)
  }

  lemma {:induction false} LinesFit(z: string, first: bool)
    requires !TooLong(z, first)
    ensures Fit(Contents(z))
    decreases |z|
  {
    if z != "" {
      var n := ChunkLength(z);
      FirstChunk(z, z[..n]);
      if n < |z| {
        LinesFit(z[n..], false);
      }
      FitCons(z[..n], Chunks(z[n..]));
    }
  }

  /** A chunk that is refused: the last counts with its newline, and all but the first one
      character more. */
  ghost predicate Overlong(chunks: seq<string>, first: bool, k: nat)
    requires k < |chunks|
  {
    |chunks[k]| + (if k == |chunks| - 1 then 0 else -1) + (if first && k == 0 then 0 else 1) > 8191
  }

  ghost predicate SomeOverlong(chunks: seq<string>, first: bool)
  {
    exists k :: 0 <= k < |chunks| && Overlong(chunks, first, k)
  }

  lemma OverlongCons(head: string, rest: seq<string>, first: bool)
    requires rest != []
    ensures SomeOverlong([head] + rest, first) <==>
      |head| - 1 + (if first then 0 else 1) > 8191 || SomeOverlong(rest, false)
  {
    var chunks := [head] + rest;
    assert chunks[0] == head && (Overlong(chunks, first, 0) <==> |head| - 1 + (if first then 0 else 1) > 8191);
    assert forall k :: 0 <= k < |rest| ==> chunks[k + 1] == rest[k];
    if SomeOverlong(chunks, first) {
      var k :| 0 <= k < |chunks| && Overlong(chunks, first, k);
      assert k > 0 ==> Overlong(rest, false, k - 1);
    }
    if SomeOverlong(rest, false) {
      var k :| 0 <= k < |rest| && Overlong(rest, false, k);
      assert Overlong(chunks, first, k + 1);
    }
  }

  /** When a text is refused. */
  lemma {:induction false} TooLongIff(z: string, first: bool)
    ensures TooLong(z, first) <==> SomeOverlong(Chunks(z), first)
    decreases |z|
  {
    hide SomeOverlong;
    if z == "" {
      NoneOverlong(first);
    } else {
      var n := ChunkLength(z);
      OneChunk(z);
      if n < |z| {
        TooLongIff(z[n..], false);
        NoChunks();
        OverlongCons(z[..n], Chunks(z[n..]), first);
        OneChunk(z[n..]);
      } else {
        assert z[n..] == "" && z[..n] == z;
        NoChunks();
        assert Chunks(z) == [z];
        OneOverlong(z, first);
      }
    }
  }

  lemma NoneOverlong(first: bool)
    ensures !SomeOverlong([], first)
  {
  }

  lemma OneOverlong(z: string, first: bool)
    ensures SomeOverlong([z], first) <==> |z| + (if first then 0 else 1) > 8191
  {
    assert Overlong([z], first, 0) <==> |z| + (if first then 0 else 1) > 8191;
  }

  lemma MixesOfLetters()
    ensures Mix(0, 'a') == 97 && Mix(97, 'b') == 391 && Mix(391, 'c') == 2040 && Mix(2040, 'd') == 6268
    ensures Mix(6268, 'e') == 31209 && Mix(31209, 'f') == 106027 && Mix(106027, 'g') == 517856 && Mix(517856, 'h') ==
      1604872
  {
  }

  lemma HashStep(h: bv32, s: string, c: char, rest: string)
    requires s == [c] + rest
    ensures HashLoop(h, s) == HashLoop(Mix(h, c), rest)
  {
    hide Mix;
    assert s[0] == c && s[1..] == rest;
  }

  /** The hashes of two lines: of the second only 19 bits are kept. */
  lemma HashesOfTwo()
    ensures LineHash("a") == 8192 * 97 + 1
    ensures LineHash("abcdefgh") == 8192 * 32008 + 8
  {
    hide Mix, HashLoop;
    MixesOfLetters();
    NoMix();
    HashStep(0, "a", 'a', "");
    HashStep(0, "abcdefgh", 'a', "bcdefgh");
    HashStep(97, "bcdefgh", 'b', "cdefgh");
    HashStep(391, "cdefgh", 'c', "defgh");
    HashStep(2040, "defgh", 'd', "efgh");
    HashStep(6268, "efgh", 'e', "fgh");
    HashStep(31209, "fgh", 'f', "gh");
    HashStep(106027, "gh", 'g', "h");
    HashStep(517856, "h", 'h', "");
  }

  lemma NoMix()
    ensures forall h :: HashLoop(h, "") == h
  {
  }

  lemma FitCons(head: string, rest: seq<string>)
    requires |Content(head)| <= LENGTH_MASK && Fit(ContentsOf(rest))
    ensures Fit(ContentsOf([head] + rest))
  {
    forall x | 0 <= x < |rest| + 1
      ensures |ContentsOf([head] + rest)[x]| <= LENGTH_MASK
    {
      if x > 0 {
        assert ContentsOf([head] + rest)[x] == ContentsOf(rest)[x - 1];
      }
    }
  }

  // ----- the hash of a line -----

  /** One character goes into the hash, a 32-bit word. */
  function Mix(h: bv32, c: char): bv32
  {
    h ^ (h << 2) ^ (c as bv32)
  }

  function HashLoop(h: bv32, s: string): bv32
    decreases s
  {
    if s == "" then h else HashLoop(Mix(h, s[0]), s[1..])
  }

  /** `(h<<13) | k`: the shift keeps the low 19 bits of the hash and the length
      fills the 13 bits it frees. */
  function LineHash(s: string): nat
    requires |s| <= LENGTH_MASK
  {
    MASK_SIZE * ((HashLoop(0, s) as nat) % 0x8_0000) + |s|
  }

  /** The hash loop of one line. */
  method HashLine(text: string) returns (hash: nat)
    requires |text| <= LENGTH_MASK
    ensures hash == LineHash(text)
  {
    hide Mix;
    var h: bv32, x := 0, 0;
    while x < |text|
      invariant 0 <= x <= |text|
      invariant HashLoop(h, text[x..]) == HashLoop(0, text)
    {
      assert text[x..][0] == text[x] && text[x..][1..] == text[x + 1..];
      h := Mix(h, text[x]);
      x := x + 1;
    }
    assert text[x..] == "";
    hash := MASK_SIZE * ((h as nat) % 0x8_0000) + |text|;
  }

  // ----- the array of DLine records -----

  datatype DLine = DLine(text: string, h: nat, iNext: nat, iHash: nat)

  /** What a freshly cleared record holds. */
  const CLEARED := DLine("", 0, 0, 0)

  /** A line, its hash and the bucket the hash falls into. */
  datatype Entry = Entry(text: string, h: nat, bucket: nat)

  ghost predicate Bucketed(entries: seq<Entry>)
  {
    forall k :: 0 <= k < |entries| ==> entries[k].bucket < |entries|
  }

  ghost function Entries(lines: seq<string>): (entries: seq<Entry>)
    requires Fit(lines)
    ensures |entries| == |lines| && Bucketed(entries)
    ensures forall k :: 0 <= k < |lines| ==> entries[k].text == lines[k] && Hashed(lines[k], entries[k].h)
  {
    seq(|lines|, k requires 0 <= k < |lines| =>
      Entry(lines[k], LineHash(lines[k]), LineHash(lines[k]) % |lines|))
  }

  /** `h` is the hash of a line. */
  ghost predicate Hashed(text: string, h: nat)
  {
    |text| <= LENGTH_MASK && h == LineHash(text)
  }

  /** Entering line `i`: its record joins the front of the chain of its bucket.
      Element `k` of the array is the record of line `k` and the head of bucket `k`. */
  ghost function Enter(t: seq<DLine>, i: nat, e: Entry): (u: seq<DLine>)
    requires i < |t| && e.bucket < |t|
    ensures |u| == |t|
  {
    var t1 := t[i := t[i].(text := e.text, h := e.h, iNext := t[e.bucket].iHash)];
    t1[e.bucket := t1[e.bucket].(iHash := i + 1)]
  }

  /** The array after the first `i` lines have been entered. */
  ghost function Filled(entries: seq<Entry>, i: nat): (t: seq<DLine>)
    requires Bucketed(entries) && i <= |entries|
    ensures |t| == |entries|
    ensures forall k :: 0 <= k < |t| ==> t[k].iHash <= i && t[k].iNext <= k
    ensures forall k :: 0 <= k < i ==> t[k].text == entries[k].text && t[k].h == entries[k].h
  {
    if i == 0 then seq(|entries|, _ => CLEARED)
    else Enter(Filled(entries, i - 1), i - 1, entries[i - 1])
  }

  ghost function Table(lines: seq<string>): (t: seq<DLine>)
    requires Fit(lines)
    ensures |t| == |lines| && Linked(t)
    ensures forall k :: 0 <= k < |t| ==> t[k].text == lines[k] && Hashed(lines[k], t[k].h)
  {
    Filled(Entries(lines), |lines|)
  }

  // ----- each chain lists exactly the lines of its bucket, latest first -----

  ghost predicate Linked(t: seq<DLine>)
  {
    forall k :: 0 <= k < |t| ==> t[k].iNext <= k && t[k].iHash <= |t|
  }

  /** The line numbers met by following `iNext` from the 1-based entry `j`. */
  ghost function Chain(t: seq<DLine>, j: nat): seq<nat>
    requires Linked(t) && j <= |t|
  {
    if j == 0 then [] else [j - 1] + Chain(t, t[j - 1].iNext)
  }

  /** The lines below `i` that fall into a bucket, latest first. */
  ghost function InBucket(entries: seq<Entry>, bucket: nat, i: nat): seq<nat>
    requires i <= |entries|
  {
    if i == 0 then []
    else if entries[i - 1].bucket == bucket then [i - 1] + InBucket(entries, bucket, i - 1)
    else InBucket(entries, bucket, i - 1)
  }

  /** A chain depends only on the `iNext` fields below its start. */
  lemma {:induction false} ChainFrame(t: seq<DLine>, u: seq<DLine>, j: nat)
    requires Linked(t) && Linked(u) && |t| == |u| && j <= |t|
    requires forall k :: 0 <= k < j ==> t[k].iNext == u[k].iNext
    ensures Chain(t, j) == Chain(u, j)
  {
    if j > 0 {
      ChainFrame(t, u, t[j - 1].iNext);
    }
  }

  /** Entering a line puts it in front of the chain of its bucket and leaves
      every other chain alone. */
  lemma EnterIs(t: seq<DLine>, i: nat, e: Entry, u: seq<DLine>)
    requires i < |t| && e.bucket < |t| && u == Enter(t, i, e)
    requires forall k :: 0 <= k < |t| ==> t[k].iHash <= i && t[k].iNext <= k
    ensures Linked(t) && Linked(u) && u[i].iNext == t[e.bucket].iHash && u[e.bucket].iHash == i + 1
    ensures forall k :: 0 <= k < |t| && k != i ==> u[k].iNext == t[k].iNext
    ensures forall k :: 0 <= k < |t| && k != e.bucket ==> u[k].iHash == t[k].iHash
  {
  }

  lemma EnterLine(t: seq<DLine>, i: nat, e: Entry, bucket: nat)
    requires i < |t| && e.bucket < |t| && bucket < |t|
    requires forall k :: 0 <= k < |t| ==> t[k].iHash <= i && t[k].iNext <= k
    ensures Linked(t) && Linked(Enter(t, i, e))
    ensures var u := Enter(t, i, e); var chain := Chain(t, t[bucket].iHash);
      && (e.bucket == bucket ==> Chain(u, u[bucket].iHash) == [i] + chain)
      && (e.bucket != bucket ==> Chain(u, u[bucket].iHash) == chain)
  {
    hide Enter, Linked;
    var u := Enter(t, i, e);
    EnterIs(t, i, e, u);
    ChainFrame(t, u, t[bucket].iHash);
  }

  lemma NothingLinked(t: seq<DLine>)
    requires forall k :: 0 <= k < |t| ==> t[k].iHash == 0 && t[k].iNext <= k
    ensures Linked(t)
  {
  }

  lemma NoChain(t: seq<DLine>, bucket: nat)
    requires Linked(t) && bucket < |t| && t[bucket].iHash == 0
    ensures Chain(t, t[bucket].iHash) == []
  {
  }

  lemma {:induction false} ChainsWhileFilling(entries: seq<Entry>, i: nat, bucket: nat, t: seq<DLine>)
    requires Bucketed(entries) && i <= |entries| && bucket < |entries|
    requires t == Filled(entries, i)
    ensures Linked(t) && Chain(t, t[bucket].iHash) == InBucket(entries, bucket, i)
  {
    hide Chain, Linked, Enter;
    if i == 0 {
      assert Linked(t) by { NothingLinked(t); }
      NoChain(t, bucket);
    } else {
      var before := Filled(entries, i - 1);
      ChainsWhileFilling(entries, i - 1, bucket, before);
      EnterLine(before, i - 1, entries[i - 1], bucket);
    }
  }

  /** After `break_into_lines` the chain of a bucket is exactly the lines whose
      hash has that residue, in strictly decreasing order. */
  lemma ChainsListBuckets(lines: seq<string>, bucket: nat)
    requires Fit(lines) && bucket < |lines|
    ensures var chain := Chain(Table(lines), Table(lines)[bucket].iHash);
      && (forall x: nat :: x in chain <==> x < |lines| && LineHash(lines[x]) % |lines| == bucket)
      && (forall p, q :: 0 <= p < q < |chain| ==> chain[p] > chain[q])
  {
    ChainsWhileFilling(Entries(lines), |lines|, bucket, Table(lines));
    InBucketExact(Entries(lines), bucket, |lines|);
  }

  lemma {:induction false} InBucketExact(entries: seq<Entry>, bucket: nat, i: nat)
    requires i <= |entries|
    ensures var chain := InBucket(entries, bucket, i);
      && (forall x: nat :: x in chain <==> x < i && entries[x].bucket == bucket)
      && (forall p, q :: 0 <= p < q < |chain| ==> chain[p] > chain[q])
  {
    if i > 0 {
      InBucketExact(entries, bucket, i - 1);
      var rest := InBucket(entries, bucket, i - 1);
      forall p | 0 <= p < |rest|
        ensures rest[p] < i - 1
      {
        assert rest[p] in rest;
      }
    }
  }

  // ----- comparing two records -----

  /** The low bits of a hash are the length. */
  lemma HashTellsLength(text: string, h: nat)
    requires Hashed(text, h)
    ensures h % MASK_SIZE == |text|
  {
    hide HashLoop;
    LowBits((HashLoop(0, text) as nat) % 0x8_0000, |text|);
  }

  lemma LowBits(q: nat, r: nat)
    requires r <= LENGTH_MASK
    ensures (MASK_SIZE * q + r) % MASK_SIZE == r
  {
  }

  /** `h` equal, and the first `h & LENGTH_MASK` characters equal. */
  predicate SameDLine(p: DLine, q: DLine)
    requires Hashed(p.text, p.h) && Hashed(q.text, q.h)
  {
    HashTellsLength(p.text, p.h);
    HashTellsLength(q.text, q.h);
    p.h == q.h && p.text[..p.h % MASK_SIZE] == q.text[..p.h % MASK_SIZE]
  }

  lemma SameDLineIffSameText(p: DLine, q: DLine)
    requires Hashed(p.text, p.h) && Hashed(q.text, q.h)
    ensures SameDLine(p, q) <==> p.text == q.text
  {
    hide LineHash;
    HashTellsLength(p.text, p.h);
    HashTellsLength(q.text, q.h);
    assert p.text[..|p.text|] == p.text && q.text[..|q.text|] == q.text;
  }

  // ----- break_into_lines -----

  lemma DropDrop(z: string, i: nat, k: nat)
    requires i + k <= |z|
    ensures z[i..][k..] == z[i + k..]
  {
  }

  lemma CountStep(z: string)
    requires z != ""
    ensures |Chunks(z)| == 1 + |Chunks(z[ChunkLength(z)..])|
    ensures |Chunks("")| == 0
  {
  }

  /** A newline inside the text, met by the scan, ends its first chunk. */
  lemma NewlineEndsChunk(z: string, k: nat)
    requires k < |z| && (k < ChunkLength(z) || ChunkLength(z) == |z|)
    ensures z[k] == '\n' && k + 1 < |z| ==> ChunkLength(z) == k + 1 && FirstNewline(z) == k
    ensures z[k] != '\n' ==> k + 1 < ChunkLength(z) || ChunkLength(z) == |z|
  {
    if k <= FirstNewline(z) {
      ScanStep(z, k);
    }
  }

  /** The counting loop: the number of lines (one for the empty text), or
      refusal. */
  method CountLines(z: string) returns (ok: bool, nLine: nat)
    ensures ok <==> !TooLong(z)
    ensures ok ==> nLine == if z == "" then 1 else |Chunks(z)|
  {
    hide Chunks, ChunkLength;
    var i: nat, j := 0, 0;
    nLine := 1;
    ghost var rest, first, from: nat := z, true, 0;
    ghost var tooLong, count := TooLong(z), |Chunks(z)|;
    while i < |z|
      invariant from <= i <= |z| && rest == z[from..]
      invariant j == i - from + (if first then 0 else 1)
      invariant i - from < ChunkLength(rest) || ChunkLength(rest) == |rest|
      invariant tooLong <==> TooLong(rest, first)
      invariant z != "" ==> rest != "" && nLine - 1 + |Chunks(rest)| == count
      invariant nLine >= 1 && (z == "" ==> nLine == 1)
    {
      NewlineEndsChunk(rest, i - from);
      if z[i] == '\n' && i + 1 < |z| {
        CountStep(rest);
        DropDrop(z, from, i - from + 1);
        nLine := nLine + 1;
        if j > LENGTH_MASK {
          return false, nLine;
        }
        j := 0;
        rest, first, from := z[i + 1..], false, i + 1;
      }
      i := i + 1;
      j := j + 1;
    }
    if z != "" {
      CountStep(rest);
      assert rest[|rest|..] == "";
    }
    ok := j <= LENGTH_MASK;
  }

  /** The scan for the end of the line at `off`. */
  method ScanLine(z: string, off: nat) returns (j: nat, text: string)
    requires off <= |z|
    ensures j == FirstNewline(z[off..]) && text == z[off..][..j]
  {
    j := 0;
    ghost var rest := z[off..];
    while off + j < |z| && z[off + j] != '\n'
      invariant off + j <= |z| && j <= FirstNewline(rest)
    {
      ScanStep(rest, j);
      j := j + 1;
    }
    if j < |rest| {
      ScanStep(rest, j);
    }
    text := z[off..off + j];
  }

  /** Chunk number `i` and the text after it. */
  lemma NextChunk(chunks: seq<string>, i: nat, rest: string, next: string)
    requires i < |chunks| && Chunks(rest) == chunks[i..] && next == rest[ChunkLength(rest)..]
    ensures rest[..FirstNewline(rest)] == Content(chunks[i])
    ensures Chunks(next) == chunks[i + 1..]
    ensures i + 1 < |chunks| ==> FirstNewline(rest) + 1 < |rest| && next == rest[FirstNewline(rest) + 1..]
  {
    hide Content, FirstNewline;
    var tail := chunks[i..];
    assert tail[0] == chunks[i] && tail[1..] == chunks[i + 1..];
    assert rest != "";
    FirstChunk(rest, rest[..ChunkLength(rest)]);
  }

  /** The four assignments that enter one line. */
  method EnterRecord(a: array<DLine>, i: nat, text: string, hash: nat, h2: nat)
    requires i < a.Length && h2 < a.Length
    modifies a
    ensures a[..] == Enter(old(a[..]), i, Entry(text, hash, h2))
  {
    a[i] := a[i].(text := text, h := hash);
    a[i] := a[i].(iNext := a[h2].iHash);
    a[h2] := a[h2].(iHash := i + 1);
  }

  lemma EnterNext(lines: seq<string>, entries: seq<Entry>, i: nat, hash: nat)
    requires Fit(lines) && entries == Entries(lines) && i < |lines|
    requires Hashed(lines[i], hash)
    ensures Filled(entries, i + 1) == Enter(Filled(entries, i), i, Entry(lines[i], hash, hash % |lines|))
  {
  }

  /** The filling loop. */
  method FillArray(z: string, a: array<DLine>, ghost entries: seq<Entry>)
    requires Fit(Contents(z)) && entries == Entries(Contents(z))
    requires a.Length == |entries| && a[..] == Filled(entries, 0)
    modifies a
    ensures a[..] == Filled(entries, |entries|)
  {
    hide Chunks, ChunkLength, LineHash, Filled, Enter, Entries;
    ghost var chunks, lines := Chunks(z), Contents(z);
    var off: nat, i: nat := 0, 0;
    ghost var rest := z;
    while i < a.Length
      invariant i <= a.Length
      invariant i < a.Length ==> off <= |z| && rest == z[off..]
      invariant Chunks(rest) == chunks[i..]
      invariant a[..] == Filled(entries, i)
    {
      var j, text := ScanLine(z, off);
      ghost var next := rest[ChunkLength(rest)..];
      NextChunk(chunks, i, rest, next);
      assert text == lines[i];
      var hash := HashLine(text);
      EnterNext(lines, entries, i, hash);
      var h2 := hash % a.Length;
      EnterRecord(a, i, text, hash, h2);
      if i + 1 < a.Length {
        DropDrop(z, off, j + 1);
      }
      rest := next;
      off := off + j + 1;
      i := i + 1;
    }
  }

  /** Returns the array of records, or refuses a text with a line that is too
      long. */
  method BreakIntoLines(z: string) returns (ok: bool, a: array<DLine>, nLine: nat)
    ensures ok <==> !TooLong(z)
    ensures ok ==> fresh(a) && nLine == |Contents(z)|
    ensures ok ==> Fit(Contents(z)) && nLine <= a.Length && a[..nLine] == Table(Contents(z))
  {
    ok, nLine := CountLines(z);
    if !ok {
      a := new DLine[0];
      return;
    }
    LinesFit(z, true);
    a := new DLine[nLine](_ => CLEARED);
    if z == "" {
      nLine := 0;
      return;
    }
    assert a[..] == Filled(Entries(Contents(z)), 0);
    FillArray(z, a, Entries(Contents(z)));
    assert a[..nLine] == a[..];
  }
}
