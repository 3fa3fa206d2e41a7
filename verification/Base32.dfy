/** The z-base-32 encoding of digests (libpkg/pkg_checksum.c:515-578). */
module Base32 {

  const ALPHABET: string := "ybndrfg8ejkmcpqxot1uwisza345h769"

  type Byte = x: int | 0 <= x < 256

  function Pow(b: nat, n: nat): nat
  {
    if n == 0 then 1 else b * Pow(b, n - 1)
  }

  /** The number that digits make, the lowest first. */
  function Value(b: nat, digits: seq<nat>): nat
  {
    if digits == [] then 0
    else Value(b, digits[..|digits| - 1]) + digits[|digits| - 1] * Pow(b, |digits| - 1)
  }

  function Nats(bytes: seq<Byte>): seq<nat>
  {
    seq(|bytes|, i requires 0 <= i < |bytes| => bytes[i])
  }

  /** Digits so far, and what is left over of the bits read: `bits` of them. */
  datatype Encoder = Encoder(digits: seq<nat>, remain: nat, bits: nat)

  /** One byte more: its bits come above those left over, and the low ones go out five
      at a time, once or twice. */
  function AddByte(e: Encoder, i: nat, b: Byte): Encoder
  {
    match i % 5
    case 0 => Encoder(e.digits + [b % 32], b / 32, 3)
    case 1 =>
      var x := e.remain + b * 8;
      Encoder(e.digits + [x % 32, x / 32 % 32], x / 1024, 1)
    case 2 =>
      var x := e.remain + b * 2;
      Encoder(e.digits + [x % 32], x / 32, 4)
    case 3 =>
      var x := e.remain + b * 16;
      Encoder(e.digits + [x % 32, x / 32 % 32], x / 1024 % 4, 2)
    case _ =>
      var x := e.remain + b * 4;
      Encoder(e.digits + [x % 32, x / 32 % 32], 0, 0)
  }

  function AddBytes(bytes: seq<Byte>): Encoder
  {
    if bytes == [] then Encoder([], 0, 0)
    else AddByte(AddBytes(bytes[..|bytes| - 1]), |bytes| - 1, bytes[|bytes| - 1])
  }

  function Digits(bytes: seq<Byte>): seq<nat>
  {
    var e := AddBytes(bytes);
    if e.bits > 0 then e.digits + [e.remain] else e.digits
  }

  function Text(digits: seq<nat>): string
  {
    seq(|digits|, i requires 0 <= i < |digits| => if digits[i] < 32 then ALPHABET[digits[i]] else '?')
  }

  // ----- what the encoder keeps -----

  /** The digits are digits, the bits left over are few, and all bits are there. */
  ghost predicate Keeps(e: Encoder, n: nat)
  {
    && (forall k :: 0 <= k < |e.digits| ==> e.digits[k] < 32)
    && 8 * n == 5 * |e.digits| + e.bits && e.bits < 5
    && e.remain < Pow(2, e.bits)
    && Pow(256, n) == Pow(32, |e.digits|) * Pow(2, e.bits)
  }

  /** The number read so far. */
  function Total(e: Encoder): nat
  {
    Value(32, e.digits) + e.remain * Pow(32, |e.digits|)
  }

  lemma ValueAppend(b: nat, digits: seq<nat>, d: nat)
    ensures Value(b, digits + [d]) == Value(b, digits) + d * Pow(b, |digits|)
  {
    assert (digits + [d])[..|digits|] == digits;
  }

  lemma Distribute(q: int, r: int, p: int)
    ensures r * p + q * (32 * p) == (32 * q + r) * p
  {
  }

  /** Putting out the low digit of x keeps the number. */
  lemma EmitOne(digits: seq<nat>, x: nat)
    ensures Value(32, digits + [x % 32]) + (x / 32) * Pow(32, |digits| + 1) == Value(32, digits) + x * Pow(32, |digits|)
  {
    ValueAppend(32, digits, x % 32);
    hide Value;
    var p, q, r := Pow(32, |digits|), x / 32, x % 32;
    assert Pow(32, |digits| + 1) == 32 * p && x == 32 * q + r;
    hide Pow;
    Distribute(q, r, p);
  }

  lemma EmitTwo(digits: seq<nat>, x: nat)
    ensures Value(32, digits + [x % 32, x / 32 % 32]) + (x / 1024) * Pow(32, |digits| + 2) ==
      Value(32, digits) + x * Pow(32, |digits|)
  {
    EmitOne(digits, x);
    EmitOne(digits + [x % 32], x / 32);
    assert digits + [x % 32, x / 32 % 32] == digits + [x % 32] + [x / 32 % 32];
    assert x / 32 / 32 == x / 1024;
  }

  lemma Above(low: nat, b: nat, p: nat, q: nat, remain: nat)
    ensures low + remain * p + b * (p * q) == low + (remain + b * q) * p
  {
  }

  lemma Widen(p256: nat, p32: nat, a: nat, b: nat, c: nat)
    requires p256 == p32 * a && 256 * a == c * b
    ensures 256 * p256 == (p32 * c) * b
  {
    calc {
      256 * (p32 * a);
      p32 * (256 * a);
      p32 * (c * b);
      (p32 * c) * b;
    }
  }

  lemma NextPower(b: nat, n: nat)
    ensures Pow(b, n + 1) == b * Pow(b, n)
  {
  }

  lemma Powers(r: nat)
    ensures Pow(32, r + 1) == Pow(32, r) * 32 && Pow(32, r + 2) == Pow(32, r) * 1024
    ensures Pow(2, 0) == 1 && Pow(2, 1) == 2 && Pow(2, 2) == 4 && Pow(2, 3) == 8 && Pow(2, 4) == 16
  {
  }

  /** How many bits are left over goes by the place in a group of five. */
  lemma BitsAre(e: Encoder, n: nat)
    requires Keeps(e, n)
    ensures n % 5 == 0 ==> e.bits == 0
    ensures n % 5 == 1 ==> e.bits == 3
    ensures n % 5 == 2 ==> e.bits == 1
    ensures n % 5 == 3 ==> e.bits == 4
    ensures n % 5 == 4 ==> e.bits == 2
  {
  }

  lemma DivBelow(x: nat, c: nat, q: nat)
    requires c > 0 && x < c * q
    ensures x / c < q
  {
    var d := x / c;
    assert c * d <= x;
    MulMono(c, q, d);
  }

  lemma MulMono(c: nat, q: nat, d: nat)
    ensures q <= d ==> c * q <= c * d
  {
  }

  lemma MulBelow(b: nat, q: nat)
    requires b <= 255
    ensures b * q <= 255 * q
  {
  }

  /** The bits left over and the byte above them make x, which has room for the digits. */
  lemma Room(remain: nat, b: Byte, q: nat, c: nat, q': nat)
    requires remain < q && 256 * q == c * q' && c > 0
    ensures remain + b * q < 256 * q && (remain + b * q) / c < q'
  {
    MulBelow(b, q);
    DivBelow(remain + b * q, c, q');
  }

  lemma OneDigit(e: Encoder, n: nat, b: Byte, q: nat, e': Encoder, q': nat)
    requires Keeps(e, n) && q == Pow(2, e.bits) && q' == Pow(2, e'.bits) && 256 * q == 32 * q'
    requires e.bits + 3 == e'.bits < 5
    requires var x := e.remain + b * q; e'.digits == e.digits + [x % 32] && e'.remain == x / 32
    ensures Keeps(e', n + 1) && Total(e') == Total(e) + b * Pow(256, n)
  {
    hide Value, Pow;
    var r, x := |e.digits|, e.remain + b * q;
    Powers(r);
    NextPower(256, n);
    Room(e.remain, b, q, 32, q');
    Above(Value(32, e.digits), b, Pow(32, r), q, e.remain);
    EmitOne(e.digits, x);
    Widen(Pow(256, n), Pow(32, r), q, q', 32);
  }

  lemma TwoDigits(e: Encoder, n: nat, b: Byte, q: nat, e': Encoder, q': nat)
    requires Keeps(e, n) && q == Pow(2, e.bits) && q' == Pow(2, e'.bits) && 256 * q == 1024 * q'
    requires e.bits == e'.bits + 2 && e.bits < 5
    requires var x := e.remain + b * q; e'.digits == e.digits + [x % 32, x / 32 % 32] && e'.remain == x / 1024
    ensures Keeps(e', n + 1) && Total(e') == Total(e) + b * Pow(256, n)
  {
    hide Value, Pow;
    var r, x := |e.digits|, e.remain + b * q;
    Powers(r);
    NextPower(256, n);
    Room(e.remain, b, q, 1024, q');
    Above(Value(32, e.digits), b, Pow(32, r), q, e.remain);
    EmitTwo(e.digits, x);
    Widen(Pow(256, n), Pow(32, r), q, q', 1024);
  }

  /** The bits left over are few, as many as the place in a group of five says. */
  lemma RemainIsSmall(e: Encoder, n: nat, b: Byte)
    requires Keeps(e, n)
    ensures n % 5 == 0 ==> e.remain == 0 && Pow(2, e.bits) == 1
    ensures n % 5 == 1 ==> e.remain < 8 && Pow(2, e.bits) == 8
    ensures n % 5 == 2 ==> e.remain < 2 && Pow(2, e.bits) == 2
    ensures n % 5 == 3 ==> e.remain < 16 && Pow(2, e.bits) == 16
    ensures n % 5 == 4 ==> e.remain < 4 && Pow(2, e.bits) == 4
  {
    BitsAre(e, n);
    Powers(0);
  }

  lemma ByteFirst(e: Encoder, n: nat, b: Byte)
    requires Keeps(e, n) && n % 5 == 0
    ensures Keeps(AddByte(e, n, b), n + 1) && Total(AddByte(e, n, b)) == Total(e) + b * Pow(256, n)
  {
    hide Pow, Keeps, Total;
    BitsAre(e, n);
    RemainIsSmall(e, n, b);
    Powers(0);
    OneDigit(e, n, b, 1, AddByte(e, n, b), 8);
  }

  lemma ByteSecond(e: Encoder, n: nat, b: Byte)
    requires Keeps(e, n) && n % 5 == 1
    ensures Keeps(AddByte(e, n, b), n + 1) && Total(AddByte(e, n, b)) == Total(e) + b * Pow(256, n)
  {
    hide Pow, Keeps, Total;
    BitsAre(e, n);
    RemainIsSmall(e, n, b);
    Powers(0);
    TwoDigits(e, n, b, 8, AddByte(e, n, b), 2);
  }

  lemma ByteThird(e: Encoder, n: nat, b: Byte)
    requires Keeps(e, n) && n % 5 == 2
    ensures Keeps(AddByte(e, n, b), n + 1) && Total(AddByte(e, n, b)) == Total(e) + b * Pow(256, n)
  {
    hide Pow, Keeps, Total;
    BitsAre(e, n);
    RemainIsSmall(e, n, b);
    Powers(0);
    OneDigit(e, n, b, 2, AddByte(e, n, b), 16);
  }

  lemma ByteFourth(e: Encoder, n: nat, b: Byte)
    requires Keeps(e, n) && n % 5 == 3
    ensures Keeps(AddByte(e, n, b), n + 1) && Total(AddByte(e, n, b)) == Total(e) + b * Pow(256, n)
  {
    hide Pow, Keeps, Total;
    BitsAre(e, n);
    RemainIsSmall(e, n, b);
    Powers(0);
    TwoDigits(e, n, b, 16, AddByte(e, n, b), 4);
  }

  lemma ByteFifth(e: Encoder, n: nat, b: Byte)
    requires Keeps(e, n) && n % 5 == 4
    ensures Keeps(AddByte(e, n, b), n + 1) && Total(AddByte(e, n, b)) == Total(e) + b * Pow(256, n)
  {
    hide Pow, Keeps, Total;
    BitsAre(e, n);
    RemainIsSmall(e, n, b);
    Powers(0);
    TwoDigits(e, n, b, 4, AddByte(e, n, b), 1);
  }

  /** A byte read keeps the encoder right, and adds the byte to the number. */
  lemma AddByteKeeps(e: Encoder, n: nat, b: Byte)
    requires Keeps(e, n)
    ensures Keeps(AddByte(e, n, b), n + 1)
    ensures Total(AddByte(e, n, b)) == Total(e) + b * Pow(256, n)
  {
    hide Pow, Keeps, Total, AddByte;
    match n % 5 {
      case 0 => ByteFirst(e, n, b);
      case 1 => ByteSecond(e, n, b);
      case 2 => ByteThird(e, n, b);
      case 3 => ByteFourth(e, n, b);
      case _ => ByteFifth(e, n, b);
    }
  }

  lemma NothingKept()
    ensures Keeps(Encoder([], 0, 0), 0) && Total(Encoder([], 0, 0)) == Value(256, Nats([]))
  {
  }

  lemma NatsAppend(init: seq<Byte>, last: Byte)
    ensures |Nats(init)| == |init| && Nats(init + [last]) == Nats(init) + [last as nat]
  {
  }

  lemma {:induction false} BytesKeep(bytes: seq<Byte>)
    ensures Keeps(AddBytes(bytes), |bytes|) && Total(AddBytes(bytes)) == Value(256, Nats(bytes))
  {
    hide Keeps, Total, AddByte, Value, Pow, Nats;
    if bytes == [] {
      NothingKept();
    } else {
      var init, last := bytes[..|bytes| - 1], bytes[|bytes| - 1];
      BytesKeep(init);
      AddByteKeeps(AddBytes(init), |init|, last);
      NatsAppend(init, last);
      assert bytes == init + [last];
      ValueAppend(256, Nats(init), last);
    }
  }

  // ----- what the text says -----

  /** The digits keep the number, and there are as few as can hold the bits. */
  lemma DigitsKeepValue(bytes: seq<Byte>)
    ensures Value(32, Digits(bytes)) == Value(256, Nats(bytes))
    ensures |Digits(bytes)| == (8 * |bytes| + 4) / 5
    ensures forall k :: 0 <= k < |Digits(bytes)| ==> Digits(bytes)[k] < 32
  {
    hide Pow, Value, AddBytes, Nats;
    BytesKeep(bytes);
    var e := AddBytes(bytes);
    RemainIsSmall(e, |bytes|, 0);
    BitsAre(e, |bytes|);
    if e.bits > 0 {
      ValueAppend(32, e.digits, e.remain);
    } else {
      assert e.remain == 0;
    }
  }

  /** Numbers with as many digits are equal only if all their digits are. */
  lemma {:induction false} ValueIsInjective(b: nat, d1: seq<nat>, d2: seq<nat>)
    requires b > 0 && |d1| == |d2| && Value(b, d1) == Value(b, d2)
    requires forall k :: 0 <= k < |d1| ==> d1[k] < b && d2[k] < b
    ensures d1 == d2
  {
    hide Pow;
    if d1 != [] {
      var i1, i2, n := d1[..|d1| - 1], d2[..|d2| - 1], |d1| - 1;
      ValueBelow(b, i1);
      ValueBelow(b, i2);
      SameTop(Value(b, i1), d1[n], Value(b, i2), d2[n], Pow(b, n));
      ValueIsInjective(b, i1, i2);
      assert d1 == i1 + [d1[n]] && d2 == i2 + [d2[n]];
    }
  }

  lemma OneMore(a: nat, b: nat, p: nat)
    ensures a < b ==> a * p + p <= b * p
  {
    if a < b {
      MulMono(p, a + 1, b);
    }
  }

  lemma SameTop(v1: nat, t1: nat, v2: nat, t2: nat, p: nat)
    requires v1 < p && v2 < p && v1 + t1 * p == v2 + t2 * p
    ensures t1 == t2 && v1 == v2
  {
    OneMore(t1, t2, p);
    OneMore(t2, t1, p);
  }

  lemma {:induction false} ValueBelow(b: nat, digits: seq<nat>)
    requires b > 0 && forall k :: 0 <= k < |digits| ==> digits[k] < b
    ensures Value(b, digits) < Pow(b, |digits|)
  {
    if digits != [] {
      var init, d := digits[..|digits| - 1], digits[|digits| - 1];
      ValueBelow(b, init);
      assert Pow(b, |digits|) == b * Pow(b, |init|) && Value(b, digits) == Value(b, init) + d * Pow(b, |init|);
      OneMore(d, b, Pow(b, |init|));
    }
  }

  /** The letters of the alphabet differ. */
  lemma TextIsInjective(d1: seq<nat>, d2: seq<nat>)
    requires Text(d1) == Text(d2)
    requires (forall k :: 0 <= k < |d1| ==> d1[k] < 32) && (forall k :: 0 <= k < |d2| ==> d2[k] < 32)
    ensures d1 == d2
  {
    assert |d1| == |Text(d1)| == |Text(d2)| == |d2|;
    forall k | 0 <= k < |d1|
      ensures d1[k] == d2[k]
    {
      assert Text(d1)[k] == ALPHABET[d1[k]] && Text(d2)[k] == ALPHABET[d2[k]];
      LetterTells(d1[k]);
      LetterTells(d2[k]);
    }
  }

  /** The digit that a letter stands for. */
  function DigitOf(c: char): nat
  {
    match c
    case 'y' => 0  case 'b' => 1  case 'n' => 2  case 'd' => 3
    case 'r' => 4  case 'f' => 5  case 'g' => 6  case '8' => 7
    case 'e' => 8  case 'j' => 9  case 'k' => 10 case 'm' => 11
    case 'c' => 12 case 'p' => 13 case 'q' => 14 case 'x' => 15
    case 'o' => 16 case 't' => 17 case '1' => 18 case 'u' => 19
    case 'w' => 20 case 'i' => 21 case 's' => 22 case 'z' => 23
    case 'a' => 24 case '3' => 25 case '4' => 26 case '5' => 27
    case 'h' => 28 case '7' => 29 case '6' => 30 case _ => 31
  }

  lemma LetterTells(d: nat)
    requires d < 32
    ensures DigitOf(ALPHABET[d]) == d
  {
  }

  /** Different inputs, of whatever lengths, have different texts. */
  lemma EncodingIsInjective(a: seq<Byte>, b: seq<Byte>)
    requires Text(Digits(a)) == Text(Digits(b))
    ensures a == b
  {
    DigitsKeepValue(a);
    DigitsKeepValue(b);
    TextIsInjective(Digits(a), Digits(b));
    assert |a| == |b|;
    ValueIsInjective(256, Nats(a), Nats(b));
    assert forall k :: 0 <= k < |a| ==> Nats(a)[k] == a[k] && Nats(b)[k] == b[k];
  }

  /** The length check lets pass buffers that the text and the NUL after it do not fit:
      just those that are one too short, or have room for the whole digits only. */
  lemma GuardGap(input: seq<Byte>, outlen: nat)
    ensures outlen >= |input| * 8 / 5 && outlen < |Text(Digits(input))| + 1 <==>
      |input| * 8 / 5 <= outlen <= (8 * |input| + 4) / 5
  {
    hide Digits;
    DigitsKeepValue(input);
  }

  /** One byte: a buffer of one passes the check, and needs three. */
  lemma OneByteOverruns()
    ensures 1 >= |[0 as Byte]| * 8 / 5 && |Text(Digits([0 as Byte]))| + 1 == 3
  {
    hide Digits;
    DigitsKeepValue([0 as Byte]);
  }

  /** The text of one byte: the letter of its low five bits, and that of the other three. */
  lemma OneByteText(b: Byte)
    ensures Text(Digits([b])) ==
      ["ybndrfg8ejkmcpqxot1uwisza345h769"[b % 32], "ybndrfg8ejkmcpqxot1uwisza345h769"[b / 32]]
  {
    assert [b][..0] == [] && AddBytes([]) == Encoder([], 0, 0);
    assert AddBytes([b]) == Encoder([b % 32], b / 32, 3);
    assert [b % 32] + [b / 32] == [b % 32, b / 32];
  }

  // ----- the loop of the source -----

  /** The digits are written, and nothing after them. */
  ghost predicate Written(out: seq<char>, digits: seq<nat>, before: seq<char>)
  {
    |out| == |before| && |digits| <= |out| && out == Text(digits) + before[|digits|..]
  }

  /** One digit more is written. */
  method Put(out: array<char>, r: nat, d: nat, ghost digits: seq<nat>, ghost before: seq<char>) returns (r': nat)
    requires r == |digits| < out.Length && d < 32 && Written(out[..], digits, before)
    modifies out
    ensures r' == r + 1 && Written(out[..], digits + [d], before)
  {
    out[r] := ALPHABET[d];
    assert Text(digits + [d]) == Text(digits) + [ALPHABET[d]];
    assert out[..] == old(out[..])[r := ALPHABET[d]];
    r' := r + 1;
  }

  method PutTwo(out: array<char>, r: nat, x: nat, ghost digits: seq<nat>, ghost before: seq<char>) returns (r': nat)
    requires r == |digits| < out.Length - 1 && Written(out[..], digits, before)
    modifies out
    ensures r' == r + 2 && Written(out[..], digits + [x % 32, x / 32 % 32], before)
  {
    hide Written;
    r' := Put(out, r, x % 32, digits, before);
    r' := Put(out, r', x / 32 % 32, digits + [x % 32], before);
    assert digits + [x % 32, x / 32 % 32] == digits + [x % 32] + [x / 32 % 32];
  }

  lemma Progress(input: seq<Byte>, i: nat)
    requires i < |input|
    ensures var e := AddBytes(input[..i]);
      Keeps(e, i) && AddBytes(input[..i + 1]) == AddByte(e, i, input[i]) && Keeps(AddByte(e, i, input[i]), i + 1)
  {
    assert input[..i + 1][..i] == input[..i];
    BytesKeep(input[..i]);
    BytesKeep(input[..i + 1]);
  }

  lemma NothingWritten(before: seq<char>)
    ensures AddBytes([]) == Encoder([], 0, 0) && Written(before, [], before) && Keeps(AddBytes([]), 0)
  {
  }

  lemma WrittenEnds(written: seq<char>, out: seq<char>, digits: seq<nat>, before: seq<char>)
    requires Written(written, digits, before) && |digits| < |written| && out == written[|digits| := 0 as char]
    ensures out == Text(digits) + [0 as char] + before[|digits| + 1..]
  {
  }

  lemma DigitsFit(e: Encoder, n: nat, total: nat)
    requires Keeps(e, n) && n <= total
    ensures |e.digits| <= (8 * total + 4) / 5
  {
  }

  /** The digits of one byte, by its place in a group of five; what is left over is -1
      if there is nothing. */
  method EncodeByte(out: array<char>, i: nat, b: Byte, r: nat, remain: int, ghost e: Encoder, ghost before: seq<char>)
    returns (r': nat, remain': int)
    requires Keeps(e, i) && r == |e.digits| && Written(out[..], e.digits, before)
    requires remain == if e.bits == 0 then -1 else e.remain
    requires |AddByte(e, i, b).digits| < out.Length
    modifies out
    ensures var e' := AddByte(e, i, b);
      && r' == |e'.digits| && Written(out[..], e'.digits, before)
      && remain' == if e'.bits == 0 then -1 else e'.remain
  {
    hide Keeps, Written;
    BitsAre(e, i);
    match i % 5 {
      case 0 =>
        remain' := b / 32;
        r' := Put(out, r, b % 32, e.digits, before);
      case 1 =>
        var x := remain + b * 8;
        r' := PutTwo(out, r, x, e.digits, before);
        remain' := x / 1024;
      case 2 =>
        var x := remain + b * 2;
        r' := Put(out, r, x % 32, e.digits, before);
        remain' := x / 32;
      case 3 =>
        var x := remain + b * 16;
        r' := PutTwo(out, r, x, e.digits, before);
        remain' := x / 1024 % 4;
      case _ =>
        var x := remain + b * 4;
        r' := PutTwo(out, r, x, e.digits, before);
        remain' := -1;
    }
  }

  /** The last digit, if bits are left over, and the NUL. */
  method Finish(out: array<char>, r: nat, remain: int, ghost input: seq<Byte>, ghost e: Encoder,
                ghost before: seq<char>)
    requires e == AddBytes(input) && Keeps(e, |input|) && |Digits(input)| < out.Length
    requires r == |e.digits| && Written(out[..], e.digits, before) && remain == if e.bits == 0 then -1 else e.remain
    modifies out
    ensures |Digits(input)| < |before|
    ensures out[..] == Text(Digits(input)) + [0 as char] + before[|Digits(input)| + 1..]
  {
    hide Text, AddBytes;
    RemainIsSmall(e, |input|, 0);
    var n := r;
    if remain >= 0 {
      n := Put(out, n, remain, e.digits, before);
    }
    ghost var written := out[..];
    out[n] := 0 as char;
    WrittenEnds(written, out[..], Digits(input), before);
  }

  /** `pkg_checksum_encode_base32`: the text and a NUL after it, or nothing if the
      length given for the output is less than the whole digits of the input. What is
      written has to fit, which the check alone does not see to (GuardGap). */
  method Encode(input: seq<Byte>, out: array<char>, outlen: nat)
    requires outlen >= |input| * 8 / 5 ==> (8 * |input| + 4) / 5 < out.Length
    modifies out
    ensures outlen < |input| * 8 / 5 ==> out[..] == old(out[..])
    ensures outlen >= |input| * 8 / 5 ==> |Digits(input)| < out.Length
    ensures outlen >= |input| * 8 / 5 ==>
      out[..] == Text(Digits(input)) + [0 as char] + old(out[..])[|Digits(input)| + 1..]
  {
    hide Keeps, AddByte, AddBytes, Written, Value, Text, Digits;
    DigitsKeepValue(input);
    if outlen < |input| * 8 / 5 {
      return;
    }
    ghost var before := out[..];
    ghost var e := AddBytes([]);
    var i, r, remain := 0, 0, -1;
    NothingWritten(before);
    while i < |input|
      invariant 0 <= i <= |input| && e == AddBytes(input[..i]) && Keeps(e, i)
      invariant r == |e.digits| && Written(out[..], e.digits, before)
      invariant remain == if e.bits == 0 then -1 else e.remain
    {
      var b := input[i];
      Progress(input, i);
      DigitsFit(AddByte(e, i, b), i + 1, |input|);
      r, remain := EncodeByte(out, i, b, r, remain, e, before);
      e := AddByte(e, i, b);
      i := i + 1;
    }
    assert input[..i] == input;
    Finish(out, r, remain, input, e, before);
  }
}
