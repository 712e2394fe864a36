/** Printing and parsing of integers and addresses: Arduino/Print.cpp,
    Arduino/Stream.cpp (parseInt) and Arduino/IPAddress.cpp. Text is a sequence of
    character codes. */
module Numbers {
  import opened Options
  import opened Words
  import Streams

  const ZERO: u8 := '0' as int
  const MINUS: u8 := '-' as int
  const DOT: u8 := '.' as int

  predicate IsDigit(c: int) { ZERO <= c <= ZERO + 9 }

  // ---- printing ----

  /** The character of a digit. The digit is a signed `char`: from 128 on it is negative,
      and so below ten. */
  function DigitCode(d: u8): u8 {
    var c: int := if d < 0x80 then d else d - 0x100;
    Wrap8(if c < 10 then c + ZERO else c + 'A' as int - 10)
  }

  /** The numeral of `n` in `base`, most significant digit first. */
  function Numeral(n: nat, base: nat): (t: seq<u8>)
    requires 2 <= base <= 0xFF
    ensures t != []
    decreases n
  {
    if n < base then [DigitCode(n)]
    else
      Quotient(n, base);
      Numeral(n / base, base) + [DigitCode(n % base)]
  }

  /** The values of the digits 0 to 9 and A to Z. */
  function DigitValue(c: int): int { if 48 <= c <= 57 then c - 48 else if 65 <= c <= 90 then c - 55 else -1 }

  function ValueIn(s: seq<u8>, base: nat): int {
    if s == [] then 0 else ValueIn(s[..|s| - 1], base) * base + DigitValue(s[|s| - 1])
  }

  /** In every base with printable digits the numeral is the number, in digits of the base
      and without a leading zero. */
  lemma {:induction false} NumeralDenotes(n: nat, base: nat)
    requires 2 <= base <= 36
    ensures ValueIn(Numeral(n, base), base) == n
    ensures forall k :: 0 <= k < |Numeral(n, base)| ==> 0 <= DigitValue(Numeral(n, base)[k]) < base
    ensures n > 0 ==> DigitValue(Numeral(n, base)[0]) > 0
    decreases n
  {
    hide DigitCode, DigitValue;
    if n < base {
      DigitDenotes(n);
      LastDigitCounts([], DigitCode(n), base);
      assert [] + [DigitCode(n)] == [DigitCode(n)] == Numeral(n, base);
    } else {
      LastDigitIsRest(n, base);
      hide Numeral;
      NumeralDenotes(n / base, base);
      DigitDenotes(n % base);
      LastDigitCounts(Numeral(n / base, base), DigitCode(n % base), base);
    }
  }

  lemma LastDigitIsRest(n: nat, base: nat)
    requires 2 <= base <= n && base <= 0xFF
    ensures Numeral(n, base) == Numeral(n / base, base) + [DigitCode(n % base)]
    ensures 0 < n / base < n && 0 <= n % base < base && n == (n / base) * base + n % base
  {
    hide DigitCode;
    Quotient(n, base);
  }

  lemma DigitDenotes(d: nat)
    requires d < 36
    ensures DigitValue(DigitCode(d)) == d
  {}

  lemma LastDigitCounts(t: seq<u8>, c: u8, base: nat)
    ensures ValueIn(t + [c], base) == ValueIn(t, base) * base + DigitValue(c)
  {
    assert (t + [c])[..|t|] == t;
  }

  /** 32 bits never need more than 32 digits. */
  lemma {:induction false} NumeralLength(n: nat, base: nat, bits: nat)
    requires 2 <= base <= 0xFF && n < Pow2(bits)
    ensures |Numeral(n, base)| <= if bits == 0 then 1 else bits
    decreases bits
  {
    if n >= base {
      Halved(n, base, bits);
      NumeralLength(n / base, base, bits - 1);
    }
  }

  function Pow2(k: nat): nat { if k == 0 then 1 else 2 * Pow2(k - 1) }

  lemma Halved(n: nat, base: nat, bits: nat)
    requires 2 <= base <= n < Pow2(bits)
    ensures bits >= 2 && n / base < Pow2(bits - 1)
  {
    var q, r := n / base, n % base;
    assert n == base * q + r;
    assert base * q >= 2 * q;
  }

  lemma Pow2Is32()
    ensures Pow2(32) == 0x1_0000_0000
  {
    assert Pow2(8) == 0x100;
    assert Pow2(16) == 0x1_0000;
    assert Pow2(24) == 0x100_0000;
  }

  lemma Quotient(m: nat, b: nat)
    requires 2 <= b
    ensures 0 <= m % b < b && 0 <= m / b <= m && (m / b == m ==> m == 0)
    ensures m / b == 0 <==> m < b
  {
    var q := m / b;
    assert m == b * q + m % b;
    if q == 0 {
      assert b * q == 0;
    } else {
      ProductBounds(b, q);
    }
  }

  lemma ProductBounds(b: nat, q: nat)
    requires b >= 2 && q >= 1
    ensures b * q >= b && b * q >= 2 * q
  {
    assert b * q == b + b * (q - 1);
    assert b * q == 2 * q + (b - 2) * q;
  }

  lemma NumeralStep(m: nat, b: nat, tail: seq<u8>)
    requires 2 <= b <= 0xFF
    ensures 0 <= m % b < b
    ensures Numeral(m, b) + tail ==
              (if m < b then [] else Numeral(m / b, b)) + ([DigitCode(m % b)] + tail)
  {
    Quotient(m, b);
  }

  /** A C string ends before the first NUL. */
  function BeforeNul(s: seq<u8>): seq<u8> {
    if s == [] || s[0] == 0 then [] else [s[0]] + BeforeNul(s[1..])
  }

  lemma {:induction false} NoNul(s: seq<u8>)
    ensures BeforeNul(s) == s <==> forall k :: 0 <= k < |s| ==> s[k] != 0
  {
    if s != [] {
      NoNul(s[1..]);
      assert s == [s[0]] + s[1..];
      assert forall k :: 1 <= k < |s| ==> s[k] == s[1..][k - 1];
    }
  }

  /** printNumber writes whole numerals exactly in bases up to 208: the digit 208 is
      stored as a NUL. */
  lemma WholeNumerals(base: nat)
    requires 2 <= base <= 0xFF
    ensures (forall n: nat :: BeforeNul(Numeral(n, base)) == Numeral(n, base)) <==> base <= 208
  {
    if base <= 208 {
      forall n: nat ensures BeforeNul(Numeral(n, base)) == Numeral(n, base) {
        DigitsAreNotNul(n, base);
        NoNul(Numeral(n, base));
      }
    } else {
      assert Numeral(208, base) == [0];
    }
  }

  lemma {:induction false} DigitsAreNotNul(n: nat, base: nat)
    requires 2 <= base <= 208
    ensures forall k :: 0 <= k < |Numeral(n, base)| ==> Numeral(n, base)[k] != 0
    decreases n
  {
    Quotient(n, base);
    if n >= base {
      DigitsAreNotNul(n / base, base);
    }
  }

  /** Stores one more digit in front. */
  method Prepend(buf: array<u8>, str: nat, d: u8)
    requires buf.Length == 33 && 0 < str <= 32
    modifies buf
    ensures buf[str - 1..32] == [DigitCode(d)] + old(buf[str..32]) && buf[32] == old(buf[32])
  {
    var c: int := if d < 0x80 then d else d - 0x100;
    buf[str - 1] := Wrap8(if c < 10 then c + ZERO else c + 'A' as int - 10);
  }

  /** write(const char *) */
  method WriteString(buf: array<u8>, from: nat) returns (text: seq<u8>)
    requires from < buf.Length && buf[buf.Length - 1] == 0
    ensures text == BeforeNul(buf[from..buf.Length - 1])
  {
    text := [];
    var i := from;
    ghost var whole := buf[from..buf.Length - 1];
    while buf[i] != 0
      invariant from <= i < buf.Length
      invariant text + BeforeNul(buf[i..buf.Length - 1]) == BeforeNul(whole)
      decreases buf.Length - i
    {
      assert buf[i..buf.Length - 1][1..] == buf[i + 1..buf.Length - 1];
      text := text + [buf[i]];
      i := i + 1;
    }
  }

  /** printNumber: fills a 33-byte buffer from the end; every store is inside it. */
  method PrintNumber(n: u32, base: u8) returns (text: seq<u8>)
    ensures var t := Numeral(n, if base < 2 then 10 else base);
            text == BeforeNul(t) && |t| <= 32 && (base <= 208 ==> text == t)
  {
    hide Numeral;
    var b := if base < 2 then 10 else base;
    var buf := new u8[33];
    var str := 32;
    buf[str] := 0;
    Pow2Is32();
    NumeralLength(n, b, 32);
    var m: nat := n;
    var more := true;
    while more
      invariant 0 <= str <= 32 && buf[32] == 0
      invariant (if more then Numeral(m, b) else []) + buf[str..32] == Numeral(n, b)
      decreases m, more
    {
      ghost var tail := buf[str..32];
      assert |Numeral(m, b)| + |tail| == |Numeral(n, b)|;
      NumeralStep(m, b, tail);
      Quotient(m, b);
      var c := m % b;
      m := m / b;
      Prepend(buf, str, c);
      str := str - 1;
      more := m != 0;
    }
    assert buf[str..32] == Numeral(n, b);
    text := WriteString(buf, str);
    WholeNumerals(b);
    assert b <= 208 ==> BeforeNul(Numeral(n, b)) == Numeral(n, b);
  }

  type i32 = x: int | -0x8000_0000 <= x < 0x8000_0000

  function Signed(x: u32): i32 { if x < 0x8000_0000 then x else x - 0x1_0000_0000 }

  /** What print(long) writes in base ten. The negation wraps for the least number. */
  function Printed(n: i32): seq<u8> {
    if n < 0 then [MINUS] + Numeral(Wrap32(0 - n), 10) else Numeral(n, 10)
  }

  /** print(long, int): base 0 writes the low byte as it is, other bases than ten print
      the two's complement; of those only the low byte counts. */
  method PrintLong(n: i32, base: int) returns (text: seq<u8>)
    ensures base == 0 ==> text == [Wrap8(n)]
    ensures base == 10 ==> text == Printed(n)
    ensures base != 0 && base != 10 ==>
              text == BeforeNul(Numeral(Wrap32(n), if Wrap8(base) < 2 then 10 else Wrap8(base)))
  {
    if base == 0 {
      text := [Wrap8(n)];
    } else if base == 10 {
      if n < 0 {
        var digits := PrintNumber(Wrap32(0 - n), 10);
        return [MINUS] + digits;
      }
      text := PrintNumber(n, 10);
    } else {
      text := PrintNumber(Wrap32(n), Wrap8(base));
    }
  }

  // ---- parsing integers ----

  datatype Lookahead = SkipAll | SkipNone | SkipWhitespace

  predicate StartsNumber(c: int) { c == MINUS || IsDigit(c) }

  predicate IsSpace(c: int) { c == 32 || c == 9 || c == 13 || c == 10 }

  predicate Skips(c: u8, mode: Lookahead) {
    !StartsNumber(c) && (mode.SkipAll? || (mode.SkipWhitespace? && IsSpace(c)))
  }

  /** The stream once peekNextDigit has discarded what it may. */
  function AfterSkip(s: seq<u8>, mode: Lookahead): seq<u8> {
    if s != [] && Skips(s[0], mode) then AfterSkip(s[1..], mode) else s
  }

  /** What peekNextDigit discards: nothing; spaces, tabs and line ends; or everything that
      is not a minus or a digit. It stops at the first character that it may not. */
  lemma {:induction false} SkipsExactly(s: seq<u8>, mode: Lookahead)
    ensures var t := AfterSkip(s, mode);
            var n := |s| - |t|;
            && 0 <= n && t == s[n..]
            && (forall k :: 0 <= k < n ==> s[k] != 45 && !(48 <= s[k] <= 57) && mode != SkipNone &&
                                           (mode == SkipWhitespace ==> s[k] in {9, 10, 13, 32}))
            && (t == [] || t[0] == 45 || 48 <= t[0] <= 57 || mode == SkipNone ||
                (mode == SkipWhitespace && t[0] !in {9, 10, 13, 32}))
  {
    if s != [] && Skips(s[0], mode) {
      SkipsExactly(s[1..], mode);
      assert forall k :: 1 <= k < |s| ==> s[k] == s[1..][k - 1];
    }
  }

  /** The `char` to be ignored is signed: as an `int` it is never equal to a character
      code above 127, but at -1 it is equal to the mark of a timeout. */
  type i8 = x: int | -0x80 <= x < 0x80

  /** The digits of a numeral that has begun with value `v`; `ignore` is passed over. */
  function AfterDigits(s: seq<u8>, ignore: i8, v: u32): (u32, seq<u8>) {
    if s != [] && (IsDigit(s[0]) || s[0] == ignore) then
      AfterDigits(s[1..], ignore, if s[0] == ignore then v else Wrap32(v * 10 + s[0] - ZERO))
    else (v, s)
  }

  /** Does the loop of parseInt go on, when `s` is what is left of the stream? */
  predicate GoesOn(s: seq<u8>, ignore: i8) {
    var c: int := if s == [] then -1 else s[0];
    IsDigit(c) || c == ignore
  }

  ghost predicate AllDigits(s: seq<u8>) { forall i :: 0 <= i < |s| ==> IsDigit(s[i]) }

  /** Is the loop still running after `k` more rounds? */
  predicate StillRunning(s: seq<u8>, ignore: i8, k: nat) {
    GoesOn(s, ignore) && (k == 0 || StillRunning(if s == [] then [] else s[1..], ignore, k - 1))
  }

  lemma {:induction false} RunsOn(s: seq<u8>, k: nat)
    requires AllDigits(s)
    ensures StillRunning(s, -1, k)
  {
    if k > 0 {
      RunsOn(if s == [] then [] else s[1..], k - 1);
    }
  }

  lemma {:induction false} Stops(s: seq<u8>, ignore: i8) returns (k: nat)
    requires !(ignore == -1 && AllDigits(s))
    ensures !StillRunning(s, ignore, k)
  {
    if !GoesOn(s, ignore) {
      k := 0;
    } else {
      k := Stops(s[1..], ignore);
      k := k + 1;
    }
  }

  /** Does parseInt return, on this text and then a timeout? */
  ghost predicate Returns(s: seq<u8>, mode: Lookahead, ignore: i8) {
    var t := AfterSkip(s, mode);
    t == [] || !StartsNumber(t[0]) || !(ignore == -1 && AllDigits(t[1..]))
  }

  /** Once a number has begun, parseInt fails to return exactly if -1 is ignored and the
      text runs out inside the number: then every timeout counts as one more ignored
      character. */
  lemma ReturnsUnless(s: seq<u8>, mode: Lookahead, ignore: i8)
    requires var t := AfterSkip(s, mode); t != [] && StartsNumber(t[0])
    ensures var t := AfterSkip(s, mode);
            && (Returns(s, mode, ignore) <==> exists k :: !StillRunning(t[1..], ignore, k))
            && ((forall k :: StillRunning(t[1..], ignore, k)) <==> ignore == -1 && AllDigits(t[1..]))
  {
    var t := AfterSkip(s, mode);
    if Returns(s, mode, ignore) {
      var k := Stops(t[1..], ignore);
    } else {
      forall k ensures StillRunning(t[1..], ignore, k) {
        RunsOn(t[1..], k);
      }
    }
  }

  /** The value parseInt returns, if it does, and what it leaves unread. */
  function Parsed(s: seq<u8>, mode: Lookahead, ignore: i8): (i32, seq<u8>) {
    var t := AfterSkip(s, mode);
    if t == [] || !StartsNumber(t[0]) then (0, t)
    else
      var v := if t[0] == ignore || t[0] == MINUS then 0 else t[0] - ZERO;
      var r := AfterDigits(t[1..], ignore, v);
      (Signed(if t[0] == MINUS && t[0] != ignore then Wrap32(0 - r.0) else r.0), r.1)
  }

  method PeekNextDigit(stream: Streams.Stream, mode: Lookahead) returns (c: int)
    modifies stream
    ensures stream.rest == AfterSkip(old(stream.rest), mode)
    ensures c == if stream.rest == [] || !StartsNumber(stream.rest[0]) then -1 else stream.rest[0]
  {
    while true
      invariant AfterSkip(stream.rest, mode) == AfterSkip(old(stream.rest), mode)
      decreases |stream.rest|
    {
      c := stream.TimedPeek();
      if c < 0 || c == MINUS || IsDigit(c) {
        return;
      }
      match mode {
        case SkipNone => return -1;
        case SkipWhitespace => if !IsSpace(c) { return -1; }
        case SkipAll =>
      }
      c := stream.TimedRead();
    }
  }

  method ParseInt(stream: Streams.Stream, mode: Lookahead, ignore: i8) returns (value: i32)
    requires Returns(stream.rest, mode, ignore)
    modifies stream
    ensures (value, stream.rest) == Parsed(old(stream.rest), mode, ignore)
  {
    var c := PeekNextDigit(stream, mode);
    if c < 0 {
      return 0;
    }
    ghost var t := stream.rest;
    var isNegative := false;
    var v: u32 := 0;
    var first := true;
    while first || IsDigit(c) || c == ignore
      invariant c == if stream.rest == [] then -1 else stream.rest[0]
      invariant first ==> stream.rest == t && v == 0 && !isNegative && t != [] && StartsNumber(t[0])
      invariant ignore == -1 ==> !AllDigits(if first then t[1..] else stream.rest)
      invariant !first ==> isNegative == (t[0] == MINUS && t[0] != ignore)
      invariant !first ==> (AfterDigits(stream.rest, ignore, v) ==
                  AfterDigits(t[1..], ignore, if t[0] == ignore || t[0] == MINUS then 0 else t[0] - ZERO))
      decreases |stream.rest|
    {
      if c == ignore {
      } else if c == MINUS {
        isNegative := true;
      } else if IsDigit(c) {
        v := Wrap32(v * 10 + c - ZERO);
      }
      c := stream.TimedRead();
      c := stream.TimedPeek();
      first := false;
    }
    if isNegative {
      v := Wrap32(0 - v);
    }
    value := Signed(v);
  }

  // ---- printing and parsing undo each other ----

  /** The number that decimal digits continue `v` to. */
  function Value(v: nat, s: seq<u8>): nat
    requires AllDigits(s)
    decreases |s|
  {
    if s == [] then v else Value(v * 10 + s[0] - ZERO, s[1..])
  }

  lemma {:induction false} ValueAppend(v: nat, s: seq<u8>, d: u8)
    requires AllDigits(s) && IsDigit(d)
    ensures AllDigits(s + [d]) && Value(v, s + [d]) == Value(v, s) * 10 + d - ZERO
    decreases |s|
  {
    if s == [] {
      assert [d][1..] == [];
    } else {
      ValueAppend(v * 10 + s[0] - ZERO, s[1..], d);
      assert (s + [d])[1..] == s[1..] + [d];
    }
  }

  /** The decimal numeral of `n` has the value `n`. */
  lemma {:induction false} ValueOfNumeral(n: nat)
    ensures AllDigits(Numeral(n, 10)) && Value(0, Numeral(n, 10)) == n
  {
    if n < 10 {
      assert Numeral(n, 10)[1..] == [];
    } else {
      ValueOfNumeral(n / 10);
      ValueAppend(0, Numeral(n / 10, 10), DigitCode(n % 10));
    }
  }

  lemma {:induction false} ValueGrows(v: nat, s: seq<u8>)
    requires AllDigits(s)
    ensures Value(v, s) >= v
    decreases |s|
  {
    if s != [] {
      ValueGrows(v * 10 + s[0] - ZERO, s[1..]);
    }
  }

  /** What may follow a number so that parseInt stops there. */
  predicate Delimited(rest: seq<u8>, ignore: i8) {
    rest == [] || (!IsDigit(rest[0]) && rest[0] != ignore)
  }

  lemma {:induction false} DigitsAreRead(s: seq<u8>, rest: seq<u8>, ignore: i8, v: u32)
    requires AllDigits(s) && !IsDigit(ignore) && Delimited(rest, ignore) && Value(v, s) < 0x1_0000_0000
    ensures AfterDigits(s + rest, ignore, v) == (Value(v, s), rest)
    decreases |s|
  {
    if s == [] {
      assert s + rest == rest;
    } else {
      var v' := v * 10 + s[0] - ZERO;
      ValueGrows(v', s[1..]);
      assert (s + rest)[1..] == s[1..] + rest && (s + rest)[0] == s[0];
      FitsUnwrapped(v');
      DigitsAreRead(s[1..], rest, ignore, v');
    }
  }

  lemma FitsUnwrapped(x: nat)
    requires x < 0x1_0000_0000
    ensures Wrap32(x) == x
  {}

  lemma {:induction false} JunkIsSkipped(junk: seq<u8>, s: seq<u8>, mode: Lookahead)
    requires forall i :: 0 <= i < |junk| ==> Skips(junk[i], mode)
    requires s == [] || StartsNumber(s[0])
    ensures AfterSkip(junk + s, mode) == s
  {
    if junk == [] {
      assert junk + s == s;
    } else {
      assert (junk + s)[1..] == junk[1..] + s;
      JunkIsSkipped(junk[1..], s, mode);
    }
  }

  function Without(s: seq<u8>, ignore: i8): (r: seq<u8>) {
    if s == [] then [] else (if s[0] == ignore then [] else [s[0]]) + Without(s[1..], ignore)
  }

  /** Digits, with characters to be ignored between them. */
  ghost predicate DigitsOrIgnored(s: seq<u8>, ignore: i8) {
    forall k :: 0 <= k < |s| ==> IsDigit(s[k]) || s[k] == ignore
  }

  lemma {:induction false} WithoutIsDigits(s: seq<u8>, ignore: i8)
    requires DigitsOrIgnored(s, ignore)
    ensures AllDigits(Without(s, ignore))
  {
    if s != [] {
      WithoutIsDigits(s[1..], ignore);
    }
  }

  /** Cutting the value on the way is cutting it at the end. */
  lemma {:induction false} ValueCongruent(v: nat, s: seq<u8>)
    requires AllDigits(s)
    ensures Wrap32(Value(Wrap32(v), s)) == Wrap32(Value(v, s))
    decreases |s|
  {
    if s == [] {
      WrapTwice(v);
    } else {
      var w := Wrap32(v) * 10 + s[0] - ZERO;
      ValueCongruent(w, s[1..]);
      ValueCongruent(v * 10 + s[0] - ZERO, s[1..]);
      WrapTimesTen(v, s[0] - ZERO);
    }
  }

  lemma WrapTwice(v: nat)
    ensures Wrap32(Wrap32(v)) == Wrap32(v)
  {}

  lemma WrapTimesTen(v: nat, d: nat)
    ensures Wrap32(Wrap32(v) * 10 + d) == Wrap32(v * 10 + d)
  {
    var q := v / 0x1_0000_0000;
    assert v == q * 0x1_0000_0000 + Wrap32(v);
    AddMultiple(Wrap32(v) * 10 + d, 10 * q);
    hide Wrap32;
  }

  /** Ignored characters change nothing, and the value of the digits is taken modulo 2^32. */
  lemma {:induction false} IgnoredArePassed(s: seq<u8>, rest: seq<u8>, ignore: i8, v: u32)
    requires DigitsOrIgnored(s, ignore) && Delimited(rest, ignore)
    ensures AllDigits(Without(s, ignore))
    ensures AfterDigits(s + rest, ignore, v) == (Wrap32(Value(v, Without(s, ignore))), rest)
    decreases |s|
  {
    WithoutIsDigits(s, ignore);
    if s == [] {
      assert s + rest == rest;
      FitsUnwrapped(v);
    } else {
      assert (s + rest)[1..] == s[1..] + rest && (s + rest)[0] == s[0];
      var w := Without(s[1..], ignore);
      if s[0] == ignore {
        assert Without(s, ignore) == w;
        IgnoredArePassed(s[1..], rest, ignore, v);
      } else {
        var d := v * 10 + s[0] - ZERO;
        assert Without(s, ignore) == [s[0]] + w && ([s[0]] + w)[1..] == w;
        IgnoredArePassed(s[1..], rest, ignore, Wrap32(d));
        ValueCongruent(d, w);
      }
    }
  }

  /** parseInt on any text that begins with a minus or a digit: its value is that of the
      digits that follow, without the ignored character, which may be a digit or the minus
      itself. Of the rest nothing is read. */
  lemma ParsesThroughIgnored(minus: bool, s: seq<u8>, rest: seq<u8>, mode: Lookahead, ignore: i8)
    requires DigitsOrIgnored(s, ignore) && Delimited(rest, ignore) && (!minus ==> s != [] && IsDigit(s[0]))
    ensures AllDigits(Without(s, ignore))
    ensures var v := Wrap32(Value(0, Without(s, ignore)));
            Parsed((if minus then [MINUS] else []) + (s + rest), mode, ignore) ==
              (Signed(if minus && ignore != MINUS then Wrap32(0 - v) else v), rest)
  {
    hide Without, Value, Signed, Wrap32;
    var text := (if minus then [MINUS] else []) + (s + rest);
    IgnoredArePassed(s, rest, ignore, 0);
    if minus {
      assert text[1..] == s + rest;
    } else {
      assert text == s + rest;
      assert AfterDigits(text, ignore, 0) ==
             AfterDigits(text[1..], ignore, if s[0] == ignore then 0 else Wrap32(s[0] - ZERO));
      FitsUnwrapped(s[0] - ZERO);
    }
  }

  /** parseInt reads back what print wrote, for every 32-bit number, after anything the
      mode skips and before any delimiter, which stays unread. Only if nothing follows
      and -1 is ignored does it not return. */
  lemma PrintThenParse(n: i32, junk: seq<u8>, rest: seq<u8>, mode: Lookahead, ignore: i8)
    requires forall i :: 0 <= i < |junk| ==> Skips(junk[i], mode)
    requires !IsDigit(ignore) && ignore != MINUS && Delimited(rest, ignore)
    ensures var text := junk + (Printed(n) + rest);
            && Parsed(text, mode, ignore) == (n, rest)
            && (Returns(text, mode, ignore) <==> ignore != -1 || rest != [])
  {
    hide Printed, Numeral, AfterSkip, AfterDigits, Signed, Wrap32;
    ReadsBack(n, rest, ignore);
    JunkIsSkipped(junk, Printed(n) + rest, mode);
    SignRestored(n);
    DigitsRunOut(n, rest);
  }

  /** Behind the first character there are only digits exactly if nothing follows the
      number, as what follows does not begin with a digit. */
  lemma DigitsRunOut(n: i32, rest: seq<u8>)
    requires rest == [] || !IsDigit(rest[0])
    ensures AllDigits((Printed(n) + rest)[1..]) <==> rest == []
  {
    var d := Numeral(if n < 0 then Wrap32(0 - n) else n, 10);
    ValueOfNumeral(if n < 0 then Wrap32(0 - n) else n);
    var t := Printed(n);
    Tail(t, rest);
    assert n < 0 ==> t[1..] == d;
    hide Numeral;
    if rest != [] {
      assert (t[1..] + rest)[|t| - 1] == rest[0];
    }
  }

  lemma SignRestored(n: i32)
    ensures n >= 0 ==> Signed(n) == n
    ensures n < 0 ==> Signed(Wrap32(0 - (0 - n))) == n
  {}

  lemma ReadsBack(n: i32, rest: seq<u8>, ignore: i8)
    requires !IsDigit(ignore) && ignore != MINUS && Delimited(rest, ignore)
    ensures var t := Printed(n) + rest;
            && t != [] && StartsNumber(t[0])
            && (t[0] == MINUS <==> n < 0)
            && AfterDigits(t[1..], ignore, if n < 0 then 0 else t[0] - ZERO) == (if n < 0 then 0 - n else n, rest)
  {
    hide AfterDigits, Numeral;
    if n < 0 {
      FitsUnwrapped(0 - n);
      NumeralIsRead(0 - n, rest, ignore);
      Tail([MINUS] + Numeral(0 - n, 10), rest);
      assert ([MINUS] + Numeral(0 - n, 10))[1..] == Numeral(0 - n, 10);
    } else {
      NumeralIsRead(n, rest, ignore);
      Tail(Numeral(n, 10), rest);
    }
  }

  lemma Tail(t: seq<u8>, rest: seq<u8>)
    requires t != []
    ensures (t + rest)[0] == t[0] && (t + rest)[1..] == t[1..] + rest
  {}

  lemma NumeralIsRead(n: u32, rest: seq<u8>, ignore: i8)
    requires !IsDigit(ignore) && Delimited(rest, ignore)
    ensures var d := Numeral(n, 10);
            && IsDigit(d[0])
            && AfterDigits(d + rest, ignore, 0) == (n, rest)
            && AfterDigits(d[1..] + rest, ignore, d[0] - ZERO) == (n, rest)
  {
    var d := Numeral(n, 10);
    ValueOfNumeral(n);
    hide Numeral;
    DigitsAreRead(d, rest, ignore, 0);
    DigitsAreRead(d[1..], rest, ignore, d[0] - ZERO);
  }

  // ---- addresses ----


  /** What fromString reads from `s`, with `acc` so far of the octet after `dots` dots:
      the rest of the four octets, if the text is acceptable. */
  function Octets(s: seq<u8>, acc: u8, dots: nat): (r: Option<seq<u8>>)
    requires dots <= 3
    ensures r.Some? ==> |r.value| == 4 - dots
  {
    if s == [] then if dots == 3 then Some([acc]) else None
    else if IsDigit(s[0]) then
      var a := acc * 10 + s[0] - ZERO;
      if a > 255 then None else Octets(s[1..], a, dots)
    else if s[0] == DOT && dots < 3 then
      After([acc], Octets(s[1..], 0, dots + 1))
    else None
  }

  function After(done: seq<u8>, r: Option<seq<u8>>): Option<seq<u8>> {
    if r.Some? then Some(done + r.value) else None
  }

  lemma AfterNone(r: Option<seq<u8>>)
    ensures After([], r) == r
  {
    assert r.Some? ==> [] + r.value == r.value;
  }

  lemma AfterOne(done: seq<u8>, acc: u8, r: Option<seq<u8>>)
    ensures After(done, After([acc], r)) == After(done + [acc], r)
  {
    assert r.Some? ==> done + ([acc] + r.value) == done + [acc] + r.value;
  }

  class IPAddress {
    const bytes: array<u8>

    ghost predicate Valid() { bytes.Length == 4 }

    constructor (address: seq<u8>)
      requires |address| == 4
      ensures Valid() && bytes[..] == address && fresh(bytes)
    {
      bytes := new u8[4](i requires 0 <= i < 4 => address[i]);
      new;
      assert bytes[..] == address;
    }

    method FromString(address: seq<u8>) returns (ok: bool)
      requires Valid()
      modifies bytes
      ensures var r := Octets(address, 0, 0);
              ok == r.Some? && (ok ==> bytes[..] == r.value) && (!ok ==> bytes[3] == old(bytes[3]))
    {
      var acc: u16 := 0;
      var dots := 0;
      ghost var done: seq<u8> := [];
      var i := 0;
      assert address[0..] == address;
      AfterNone(Octets(address, 0, 0));
      while i < |address|
        invariant 0 <= i <= |address| && 0 <= dots <= 3 && acc <= 255
        invariant bytes[3] == old(bytes[3])
        invariant |done| == dots && forall k :: 0 <= k < dots ==> bytes[k] == done[k]
        invariant Octets(address, 0, 0) == After(done, Octets(address[i..], acc, dots))
      {
        var c := address[i];
        assert address[i..][1..] == address[i + 1..];
        i := i + 1;
        if IsDigit(c) {
          acc := acc * 10 + (c - ZERO);
          if acc > 255 {
            return false;
          }
        } else if c == DOT {
          if dots == 3 {
            return false;
          }
          bytes[dots] := acc;
          AfterOne(done, acc, Octets(address[i..], 0, dots + 1));
          done := done + [acc];
          dots := dots + 1;
          acc := 0;
        } else {
          return false;
        }
      }
      if dots != 3 {
        return false;
      }
      bytes[3] := acc;
      assert bytes[..] == done + [acc];
      ok := true;
    }

    method PrintTo() returns (text: seq<u8>)
      requires Valid()
      ensures text == Dotted(Numerals(bytes[..]))
    {
      hide Numeral;
      text := [];
      ghost var g := Numerals(bytes[..]);
      for i := 0 to 3
        invariant text + Dotted(g[i..]) == Dotted(g)
      {
        var t := PrintNumber(bytes[i], 10);
        assert g[i..][1..] == g[i + 1..] && t == g[i];
        Regroup(text, t, [DOT], Dotted(g[i + 1..]));
        text := text + t;
        text := text + [DOT];
      }
      var t := PrintNumber(bytes[3], 10);
      text := text + t;
    }
  }

  lemma Regroup(a: seq<u8>, b: seq<u8>, c: seq<u8>, d: seq<u8>)
    ensures a + (b + c + d) == a + b + c + d
  {}

  function Numerals(a: seq<u8>): (g: seq<seq<u8>>)
    ensures |g| == |a| && forall k :: 0 <= k < |a| ==> g[k] == Numeral(a[k], 10)
  {
    seq(|a|, k requires 0 <= k < |a| => Numeral(a[k], 10))
  }

  /** Groups of characters with dots between them. */
  function Dotted(g: seq<seq<u8>>): seq<u8>
    requires g != []
  {
    if |g| == 1 then g[0] else g[0] + [DOT] + Dotted(g[1..])
  }

  /** Groups of digits, possibly empty, each with a value up to 255; the first one
      continues `acc`. */
  ghost predicate OctetGroups(g: seq<seq<u8>>, acc: u8) {
    && g != [] && (forall k :: 0 <= k < |g| ==> AllDigits(g[k]))
    && Value(acc, g[0]) <= 255 && forall k :: 1 <= k < |g| ==> Value(0, g[k]) <= 255
  }

  ghost function GroupValues(g: seq<seq<u8>>, acc: u8): (v: seq<u8>)
    requires OctetGroups(g, acc)
    ensures |v| == |g|
  {
    [Value(acc, g[0])] + if |g| == 1 then [] else GroupValues(g[1..], 0)
  }

  lemma {:induction false} GroupsAreRead(g: seq<seq<u8>>, acc: u8, dots: nat)
    requires OctetGroups(g, acc) && |g| == 4 - dots
    ensures Octets(Dotted(g), acc, dots) == Some(GroupValues(g, acc))
    decreases |g|, |g[0]|
  {
    var s := Dotted(g);
    if g[0] != [] {
      var a := acc * 10 + g[0][0] - ZERO;
      ValueGrows(a, g[0][1..]);
      var g' := [g[0][1..]] + g[1..];
      assert g'[1..] == g[1..];
      assert s[0] == g[0][0] && s[1..] == Dotted(g');
      GroupsAreRead(g', a, dots);
    } else if |g| > 1 {
      assert s == [DOT] + Dotted(g[1..]);
      assert s[1..] == Dotted(g[1..]);
      GroupsAreRead(g[1..], 0, dots + 1);
    } else {
      assert GroupValues(g, acc) == [acc];
    }
  }

  lemma {:induction false} ReadsOnlyGroups(s: seq<u8>, acc: u8, dots: nat) returns (g: seq<seq<u8>>)
    requires dots <= 3 && Octets(s, acc, dots).Some?
    ensures OctetGroups(g, acc) && |g| == 4 - dots && s == Dotted(g)
    decreases |s|
  {
    if s == [] {
      g := [[]];
    } else if IsDigit(s[0]) {
      var a := acc * 10 + s[0] - ZERO;
      var h := ReadsOnlyGroups(s[1..], a, dots);
      g := [[s[0]] + h[0]] + h[1..];
      assert ([s[0]] + h[0])[1..] == h[0] && g[1..] == h[1..];
      assert s == [s[0]] + s[1..];
    } else {
      var h := ReadsOnlyGroups(s[1..], 0, dots + 1);
      g := [[]] + h;
      assert g[1..] == h;
      assert s == [DOT] + s[1..];
    }
  }

  /** fromString accepts exactly four groups of digits with dots between them, each
      group worth at most 255. A group may be empty, and may begin with zeros. */
  lemma AcceptsExactly(s: seq<u8>)
    ensures Octets(s, 0, 0).Some? <==> exists g :: OctetGroups(g, 0) && |g| == 4 && s == Dotted(g)
    ensures forall g :: OctetGroups(g, 0) && |g| == 4 && s == Dotted(g) ==> Octets(s, 0, 0) == Some(GroupValues(g, 0))
  {
    if Octets(s, 0, 0).Some? {
      var g := ReadsOnlyGroups(s, 0, 0);
    }
    forall g | OctetGroups(g, 0) && |g| == 4 && s == Dotted(g) ensures Octets(s, 0, 0) == Some(GroupValues(g, 0)) {
      GroupsAreRead(g, 0, 0);
    }
  }

  /** Three dots alone are the address 0.0.0.0. */
  lemma DotsAlone()
    ensures Octets([DOT, DOT, DOT], 0, 0) == Some([0, 0, 0, 0])
  {
    var g: seq<seq<u8>> := [[], [], [], []];
    assert Dotted(g[1..][1..][1..]) == [] && Dotted(g[1..][1..]) == [DOT] && Dotted(g[1..]) == [DOT, DOT];
    GroupsAreRead(g, 0, 0);
    FourValues(g, [0, 0, 0, 0]);
  }

  /** fromString reads back what printTo wrote, for every address. */
  lemma AddressRoundTrip(a: seq<u8>)
    requires |a| == 4
    ensures Octets(Dotted(Numerals(a)), 0, 0) == Some(a)
  {
    var g := Numerals(a);
    forall k | 0 <= k < 4 ensures AllDigits(g[k]) && Value(0, g[k]) == a[k] {
      ValueOfNumeral(a[k]);
    }
    GroupsAreRead(g, 0, 0);
    FourValues(g, a);
  }

  lemma FourValues(g: seq<seq<u8>>, a: seq<u8>)
    requires |g| == |a| == 4 && OctetGroups(g, 0)
    requires forall k :: 0 <= k < 4 ==> Value(0, g[k]) == a[k]
    ensures GroupValues(g, 0) == a
  {
    assert GroupValues(g[1..][1..][1..], 0) == [a[3]];
    assert GroupValues(g[1..][1..], 0) == [a[2], a[3]];
    assert GroupValues(g[1..], 0) == [a[1], a[2], a[3]];
  }
}
