/** Base58 and Base58Check (BRBase58.c): leading zero bytes become leading '1's, the rest is a change of base done in
    place on a digit buffer whose size is a fixed fraction of the input length. */
module Base58 {
  import opened Bits
  import opened Bytes
  import opened Radix

  // ---- the alphabet ----

  /** chars[d] */
  function CharOf(d: nat): char
    requires d < 58
  {
    if d < 9 then ('1' as int + d) as char
    else if d < 17 then ('A' as int + d - 9) as char
    else if d < 22 then ('J' as int + d - 17) as char
    else if d < 33 then ('P' as int + d - 22) as char
    else if d < 44 then ('a' as int + d - 33) as char
    else ('m' as int + d - 44) as char
  }

  const INVALID: nat := 0xffffffff

  /** The switch of the decoder. */
  function DigitOf(c: char): nat {
    if '1' <= c <= '9' then c as int - '1' as int
    else if 'A' <= c <= 'H' then c as int + 9 - 'A' as int
    else if 'J' <= c <= 'N' then c as int + 17 - 'J' as int
    else if 'P' <= c <= 'Z' then c as int + 22 - 'P' as int
    else if 'a' <= c <= 'k' then c as int + 33 - 'a' as int
    else if 'm' <= c <= 'z' then c as int + 44 - 'm' as int
    else INVALID
  }

  lemma AlphabetInverse(d: nat, c: char)
    ensures d < 58 ==> DigitOf(CharOf(d)) == d
    ensures DigitOf(c) < 58 ==> CharOf(DigitOf(c)) == c
  {
  }

  /** The alphabet is the digits and letters in their usual order, without 0, O, I and l, which look like others. */
  lemma AlphabetIs(d: nat, e: nat, c: char)
    ensures d < e < 58 ==> CharOf(d) < CharOf(e)
    ensures DigitOf(c) < 58 <==>
            ('0' <= c <= '9' || 'A' <= c <= 'Z' || 'a' <= c <= 'z') && c !in ['0', 'O', 'I', 'l']
  {
    AlphabetInverse(d, CharOf(if d < 58 then d else 0));
  }

  predicate Valid(s: string) {
    forall i | 0 <= i < |s| :: DigitOf(s[i]) < 58
  }

  // ---- what encoding and decoding mean ----

  function Zeros<T(==)>(s: seq<T>, zero: T): (n: nat)
    ensures n <= |s| && (forall i | 0 <= i < n :: s[i] == zero) && (n < |s| ==> s[n] != zero)
  {
    if s != [] && s[0] == zero then 1 + Zeros(s[1..], zero) else 0
  }

  function Repeat<T>(x: T, n: nat): (s: seq<T>)
    ensures |s| == n && forall i | 0 <= i < n :: s[i] == x
  {
    seq(n, _ => x)
  }

  function ToChars(ds: seq<nat>): (s: string)
    requires AllBelow(58, ds)
    ensures |s| == |ds|
  {
    seq(|ds|, i requires 0 <= i < |ds| => CharOf(ds[i]))
  }

  function ToDigits(s: string): (ds: seq<nat>)
    ensures |ds| == |s|
  {
    seq(|s|, i requires 0 <= i < |s| => DigitOf(s[i]))
  }

  function Encoding(data: seq<Byte>): string {
    var z := Zeros(data, 0);
    DigitsValue(58, Value(256, data[z..]));
    Repeat('1', z) + ToChars(Digits(58, Value(256, data[z..])))
  }

  /** The characters before the first one outside the alphabet; decoding ignores the rest. */
  function ValidPrefix(s: string): (p: string)
    ensures Valid(p) && p <= s
  {
    if s == [] || DigitOf(s[0]) >= 58 then [] else
    var p := [s[0]] + ValidPrefix(s[1..]);
    p
  }

  function Decoding(s: string): seq<nat> {
    var p := ValidPrefix(s);
    var z := Zeros(p, '1');
    Repeat(0, z) + Digits(256, Value(58, ToDigits(p[z..])))
  }

  lemma {:induction false} ValidIsOwnPrefix(s: string)
    requires Valid(s)
    ensures ValidPrefix(s) == s
  {
    if s != [] {
      assert Valid(s[1..]);
      ValidIsOwnPrefix(s[1..]);
    }
  }

  lemma {:induction false} ZerosOfRepeat<T>(zero: T, n: nat, rest: seq<T>)
    requires rest != [] ==> rest[0] != zero
    ensures Zeros(Repeat(zero, n) + rest, zero) == n
  {
    if n > 0 {
      assert (Repeat(zero, n) + rest)[1..] == Repeat(zero, n - 1) + rest;
      ZerosOfRepeat(zero, n - 1, rest);
    } else {
      assert Repeat(zero, n) + rest == rest;
    }
  }

  lemma CharsInverse(ds: seq<nat>)
    requires AllBelow(58, ds)
    ensures Valid(ToChars(ds)) && ToDigits(ToChars(ds)) == ds
    ensures ds != [] && ds[0] != 0 ==> ToChars(ds)[0] != '1'
  {
    forall i | 0 <= i < |ds| ensures DigitOf(ToChars(ds)[i]) == ds[i] {
      AlphabetInverse(ds[i], '1');
    }
  }

  /** Decoding undoes encoding. */
  lemma DecodeEncode(data: seq<Byte>)
    ensures Valid(Encoding(data)) && Decoding(Encoding(data)) == data
  {
    var z := Zeros(data, 0);
    var rest: seq<nat> := data[z..];
    var ds := Digits(58, Value(256, rest));
    DigitsValue(58, Value(256, rest));
    DecodeParts(z, ds, Value(256, rest));
    ValueDigits(256, rest);
    ZerosSplit<nat>(data, 0);
  }

  lemma ZerosSplit<T>(s: seq<T>, zero: T)
    ensures s == Repeat(zero, Zeros(s, zero)) + s[Zeros(s, zero)..]
  {
  }

  lemma DecodeParts(z: nat, ds: seq<nat>, v: nat)
    requires AllBelow(58, ds) && (ds != [] ==> ds[0] != 0) && Value(58, ds) == v
    ensures Valid(Repeat('1', z) + ToChars(ds))
    ensures Decoding(Repeat('1', z) + ToChars(ds)) == Repeat(0, z) + Digits(256, v)
  {
    var cs := ToChars(ds);
    var s := Repeat('1', z) + cs;
    CharsInverse(ds);
    ValidIsOwnPrefix(s);
    ZerosOfRepeat('1', z, cs);
    assert s[z..] == cs;
  }

  lemma DigitsInverse(s: string)
    requires Valid(s)
    ensures AllBelow(58, ToDigits(s)) && ToChars(ToDigits(s)) == s
    ensures s != [] && s[0] != '1' ==> ToDigits(s)[0] != 0
  {
    forall i | 0 <= i < |s| ensures ToDigits(s)[i] < 58 && CharOf(ToDigits(s)[i]) == s[i] {
      AlphabetInverse(0, s[i]);
    }
  }

  lemma DecodingIsBytes(s: string)
    ensures AllBelow(256, Decoding(s))
  {
    var p := ValidPrefix(s);
    DigitsValue(256, Value(58, ToDigits(p[Zeros(p, '1')..])));
  }

  /** Encoding undoes decoding on every string over the alphabet. */
  lemma EncodeDecode(s: string)
    requires Valid(s)
    ensures AllBelow(256, Decoding(s)) && Encoding(Decoding(s)) == s
  {
    ValidIsOwnPrefix(s);
    DecodingIsBytes(s);
    var z := Zeros(s, '1');
    var ds := ToDigits(s[z..]);
    DigitsInverse(s[z..]);
    var v := Value(58, ds);
    var bytes := Digits(256, v);
    DigitsValue(256, v);
    ZerosOfRepeat(0, z, bytes);
    assert Decoding(s) == Repeat(0, z) + bytes;
    assert (Repeat(0, z) + bytes)[z..] == bytes;
    ValueDigits(58, ds);
    assert s == Repeat('1', z) + s[z..];
  }

  // ---- the digit buffer ----

  lemma {:induction false} ValuePrepend(base: nat, x: nat, t: seq<nat>)
    ensures Value(base, [x] + t) == Times(x, Pow(base, |t|)) + Value(base, t)
  {
    var s := [x] + t;
    if t == [] {
      assert s[..0] == [];
      assert Pow(base, 0) == 1 && Times(Value(base, []), base) == 0;
    } else {
      var u := t[..|t| - 1];
      assert s[..|s| - 1] == [x] + u;
      ValuePrepend(base, x, u);
      PrependStep(x, Pow(base, |u|), Value(base, u), base);
    }
  }

  lemma PrependStep(x: nat, p: nat, v: nat, base: nat)
    ensures (x * p + v) * base == x * (base * p) + v * base
  {
  }

  lemma CarryStep(base: nat, factor: nat, x: nat, carry: nat, p: nat, v: nat, w: nat, digit: nat)
    requires base > 0 && w + carry * p == v * factor + digit
    ensures var c := carry + x * factor;
            (c % base * p + w) + c / base * (base * p) == (x * p + v) * factor + digit
  {
    var c := carry + x * factor;
    var q, r := c / base, c % base;
    DivMod(c, base);
    assert r * p + q * (base * p) == c * p by {
      assert c == base * q + r;
      assert (base * q + r) * p == base * q * p + r * p;
      assert base * q * p == q * (base * p);
    }
    assert c * p == carry * p + x * factor * p;
    assert (x * p + v) * factor == x * p * factor + v * factor;
    assert x * p * factor == x * factor * p;
  }

  ghost predicate Bases(base: nat, factor: nat) {
    (base == 58 && factor == 256) || (base == 256 && factor == 58)
  }

  /** The invariant of the inner loop for the digits behind j: t before, u after, and the carry still to be added. */
  ghost predicate Carried(base: nat, factor: nat, digit: nat, t: seq<nat>, u: seq<nat>, carry: nat) {
    |t| == |u| && carry < factor &&
        Value(base, u) + Times(carry, Pow(base, |t|)) == Times(Value(base, t), factor) + digit
  }

  lemma CarriedStep(base: nat, factor: nat, digit: nat, t: seq<nat>, u: seq<nat>, carry: nat, x: nat)
    requires Bases(base, factor) && Carried(base, factor, digit, t, u, carry) && x < base
    ensures var c := U32(carry + U32(x * factor));
            c % base < base && Carried(base, factor, digit, [x] + t, [c % base] + u, c / base)
  {
    var c := carry + x * factor;
    assert U32(c) == c && c / base < factor;
    ValuePrepend(base, x, t);
    ValuePrepend(base, c % base, u);
    CarryStep(base, factor, x, carry, Pow(base, |t|), Value(base, t), Value(base, u), digit);
  }

  lemma CarriedEnd(base: nat, factor: nat, digit: nat, t: seq<nat>, u: seq<nat>, carry: nat)
    requires Carried(base, factor, digit, t, u, carry) && Times(Value(base, t), factor) + digit < Pow(base, |t|)
    ensures Value(base, u) == Times(Value(base, t), factor) + digit
  {
    if carry > 0 {
      AtLeastFactor(carry, Pow(base, |t|));
    }
  }

  /** buf = buf * factor + digit, in place, from the least significant digit up. The carry that would leave the buffer
      is dropped, so the result has to fit. */
  method MultiplyAdd(buf: array<nat>, base: nat, factor: nat, digit: nat)
    requires Bases(base, factor) && digit < factor && AllBelow(base, buf[..])
    requires Times(Value(base, buf[..]), factor) + digit < Pow(base, buf.Length)
    modifies buf
    ensures AllBelow(base, buf[..])
    ensures Value(base, buf[..]) == Times(old(Value(base, buf[..])), factor) + digit
  {
    ghost var b := buf[..];
    var carry: nat := digit;
    var j: nat := buf.Length;
    assert buf[j..] == [] && b[j..] == [];
    while j > 0
      invariant j <= buf.Length && buf[..j] == b[..j]
      invariant AllBelow(base, buf[..])
      invariant Carried(base, factor, digit, b[j..], buf[j..], carry)
    {
      carry := DigitStep(buf, base, factor, digit, j - 1, carry, b);
      j := j - 1;
    }
    assert buf[0..] == buf[..] && b[0..] == b;
    CarriedEnd(base, factor, digit, b, buf[..], carry);
  }

  method DigitStep(buf: array<nat>, base: nat, factor: nat, ghost digit: nat, j: nat, carry0: nat, ghost b: seq<nat>)
    returns (carry: nat)
    requires Bases(base, factor) && AllBelow(base, buf[..]) && |b| == buf.Length
    requires j < buf.Length && buf[..j + 1] == b[..j + 1]
    requires Carried(base, factor, digit, b[j + 1..], buf[j + 1..], carry0)
    modifies buf
    ensures buf[..j] == b[..j] && AllBelow(base, buf[..])
    ensures Carried(base, factor, digit, b[j..], buf[j..], carry)
  {
    ghost var u := buf[j + 1..];
    assert b[..j + 1][j] == buf[..j + 1][j];
    CarriedStep(base, factor, digit, b[j + 1..], u, carry0, b[j]);
    var c := U32(carry0 + U32(buf[j] * factor));
    buf[j] := c % base;
    carry := c / base;
    assert buf[j..] == [c % base] + u && b[j..] == [b[j]] + b[j + 1..];
  }

  /** Skip leading zeros of the buffer; what remains is the numeral of its value. */
  method SkipZeros(buf: array<nat>, base: nat) returns (i: nat)
    requires base >= 2 && AllBelow(base, buf[..])
    ensures i <= buf.Length && buf[i..] == Digits(base, Value(base, buf[..]))
  {
    i := 0;
    assert buf[0..] == buf[..];
    while i < buf.Length && buf[i] == 0
      invariant i <= buf.Length && Value(base, buf[i..]) == Value(base, buf[..])
    {
      LeadingZero(base, buf[i..]);
      assert buf[i..][1..] == buf[i + 1..];
      i := i + 1;
    }
    ValueDigits(base, buf[i..]);
  }

  lemma PrefixValue(base: nat, s: seq<nat>, i: nat)
    requires i < |s|
    ensures Value(base, s[..i + 1]) == Times(Value(base, s[..i]), base) + s[i]
  {
    assert s[..i + 1][..i] == s[..i];
  }

  /** A numeral of n digits in one base, read so far up to i, fits a buffer sized for n digits. */
  lemma PrefixFits(base: nat, other: nat, s: seq<nat>, i: nat, size: nat)
    requires base > 0 && AllBelow(base, s) && i <= |s| && Pow(base, |s|) <= Pow(other, size)
    ensures Value(base, s[..i]) < Pow(other, size)
  {
    ValueBound(base, s[..i]);
    PowExponentMonotone(base, i, |s|);
  }

  lemma {:induction false} ZeroBuffer(base: nat, s: seq<nat>)
    requires forall i | 0 <= i < |s| :: s[i] == 0
    ensures Value(base, s) == 0
  {
    if s != [] {
      ZeroBuffer(base, s[..|s| - 1]);
    }
  }

  method CountLeading<T(==)>(s: seq<T>, zero: T) returns (n: nat)
    ensures n == Zeros(s, zero)
  {
    n := 0;
    while n < |s| && s[n] == zero
      invariant n <= Zeros(s, zero)
    {
      n := n + 1;
    }
  }

  // ---- encoding ----

  /** Change of base for the bytes behind the leading zeros. */
  method Digits58(data: seq<Byte>) returns (buf: array<nat>, i: nat)
    ensures fresh(buf) && i <= buf.Length && buf[i..] == Digits(58, Value(256, data))
  {
    var bytes: seq<nat> := data;
    buf := new nat[|data| * 138 / 100 + 1](_ => 0);
    Fits58(|data|);
    ZeroBuffer(58, buf[..]);
    var k := 0;
    while k < |data|
      invariant k <= |data| && fresh(buf) && buf.Length == |data| * 138 / 100 + 1
      invariant AllBelow(58, buf[..]) && Value(58, buf[..]) == Value(256, bytes[..k])
    {
      PrefixValue(256, bytes, k);
      PrefixFits(256, 58, bytes, k + 1, buf.Length);
      MultiplyAdd(buf, 58, 256, data[k]);
      k := k + 1;
    }
    assert bytes[..k] == bytes;
    i := SkipZeros(buf, 58);
  }

  /** BRBase58Encode: returns the length with terminator, and 0 if the buffer is too small for it. */
  method Encode(str: array?<char>, strLen: nat, data: seq<Byte>) returns (n: nat)
    requires str != null ==> strLen <= str.Length
    modifies str
    ensures str != null && strLen < |Encoding(data)| + 1 ==> n == 0 && str[..] == old(str[..])
    ensures str == null || strLen >= |Encoding(data)| + 1 ==> n == |Encoding(data)| + 1
    ensures str != null && strLen >= |Encoding(data)| + 1 ==>
              str[..n] == Encoding(data) + ['\0'] && str[n..] == old(str[|Encoding(data)| + 1..])
  {
    var z := CountLeading(data, 0);
    var buf, i := Digits58(data[z..]);
    DigitsValue(58, Value(256, data[z..]));
    n := z + (buf.Length - i) + 1;
    if str != null {
      if n <= strLen {
        WriteChars(str, z, buf[i..]);
      } else {
        n := 0;
      }
    }
  }

  method WriteChars(str: array<char>, z: nat, ds: seq<nat>)
    requires z + |ds| + 1 <= str.Length && AllBelow(58, ds)
    modifies str
    ensures str[..z + |ds| + 1] == Repeat('1', z) + ToChars(ds) + ['\0']
    ensures str[z + |ds| + 1..] == old(str[z + |ds| + 1..])
  {
    forall k | 0 <= k < z {
      str[k] := '1';
    }
    forall k | 0 <= k < |ds| {
      str[z + k] := CharOf(ds[k]);
    }
    str[z + |ds|] := '\0';
  }

  // ---- decoding ----

  lemma {:induction false} PrefixEnd(s: string, k: nat)
    requires k <= |s| && Valid(s[..k]) && (k < |s| ==> DigitOf(s[k]) >= 58)
    ensures ValidPrefix(s) == s[..k]
  {
    if k > 0 {
      assert s[..k][0] == s[0] && s[1..][..k - 1] == s[..k][1..];
      assert Valid(s[1..][..k - 1]);
      PrefixEnd(s[1..], k - 1);
    }
  }

  lemma {:induction false} PrefixBehindOnes(s: string)
    ensures Zeros(ValidPrefix(s), '1') == Zeros(s, '1')
    ensures ValidPrefix(s)[Zeros(s, '1')..] == ValidPrefix(s[Zeros(s, '1')..])
  {
    if s != [] && s[0] == '1' {
      PrefixBehindOnes(s[1..]);
      PrefixFirst(s);
      var z := Zeros(s[1..], '1');
      assert s[z + 1..] == s[1..][z..];
      assert ValidPrefix(s)[z + 1..] == ValidPrefix(s)[1..][z..];
    }
  }

  lemma PrefixFirst(s: string)
    requires s != [] && s[0] == '1'
    ensures ValidPrefix(s) != [] && ValidPrefix(s)[0] == '1' && ValidPrefix(s)[1..] == ValidPrefix(s[1..])
  {
  }

  /** Change of base for the digits behind the leading '1's, up to the first character outside the alphabet. */
  method Digits256(str: string) returns (buf: array<nat>, i: nat)
    ensures fresh(buf) && i <= buf.Length && buf[i..] == Digits(256, Value(58, ToDigits(ValidPrefix(str))))
  {
    buf := new nat[|str| * 733 / 1000 + 1](_ => 0);
    ZeroBuffer(256, buf[..]);
    var k := 0;
    while k < |str| && DigitOf(str[k]) < 58
      invariant k <= |str| && fresh(buf) && buf.Length == |str| * 733 / 1000 + 1
      invariant Valid(str[..k])
      invariant AllBelow(256, buf[..]) && Value(256, buf[..]) == Value(58, ToDigits(str[..k]))
    {
      NextDigit(str, k);
      DigitsBelow(str[..k + 1], |str|);
      MultiplyAdd(buf, 256, 58, DigitOf(str[k]));
      k := k + 1;
    }
    PrefixEnd(str, k);
    i := SkipZeros(buf, 256);
  }

  lemma NextDigit(str: string, k: nat)
    requires k < |str| && Valid(str[..k]) && DigitOf(str[k]) < 58
    ensures Valid(str[..k + 1])
    ensures Value(58, ToDigits(str[..k + 1])) == Times(Value(58, ToDigits(str[..k])), 58) + DigitOf(str[k])
  {
    var u, c := str[..k], str[k];
    assert str[..k + 1] == u + [c];
    DigitsSnoc(u, c);
    ValueSnoc(58, ToDigits(u), DigitOf(c));
  }

  lemma DigitsSnoc(u: string, c: char)
    requires Valid(u) && DigitOf(c) < 58
    ensures Valid(u + [c]) && ToDigits(u + [c]) == ToDigits(u) + [DigitOf(c)]
  {
  }

  lemma DigitsBelow(t: string, n: nat)
    requires Valid(t) && |t| <= n
    ensures Value(58, ToDigits(t)) < Pow(256, n * 733 / 1000 + 1)
  {
    assert Value(58, ToDigits(t)) < Pow(58, |t|) by {
      DigitsInverse(t);
      ValueBound(58, ToDigits(t));
    }
    PowExponentMonotone(58, |t|, n);
    Fits256(n);
  }

  /** What is decoded are the zeros for the leading ones and the digits of the rest. */
  lemma DecodingParts(str: string, z: nat, ds: seq<nat>)
    requires z == Zeros(str, '1') && ds == Digits(256, Value(58, ToDigits(ValidPrefix(str[z..]))))
    ensures Decoding(str) == Repeat(0, z) + ds && |Decoding(str)| == z + |ds| && AllBelow(256, ds)
  {
    PrefixBehindOnes(str);
    DigitsValue(256, Value(58, ToDigits(ValidPrefix(str[z..]))));
  }

  /** BRBase58Decode: returns the number of bytes, and 0 if the buffer is too small for them. */
  method Decode(data: array?<Byte>, dataLen: nat, str: string) returns (n: nat)
    requires data != null ==> dataLen <= data.Length
    modifies data
    ensures data != null && dataLen < |Decoding(str)| ==> n == 0 && data[..] == old(data[..])
    ensures data == null || dataLen >= |Decoding(str)| ==> n == |Decoding(str)|
    ensures data != null && dataLen >= |Decoding(str)| ==>
              data[..n] == Decoding(str) && data[n..] == old(data[|Decoding(str)|..])
  {
    var z := CountLeading(str, '1');
    var buf, i := Digits256(str[z..]);
    DecodingParts(str, z, buf[i..]);
    n := PutBytes(data, dataLen, z, buf[i..], Decoding(str));
  }

  /** Zeros and bytes, if there is room for all. */
  method PutBytes(data: array?<Byte>, dataLen: nat, z: nat, ds: seq<nat>, ghost all: seq<nat>) returns (n: nat)
    requires (data != null ==> dataLen <= data.Length) && AllBelow(256, ds)
    requires all == Repeat(0, z) + ds && |all| == z + |ds|
    modifies data
    ensures data != null && dataLen < |all| ==> n == 0 && data[..] == old(data[..])
    ensures data == null || dataLen >= |all| ==> n == |all|
    ensures data != null && dataLen >= |all| ==> data[..n] == all && data[n..] == old(data[|all|..])
  {
    n := z + |ds|;
    if data != null {
      if n <= dataLen {
        WriteBytes(data, z, ds);
      } else {
        n := 0;
      }
    }
  }

  method WriteBytes(data: array<Byte>, z: nat, ds: seq<nat>)
    requires z + |ds| <= data.Length && AllBelow(256, ds)
    modifies data
    ensures data[..z + |ds|] == Repeat(0, z) + ds
    ensures data[z + |ds|..] == old(data[z + |ds|..])
  {
    forall k | 0 <= k < z {
      data[k] := 0;
    }
    forall k | 0 <= k < |ds| {
      data[z + k] := ds[k];
    }
  }

  // ---- with checksum ----

  type Hasher = seq<Byte> -> Digest
  type Digest = d: seq<Byte> | |d| == 32 witness seq(32, i => 0)

  function CheckEncoding(hash: Hasher, data: seq<Byte>): string {
    Encoding(data + hash(data)[..4])
  }

  /** The bytes before a right checksum. */
  function Payload(hash: Hasher, d: seq<Byte>): seq<Byte> {
    if |d| < 4 then [] else
    var m := |d| - 4;
    if d[m..] == hash(d[..m])[..4] then d[..m] else []
  }

  /** The payload of a string whose checksum is right. */
  function CheckDecoding(hash: Hasher, s: string): seq<Byte> {
    DecodingIsBytes(s);
    Payload(hash, Decoding(s))
  }

  lemma CheckRoundTrip(hash: Hasher, data: seq<Byte>)
    ensures CheckDecoding(hash, CheckEncoding(hash, data)) == data
  {
    var d := data + hash(data)[..4];
    DecodeEncode(d);
    assert d[..|data|] == data && d[|data|..] == hash(data)[..4];
  }

  /** What is encoded is the payload and behind it the first four bytes of its hash. */
  lemma ChecksumIsBehind(hash: Hasher, data: seq<Byte>)
    ensures var d := Decoding(CheckEncoding(hash, data));
      && |d| == |data| + 4 && d[..|data|] == data
      && forall i | 0 <= i < 4 :: d[|data| + i] == hash(data)[i]
  {
    DecodeEncode(data + hash(data)[..4]);
  }

  /** A non-empty payload comes out of a valid string exactly when the string is that payload's encoding. */
  lemma CheckDecodesOnlyEncodings(hash: Hasher, s: string, data: seq<Byte>)
    requires Valid(s) && data != []
    ensures CheckDecoding(hash, s) == data <==> s == CheckEncoding(hash, data)
  {
    if s == CheckEncoding(hash, data) {
      CheckRoundTrip(hash, data);
    }
    if CheckDecoding(hash, s) == data {
      EncodeDecode(s);
      CheckedBytes(hash, s, data);
    }
  }

  lemma CheckedBytes(hash: Hasher, s: string, data: seq<Byte>)
    requires data != [] && CheckDecoding(hash, s) == data
    ensures Decoding(s) == data + hash(data)[..4]
  {
    DecodingIsBytes(s);
    var d: seq<Byte> := Decoding(s);
    assert d == d[..|d| - 4] + d[|d| - 4..];
  }

  lemma {:induction false} DigitsCount(v: nat, k: nat)
    requires v < Pow(256, k)
    ensures |Digits(256, v)| <= k
  {
    if v > 0 {
      Quotient(256, v);
      assert k > 0 by { assert Pow(256, 0) == 1; }
      assert Pow(256, k) == 256 * Pow(256, k - 1);
      DigitsCount(v / 256, k - 1);
    }
  }

  /** Decoding never makes a string longer, so the internal buffer of the check decoder is always large enough. */
  lemma DecodingFits(s: string)
    ensures |Decoding(s)| <= |s|
  {
    var p := ValidPrefix(s);
    var z := Zeros(p, '1');
    DigitsShorter(p[z..]);
  }

  lemma DigitsShorter(t: string)
    requires Valid(t)
    ensures |Digits(256, Value(58, ToDigits(t)))| <= |t|
  {
    if t == [] {
      assert ToDigits(t) == [];
    } else {
      DigitsBelow(t, |t|);
      DigitsCount(Value(58, ToDigits(t)), |t| * 733 / 1000 + 1);
    }
  }

  /** BRBase58CheckEncode */
  method CheckEncode(hash: Hasher, str: array?<char>, strLen: nat, data: seq<Byte>) returns (n: nat)
    requires str != null ==> strLen <= str.Length
    modifies str
    ensures var e := CheckEncoding(hash, data);
            (str != null && strLen < |e| + 1 ==> n == 0 && str[..] == old(str[..])) &&
            (str == null || strLen >= |e| + 1 ==> n == |e| + 1) &&
            (str != null && strLen >= |e| + 1 ==> str[..n] == e + ['\0'])
  {
    n := Encode(str, strLen, data + hash(data)[..4]);
  }

  /** BRBase58CheckDecode: 0 for a wrong checksum or a buffer that is too small. */
  method CheckDecode(hash: Hasher, data: array?<Byte>, dataLen: nat, str: string) returns (n: nat)
    requires data != null ==> dataLen <= data.Length
    modifies data
    ensures var d := CheckDecoding(hash, str);
            (data != null && dataLen < |d| ==> n == 0 && data[..] == old(data[..])) &&
            (data == null || dataLen >= |d| ==> n == |d|) &&
            (data != null && dataLen >= |d| ==> data[..n] == d && data[n..] == old(data[|d|..]))
  {
    var buf := new Byte[|str|](_ => 0);
    DecodingFits(str);
    var len := Decode(buf, |str|, str);
    DecodingIsBytes(str);
    len := CheckPayload(hash, buf, len, Decoding(str));
    if data != null && len <= dataLen {
      forall k | 0 <= k < len {
        data[k] := buf[k];
      }
    }
    n := if data == null || len <= dataLen then len else 0;
  }

  /** How many of the first n bytes come before a right checksum, 0 if it is wrong. */
  method CheckPayload(hash: Hasher, buf: array<Byte>, n: nat, ghost all: seq<Byte>) returns (len: nat)
    requires n <= buf.Length && buf[..n] == all
    ensures len <= buf.Length && buf[..len] == Payload(hash, all)
  {
    len := 0;
    if n >= 4 {
      len := n - 4;
      assert buf[..len] == all[..len] && buf[len..len + 4] == all[len..];
      var md := hash(buf[..len]);
      if buf[len..len + 4] != md[..4] {
        len := 0;
      }
    }
  }

  // ---- an example ----

  lemma ExampleNumber()
    ensures Value(256, [0x28, 0x7f, 0xb4, 0xcd]) == 679457997
    ensures Digits(58, 679457997) == [1, 2, 2, 23, 11, 3]
  {
    assert [0x28, 0x7f, 0xb4, 0xcd][..3] == [0x28, 0x7f, 0xb4] && [0x28, 0x7f, 0xb4][..2] == [0x28, 0x7f];
    assert [0x28, 0x7f][..1] == [0x28] && [0x28][..0] == [];
    assert Value(256, [0x28]) == 0x28 && Value(256, [0x28, 0x7f]) == 0x287f;
    assert Digits(58, 679457997) == Digits(58, 11714793) + [3];
  }

  /** Two zero bytes become two characters 1, the other four bytes one number of six digits. */
  lemma ExampleIs()
    ensures Encoding([0, 0, 0x28, 0x7f, 0xb4, 0xcd]) == "11233QC4"
  {
    ExampleNumber();
  }
}
