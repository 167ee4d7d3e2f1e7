/**
 * Bech32 addresses of witness programs (BRBech32.c).
 *
 * Text is a sequence of character codes; the codes of the 32 digits are those of "qpzry9x8gf2tvdw0s3jn54khce6mua7l".
 */
module Bech32 {

  import opened Options
  import C = Bech32Checksum
  import G = Bech32Groups

  type Char = bv8

  const SEPARATOR: Char := 49
  const OP_1: bv8 := 0x51

  /** The value of a digit, 255 if the character is none. */
  function DigitOf(c: Char): bv8 {
    match c
    case 113 => 0 case 112 => 1 case 122 => 2 case 114 => 3 case 121 => 4 case 57 => 5
    case 120 => 6 case 56 => 7 case 103 => 8 case 102 => 9 case 50 => 10 case 116 => 11
    case 118 => 12 case 100 => 13 case 119 => 14 case 48 => 15 case 115 => 16 case 51 => 17
    case 106 => 18 case 110 => 19 case 53 => 20 case 52 => 21 case 107 => 22 case 104 => 23
    case 99 => 24 case 101 => 25 case 54 => 26 case 109 => 27 case 117 => 28 case 97 => 29
    case 55 => 30 case 108 => 31
    case _ => 255
  }

  function CharOf(d: bv8): Char {
    match d
    case 0 => 113 case 1 => 112 case 2 => 122 case 3 => 114 case 4 => 121 case 5 => 57
    case 6 => 120 case 7 => 56 case 8 => 103 case 9 => 102 case 10 => 50 case 11 => 116
    case 12 => 118 case 13 => 100 case 14 => 119 case 15 => 48 case 16 => 115 case 17 => 51
    case 18 => 106 case 19 => 110 case 20 => 53 case 21 => 52 case 22 => 107 case 23 => 104
    case 24 => 99 case 25 => 101 case 26 => 54 case 27 => 109 case 28 => 117 case 29 => 97
    case 30 => 55 case _ => 108
  }

  predicate Printable(c: Char) {
    33 <= c <= 126
  }

  predicate IsUpper(c: Char) {
    65 <= c <= 90
  }

  predicate IsLower(c: Char) {
    97 <= c <= 122
  }

  function Lower(c: Char): Char {
    if IsUpper(c) then c + 32 else c
  }

  /** The characters of digits: 32 different ones, none of them upper case or the separator. */
  lemma CharsAndDigits(d: bv8)
    requires d < 32
    ensures DigitOf(CharOf(d)) == d && Printable(CharOf(d)) && !IsUpper(CharOf(d)) && CharOf(d) != SEPARATOR
  {
    CharsRead(d);
  }

  lemma CharsRead(d: bv8)
    requires d < 32
    ensures DigitOf(CharOf(d)) == d
  {
  }

  lemma LowBitsOfCase(c: Char)
    ensures Lower(c) & 31 == c & 31
  {
  }

  // ---- what the checksum runs over ----

  /** Value k: the high bits of the prefix, a zero, its low bits, then the digits. */
  function ValueAt(hrp: seq<Char>, digits: seq<bv8>, k: nat): C.Word
    requires k < 2 * |hrp| + 1 + |digits|
  {
    if k < |hrp| then (hrp[k] >> 5) as C.Word
    else if k == |hrp| then 0
    else if k <= 2 * |hrp| then (hrp[k - |hrp| - 1] & 31) as C.Word
    else digits[k - 2 * |hrp| - 1] as C.Word
  }

  function Values(hrp: seq<Char>, digits: seq<bv8>): (r: seq<C.Word>)
    ensures |r| == 2 * |hrp| + 1 + |digits|
  {
    seq(2 * |hrp| + 1 + |digits|, k requires 0 <= k < 2 * |hrp| + 1 + |digits| => ValueAt(hrp, digits, k))
  }

  // ---- texts ----

  /** Prefix, separator and digits. */
  function Text(hrp: seq<Char>, digits: seq<bv8>): (r: seq<Char>)
    ensures |r| == |hrp| + 1 + |digits|
  {
    hrp + [SEPARATOR] + seq(|digits|, k requires 0 <= k < |digits| => CharOf(digits[k]))
  }

  /** p is where the last separator stands, 0 if there is none. */
  ghost predicate IsSeparator(addr: seq<Char>, p: nat) {
    && p <= |addr| && (forall k | p < k < |addr| :: addr[k] != SEPARATOR)
    && (p > 0 ==> p < |addr| && addr[p] == SEPARATOR)
  }

  /** The prefix of an address in lower case. */
  function Prefix(addr: seq<Char>, p: nat): (r: seq<Char>)
    requires p <= |addr|
    ensures |r| == p
  {
    seq(p, k requires 0 <= k < p => Lower(addr[k]))
  }

  /** The values of the characters behind the separator. */
  function DataPart(addr: seq<Char>, p: nat): (r: seq<bv8>)
    requires p < |addr|
    ensures |r| == |addr| - p - 1
  {
    seq(|addr| - p - 1, k requires 0 <= k < |addr| - p - 1 => DigitOf(Lower(addr[p + 1 + k])))
  }

  /** The digits between the version and the checksum. */
  function Payload(part: seq<bv8>): (r: seq<bv8>)
    requires |part| >= 7
    ensures |r| == |part| - 7
  {
    seq(|part| - 7, k requires 0 <= k < |part| - 7 => part[1 + k])
  }

  /** The bytes that payload digits stand for; bits left over are dropped. */
  function Program(payload: seq<bv8>): (r: seq<bv8>)
    ensures |r| == |payload| * 5 / 8
  {
    seq(|payload| * 5 / 8, i requires 0 <= i => G.Byte(payload, |payload|, i))
  }

  // ---- encoding ----

  /** The version that an opcode stands for. */
  function VersionOf(op: bv8): bv8 {
    if op >= OP_1 then op + 1 - OP_1 else 0
  }

  function OpcodeOf(version: bv8): bv8 {
    if version == 0 then 0 else version + OP_1 - 1
  }

  lemma OpcodeBack(op: bv8)
    requires (op == 0 || op >= OP_1) && VersionOf(op) <= 16
    ensures OpcodeOf(VersionOf(op)) == op
  {
  }

  /** An opcode, a length and at least so many bytes. */
  ghost predicate IsScript(data: seq<bv8>) {
    |data| >= 2 && |data| >= 2 + data[1] as nat
  }

  function Witness(data: seq<bv8>): (r: seq<bv8>)
    requires IsScript(data)
    ensures |r| == data[1] as nat
  {
    data[2..2 + data[1] as nat]
  }

  ghost predicate PrefixOk(hrp: seq<Char>) {
    |hrp| <= 84 && forall k | 0 <= k < |hrp| :: Printable(hrp[k]) && !IsUpper(hrp[k])
  }

  ghost predicate Encodable(hrp: seq<Char>, data: seq<bv8>)
    requires IsScript(data)
  {
    && PrefixOk(hrp) && !(0 < data[0] < OP_1) && VersionOf(data[0]) <= 16
    && 2 <= data[1] as nat <= 40 && |hrp| + 1 + 1 + data[1] as nat + 6 < 91
  }

  /** The version and the digits of the program. */
  function Coded(data: seq<bv8>): (r: seq<bv8>)
    requires IsScript(data)
    ensures |r| == 1 + G.DigitCount(data[1] as nat)
  {
    [VersionOf(data[0])] + G.Digits(Witness(data))
  }

  /** What the encoder feeds: the values and six zeros where the checksum will stand. */
  function Fed(hrp: seq<Char>, digits: seq<bv8>): (r: seq<C.Word>)
    ensures |r| == 2 * |hrp| + 1 + |digits| + 6
  {
    Values(hrp, digits + [0, 0, 0, 0, 0, 0])
  }

  /** The checksum to append, as one number. */
  function Check(hrp: seq<Char>, digits: seq<bv8>): C.Word {
    C.Xor(C.Residue(Fed(hrp, digits)), 1)
  }

  function CheckDigit(c: C.Word, j: nat): bv8 {
    C.DigitOf(c, j) as bv8
  }

  function CheckDigits(c: C.Word): (r: seq<bv8>)
    ensures |r| == 6
  {
    seq(6, j requires 0 <= j < 6 => CheckDigit(c, j))
  }

  function Encoded(hrp: seq<Char>, data: seq<bv8>): seq<Char>
    requires IsScript(data)
  {
    Text(hrp, Coded(data) + CheckDigits(Check(hrp, Coded(data))))
  }

  // ---- the encoder ----

  /** What the encoder goes through: the text it writes, what it feeds to the checksum and the checksums on the way. */
  datatype Plan = Plan(hrp: seq<Char>, digits: seq<bv8>, text: seq<Char>, values: seq<C.Word>, sums: seq<C.Word>)

  ghost predicate Planned(p: Plan) {
    && |p.text| == |p.hrp| + 1 + |p.digits| && |p.values| == 2 * |p.hrp| + 1 + |p.digits| + 6
    && C.IsRun(p.sums, p.values)
    && (forall k | 0 <= k < |p.hrp| :: p.text[k] == p.hrp[k]) && p.text[|p.hrp|] == SEPARATOR
    && (forall k | 0 <= k < |p.digits| :: p.text[|p.hrp| + 1 + k] == CharOf(p.digits[k]))
    && (forall n | 0 <= n < 2 * |p.hrp| + 1 + |p.digits| :: p.values[n] == ValueAt(p.hrp, p.digits, n))
    && forall n | 2 * |p.hrp| + 1 + |p.digits| <= n < |p.values| :: p.values[n] == 0
  }

  lemma MakePlan(hrp: seq<Char>, digits: seq<bv8>) returns (p: Plan)
    ensures Planned(p) && p.hrp == hrp && p.digits == digits && p.text == Text(hrp, digits)
    ensures p.values == Fed(hrp, digits)
  {
    var sums := C.MakeRun(Fed(hrp, digits));
    p := Plan(hrp, digits, Text(hrp, digits), Fed(hrp, digits), sums);
  }

  /** The state of the encoder behind m characters and n values. */
  ghost predicate At(p: Plan, m: nat, n: nat, addr: seq<Char>, chk: C.Word)
    requires Planned(p)
  {
    m <= |p.text| && n <= |p.values| && addr == p.text[..m] && chk == p.sums[n]
  }

  /** The state behind k digits. */
  ghost predicate Written(p: Plan, k: nat, addr: seq<Char>, chk: C.Word) {
    Planned(p) && k <= |p.digits| && At(p, |p.hrp| + 1 + k, 2 * |p.hrp| + 1 + k, addr, chk)
  }

  /** Feeding one value. */
  method Advance(ghost sums: seq<C.Word>, ghost values: seq<C.Word>, ghost n: nat, v: C.Word, chk: C.Word)
    returns (chk': C.Word)
    requires C.IsRun(sums, values) && n < |values| && v == values[n] && chk == sums[n]
    ensures chk' == sums[n + 1]
  {
    assert C.IsNext(sums, values, n);
    chk' := C.Xor(C.Polymod(chk), v);
  }

  method PutDigit(ghost p: Plan, ghost k: nat, c: bv8, addr: seq<Char>, chk: C.Word)
    returns (addr': seq<Char>, chk': C.Word)
    requires Written(p, k, addr, chk) && k < |p.digits| && c == p.digits[k]
    ensures Written(p, k + 1, addr', chk')
  {
    chk' := Advance(p.sums, p.values, 2 * |p.hrp| + 1 + k, c as C.Word, chk);
    addr' := addr + [CharOf(c)];
  }

  /** The state behind i characters of the prefix. */
  ghost predicate PrefixRead(p: Plan, i: nat, addr: seq<Char>, chk: C.Word) {
    && Planned(p) && i <= 84 && i <= |p.hrp| && At(p, i, i, addr, chk)
    && forall k | 0 <= k < i :: Printable(p.hrp[k]) && !IsUpper(p.hrp[k])
  }

  method PutPrefixChar(hrp: seq<Char>, ghost p: Plan, i: nat, addr: seq<Char>, chk: C.Word)
    returns (ok: bool, addr': seq<Char>, chk': C.Word)
    requires p.hrp == hrp && i < |hrp| && PrefixRead(p, i, addr, chk)
    ensures ok ==> PrefixRead(p, i + 1, addr', chk')
    ensures !ok ==> !PrefixOk(hrp)
  {
    if i > 83 || hrp[i] < 33 || hrp[i] > 126 || IsUpper(hrp[i]) {
      return false, addr, chk;
    }
    chk' := Advance(p.sums, p.values, i, (hrp[i] >> 5) as C.Word, chk);
    ok, addr' := true, addr + [hrp[i]];
  }

  /** The zero and the low bits of the prefix. */
  method AddLowBits(hrp: seq<Char>, ghost p: Plan, chk: C.Word) returns (chk': C.Word)
    requires Planned(p) && p.hrp == hrp && chk == p.sums[|hrp|]
    ensures chk' == p.sums[2 * |hrp| + 1]
  {
    chk' := AddZero(p.sums, p.values, |hrp|, chk);
    for j := 0 to |hrp|
      invariant chk' == p.sums[|hrp| + 1 + j]
    {
      chk' := Advance(p.sums, p.values, |hrp| + 1 + j, (hrp[j] & 31) as C.Word, chk');
    }
  }

  method AddZero(ghost sums: seq<C.Word>, ghost values: seq<C.Word>, ghost n: nat, chk: C.Word)
    returns (chk': C.Word)
    requires C.IsRun(sums, values) && n < |values| && values[n] == 0 && chk == sums[n]
    ensures chk' == sums[n + 1]
  {
    assert C.IsNext(sums, values, n);
    chk' := C.Polymod(chk);
    C.ZeroXor(chk');
  }

  /** Prefix and separator; the digits to follow do not matter yet. */
  method PutPrefix(hrp: seq<Char>, ghost p: Plan) returns (ok: bool, addr: seq<Char>, chk: C.Word)
    requires Planned(p) && p.hrp == hrp
    ensures ok <==> PrefixOk(hrp)
    ensures ok ==> Written(p, 0, addr, chk)
  {
    ok, chk, addr := true, 1, [];
    for i := 0 to |hrp|
      invariant ok && PrefixRead(p, i, addr, chk)
    {
      ok, addr, chk := PutPrefixChar(hrp, p, i, addr, chk);
      if !ok {
        return;
      }
    }
    chk := AddLowBits(hrp, p, chk);
    addr := addr + [SEPARATOR];
  }

  /** How many digits are written before byte j. */
  function DigitsBefore(j: nat): nat {
    1 + 8 * j / 5
  }

  /** How many are written behind byte j, or behind the end. */
  ghost function DigitsBehind(p: Plan, program: seq<bv8>, j: nat): nat {
    if j < |program| then DigitsBefore(j + 1) else |p.digits|
  }

  /** Byte j of the program, or the end of it, with the bits left over from the byte before. */
  method PutByte(ghost p: Plan, program: seq<bv8>, j: nat, a: bv8, addr: seq<Char>, chk: C.Word)
    returns (b: bv8, addr': seq<Char>, chk': C.Word)
    requires j <= |program| && |p.digits| == 1 + G.DigitCount(|program|) && a == G.Before(program, j)
    requires forall k | 1 <= k < |p.digits| :: p.digits[k] == G.Digit(program, k - 1)
    requires Written(p, DigitsBefore(j), addr, chk)
    ensures b == G.ByteAt(program, j)
    ensures Written(p, DigitsBehind(p, program, j), addr', chk')
  {
    b := if j < |program| then program[j] else 0;
    ByteDigits(p.digits, program, j);
    var x := G.LeftOver(j);
    var c := G.FirstDigit(a, b, x);
    var d := if x >= 2 then G.SecondDigit(b, x) else c;
    var first, second := j < |program| || j % 5 > 0, x >= 2 && j < |program|;
    addr', chk' := PutDigits(p, DigitsBefore(j), DigitsBehind(p, program, j), first, c, second, d, addr, chk);
  }

  /** The first digit if it is complete, then the second if that is. */
  method PutDigits(ghost p: Plan, ghost n: nat, ghost m: nat, first: bool, c: bv8, second: bool, d: bv8,
                   addr: seq<Char>, chk: C.Word)
    returns (addr': seq<Char>, chk': C.Word)
    requires Written(p, n, addr, chk) && (second ==> first)
    requires m == n + (if first then 1 else 0) + if second then 1 else 0
    requires (first ==> n < |p.digits| && c == p.digits[n]) && (second ==> n + 1 < |p.digits| && d == p.digits[n + 1])
    ensures Written(p, m, addr', chk')
  {
    addr', chk' := addr, chk;
    if first {
      addr', chk' := PutDigit(p, n, c, addr', chk');
    }
    if second {
      addr', chk' := PutDigit(p, n + 1, d, addr', chk');
    }
  }

  /** The one or two digits that byte j completes. */
  lemma ByteDigits(digits: seq<bv8>, program: seq<bv8>, j: nat)
    requires j <= |program| && |digits| == 1 + G.DigitCount(|program|)
    requires forall k | 1 <= k < |digits| :: digits[k] == G.Digit(program, k - 1)
    ensures var x, n := G.LeftOver(j), DigitsBefore(j);
      && x < 5
      && (j < |program| || j % 5 > 0 ==>
            n < |digits| && digits[n] == G.FirstDigit(G.Before(program, j), G.ByteAt(program, j), x))
      && (x >= 2 && j < |program| ==>
            n + 1 < |digits| && digits[n + 1] == G.SecondDigit(G.ByteAt(program, j), x))
      && (j < |program| ==> DigitsBefore(j + 1) == n + if x >= 2 then 2 else 1)
      && (j == |program| ==> |digits| == n + if j % 5 > 0 then 1 else 0)
  {
    G.GroupPlaces(j / 5, j % 5);
    G.ByteGives(program, j / 5, j % 5);
    EnoughDigits(j, |program|);
  }

  lemma EnoughDigits(j: nat, len: nat)
    requires j <= len
    ensures j < len ==> DigitsBefore(j + 1) <= 1 + G.DigitCount(len)
  {
  }

  method SixZeros(ghost p: Plan, chk: C.Word) returns (c: C.Word)
    requires Planned(p) && chk == p.sums[|p.values| - 6]
    ensures c == p.sums[|p.values|]
  {
    c := chk;
    for j := 0 to 6
      invariant c == p.sums[|p.values| - 6 + j]
    {
      c := AddZero(p.sums, p.values, |p.values| - 6 + j, c);
    }
  }

  /** The six digits of the checksum. */
  method PutCheck(addr: seq<Char>, c: C.Word) returns (addr': seq<Char>)
    ensures addr' == addr + seq(6, j requires 0 <= j < 6 => CharOf(CheckDigit(c, j)))
  {
    addr' := addr;
    for j := 0 to 6
      invariant addr' == addr + seq(j, i requires 0 <= i < j => CharOf(CheckDigit(c, i)))
    {
      addr' := addr' + [CharOf(CheckDigit(c, j))];
    }
  }

  lemma TextThen(hrp: seq<Char>, digits: seq<bv8>, c: C.Word)
    ensures Text(hrp, digits + CheckDigits(c)) ==
            Text(hrp, digits) + seq(6, j requires 0 <= j < 6 => CharOf(CheckDigit(c, j)))
  {
  }

  /** The checksum behind all digits. */
  method Finish(ghost p: Plan, addr: seq<Char>, chk: C.Word) returns (addr': seq<Char>)
    requires Written(p, |p.digits|, addr, chk) && p.text == Text(p.hrp, p.digits)
    ensures addr' == Text(p.hrp, p.digits + CheckDigits(C.Xor(p.sums[|p.values|], 1)))
  {
    var c := SixZeros(p, chk);
    c := C.Xor(c, 1);
    TextThen(p.hrp, p.digits, c);
    addr' := PutCheck(addr, c);
  }

  /** Version and program behind the prefix. */
  method PutData(ghost p: Plan, ver: bv8, program: seq<bv8>, addr: seq<Char>, chk: C.Word)
    returns (addr': seq<Char>, chk': C.Word)
    requires p.digits == [ver] + G.Digits(program) && Written(p, 0, addr, chk)
    ensures Written(p, |p.digits|, addr', chk')
  {
    addr', chk' := PutDigit(p, 0, ver, addr, chk);
    var b := 0;
    for j := 0 to |program| + 1
      invariant j <= |program| ==> b == G.Before(program, j)
      invariant Written(p, if j <= |program| then DigitsBefore(j) else |p.digits|, addr', chk')
    {
      b, addr', chk' := PutByte(p, program, j, b, addr', chk');
    }
  }

  /** The address of a witness script, if it can have one. */
  method Encode(hrp: seq<Char>, data: seq<bv8>) returns (r: Option<seq<Char>>)
    requires IsScript(data)
    ensures r == if Encodable(hrp, data) then Some(Encoded(hrp, data)) else None
  {
    ghost var p := MakePlan(hrp, Coded(data));
    var ok, addr, chk := PutPrefix(hrp, p);
    if !ok || (data[0] > 0 && data[0] < OP_1) {
      return None;
    }
    var ver := VersionOf(data[0]);
    var len := data[1] as nat;
    if ver > 16 || len < 2 || len > 40 || |hrp| + 1 + 1 + len + 6 >= 91 {
      return None;
    }
    addr, chk := PutData(p, ver, data[2..2 + len], addr, chk);
    C.RunIsFeed(p.sums, p.values, |p.values|);
    addr := Finish(p, addr, chk);
    r := Some(addr);
  }

  // ---- decoding ----

  datatype Address = Address(hrp: seq<Char>, data: seq<bv8>)

  ghost predicate AllPrintable(addr: seq<Char>) {
    forall k | 0 <= k < |addr| :: Printable(addr[k])
  }

  ghost predicate HasUpper(addr: seq<Char>) {
    exists k | 0 <= k < |addr| :: IsUpper(addr[k])
  }

  ghost predicate HasLower(addr: seq<Char>) {
    exists k | 0 <= k < |addr| :: IsLower(addr[k])
  }

  ghost predicate AllDigits(part: seq<bv8>) {
    forall k | 0 <= k < |part| :: part[k] < 32
  }

  /** Lengths and characters are those of an address with the separator at p. */
  ghost predicate WellFormed(addr: seq<Char>, p: nat) {
    && AllPrintable(addr) && !(HasUpper(addr) && HasLower(addr))
    && 8 <= |addr| <= 90 && 1 <= p && p + 2 + 6 <= |addr|
  }

  /** The script: opcode, length and program. */
  function ScriptOf(part: seq<bv8>): seq<bv8>
    requires |part| >= 7 && (|part| - 7) * 5 / 8 <= 40
  {
    [OpcodeOf(part[0]), ((|part| - 7) * 5 / 8) as bv8] + Program(Payload(part))
  }

  /** The meaning of a well-formed text whose checksum is chk. */
  ghost function MeaningBy(addr: seq<Char>, p: nat, chk: C.Word): Option<Address>
    requires WellFormed(addr, p)
  {
    var part := DataPart(addr, p);
    if AllDigits(part) && chk == 1 && part[0] <= 16 && 2 <= (|part| - 7) * 5 / 8 <= 40
    then Some(Address(Prefix(addr, p), ScriptOf(part))) else None
  }

  /** What a text with the separator at p means. */
  ghost function DecodedAt(addr: seq<Char>, p: nat): Option<Address> {
    if WellFormed(addr, p) then MeaningBy(addr, p, C.Residue(Values(Prefix(addr, p), DataPart(addr, p))))
    else None
  }

  method CheckChars(addr: seq<Char>) returns (ok: bool, lower: bool, upper: bool)
    ensures ok <==> AllPrintable(addr)
    ensures ok ==> (lower <==> HasLower(addr)) && (upper <==> HasUpper(addr))
  {
    lower, upper := false, false;
    for i := 0 to |addr|
      invariant forall k | 0 <= k < i :: Printable(addr[k])
      invariant lower <==> exists k | 0 <= k < i :: IsLower(addr[k])
      invariant upper <==> exists k | 0 <= k < i :: IsUpper(addr[k])
    {
      if addr[i] < 33 || addr[i] > 126 {
        return false, lower, upper;
      }
      if IsLower(addr[i]) {
        lower := true;
      }
      if IsUpper(addr[i]) {
        upper := true;
      }
    }
    ok := true;
  }

  method FindSeparator(addr: seq<Char>) returns (p: nat)
    ensures IsSeparator(addr, p)
  {
    p := |addr|;
    while p > 0 && (p == |addr| || addr[p] != SEPARATOR)
      invariant p <= |addr| && forall k | p < k < |addr| :: addr[k] != SEPARATOR
    {
      p := p - 1;
    }
  }

  /** What the prefix of an address adds to the checksum, whatever its case. */
  method FeedPrefix(addr: seq<Char>, p: nat, ghost values: seq<C.Word>, ghost sums: seq<C.Word>)
    returns (chk: C.Word)
    requires p < |addr| && |values| >= 2 * p + 1 && C.IsRun(sums, values) && values[p] == 0
    requires forall k | 0 <= k < p :: values[k] == (Lower(addr[k]) >> 5) as C.Word
    requires forall k | 0 <= k < p :: values[p + 1 + k] == (Lower(addr[k]) & 31) as C.Word
    ensures chk == sums[2 * p + 1]
  {
    chk := 1;
    for i := 0 to p
      invariant chk == sums[i]
    {
      chk := Advance(sums, values, i, (Lower(addr[i]) >> 5) as C.Word, chk);
    }
    chk := AddZero(sums, values, p, chk);
    for i := 0 to p
      invariant chk == sums[p + 1 + i]
    {
      LowBitsOfCase(addr[i]);
      chk := Advance(sums, values, p + 1 + i, (addr[i] & 31) as C.Word, chk);
    }
  }

  /** The bytes that the first n digits stand for. */
  ghost predicate Holds(buf: seq<bv8>, payload: seq<bv8>, n: nat)
    requires n <= |payload|
  {
    forall i | 0 <= i < |buf| :: buf[i] == G.Byte(payload, n, i)
  }

  lemma RoomFor(n: nat)
    requires n < 81
    ensures G.Offset(n) < 8 && G.Place(n) < 51
  {
    G.GroupStarts(n / 8, n % 8);
  }

  lemma HoldsNext(buf: seq<bv8>, buf': seq<bv8>, payload: seq<bv8>, n: nat)
    requires n < |payload| && Holds(buf, payload, n) && |buf'| == |buf| && payload[n] < 32 && G.Offset(n) < 8
    requires forall i | 0 <= i < |buf| :: buf'[i] == G.Or(buf[i], G.AddedFrom(G.Place(n), G.Offset(n), i, payload[n]))
    ensures Holds(buf', payload, n + 1)
  {
    forall i | 0 <= i < |buf'| ensures buf'[i] == G.Byte(payload, n + 1, i) {
      G.TakesDigit(payload, n, i);
    }
  }

  /** The bits of digit n. */
  method PutBits(buf: array<bv8>, n: nat, c: bv8, ghost payload: seq<bv8>)
    requires buf.Length == 52 && n < |payload| <= 81 && payload[n] == c < 32 && Holds(buf[..], payload, n)
    modifies buf
    ensures Holds(buf[..], payload, n + 1)
  {
    ghost var was := buf[..];
    RoomFor(n);
    var x := G.Offset(n);
    buf[G.Place(n)] := G.Or(buf[G.Place(n)], G.HighBits(c, x));
    if x > 3 {
      buf[G.Place(n) + 1] := G.Or(buf[G.Place(n) + 1], G.LowBits(c, x));
    }
    forall i | 0 <= i < 52 ensures buf[..][i] == G.Or(was[i], G.AddedFrom(G.Place(n), x, i, c)) {
      G.OrZero(was[i]);
    }
    HoldsNext(was, buf[..], payload, n);
  }

  /** How many payload digits are among the first k digits behind the separator. */
  function PayloadTaken(k: nat, count: nat): nat {
    if k == 0 then 0 else if k - 1 < count then k - 1 else count
  }

  /** The state of the decoder behind k digits. */
  ghost predicate Taken(part: seq<bv8>, k: nat, ver: bv8, buf: seq<bv8>) {
    && 7 <= |part| && k <= |part| && (forall q | 0 <= q < k :: part[q] < 32) && (k > 0 ==> ver == part[0])
    && Holds(buf, Payload(part), PayloadTaken(k, |part| - 7))
  }

  /** Digit k behind the separator, of value c. */
  method TakeDigit(ghost part: seq<bv8>, k: nat, count: nat, c: bv8, ver: bv8, buf: array<bv8>) returns (ver': bv8)
    requires buf.Length == 52 && Taken(part, k, ver, buf[..]) && k < |part| <= 88 && count == |part|
    requires c == part[k] < 32
    modifies buf
    ensures Taken(part, k + 1, ver', buf[..])
  {
    ver' := if k == 0 then c else ver;
    if k > 0 && k + 6 < count {
      PutBits(buf, k - 1, c, Payload(part));
    }
  }

  /** The state of checksum and decoder at character i of a text whose data part is behind position p. */
  ghost predicate Reading(part: seq<bv8>, p: nat, i: nat, values: seq<C.Word>, sums: seq<C.Word>, chk: C.Word, ver: bv8,
                          buf: seq<bv8>)
  {
    && 1 <= p < i <= p + 1 + |part| <= 90 && C.IsRun(sums, values) && |values| == 2 * p + 1 + |part|
    && |buf| == 52 && Taken(part, i - p - 1, ver, buf) && chk == sums[p + i]
    && forall k | 0 <= k < |part| :: values[2 * p + 1 + k] == part[k] as C.Word
  }

  method ReadChar(addr: seq<Char>, p: nat, i: nat, ver: bv8, buf: array<bv8>, ghost part: seq<bv8>,
                  ghost values: seq<C.Word>, ghost sums: seq<C.Word>, chk: C.Word)
    returns (ok: bool, ver': bv8, chk': C.Word)
    requires i < |addr| == p + 1 + |part| && Reading(part, p, i, values, sums, chk, ver, buf[..])
    requires part[i - p - 1] == DigitOf(Lower(addr[i]))
    modifies buf
    ensures ok ==> Reading(part, p, i + 1, values, sums, chk', ver', buf[..])
    ensures !ok ==> !AllDigits(part)
  {
    var c := DigitOf(Lower(addr[i]));
    if c >= 32 {
      return false, ver, chk;
    }
    chk' := Advance(sums, values, p + i, c as C.Word, chk);
    ver' := TakeDigit(part, i - p - 1, |addr| - p - 1, c, ver, buf);
    ok := true;
  }

  /** All digits behind the separator at p. */
  method TakeDigits(addr: seq<Char>, p: nat, buf: array<bv8>, ghost part: seq<bv8>, ghost values: seq<C.Word>,
                    ghost sums: seq<C.Word>, chk: C.Word)
    returns (ok: bool, ver: bv8, chk': C.Word)
    requires p < |addr| && Reading(part, p, p + 1, values, sums, chk, 255, buf[..]) && part == DataPart(addr, p)
    modifies buf
    ensures ok ==> Reading(part, p, |addr|, values, sums, chk', ver, buf[..])
    ensures !ok ==> !AllDigits(part)
  {
    ok, ver, chk' := true, 255, chk;
    for i := p + 1 to |addr|
      invariant ok && Reading(part, p, i, values, sums, chk', ver, buf[..])
    {
      assert part[i - p - 1] == DigitOf(Lower(addr[p + 1 + (i - p - 1)]));
      ok, ver, chk' := ReadChar(addr, p, i, ver, buf, part, values, sums, chk');
      if !ok {
        return;
      }
    }
  }

  method LowerCase(addr: seq<Char>, p: nat) returns (r: seq<Char>)
    requires p <= |addr|
    ensures r == Prefix(addr, p)
  {
    r := [];
    for i := 0 to p
      invariant r == Prefix(addr, i)
    {
      r := r + [Lower(addr[i])];
    }
  }

  lemma NothingHeld(buf: seq<bv8>, payload: seq<bv8>)
    requires forall i | 0 <= i < |buf| :: buf[i] == 0
    ensures Holds(buf, payload, 0)
  {
    forall i | 0 <= i < |buf| ensures G.Byte(payload, 0, i) == 0 {
      NoByte(payload, i);
    }
  }

  lemma NoByte(payload: seq<bv8>, i: nat)
    ensures G.Byte(payload, 0, i) == 0
  {
    G.ByteInGroup(payload, 0, i / 5, i % 5);
  }

  /** Behind the last character everything is known. */
  lemma ReadToEnd(part: seq<bv8>, p: nat, n: nat, values: seq<C.Word>, sums: seq<C.Word>, chk: C.Word, ver: bv8,
                  buf: seq<bv8>)
    requires n == p + 1 + |part| && Reading(part, p, n, values, sums, chk, ver, buf)
    ensures AllDigits(part) && 7 <= |part| && chk == sums[|values|] && ver == part[0]
    ensures (n - (p + 2 + 6)) * 5 / 8 <= |buf| && buf[..(n - (p + 2 + 6)) * 5 / 8] == Program(Payload(part))
  {
    HeldIsProgram(buf, Payload(part));
  }

  lemma HeldIsProgram(buf: seq<bv8>, payload: seq<bv8>)
    requires Holds(buf, payload, |payload|) && |payload| * 5 / 8 <= |buf|
    ensures buf[..|payload| * 5 / 8] == Program(payload)
  {
  }

  /** Version, program and checksum of the digits behind the separator. */
  method ReadData(addr: seq<Char>, sep: nat, ghost part: seq<bv8>, ghost values: seq<C.Word>, ghost sums: seq<C.Word>,
                  chk: C.Word)
    returns (ok: bool, ver: bv8, program: seq<bv8>, chk': C.Word)
    requires 8 <= |addr| <= 90 && 1 <= sep && sep + 2 + 6 <= |addr| && part == DataPart(addr, sep)
    requires C.IsRun(sums, values) && |values| == sep + |addr| && chk == sums[2 * sep + 1]
    requires forall k | 0 <= k < |part| :: values[2 * sep + 1 + k] == part[k] as C.Word
    ensures ok <==> AllDigits(part)
    ensures ok ==> chk' == sums[|values|] && ver == part[0] && program == Program(Payload(part))
  {
    var buf := new bv8[52](_ => 0);
    NothingHeld(buf[..], Payload(part));
    ok, ver, chk' := TakeDigits(addr, sep, buf, part, values, sums, chk);
    program := [];
    if ok {
      ReadToEnd(part, sep, |addr|, values, sums, chk', ver, buf[..]);
      program := buf[..(|addr| - (sep + 2 + 6)) * 5 / 8];
    }
  }

  /** What the values and checksums of an address say about it. */
  ghost predicate Explains(addr: seq<Char>, sep: nat, values: seq<C.Word>, sums: seq<C.Word>)
    requires WellFormed(addr, sep)
  {
    && C.IsRun(sums, values) && |values| == sep + |addr| && values[sep] == 0
    && (forall k | 0 <= k < sep :: values[k] == (Lower(addr[k]) >> 5) as C.Word)
    && (forall k | 0 <= k < sep :: values[sep + 1 + k] == (Lower(addr[k]) & 31) as C.Word)
    && forall k | 0 <= k < |addr| - sep - 1 :: values[2 * sep + 1 + k] == DataPart(addr, sep)[k] as C.Word
  }

  lemma ExplainValues(addr: seq<Char>, sep: nat, values: seq<C.Word>, sums: seq<C.Word>)
    requires WellFormed(addr, sep) && values == Values(Prefix(addr, sep), DataPart(addr, sep))
    requires C.IsRun(sums, values)
    ensures Explains(addr, sep, values, sums)
  {
  }

  lemma RunTo(values: seq<C.Word>) returns (sums: seq<C.Word>)
    ensures C.IsRun(sums, values) && sums[|values|] == C.Residue(values)
  {
    sums := C.MakeRun(values);
    C.RunIsFeed(sums, values, |values|);
  }

  method DecodeParts(addr: seq<Char>, sep: nat, ghost values: seq<C.Word>, ghost sums: seq<C.Word>)
    returns (r: Option<Address>)
    requires WellFormed(addr, sep) && Explains(addr, sep, values, sums)
    ensures r == MeaningBy(addr, sep, sums[|values|])
  {
    var chk := FeedPrefix(addr, sep, values, sums);
    var ok, ver, program;
    ok, ver, program, chk := ReadData(addr, sep, DataPart(addr, sep), values, sums, chk);
    var bufLen := (|addr| - (sep + 2 + 6)) * 5 / 8;
    if !ok || chk != 1 || ver > 16 || bufLen < 2 || bufLen > 40 {
      return None;
    }
    var prefix := LowerCase(addr, sep);
    r := Some(Address(prefix, [OpcodeOf(ver), bufLen as bv8] + program));
  }

  lemma OneSeparator(addr: seq<Char>, p: nat)
    requires IsSeparator(addr, p)
    ensures forall q | IsSeparator(addr, q) :: q == p
  {
  }

  /** Prefix and script of an address, if it is one. */
  method Decode(addr: seq<Char>) returns (r: Option<Address>)
    ensures forall p | IsSeparator(addr, p) :: r == DecodedAt(addr, p)
  {
    var ok, lower, upper := CheckChars(addr);
    var sep := FindSeparator(addr);
    OneSeparator(addr, sep);
    if !ok || |addr| < 8 || |addr| > 90 || sep < 1 || sep + 2 + 6 > |addr| || (upper && lower) {
      return None;
    }
    ghost var values := Values(Prefix(addr, sep), DataPart(addr, sep));
    ghost var sums := RunTo(values);
    ExplainValues(addr, sep, values, sums);
    r := DecodeParts(addr, sep, values, sums);
  }
}
