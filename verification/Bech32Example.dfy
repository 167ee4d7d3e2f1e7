/** One of the valid addresses of BIP 173 ("Test vectors"): version 16 with the program 751e, on the
    main network. */
module Bech32Example {

  import opened Options
  import opened Bech32
  import C = Bech32Checksum
  import G = Bech32Groups
  import R = Bech32RoundTrip

  /** "bc" */
  function Hrp(): seq<Char> {
    [98, 99]
  }

  function Script(): seq<bv8> {
    [0x60, 2, 0x75, 0x1e]
  }

  /** "bc1sw50qa3jx3s" */
  function Address(): seq<Char> {
    [98, 99, 49, 115, 119, 53, 48, 113, 97, 51, 106, 120, 51, 115]
  }

  // ---- the checksum ----

  function FedAt(n: nat): C.Word {
    match n
    case 0 => 3 case 1 => 3 case 2 => 0 case 3 => 2 case 4 => 3 case 5 => 16 case 6 => 14 case 7 => 20
    case 8 => 15 case 9 => 0 case 10 => 29 case 11 => 17 case 12 => 18 case 13 => 6 case 14 => 17 case _ => 16
  }

  /** The checksum after n values. */
  function SumAt(n: nat): C.Word {
    match n
    case 0 => 1 case 1 => 0x23 case 2 => 0x463 case 3 => 0x8c60 case 4 => 0x118c02
    case 5 => 0x2318043 case 6 => 0x3d5a5fc2 case 7 => 0x4ec3eb7 case 8 => 0x3bd75899 case 9 => 0x8760c09
    case 10 => 0x106098da case 11 => 0x31512880 case 12 => 0x3d73417f case 13 => 0x1cfe90b case 14 => 0x39fd2166
    case 15 => 0x36536445 case _ => 1
  }

  lemma StepAt(n: nat)
    requires n < 16
    ensures C.Xor(C.Polymod(SumAt(n)), FedAt(n)) == SumAt(n + 1)
  {
    match n
    case 0 => case 1 => case 2 => case 3 => case 4 => case 5 => case 6 => case 7 =>
    case 8 => case 9 => case 10 => case 11 => case 12 => case 13 => case 14 => case _ =>
  }

  lemma LeavesOne(values: seq<C.Word>)
    requires |values| == 16 && forall n | 0 <= n < 16 :: values[n] == FedAt(n)
    ensures C.Residue(values) == 1
  {
    var sums := seq(17, n requires 0 <= n => SumAt(n));
    forall n: nat | n < 16 ensures C.IsNext(sums, values, n) {
      StepAt(n);
    }
    C.RunIsFeed(sums, values, |values|);
  }

  // ---- the address ----

  ghost predicate IsPart(part: seq<bv8>) {
    part == [16, 14, 20, 15, 0, 29, 17, 18, 6, 17, 16]
  }

  lemma ValuesAre(hrp: seq<Char>, part: seq<bv8>)
    requires hrp == Hrp() && IsPart(part)
    ensures |Values(hrp, part)| == 16 && forall n | 0 <= n < 16 :: Values(hrp, part)[n] == FedAt(n)
  {
  }

  lemma PartLeavesOne(hrp: seq<Char>, part: seq<bv8>)
    requires hrp == Hrp() && IsPart(part)
    ensures C.Residue(Values(hrp, part)) == 1
  {
    ValuesAre(hrp, part);
    LeavesOne(Values(hrp, part));
  }

  lemma CodedIs(data: seq<bv8>)
    requires data == Script()
    ensures IsScript(data) && Encodable(Hrp(), data) && Coded(data) == [16, 14, 20, 15, 0]
  {
    var w := Witness(data);
    assert w == [0x75, 0x1e];
    var d := G.Digits(w);
    assert d[0] == 14 && d[1] == 20 && d[2] == 15 && d[3] == 0;
  }

  /** The number that the digits 29, 17, 18, 6, 17 and 16 stand for. */
  lemma DigitsEnd() returns (c: C.Word)
    ensures c < 0x40000000 && CheckDigits(c) == [29, 17, 18, 6, 17, 16]
  {
    c := 0x3b191a30;
  }

  lemma PartIs(digits: seq<bv8>, check: seq<bv8>)
    requires digits == [16, 14, 20, 15, 0] && check == [29, 17, 18, 6, 17, 16]
    ensures IsPart(digits + check)
  {
  }

  lemma TextIs(hrp: seq<Char>, part: seq<bv8>)
    requires hrp == Hrp() && IsPart(part)
    ensures Text(hrp, part) == Address()
  {
  }

  lemma EncodedBy(hrp: seq<Char>, digits: seq<bv8>, c: C.Word, part: seq<bv8>)
    requires c < 0x40000000 && part == digits + CheckDigits(c) && C.Residue(Values(hrp, part)) == 1
    ensures Text(hrp, digits + CheckDigits(Check(hrp, digits))) == Text(hrp, part)
  {
    R.OnlyCheck(hrp, digits, c, part, Check(hrp, digits));
  }

  lemma PartOf(hrp: seq<Char>, digits: seq<bv8>) returns (c: C.Word, part: seq<bv8>)
    requires hrp == Hrp() && digits == [16, 14, 20, 15, 0]
    ensures c < 0x40000000 && part == digits + CheckDigits(c) && C.Residue(Values(hrp, part)) == 1
    ensures Text(hrp, part) == Address()
  {
    c := DigitsEnd();
    part := digits + CheckDigits(c);
    PartIs(digits, CheckDigits(c));
    PartLeavesOne(hrp, part);
    TextIs(hrp, part);
  }

  /** The encoding of the script is that address. */
  lemma EncodedIs(hrp: seq<Char>, data: seq<bv8>)
    requires hrp == Hrp() && data == Script()
    ensures IsScript(data) && Encodable(hrp, data) && Encoded(hrp, data) == Address()
  {
    CodedIs(data);
    var c, part := PartOf(hrp, Coded(data));
    EncodedBy(hrp, Coded(data), c, part);
  }
}
