/** Which wrong addresses the decoder refuses (BRBech32.c; BIP 173, "Checksum" and "Bech32"). */
module Bech32Errors {

  import opened Options
  import opened Bech32
  import C = Bech32Checksum
  import Code = Bech32Code

  /** The 32 characters in the order of their values. */
  const CHARSET := "qpzry9x8gf2tvdw0s3jn54khce6mua7l"

  lemma CharsetIs(d: bv8)
    requires d < 32
    ensures CharOf(d) as int == CHARSET[d as int] as int
  {
  }

  /** No other character than that of a digit has its value. */
  lemma OnlyCharOf(c: Char)
    requires DigitOf(c) < 32
    ensures c == CharOf(DigitOf(c))
  {
  }

  lemma SmallValues(c: Char)
    ensures (c >> 5) as C.Word < 32 && (c & 31) as C.Word < 32
  {
  }

  lemma ValuesAreDigits(hrp: seq<Char>, digits: seq<bv8>)
    requires AllDigits(digits)
    ensures Code.AreDigits(Values(hrp, digits))
  {
    var values := Values(hrp, digits);
    forall k | 0 <= k < |values| ensures values[k] < 32 {
      ValueIsDigit(hrp, digits, k);
    }
  }

  lemma ValueIsDigit(hrp: seq<Char>, digits: seq<bv8>, k: nat)
    requires AllDigits(digits) && k < 2 * |hrp| + 1 + |digits|
    ensures ValueAt(hrp, digits, k) < 32
  {
    if k < |hrp| {
      SmallValues(hrp[k]);
    } else if |hrp| < k <= 2 * |hrp| {
      SmallValues(hrp[k - |hrp| - 1]);
    }
  }

  /** Apart from their case, the texts differ only within the six characters from n on, and do differ there. */
  ghost predicate Differ(a: seq<Char>, b: seq<Char>, n: nat) {
    && n + 6 <= |a| == |b| && (forall k | 0 <= k < |a| && !(n <= k < n + 6) :: Lower(a[k]) == Lower(b[k]))
    && exists k | 0 <= k < |a| :: Lower(a[k]) != Lower(b[k])
  }

  lemma DigitDiffers(a: seq<Char>, b: seq<Char>, p: nat, n: nat) returns (i: nat)
    requires Differ(a, b, n) && p < n && AllDigits(DataPart(a, p)) && AllDigits(DataPart(b, p))
    ensures i < |DataPart(a, p)| && DataPart(a, p)[i] != DataPart(b, p)[i]
  {
    var k :| 0 <= k < |a| && Lower(a[k]) != Lower(b[k]);
    i := k - p - 1;
    var x, y := DataPart(a, p)[i], DataPart(b, p)[i];
    assert x == DigitOf(Lower(a[k])) && y == DigitOf(Lower(b[k]));
    OnlyCharOf(Lower(a[k]));
    OnlyCharOf(Lower(b[k]));
  }

  /** A digit of the data as a value of the checksum. */
  lemma DataValue(hrp: seq<Char>, digits: seq<bv8>, i: nat)
    requires i < |digits|
    ensures Values(hrp, digits)[2 * |hrp| + 1 + i] == digits[i] as C.Word
  {
  }

  lemma ValuesDiffer(hrp: seq<Char>, x: seq<bv8>, y: seq<bv8>, i: nat)
    requires |x| == |y| && i < |x| && x[i] != y[i]
    ensures Values(hrp, x) != Values(hrp, y)
  {
    DataValue(hrp, x, i);
    DataValue(hrp, y, i);
    assert x[i] as C.Word != y[i] as C.Word;
  }

  ghost predicate AgreeBut(x: seq<bv8>, y: seq<bv8>, m: nat) {
    |x| == |y| && m + 6 <= |x| && forall i | 0 <= i < |x| && !(m <= i < m + 6) :: x[i] == y[i]
  }

  lemma ValuesAgree(hrp: seq<Char>, x: seq<bv8>, y: seq<bv8>, m: nat)
    requires AgreeBut(x, y, m)
    ensures Code.AgreeOutside(Values(hrp, x), Values(hrp, y), 2 * |hrp| + 1 + m)
  {
  }

  lemma SamePrefix(a: seq<Char>, b: seq<Char>, p: nat, n: nat)
    requires Differ(a, b, n) && p < n
    ensures Prefix(a, p) == Prefix(b, p)
    ensures AgreeBut(DataPart(a, p), DataPart(b, p), n - p - 1)
  {
  }

  lemma DataNoticed(hrp: seq<Char>, x: seq<bv8>, y: seq<bv8>, m: nat, i: nat)
    requires AllDigits(x) && AllDigits(y) && AgreeBut(x, y, m) && i < |x| && x[i] != y[i]
    ensures C.Residue(Values(hrp, x)) != C.Residue(Values(hrp, y))
  {
    ValuesDiffer(hrp, x, y, i);
    ValuesAgree(hrp, x, y, m);
    ValuesAreDigits(hrp, x);
    ValuesAreDigits(hrp, y);
    Code.BurstIsNoticed(Values(hrp, x), Values(hrp, y), 2 * |hrp| + 1 + m);
  }

  lemma SomeIsOne(a: seq<Char>, p: nat)
    requires DecodedAt(a, p).Some?
    ensures p < |a| && AllDigits(DataPart(a, p)) && C.Residue(Values(Prefix(a, p), DataPart(a, p))) == 1
  {
  }

  /** An address in which up to six characters in a row behind the separator are wrong is refused. */
  lemma WrongIsRefused(a: seq<Char>, b: seq<Char>, p: nat, n: nat)
    requires DecodedAt(a, p).Some? && p < n && Differ(a, b, n)
    ensures DecodedAt(b, p) == None
  {
    if DecodedAt(b, p).Some? {
      SomeIsOne(a, p);
      SomeIsOne(b, p);
      SamePrefix(a, b, p, n);
      var i := DigitDiffers(a, b, p, n);
      DataNoticed(Prefix(a, p), DataPart(a, p), DataPart(b, p), n - p - 1, i);
    }
  }
}
