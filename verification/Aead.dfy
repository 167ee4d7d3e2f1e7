/** The ChaCha20-Poly1305 construction (BRCrypto.c, RFC 7539 section 2.8): the code feeds the authenticator piece by
    piece and drives the cipher with a 64-bit counter whose upper half is part of the nonce. */
module Aead {
  import opened Bits
  import opened Bytes
  import opened Poly1305
  import opened ChaCha20
  import opened Options

  // ---- specification ----

  /** Section 2.3: constants, key, 32-bit block counter, 12-byte nonce. */
  function RfcState(key: seq<Byte>, counter: Word32, nonce: seq<Byte>): State
    requires |key| == 32 && |nonce| == 12
  {
    [0x61707865, 0x3320646e, 0x79622d32, 0x6b206574,
     Word(key, 0), Word(key, 4), Word(key, 8), Word(key, 12), Word(key, 16), Word(key, 20), Word(key, 24),
         Word(key, 28),
     counter, Word(nonce, 0), Word(nonce, 4), Word(nonce, 8)]
  }

  /** Short enough for a 32-bit block counter that starts at one. */
  predicate FitsCounter(n: nat) {
    n / 64 < 0xffffffff
  }

  function Cipher(core: Core, key: seq<Byte>, nonce: seq<Byte>, m: seq<Byte>): (c: seq<Byte>)
    requires |key| == 32 && |nonce| == 12 && FitsCounter(|m|)
    ensures |c| == |m|
  {
    seq(|m|, i requires 0 <= i < |m| => XorByte(m[i], core(RfcState(key, 1 + i / 64, nonce))[i % 64]))
  }

  function OneTimeKey(core: Core, key: seq<Byte>, nonce: seq<Byte>): (k: seq<Byte>)
    requires |key| == 32 && |nonce| == 12
    ensures |k| == 32
  {
    core(RfcState(key, 0, nonce))[..32]
  }

  function Pad16(s: seq<Byte>): (p: seq<Byte>)
    ensures |p| % 16 == 0
  {
    if |s| % 16 == 0 then s else s + Zeros(16 - |s| % 16)
  }

  function MacData(ad: seq<Byte>, c: seq<Byte>): seq<Byte> {
    Pad16(ad) + Pad16(c) + (ToBytes(|ad|, 8) + ToBytes(|c|, 8))
  }

  function Tag(core: Core, key: seq<Byte>, nonce: seq<Byte>, c: seq<Byte>, ad: seq<Byte>): nat
    requires |key| == 32 && |nonce| == 12
  {
    Mac(OneTimeKey(core, key, nonce), MacData(ad, c))
  }

  function Seal(core: Core, key: seq<Byte>, nonce: seq<Byte>, m: seq<Byte>, ad: seq<Byte>): (s: seq<Byte>)
    requires |key| == 32 && |nonce| == 12 && FitsCounter(|m|)
    ensures |s| == |m| + 16
  {
    var c := Cipher(core, key, nonce, m);
    c + ToBytes(Tag(core, key, nonce, c, ad), 16)
  }

  function Open(core: Core, key: seq<Byte>, nonce: seq<Byte>, s: seq<Byte>, ad: seq<Byte>): Option<seq<Byte>>
    requires |key| == 32 && |nonce| == 12
  {
    if |s| < 16 || !FitsCounter(|s| - 16) then None else
    var c := s[..|s| - 16];
    if LE(s[|s| - 16..]) == Tag(core, key, nonce, c, ad) then Some(Cipher(core, key, nonce, c)) else None
  }

  // ---- what is authenticated ----

  /** The next multiple of 16. */
  function Up16(n: nat): nat {
    (n + 15) / 16 * 16
  }

  /** The lengths stand in the last 16 bytes. */
  ghost predicate EndsWithLengths(x: seq<Byte>, m: nat, n: nat) {
    |x| >= 16 && LE(x[|x| - 16..|x| - 8]) == m && LE(x[|x| - 8..]) == n
  }

  /** Associated data and ciphertext each begin at a multiple of 16, zeros fill up, and two 64-bit lengths end it. */
  ghost predicate LaidOut(x: seq<Byte>, ad: seq<Byte>, c: seq<Byte>) {
    && |x| == Up16(|ad|) + Up16(|c|) + 16 && EndsWithLengths(x, |ad|, |c|)
    && x[..|ad|] == ad && (forall i | |ad| <= i < Up16(|ad|) :: x[i] == 0)
    && x[Up16(|ad|)..Up16(|ad|) + |c|] == c
    && forall i | Up16(|ad|) + |c| <= i < Up16(|ad|) + Up16(|c|) :: x[i] == 0
  }

  lemma MacDataIs(ad: seq<Byte>, c: seq<Byte>)
    requires |ad| < TWO_64 && |c| < TWO_64
    ensures LaidOut(MacData(ad, c), ad, c)
  {
    PadIs(ad);
    PadIs(c);
    LengthBack(|ad|);
    LengthBack(|c|);
    Joins(MacData(ad, c), Pad16(ad), Pad16(c), ToBytes(|ad|, 8), ToBytes(|c|, 8));
  }

  /** Where the four parts stand. */
  lemma Joins(x: seq<Byte>, a: seq<Byte>, b: seq<Byte>, m: seq<Byte>, n: seq<Byte>)
    requires x == a + b + (m + n) && |m| == |n| == 8
    ensures |x| == |a| + |b| + 16 && x[|x| - 16..|x| - 8] == m && x[|x| - 8..] == n
    ensures forall i | 0 <= i <= |a| :: x[..i] == a[..i]
    ensures forall i | 0 <= i < |a| :: x[i] == a[i]
    ensures forall i | 0 <= i <= |b| :: x[|a|..|a| + i] == b[..i]
    ensures forall i | |a| <= i < |a| + |b| :: x[i] == b[i - |a|]
  {
  }

  lemma PadIs(s: seq<Byte>)
    ensures |Pad16(s)| == Up16(|s|) && Pad16(s)[..|s|] == s
    ensures forall i | |s| <= i < |Pad16(s)| :: Pad16(s)[i] == 0
  {
    ZerosAreZero(if |s| % 16 == 0 then 0 else 16 - |s| % 16);
  }

  lemma {:induction false} ZerosAreZero(n: nat)
    ensures forall i | 0 <= i < n :: Zeros(n)[i] == 0
  {
    if n > 0 {
      ZerosAreZero(n - 1);
    }
  }

  lemma LengthBack(n: nat)
    requires n < TWO_64
    ensures LE(ToBytes(n, 8)) == n
  {
    assert Pow256(4) == 0x1_0000_0000;
    assert Pow256(8) == TWO_64;
    BytesValue(n, 8);
  }

  /** So no other associated data or ciphertext is authenticated in the same way. */
  lemma MacDataDetermines(ad: seq<Byte>, c: seq<Byte>, ad': seq<Byte>, c': seq<Byte>)
    requires |ad| < TWO_64 && |c| < TWO_64 && |ad'| < TWO_64 && |c'| < TWO_64
    requires MacData(ad, c) == MacData(ad', c')
    ensures ad == ad' && c == c'
  {
    MacDataIs(ad, c);
    MacDataIs(ad', c');
    SameParts(MacData(ad, c), ad, c, ad', c');
  }

  lemma SameParts(x: seq<Byte>, ad: seq<Byte>, c: seq<Byte>, ad': seq<Byte>, c': seq<Byte>)
    requires LaidOut(x, ad, c) && LaidOut(x, ad', c')
    ensures ad == ad' && c == c'
  {
    assert |ad| == |ad'| && |c| == |c'|;
  }

  /** The constants are a text of 16 characters. */
  lemma SigmaIs(key: seq<Byte>, counter: Word32, nonce: seq<Byte>, i: nat)
    requires |key| == 32 && |nonce| == 12 && i < 4
    ensures forall j | 0 <= j < 4 ::
        ToBytes(RfcState(key, counter, nonce)[i], 4)[j] == "expand 32-byte k"[4 * i + j] as int
  {
    var w := RfcState(key, counter, nonce)[i];
    FourBytes(w);
  }

  // ---- what the specification gives ----

  lemma TagFits(key: seq<Byte>, msg: seq<Byte>)
    requires |key| == 32
    ensures Mac(key, msg) < TWO_128 == Pow256(16)
  {
    FullBlockNumber(ToBytes(0, 16));
  }

  lemma CipherTwice(core: Core, key: seq<Byte>, nonce: seq<Byte>, m: seq<Byte>)
    requires |key| == 32 && |nonce| == 12 && FitsCounter(|m|)
    ensures Cipher(core, key, nonce, Cipher(core, key, nonce, m)) == m
  {
    var c := Cipher(core, key, nonce, m);
    forall i | 0 <= i < |m| ensures Cipher(core, key, nonce, c)[i] == m[i] {
      XorCancels(m[i], core(RfcState(key, 1 + i / 64, nonce))[i % 64]);
    }
  }

  /** Opening succeeds on exactly the sealed messages, and gives back what was sealed. */
  lemma OpenIffSealed(core: Core, key: seq<Byte>, nonce: seq<Byte>, s: seq<Byte>, ad: seq<Byte>, m: seq<Byte>)
    requires |key| == 32 && |nonce| == 12 && FitsCounter(|m|)
    ensures Open(core, key, nonce, s, ad) == Some(m) <==> s == Seal(core, key, nonce, m, ad)
  {
    if s == Seal(core, key, nonce, m, ad) {
      var c := Cipher(core, key, nonce, m);
      var t := Tag(core, key, nonce, c, ad);
      assert s[..|s| - 16] == c && s[|s| - 16..] == ToBytes(t, 16);
      TagFits(OneTimeKey(core, key, nonce), MacData(ad, c));
      BytesValue(t, 16);
      CipherTwice(core, key, nonce, m);
    }
    if Open(core, key, nonce, s, ad) == Some(m) {
      var c := s[..|s| - 16];
      CipherTwice(core, key, nonce, c);
      ValueBytes(s[|s| - 16..]);
      assert s == c + s[|s| - 16..];
    }
  }

  // ---- the counter ----

  /** With the first nonce word in the upper half of the 64-bit counter, block k of the code is block k of the RFC
      as long as k fits 32 bits. */
  lemma CounterIsRfc(key: seq<Byte>, nonce: seq<Byte>, k: nat)
    requires |key| == 32 && |nonce| == 12 && k < 0x1_0000_0000
    ensures CounterState(InitialState(key, nonce[4..]), Word(nonce, 0) * 0x1_0000_0000 + k) == RfcState(key, k, nonce)
  {
    WordTail(nonce, 0);
    WordTail(nonce, 4);
  }

  lemma WordTail(nonce: seq<Byte>, i: nat)
    requires i + 8 <= |nonce|
    ensures Word(nonce[4..], i) == Word(nonce, i + 4)
  {
  }

  /** The message guard keeps every block counter below 2^32: no keystream block is made after a carry into the
        nonce. */
  lemma NoCounterCarry(n: nat, i: nat)
    requires FitsCounter(n) && i < n
    ensures 1 + i / 64 < 0x1_0000_0000
  {
  }

  lemma CipherByte(core: Core, key: seq<Byte>, nonce: seq<Byte>, m: seq<Byte>, i: nat)
    requires |key| == 32 && |nonce| == 12 && FitsCounter(|m|) && i < |m|
    ensures XorByte(m[i], KeystreamByte(core, InitialState(key, nonce[4..]), Word(nonce, 0) * 0x1_0000_0000 + 1, i))
         == Cipher(core, key, nonce, m)[i]
  {
    NoCounterCarry(|m|, i);
    CounterIsRfc(key, nonce, 1 + i / 64);
  }

  lemma XorZeroByte(b: Byte)
    ensures XorByte(0, b) == b
  {
  }

  // ---- the code ----

  method MakeMacKey(core: Core, key: seq<Byte>, nonce: seq<Byte>) returns (macKey: seq<Byte>)
    requires |key| == 32 && |nonce| == 12
    ensures macKey == OneTimeKey(core, key, nonce)
  {
    var k := new Byte[32](_ => 0);
    Chacha20(core, k, key, nonce[4..], k, 32, Word(nonce, 0) * 0x1_0000_0000);
    macKey := k[..];
    CounterIsRfc(key, nonce, 0);
    forall i | 0 <= i < 32 ensures macKey[i] == OneTimeKey(core, key, nonce)[i] {
      XorZeroByte(core(RfcState(key, 0, nonce))[i]);
    }
  }

  /** Feeding the padded remainder completes the padded data. */
  lemma PadJoins(r: nat, data: seq<Byte>, front: seq<Byte>, pad: seq<Byte>, acc: nat)
    requires |data| % 16 != 0 && front == data[..|data| / 16 * 16]
    requires pad == data[|data| / 16 * 16..] + Zeros(16 - |data| % 16)
    ensures Accumulate(r, pad, Accumulate(r, front, acc)) == Accumulate(r, Pad16(data), acc)
  {
    PadSplit(data, |data| / 16 * 16);
    AccumulateChunks(r, front, pad, acc);
  }

  /** The remainder, filled up with zeros. */
  method MacRest(h: array<nat>, macKey: seq<Byte>, data: seq<Byte>, ghost front: seq<Byte>, ghost acc: nat)
    requires h.Length == 5 && |macKey| == 32 && InRange(h[..])
    requires |data| % 16 != 0 && front == data[..|data| / 16 * 16]
    requires ValueOf(h[..]) % P == Accumulate(R(macKey), front, acc)
    modifies h
    ensures InRange(h[..]) && ValueOf(h[..]) % P == Accumulate(R(macKey), Pad16(data), acc)
  {
    var pad := data[|data| / 16 * 16..] + Zeros(16 - |data| % 16);
    PadJoins(R(macKey), data, front, pad, acc);
    Compress(h, macKey, pad, false, Accumulate(R(macKey), front, acc));
  }

  /** Whole blocks first, then the remainder. */
  method MacPart(h: array<nat>, macKey: seq<Byte>, data: seq<Byte>, ghost acc: nat)
    requires h.Length == 5 && |macKey| == 32 && InRange(h[..]) && ValueOf(h[..]) % P == acc
    modifies h
    ensures InRange(h[..]) && ValueOf(h[..]) % P == Accumulate(R(macKey), Pad16(data), acc)
  {
    var front := data[..|data| / 16 * 16];
    Compress(h, macKey, front, false, acc);
    if |data| % 16 != 0 {
      MacRest(h, macKey, data, front, acc);
    } else {
      PadSplit(data, |data|);
    }
  }

  lemma PadSplit(data: seq<Byte>, n: nat)
    requires n == |data| / 16 * 16
    ensures |data| % 16 == 0 ==> Pad16(data) == data[..n]
    ensures |data| % 16 != 0 ==> Pad16(data) == data[..n] + (data[n..] + Zeros(16 - |data| % 16))
  {
    if |data| % 16 != 0 {
      SplitAppend(data, n, Zeros(16 - |data| % 16));
    }
  }

  lemma SplitAppend<T>(s: seq<T>, n: nat, z: seq<T>)
    requires n <= |s|
    ensures s + z == s[..n] + (s[n..] + z)
  {
  }

  method MacLengths(h: array<nat>, macKey: seq<Byte>, adLen: nat, dataLen: nat, ghost acc: nat) returns (tag: seq<Byte>)
    requires h.Length == 5 && |macKey| == 32 && InRange(h[..]) && ValueOf(h[..]) % P == acc
    modifies h
    ensures |tag| == 16
    ensures LE(tag) ==
            (Accumulate(R(macKey), ToBytes(adLen, 8) + ToBytes(dataLen, 8), acc) + LE(macKey[16..])) % TWO_128
  {
    tag := MacEnd(h, macKey, ToBytes(adLen, 8) + ToBytes(dataLen, 8), acc);
  }

  method MacEnd(h: array<nat>, macKey: seq<Byte>, data: seq<Byte>, ghost acc: nat) returns (tag: seq<Byte>)
    requires h.Length == 5 && |macKey| == 32 && InRange(h[..]) && ValueOf(h[..]) % P == acc
    modifies h
    ensures |tag| == 16 && LE(tag) == (Accumulate(R(macKey), data, acc) + LE(macKey[16..])) % TWO_128
  {
    Compress(h, macKey, data, true, acc);
    tag := TagBytes(h[..]);
    TagBytesValue(h[..]);
  }

  /** The authenticator over associated data, ciphertext and lengths, fed in pieces. */
  method ChunkedMac(macKey: seq<Byte>, ad: seq<Byte>, c: seq<Byte>) returns (tag: seq<Byte>)
    requires |macKey| == 32
    ensures |tag| == 16 && LE(tag) == Mac(macKey, MacData(ad, c))
  {
    var h := ZeroLimbs();
    ghost var r := R(macKey);
    ghost var a1 := Accumulate(r, Pad16(ad), 0);
    ghost var a2 := Accumulate(r, Pad16(c), a1);
    MacPart(h, macKey, ad, 0);
    MacPart(h, macKey, c, a1);
    tag := MacLengths(h, macKey, |ad|, |c|, a2);
    ThreeChunks(r, Pad16(ad), Pad16(c), ToBytes(|ad|, 8) + ToBytes(|c|, 8));
  }

  lemma ThreeChunks(r: nat, a: seq<Byte>, b: seq<Byte>, c: seq<Byte>)
    requires |a| % 16 == 0 && |b| % 16 == 0
    ensures Accumulate(r, a + b + c, 0) == Accumulate(r, c, Accumulate(r, b, Accumulate(r, a, 0)))
  {
    AccumulateChunks(r, a + b, c, 0);
    AccumulateChunks(r, a, b, 0);
  }

  /** Returns the number of bytes written, the number needed if there is no buffer, or 0 if the arguments are
        refused. */
  method Encrypt(core: Core, out: array?<Byte>, outLen: nat, key: seq<Byte>, nonce: seq<Byte>,
                 data: array<Byte>, dataLen: nat, ad: seq<Byte>) returns (n: nat)
    requires |key| == 32 && |nonce| == 12 && dataLen <= data.Length && (out != null ==> outLen <= out.Length)
    modifies out
    ensures out == null ==> n == dataLen + 16
    ensures out != null && (outLen < dataLen + 16 || !FitsCounter(dataLen)) ==> n == 0 && out[..] == old(out[..])
    ensures out != null && outLen >= dataLen + 16 && FitsCounter(dataLen) ==>
      n == dataLen + 16 && out[..n] == Seal(core, key, nonce, old(data[..dataLen]), ad) &&
          out[n..] == old(out[dataLen + 16..])
  {
    if out == null {
      return dataLen + 16;
    }
    if outLen < dataLen + 16 || dataLen / 64 >= 0xffffffff {
      return 0;
    }
    SealInto(core, out, key, nonce, data, dataLen, ad);
    n := dataLen + 16;
  }

  method SealInto(core: Core, out: array<Byte>, key: seq<Byte>, nonce: seq<Byte>, data: array<Byte>, n: nat,
                  ad: seq<Byte>)
    requires |key| == 32 && |nonce| == 12 && n <= data.Length && n + 16 <= out.Length && FitsCounter(n)
    modifies out
    ensures out[..n + 16] == Seal(core, key, nonce, old(data[..n]), ad) && out[n + 16..] == old(out[n + 16..])
  {
    ghost var m := data[..n];
    ghost var rest := out[n + 16..];
    var macKey := MakeMacKey(core, key, nonce);
    CipherInto(core, out, key, nonce, data, n);
    assert out[n + 16..] == rest by { assert out[n..][16..] == out[n + 16..]; }
    var c := out[..n];
    var tag := ChunkedMac(macKey, ad, c);
    assert tag == ToBytes(Tag(core, key, nonce, c, ad), 16) by { ValueBytes(tag); }
    AppendTag(out, n, tag);
  }

  /** The cipher call shared by both directions, with the block counter starting at one. */
  method CipherInto(core: Core, out: array<Byte>, key: seq<Byte>, nonce: seq<Byte>, data: array<Byte>, n: nat)
    requires |key| == 32 && |nonce| == 12 && n <= data.Length && n <= out.Length && FitsCounter(n)
    modifies out
    ensures out[..n] == Cipher(core, key, nonce, old(data[..n])) && out[n..] == old(out[n..])
  {
    ghost var m := data[..n];
    Chacha20(core, out, key, nonce[4..], data, n, Word(nonce, 0) * 0x1_0000_0000 + 1);
    CipherBytes(core, key, nonce, m, out[..n]);
  }

  method AppendTag(out: array<Byte>, at: nat, tag: seq<Byte>)
    requires at + 16 <= out.Length && |tag| == 16
    modifies out
    ensures out[..at + 16] == old(out[..at]) + tag && out[at + 16..] == old(out[at + 16..])
  {
    forall i | 0 <= i < 16 {
      out[at + i] := tag[i];
    }
  }

  lemma CipherBytes(core: Core, key: seq<Byte>, nonce: seq<Byte>, m: seq<Byte>, c: seq<Byte>)
    requires |key| == 32 && |nonce| == 12 && FitsCounter(|m|) && |c| == |m|
    requires forall i | 0 <= i < |m| ::
      c[i] == XorByte(m[i], KeystreamByte(core, InitialState(key, nonce[4..]), Word(nonce, 0) * 0x1_0000_0000 + 1, i))
    ensures c == Cipher(core, key, nonce, m)
  {
    forall i | 0 <= i < |m| ensures c[i] == Cipher(core, key, nonce, m)[i] {
      CipherByte(core, key, nonce, m, i);
    }
  }

  /** Word-wise comparison of two tags, as one disjunction of differences. */
  function Differ(t: seq<Byte>, u: seq<Byte>): nat
    requires |t| == 16 && |u| == 16
  {
    Or(Or(Or(Xor(Word(t, 0), Word(u, 0)), Xor(Word(t, 4), Word(u, 4))), Xor(Word(t, 8), Word(u, 8))),
       if Xor(Word(t, 12), Word(u, 12)) != 0 then 1 else 0)
  }

  lemma DifferIffUnequal(t: seq<Byte>, u: seq<Byte>)
    requires |t| == 16 && |u| == 16
    ensures Differ(t, u) == 0 <==> LE(t) == LE(u)
  {
    var a, b, c, d := Xor(Word(t, 0), Word(u, 0)), Xor(Word(t, 4), Word(u, 4)), Xor(Word(t, 8), Word(u, 8)),
        Xor(Word(t, 12), Word(u, 12));
    XorIsZero(Word(t, 0), Word(u, 0));
    XorIsZero(Word(t, 4), Word(u, 4));
    XorIsZero(Word(t, 8), Word(u, 8));
    XorIsZero(Word(t, 12), Word(u, 12));
    OrIsZero(a, b);
    OrIsZero(Or(a, b), c);
    OrIsZero(Or(Or(a, b), c), if d != 0 then 1 else 0);
    LeWords(t);
    LeWords(u);
  }

  method Decrypt(core: Core, out: array?<Byte>, outLen: nat, key: seq<Byte>, nonce: seq<Byte>,
                 data: array<Byte>, dataLen: nat, ad: seq<Byte>) returns (n: nat)
    requires |key| == 32 && |nonce| == 12 && dataLen <= data.Length && (out != null ==> outLen <= out.Length)
    modifies out
    ensures out == null ==> n == if dataLen < 16 then 0 else dataLen - 16
    ensures out != null && (outLen + 16 < dataLen || Open(core, key, nonce, old(data[..dataLen]), ad) == None) ==>
      n == 0 && out[..] == old(out[..])
    ensures out != null && outLen + 16 >= dataLen && Open(core, key, nonce, old(data[..dataLen]), ad).Some? ==>
      n == dataLen - 16 && out[n..] == old(out[dataLen - 16..]) &&
      Open(core, key, nonce, old(data[..dataLen]), ad) == Some(out[..n])
  {
    if out == null {
      return if dataLen < 16 then 0 else dataLen - 16;
    }
    if dataLen < 16 || (dataLen - 16) / 64 >= 0xffffffff || outLen + 16 < dataLen {
      return 0;
    }
    n := dataLen - 16;
    ghost var sealed := data[..dataLen];
    var macKey := MakeMacKey(core, key, nonce);
    var tag := ChunkedMac(macKey, ad, data[..n]);
    var mac := data[n..dataLen];
    assert sealed[..n] == data[..n] && sealed[n..] == mac;
    DifferIffUnequal(mac, tag);
    if Differ(mac, tag) != 0 {
      n := 0;
    }
    CipherInto(core, out, key, nonce, data, n);
  }
}
