/** The ChaCha20 stream cipher as BRCrypto.c drives it. The block function of RFC 7539 section 2.3 is a parameter:
    what is proved is how the code walks through the keystream with a two-word counter that it bumps block by block. */
module ChaCha20 {
  import opened Bits
  import opened Bytes
  import opened Poly1305

  type Word32 = n: nat | n < 0x1_0000_0000
  type State = s: seq<Word32> | |s| == 16 witness seq(16, i => 0)
  type Block = b: seq<Byte> | |b| == 64 witness seq(64, i => 0)
  type Core = State -> Block

  const TWO_64: nat := 0x1_0000_0000_0000_0000

  /** Constants, key and 8-byte iv, with the two counter words left zero. */
  function InitialState(key: seq<Byte>, iv: seq<Byte>): State
    requires |key| == 32 && |iv| == 8
  {
    [0x61707865, 0x3320646e, 0x79622d32, 0x6b206574,
     Word(key, 0), Word(key, 4), Word(key, 8), Word(key, 12), Word(key, 16), Word(key, 20), Word(key, 24),
         Word(key, 28),
     0, 0, Word(iv, 0), Word(iv, 4)]
  }

  /** The state for block number n; the counter wraps at 2^64. */
  function CounterState(base: State, n: nat): State {
    base[12 := n % 0x1_0000_0000][13 := n / 0x1_0000_0000 % 0x1_0000_0000]
  }

  /** Byte i of the keystream is byte i % 64 of block number counter + i / 64. */
  function KeystreamByte(core: Core, base: State, counter: nat, i: nat): Byte {
    core(CounterState(base, counter + i / 64))[i % 64]
  }

  function XorByte(a: Byte, b: Byte): Byte {
    XorByteFits(a, b);
    Xor(a, b)
  }

  lemma XorByteFits(a: Byte, b: Byte)
    ensures Xor(a, b) < 256
  {
    Powers();
    XorBound(a, b, 8);
  }

  /** Encrypt or decrypt dataLen bytes; out may be the same buffer as data. */
  method Chacha20(core: Core, out: array<Byte>, key: seq<Byte>, iv: seq<Byte>, data: array<Byte>, dataLen: nat,
                  counter: nat)
    requires |key| == 32 && |iv| == 8 && counter < TWO_64
    requires dataLen <= data.Length && dataLen <= out.Length
    modifies out
    ensures forall i | 0 <= i < dataLen ::
        out[i] == XorByte(old(data[i]), KeystreamByte(core, InitialState(key, iv), counter, i))
    ensures forall i | dataLen <= i < out.Length :: out[i] == old(out[i])
  {
    var base := InitialState(key, iv);
    var s := LoadState(base, counter);
    Stream(core, out, s, base, data, dataLen, counter);
  }

  method LoadState(base: State, counter: nat) returns (s: array<Word32>)
    requires counter < TWO_64
    ensures fresh(s) && s.Length == 16 && s[..] == CounterState(base, counter)
  {
    s := new Word32[16](i requires 0 <= i < 16 => base[i]);
    s[12] := counter % 0x1_0000_0000;
    s[13] := counter / 0x1_0000_0000;
    assert s[..] == base[12 := s[12]][13 := s[13]];
  }

  method Stream(core: Core, out: array<Byte>, s: array<Word32>, ghost base: State, data: array<Byte>, dataLen: nat,
                ghost counter: nat)
    requires s.Length == 16 && s[..] == CounterState(base, counter)
    requires dataLen <= data.Length && dataLen <= out.Length
    modifies out, s
    ensures forall i | 0 <= i < dataLen :: out[i] == XorByte(old(data[i]), KeystreamByte(core, base, counter, i))
    ensures forall i | dataLen <= i < out.Length :: out[i] == old(out[i])
  {
    var b: seq<Byte> := [];
    var i := 0;
    while i < dataLen
      invariant i <= dataLen
      invariant s[..] == CounterState(base, counter + (i + 63) / 64)
      invariant i % 64 != 0 ==> b == core(CounterState(base, counter + i / 64))
      invariant forall j | 0 <= j < i :: out[j] == XorByte(old(data[j]), KeystreamByte(core, base, counter, j))
      invariant forall j | i <= j < data.Length :: data[j] == old(data[j])
      invariant forall j | i <= j < out.Length :: out[j] == old(out[j])
    {
      if i % 64 == 0 {
        b := NextBlock(core, s, base, counter + i / 64);
      }
      out[i] := XorByte(data[i], b[i % 64]);
      i := i + 1;
    }
  }

  /** Compute the current keystream block and bump the two counter words. */
  method NextBlock(core: Core, s: array<Word32>, ghost base: State, ghost n: nat) returns (b: seq<Byte>)
    requires s.Length == 16 && s[..] == CounterState(base, n)
    modifies s
    ensures b == core(CounterState(base, n)) && s[..] == CounterState(base, n + 1)
  {
    b := core(s[..]);
    CounterPlusOne(n);
    s[12] := U32(s[12] as int + 1);
    if s[12] == 0 {
      s[13] := U32(s[13] as int + 1);
    }
    assert s[..] == base[12 := s[12]][13 := s[13]];
  }

  /** Adding one to the low counter word, with carry into the high word, is adding one modulo 2^64. */
  lemma CounterPlusOne(n: nat)
    ensures var lo, hi := n % 0x1_0000_0000, n / 0x1_0000_0000 % 0x1_0000_0000;
            (n + 1) % 0x1_0000_0000 == U32(lo + 1) &&
            (n + 1) / 0x1_0000_0000 % 0x1_0000_0000 == if U32(lo + 1) == 0 then U32(hi + 1) else hi
  {
  }
}
