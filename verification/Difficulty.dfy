/** Proof of work and difficulty retargeting (BRMerkleBlock.c) in the compact target format, proved against
    arithmetic on unbounded integers. A compact target is a size byte and a 23-bit mantissa. */
module Difficulty {
  import opened Bits
  import opened Bytes
  import opened MerkleTree
  import opened MerkleBlock

  const TARGET_TIMESPAN: nat := 1209600
  const MAX_SIZE: nat := 0x1d
  const MAX_MANTISSA: nat := 0x00ffff
  const BLOCK_DIFFICULTY_INTERVAL: nat := 2016
  const BLOCK_MAX_TIME_DRIFT: nat := 7200

  datatype Compact = Compact(size: nat, mantissa: nat)

  // ---- the format ----

  function ShiftLeft(v: nat, bytes: nat): nat {
    if bytes == 0 then v else 256 * ShiftLeft(v, bytes - 1)
  }

  function ShiftRight(v: nat, bytes: nat): nat {
    if bytes == 0 then v else ShiftRight(v / 256, bytes - 1)
  }

  /** The number a compact target stands for. */
  function Expand(c: Compact): nat {
    if c.size >= 3 then ShiftLeft(c.mantissa, c.size - 3) else ShiftRight(c.mantissa, 3 - c.size)
  }

  function NumBytes(v: nat): nat {
    if v == 0 then 0 else 1 + NumBytes(v / 256)
  }

  /** The canonical compact form: the leading three bytes, or two if the top bit of three would read as a sign. */
  function Encode(v: nat): Compact {
    var n := NumBytes(v);
    var m := if n <= 3 then ShiftLeft(v, 3 - n) else ShiftRight(v, n - 3);
    if m > 0x7fffff then Compact(n + 1, m / 256) else Compact(n, m)
  }

  predicate Less(a: Compact, b: Compact) {
    a.size < b.size || (a.size == b.size && a.mantissa < b.mantissa)
  }

  const EASIEST: Compact := Compact(MAX_SIZE, MAX_MANTISSA)

  function Limit(c: Compact): Compact {
    if Less(EASIEST, c) then EASIEST else c
  }

  /** Shift right a byte at a time until the mantissa fits and the size is positive. */
  function Normalize(t: nat, size: int): (c: Compact)
    ensures c.size >= 1 && c.mantissa <= 0x7fffff
    decreases (if size < 1 then 1 - size else 0) + t
  {
    if size < 1 || t > 0x7fffff then Normalize(t / 256, size + 1) else Compact(size, t)
  }

  // ---- retargeting, as the code computes it ----

  /** Conversion of a 64-bit difference to a 32-bit int. */
  function ToInt32(d: int): int {
    (d + 0x8000_0000) % 0x1_0000_0000 - 0x8000_0000
  }

  /** At most four times and at least a quarter of the target timespan. */
  function Clamp(t: int): (c: nat)
    ensures TARGET_TIMESPAN / 4 <= c <= TARGET_TIMESPAN * 4
  {
    if t < TARGET_TIMESPAN / 4 then TARGET_TIMESPAN / 4 else if t > TARGET_TIMESPAN * 4 then TARGET_TIMESPAN * 4 else t
  }

  function Times(a: nat, b: nat): (p: nat)
    ensures p == a * b
  {
    MulNonNegative(a, b);
    a * b
  }

  lemma MulNonNegative(a: nat, b: nat)
    ensures a * b >= 0
  {
  }

  /** 4725 is TARGET_TIMESPAN / 256; starting one byte lower makes up for the missing factor. */
  function Retarget(previous: Compact, timespan: int): Compact {
    Limit(Normalize(Quotient(previous, timespan), previous.size - 1))
  }

  function Unpack(target: nat): Compact {
    Compact(target / 0x1000000, target % 0x1000000)
  }

  function Pack(c: Compact): nat {
    c.mantissa + c.size * 0x1000000
  }

  // ---- retargeting over unbounded integers ----

  function Scaled(target: nat, timespan: int): nat {
    Times(target, Clamp(timespan)) / TARGET_TIMESPAN
  }

  /** The new target as the difficulty rule defines it. */
  function ExactRetarget(previous: Compact, timespan: int): nat {
    var scaled := Scaled(Expand(previous), timespan);
    if scaled < Expand(EASIEST) then scaled else Expand(EASIEST)
  }

  /** A target without a leading zero byte in its mantissa. */
  predicate Normalized(c: Compact) {
    c.size >= 4 && 0x8000 <= c.mantissa <= 0x7fffff
  }

  lemma {:induction false} ShiftLeftTimes(v: nat, k: nat, t: nat)
    ensures Times(ShiftLeft(v, k), t) == ShiftLeft(Times(v, t), k)
  {
    if k > 0 {
      ShiftLeftTimes(v, k - 1, t);
      Distribute256(ShiftLeft(v, k - 1), t);
    }
  }

  lemma Distribute256(a: nat, t: nat)
    ensures Times(256 * a, t) == 256 * Times(a, t)
  {
  }

  /** Whole bytes can be shifted out before or after dividing. */
  lemma {:induction false} DivideShifted(n: nat, k: nat)
    ensures ShiftRight(ShiftLeft(n, k + 1) / TARGET_TIMESPAN, k) == n / 4725
  {
    if k > 0 {
      DivideShifted(n, k - 1);
      var a := ShiftLeft(n, k);
      assert ShiftLeft(n, k + 1) == 256 * a;
      assert 256 * a / TARGET_TIMESPAN / 256 == a / TARGET_TIMESPAN;
    }
  }

  lemma {:induction false} ShiftRightShrinks(v: nat, k: nat)
    ensures ShiftRight(v, k) <= v
  {
    if k > 0 {
      ShiftRightShrinks(v / 256, k - 1);
    }
  }

  lemma {:induction false} ShiftBack(v: nat, k: nat)
    ensures ShiftRight(ShiftLeft(v, k), k) == v
  {
    if k > 0 {
      ShiftBack(v, k - 1);
    }
  }

  /** Shifting whole bytes off a large number does not change its compact form, only the size it is counted from. */
  lemma {:induction false} NormalizeShifted(e: nat, k: nat, size: nat)
    requires ShiftRight(e, k) >= 0x8000 && size >= 1
    ensures Normalize(e, size) == Normalize(ShiftRight(e, k), size + k)
  {
    if k > 0 {
      ShiftRightShrinks(e / 256, k - 1);
      NormalizeShifted(e / 256, k - 1, size + 1);
    }
  }

  /** The canonical form is what normalizing from three bytes gives. */
  lemma {:induction false} EncodeIsNormalize(v: nat)
    requires v >= 0x8000
    ensures Encode(v) == Normalize(v, 3)
  {
    if v >= 0x1000000 {
      EncodeIsNormalize(v / 256);
      EncodeStep(v);
      NormalizeStep(v / 256, 3);
    } else {
      SmallBytes(v);
      assert ShiftLeft(v, 1) == 256 * ShiftLeft(v, 0);
    }
  }

  lemma SmallBytes(v: nat)
    requires 0x100 <= v < 0x1000000
    ensures NumBytes(v) == if v < 0x10000 then 2 else 3
  {
    assert NumBytes(v) == 1 + NumBytes(v / 256);
    assert NumBytes(v / 256) == 1 + NumBytes(v / 256 / 256);
    assert v / 256 / 256 > 0 ==> NumBytes(v / 256 / 256) == 1 + NumBytes(v / 256 / 256 / 256);
  }

  lemma EncodeStep(v: nat)
    requires v >= 0x1000000
    ensures Encode(v) == var c := Encode(v / 256); Compact(c.size + 1, c.mantissa)
  {
    var n := NumBytes(v / 256);
    assert n >= 3 by {
      assert NumBytes(v / 256 / 256) == 1 + NumBytes(v / 256 / 256 / 256);
      assert NumBytes(v / 256 / 256 / 256) >= 1;
    }
    assert NumBytes(v) == n + 1;
    assert ShiftRight(v, n - 2) == ShiftRight(v / 256, n - 3);
    assert n == 3 ==> ShiftLeft(v / 256, 0) == v / 256 == ShiftRight(v / 256, 0);
  }

  lemma {:induction false} NormalizeStep(t: nat, size: nat)
    requires size >= 1
    ensures Normalize(t, size + 1) == var c := Normalize(t, size); Compact(c.size + 1, c.mantissa)
    decreases t
  {
    if t > 0x7fffff {
      NormalizeStep(t / 256, size + 1);
    }
  }

  lemma {:induction false} NormalizeMonotone(a: nat, b: nat, size: nat)
    requires a <= b && size >= 1
    ensures !Less(Normalize(b, size), Normalize(a, size))
    decreases b
  {
    if b > 0x7fffff {
      if a > 0x7fffff {
        NormalizeMonotone(a / 256, b / 256, size + 1);
      } else {
        NormalizeGrows(b / 256, size + 1);
      }
    }
  }

  lemma {:induction false} NormalizeGrows(t: nat, size: nat)
    requires size >= 1
    ensures Normalize(t, size).size >= size
    decreases t
  {
    if t > 0x7fffff {
      NormalizeGrows(t / 256, size + 1);
    }
  }

  lemma EasiestIsCanonical()
    ensures Expand(EASIEST) >= 0x8000 && Normalize(Expand(EASIEST), 3) == EASIEST
  {
    ShiftBack(MAX_MANTISSA, 26);
    ShiftRightShrinks(ShiftLeft(MAX_MANTISSA, 26), 26);
    NormalizeShifted(ShiftLeft(MAX_MANTISSA, 26), 26, 3);
  }

  /** The mantissa of the new target before it is normalized. */
  function Quotient(previous: Compact, timespan: int): nat {
    Times(previous.mantissa, Clamp(timespan)) / 4725
  }

  lemma ScaledBack(previous: Compact, timespan: int)
    requires previous.size >= 4
    ensures ShiftRight(Scaled(Expand(previous), timespan), previous.size - 4) == Quotient(previous, timespan)
    ensures previous.mantissa >= 0x8000 ==> Quotient(previous, timespan) >= 0x8000
  {
    var k, t := previous.size - 4, Clamp(timespan);
    ShiftLeftTimes(previous.mantissa, k + 1, t);
    DivideShifted(Times(previous.mantissa, t), k);
    if previous.mantissa >= 0x8000 {
      TimesAtLeast(previous.mantissa, t);
    }
  }

  lemma TimesAtLeast(m: nat, t: nat)
    requires m >= 0x8000 && t >= 302400
    ensures Times(m, t) >= 0x8000 * 302400
  {
    assert m * t >= 0x8000 * t;
  }

  lemma LargeQuotientIsExact(previous: Compact, timespan: int)
    requires previous.size >= 4 && Quotient(previous, timespan) >= 0x8000
    ensures Retarget(previous, timespan) == Encode(ExactRetarget(previous, timespan))
  {
    var e := Scaled(Expand(previous), timespan);
    var k := previous.size - 4;
    ScaledBack(previous, timespan);
    ShiftRightShrinks(e, k);
    NormalizeShifted(e, k, 3);
    assert Retarget(previous, timespan) == Limit(Normalize(e, 3));
    EasiestIsCanonical();
    var h := Expand(EASIEST);
    if e < h {
      NormalizeMonotone(e, h, 3);
      EncodeIsNormalize(e);
    } else {
      NormalizeMonotone(h, e, 3);
      EncodeIsNormalize(h);
    }
  }

  /** The code's retarget is the compact form of the exact new target: nothing is lost by dividing by a 256th of the
      timespan, and the limit can be applied to compact forms. */
  lemma RetargetIsExact(previous: Compact, timespan: int)
    requires Normalized(previous)
    ensures Retarget(previous, timespan) == Encode(ExactRetarget(previous, timespan))
  {
    ScaledBack(previous, timespan);
    LargeQuotientIsExact(previous, timespan);
  }

  // ---- targets that are not normalized ----

  /** A canonical form has a leading byte that is not zero, or stands for a number of at most two bytes. */
  lemma EncodeLeads(v: nat)
    ensures Encode(v).mantissa >= 0x8000 || Encode(v) == Compact(0, 0)
    ensures v < 0x8000 ==> Encode(v).size <= 2
  {
    if v >= 0x8000 {
      EncodeIsNormalize(v);
      NormalizeKeepsMantissa(v, 3);
    } else if v >= 0x100 {
      SmallBytes(v);
      assert ShiftLeft(v, 1) == 256 * ShiftLeft(v, 0);
    } else if v > 0 {
      assert NumBytes(v) == 1 + NumBytes(0);
      assert ShiftLeft(v, 2) == 256 * ShiftLeft(v, 1) && ShiftLeft(v, 1) == 256 * ShiftLeft(v, 0);
    }
  }

  lemma {:induction false} ShiftOneLess(a: nat, b: nat, k: nat)
    requires 256 * a <= b
    ensures ShiftLeft(a, k + 1) <= ShiftLeft(b, k)
  {
    if k > 0 {
      ShiftOneLess(a, b, k - 1);
    }
  }

  /** Normalizing only drops bytes. */
  lemma {:induction false} NormalizeBelow(t: nat, size: nat)
    requires size >= 3
    ensures Normalize(t, size).size >= 3 && Expand(Normalize(t, size)) <= ShiftLeft(t, size - 3)
    decreases t
  {
    if t > 0x7fffff {
      NormalizeBelow(t / 256, size + 1);
      ShiftOneLess(t / 256, t, size - 3);
    }
  }

  /** A number below the easiest target is not written as the easiest target. */
  lemma BelowEasiest(v: nat)
    requires v < Expand(EASIEST)
    ensures Encode(v) != EASIEST
  {
    EncodeLeads(v);
    if v >= 0x8000 {
      EncodeIsNormalize(v);
      NormalizeBelow(v, 3);
    }
  }

  lemma SmallQuotient(previous: Compact, timespan: int)
    requires previous.size >= 4 && Quotient(previous, timespan) < 0x8000
    ensures Retarget(previous, timespan) ==
            if previous.size > MAX_SIZE + 1 then EASIEST else Compact(previous.size - 1, Quotient(previous, timespan))
  {
  }

  /** When the retarget is exact, for every target of at least four bytes: if the new mantissa has its leading byte, or
      if both the code and the rule stop at the easiest target. */
  lemma RetargetIsExactIff(previous: Compact, timespan: int)
    requires previous.size >= 4
    ensures Retarget(previous, timespan) == Encode(ExactRetarget(previous, timespan)) <==>
            || Quotient(previous, timespan) >= 0x8000
            || (previous.size > MAX_SIZE + 1 && Scaled(Expand(previous), timespan) >= Expand(EASIEST))
  {
    EasiestIsCanonical();
    EncodeIsNormalize(Expand(EASIEST));
    if Quotient(previous, timespan) >= 0x8000 {
      LargeQuotientIsExact(previous, timespan);
    } else {
      SmallQuotient(previous, timespan);
      EncodeLeads(ExactRetarget(previous, timespan));
      if Scaled(Expand(previous), timespan) < Expand(EASIEST) {
        BelowEasiest(Scaled(Expand(previous), timespan));
      }
    }
  }

  /** A retarget from a normalized target has a normalized mantissa again. */
  lemma {:induction false} NormalizeKeepsMantissa(t: nat, size: nat)
    requires t >= 0x8000 && size >= 1
    ensures Normalize(t, size).mantissa >= 0x8000 && Normalize(t, size).size >= size
    decreases t
  {
    if t > 0x7fffff {
      NormalizeKeepsMantissa(t / 256, size + 1);
    }
  }

  /** The new mantissa keeps its leading byte, and the size falls by one at most. */
  lemma RetargetStaysNormalized(previous: Compact, timespan: int)
    requires Normalized(previous)
    ensures 0x8000 <= Retarget(previous, timespan).mantissa <= 0x7fffff
    ensures Retarget(previous, timespan).size <= MAX_SIZE
    ensures Retarget(previous, timespan).size >= previous.size - 1 || Retarget(previous, timespan).size == MAX_SIZE
    ensures previous.size > 4 ==> Normalized(Retarget(previous, timespan))
  {
    ScaledBack(previous, timespan);
    NormalizeKeepsMantissa(Quotient(previous, timespan), previous.size - 1);
  }

  /** The int conversion of the time difference matters: the clamped timespan is right exactly when the difference fits
      an int, or is so far below that it wraps to less than a quarter of the target timespan. */
  lemma TimespanConversion(d: int)
    requires -0x1_0000_0000 < d < 0x1_0000_0000
    ensures Clamp(ToInt32(d)) == Clamp(d) <==>
            -0x8000_0000 <= d < 0x8000_0000 || d + 0x1_0000_0000 <= TARGET_TIMESPAN / 4
  {
  }

  /** A difference just too large for an int makes the target sixteen times harder than the rule says. */
  lemma TimespanConversionFails()
    ensures Clamp(ToInt32(0x8000_0000)) == TARGET_TIMESPAN / 4 && Clamp(0x8000_0000) == TARGET_TIMESPAN * 4
  {
  }

  /** The first block of Bitcoin's chain with a new target has height 32256: the block before it has time 1262152739,
      the one that begins the period 1261130161. */
  lemma FirstRetarget()
    ensures Pack(Retarget(Unpack(0x1d00ffff), ToInt32(1262152739 - 1261130161))) == 0x1d00d86a
  {
    assert Quotient(Compact(0x1d, 0xffff), 1022578) == 65535 * 1022578 / 4725;
    assert Normalize(0xd86a52, 0x1c) == Normalize(0xd86a, 0x1d);
  }

  /** Two weeks are 2016 times ten minutes. */
  lemma PeriodIs()
    ensures TARGET_TIMESPAN == BLOCK_DIFFICULTY_INTERVAL * 600 == 14 * 24 * 3600
  {
  }

  /** Without a normalized previous target the code keeps a form that is not canonical. */
  lemma RetargetNeedsNormalized()
    ensures Retarget(Compact(5, 1), 0) == Compact(4, 64) != Encode(ExactRetarget(Compact(5, 1), 0))
  {
    var e := ExactRetarget(Compact(5, 1), 0);
    assert Expand(Compact(5, 1)) == 0x10000;
    assert Scaled(0x10000, 0) == 0x4000;
    EasiestIsCanonical();
    assert NumBytes(0x4000) == 2;
  }

  // ---- the code ----

  datatype Header = Header(blockHash: seq<Byte>, prevBlock: seq<Byte>, merkleRoot: Hash, height: nat, timestamp: nat,
                           target: nat)

  /** All header fields are 32-bit words except the 32-byte hashes. */
  ghost predicate Fits(h: Header) {
    |h.blockHash| == 32 && h.height < 0x1_0000_0000 && h.timestamp < 0x1_0000_0000 && h.target < 0x1_0000_0000
  }

  /** The target that the block after a difficulty transition must carry. */
  method NextTarget(previous: Header, transitionTime: nat) returns (next: nat)
    requires Fits(previous) && transitionTime < 0x1_0000_0000
    ensures next == Pack(Retarget(Unpack(previous.target), ToInt32(previous.timestamp - transitionTime)))
  {
    var timespan := ToInt32(previous.timestamp - transitionTime);
    var size: int := previous.target / 0x1000000;
    var target: nat := previous.target % 0x1000000;
    if timespan < TARGET_TIMESPAN / 4 {
      timespan := TARGET_TIMESPAN / 4;
    }
    if timespan > TARGET_TIMESPAN * 4 {
      timespan := TARGET_TIMESPAN * 4;
    }
    TimesFits(target, timespan);
    target := U64(Times(target, timespan));
    target := target / 4725;
    size := size - 1;
    ghost var normal := Normalize(target, size);
    while size < 1 || target > 0x007fffff
      invariant normal == Normalize(target, size)
      decreases (if size < 1 then 1 - size else 0) + target
    {
      target := target / 256;
      size := size + 1;
    }
    if size > MAX_SIZE || (size == MAX_SIZE && target > MAX_MANTISSA) {
      target, size := MAX_MANTISSA, MAX_SIZE;
    }
    PackBits24(target, size);
    next := Or(target, size * 0x1000000);
  }

  lemma TimesFits(target: nat, timespan: nat)
    requires target < 0x1000000 && timespan <= TARGET_TIMESPAN * 4
    ensures Times(target, timespan) < 0x1_0000_0000_0000_0000
  {
    assert target * timespan <= 0x1000000 * timespan;
  }

  lemma PackBits24(target: nat, size: nat)
    requires target < 0x1000000
    ensures Or(target, size * 0x1000000) == target + size * 0x1000000
  {
    Powers();
    OrDisjoint(target, size, 24, 0x1000000);
  }

  /** Whether a block follows the previous one with the right target, in the code's arithmetic. */
  predicate FollowsRule(block: Header, previous: Header, transitionTime: nat)
    requires Fits(block) && Fits(previous) && transitionTime < 0x1_0000_0000
  {
    block.prevBlock == previous.blockHash && block.height == (previous.height + 1) % 0x1_0000_0000 &&
    if block.height % BLOCK_DIFFICULTY_INTERVAL == 0
    then transitionTime != 0 &&
         block.target == Pack(Retarget(Unpack(previous.target), ToInt32(previous.timestamp - transitionTime)))
    else block.target == previous.target
  }

  /** BRMerkleBlockVerifyDifficulty */
  method VerifyDifficulty(block: Header, previous: Header, transitionTime: nat) returns (r: bool)
    requires Fits(block) && Fits(previous) && transitionTime < 0x1_0000_0000
    ensures r <==> FollowsRule(block, previous, transitionTime)
    ensures r && block.height % BLOCK_DIFFICULTY_INTERVAL != 0 ==> block.target == previous.target
  {
    r := true;
    if block.prevBlock != previous.blockHash || block.height != U32(previous.height + 1) {
      r := false;
    }
    if r && block.height % BLOCK_DIFFICULTY_INTERVAL == 0 && transitionTime == 0 {
      r := false;
    }
    if r && block.height % BLOCK_DIFFICULTY_INTERVAL == 0 {
      var next := NextTarget(previous, transitionTime);
      if block.target != next {
        r := false;
      }
    } else if r && block.target != previous.target {
      r := false;
    }
  }

  /** At a transition whose time difference fits an int, from a normalized target, that means: the block carries the
      compact form of the previous target scaled by the clamped timespan, over unbounded integers, limited to the
      easiest target. */
  lemma RuleIsExact(block: Header, previous: Header, transitionTime: nat)
    requires Fits(block) && Fits(previous) && transitionTime < 0x1_0000_0000 && Normalized(Unpack(previous.target))
    requires -0x8000_0000 <= previous.timestamp - transitionTime < 0x8000_0000
    requires block.height % BLOCK_DIFFICULTY_INTERVAL == 0
    ensures FollowsRule(block, previous, transitionTime) <==>
      && block.prevBlock == previous.blockHash && block.height == (previous.height + 1) % 0x1_0000_0000
      && transitionTime != 0
      && block.target == Pack(Encode(ExactRetarget(Unpack(previous.target), previous.timestamp - transitionTime)))
  {
    var d := previous.timestamp - transitionTime;
    assert ToInt32(d) == d;
    RetargetIsExact(Unpack(previous.target), d);
  }

  // ---- chains of accepted headers ----

  ghost predicate Headers(hs: seq<Header>, times: seq<nat>) {
    && hs != [] && |times| == |hs| && (forall i | 0 <= i < |hs| :: Fits(hs[i]))
    && forall i | 0 <= i < |times| :: times[i] < 0x1_0000_0000
  }

  /** Header i was accepted after header i - 1; times[i] is the time of the last transition before it. */
  ghost predicate AcceptedAt(hs: seq<Header>, times: seq<nat>, i: nat)
    requires Headers(hs, times) && 0 < i < |hs|
  {
    FollowsRule(hs[i], hs[i - 1], times[i])
  }

  /** Each of the first n headers was accepted after the one before. */
  ghost predicate Accepted(hs: seq<Header>, times: seq<nat>, n: nat)
    requires Headers(hs, times) && n <= |hs|
  {
    n <= 1 || (Accepted(hs, times, n - 1) && AcceptedAt(hs, times, n - 1))
  }

  lemma {:induction false} AcceptedEach(hs: seq<Header>, times: seq<nat>, n: nat, i: nat)
    requires Headers(hs, times) && n <= |hs| && Accepted(hs, times, n) && 0 < i < n
    ensures AcceptedAt(hs, times, i)
  {
    if i < n - 1 {
      AcceptedEach(hs, times, n - 1, i);
    }
  }

  /** Between two transitions all accepted headers carry one target. */
  lemma {:induction false} TargetStays(hs: seq<Header>, times: seq<nat>, i: nat, j: nat)
    requires Headers(hs, times) && i <= j < |hs| && Accepted(hs, times, |hs|)
    requires forall m | i < m <= j :: hs[m].height % BLOCK_DIFFICULTY_INTERVAL != 0
    ensures hs[j].target == hs[i].target
  {
    if i < j {
      TargetStays(hs, times, i, j - 1);
      AcceptedEach(hs, times, |hs|, j);
    }
  }

  /** The target of header i by the rule, from the first target and the times at the transitions alone, over unbounded
      integers. */
  ghost function RuleTarget(hs: seq<Header>, times: seq<nat>, i: nat): int
    requires Headers(hs, times) && i < |hs|
  {
    if i == 0 then hs[0].target
    else
      var before := RuleTarget(hs, times, i - 1);
      if hs[i].height % BLOCK_DIFFICULTY_INTERVAL != 0 || !(0 <= before < 0x1_0000_0000) then before
      else Pack(Encode(ExactRetarget(Unpack(before), hs[i - 1].timestamp - times[i])))
  }

  /** Header i follows the one before by its link and its height, and at a transition the time of the last one is
      known. */
  ghost predicate LinkedAt(hs: seq<Header>, times: seq<nat>, i: nat)
    requires Headers(hs, times) && 0 < i < |hs|
  {
    && hs[i].prevBlock == hs[i - 1].blockHash && hs[i].height == (hs[i - 1].height + 1) % 0x1_0000_0000
    && (hs[i].height % BLOCK_DIFFICULTY_INTERVAL == 0 ==> times[i] != 0)
  }

  /** If header i is at a transition, the one before has a normalized target, and the time difference fits an int. */
  ghost predicate PlainAt(hs: seq<Header>, times: seq<nat>, i: nat)
    requires Headers(hs, times) && 0 < i < |hs|
  {
    hs[i].height % BLOCK_DIFFICULTY_INTERVAL == 0 ==>
      && Normalized(Unpack(hs[i - 1].target))
      && -0x8000_0000 <= hs[i - 1].timestamp - times[i] < 0x8000_0000
  }

  /** Header i is linked and carries the target of the rule. */
  ghost predicate ByRuleAt(hs: seq<Header>, times: seq<nat>, i: nat)
    requires Headers(hs, times) && 0 < i < |hs|
  {
    LinkedAt(hs, times, i) && hs[i].target == RuleTarget(hs, times, i)
  }

  ghost predicate ByRule(hs: seq<Header>, times: seq<nat>, n: nat)
    requires Headers(hs, times) && n <= |hs|
  {
    n <= 1 || (ByRule(hs, times, n - 1) && ByRuleAt(hs, times, n - 1))
  }

  lemma AcceptedIsExact(hs: seq<Header>, times: seq<nat>, i: nat)
    requires Headers(hs, times) && 0 < i < |hs| && PlainAt(hs, times, i)
    requires hs[i - 1].target == RuleTarget(hs, times, i - 1)
    ensures AcceptedAt(hs, times, i) <==> ByRuleAt(hs, times, i)
  {
    if hs[i].height % BLOCK_DIFFICULTY_INTERVAL == 0 {
      RuleIsExact(hs[i], hs[i - 1], times[i]);
    }
  }

  lemma ByRuleLast(hs: seq<Header>, times: seq<nat>, n: nat)
    requires Headers(hs, times) && 0 < n <= |hs| && ByRule(hs, times, n)
    ensures hs[n - 1].target == RuleTarget(hs, times, n - 1)
  {
  }

  /** The first n headers were accepted if and only if they are linked and each carries the target of the rule. */
  lemma {:induction false} ChainIsExact(hs: seq<Header>, times: seq<nat>, n: nat)
    requires Headers(hs, times) && n <= |hs|
    requires forall i {:trigger PlainAt(hs, times, i)} | 0 < i < n :: PlainAt(hs, times, i)
    ensures Accepted(hs, times, n) <==> ByRule(hs, times, n)
  {
    if n > 1 {
      ChainIsExact(hs, times, n - 1);
      assert PlainAt(hs, times, n - 1);
      if ByRule(hs, times, n - 1) {
        ByRuleLast(hs, times, n - 1);
        AcceptedIsExact(hs, times, n - 1);
      }
    }
  }

  // ---- proof of work ----

  /** The 32 bytes of t with a little-endian 32-bit value written at an offset. From size 32 on the fourth byte lies
      outside, and from 33 on more of them do: the C code writes there although such a target is refused anyway; here
      these bytes fall away. */
  function Target256(size: nat, mantissa: nat): (t: seq<Byte>)
    requires mantissa < 0x1000000
    ensures |t| == 32
  {
    var v := if size > 3 then mantissa else ShiftRight(mantissa, 3 - size);
    var off := if size > 3 then size - 3 else 0;
    ShiftRightShrinks(mantissa, if size > 3 then 0 else 3 - size);
    seq(32, i requires 0 <= i < 32 => if i == off then v % 0x100 else if i == off + 1 then v / 0x100 % 0x100
                                      else if i == off + 2 then v / 0x10000 else 0)
  }

  lemma {:induction false} LeZeroPrefix(t: seq<Byte>, k: nat)
    requires k <= |t| && forall i | 0 <= i < k :: t[i] == 0
    ensures LE(t) == ShiftLeft(LE(t[k..]), k)
  {
    if k > 0 {
      LeZeroPrefix(t[1..], k - 1);
      assert t[1..][k - 1..] == t[k..];
    } else {
      assert t[0..] == t;
    }
  }

  lemma {:induction false} LeAllZero(t: seq<Byte>)
    requires forall i | 0 <= i < |t| :: t[i] == 0
    ensures LE(t) == 0
  {
    if t != [] {
      LeAllZero(t[1..]);
    }
  }

  lemma LeThree(t: seq<Byte>, v: nat)
    requires |t| >= 3 && v < 0x1000000 && t[0] == v % 0x100 && t[1] == v / 0x100 % 0x100 && t[2] == v / 0x10000
    requires forall i | 3 <= i < |t| :: t[i] == 0
    ensures LE(t) == v
  {
    LeAllZero(t[3..]);
    assert t[1..][1..] == t[2..] && t[2..][1..] == t[3..];
    assert LE(t[2..]) == t[2] + 256 * LE(t[3..]);
    assert LE(t[1..]) == t[1] + 256 * LE(t[2..]);
  }

  /** The byte layout of a target in range is the number it stands for. */
  lemma TargetValue(size: nat, mantissa: nat)
    requires mantissa < 0x1000000 && size <= 32
    ensures LE(Target256(size, mantissa)) == Expand(Compact(size, mantissa))
  {
    var t := Target256(size, mantissa);
    if size > 3 {
      LeZeroPrefix(t, size - 3);
      LeThree(t[size - 3..], mantissa);
    } else {
      ShiftRightShrinks(mantissa, 3 - size);
      LeThree(t, ShiftRight(mantissa, 3 - size));
    }
  }

  /** The most significant byte in which two equally long strings differ decides their order. */
  lemma {:induction false} TopByteDecides(a: seq<Byte>, b: seq<Byte>, i: nat)
    requires |a| == |b| && i < |a| && a[i] < b[i] && forall j | i < j < |a| :: a[j] == b[j]
    ensures LE(a) < LE(b)
  {
    if i > 0 {
      TopByteDecides(a[1..], b[1..], i - 1);
    } else {
      assert a[1..] == b[1..];
    }
  }

  /** The comparison loop of BRMerkleBlockIsValid, from the most significant byte down. */
  method MeetsTarget(hash: seq<Byte>, t: seq<Byte>) returns (r: bool)
    requires |hash| == 32 && |t| == 32
    ensures r <==> LE(hash) <= LE(t)
  {
    r := true;
    var i := 31;
    while r && i >= 0
      invariant -1 <= i <= 31
      invariant r ==> forall j | i < j < 32 :: hash[j] == t[j]
      invariant !r ==> LE(hash) > LE(t)
    {
      if hash[i] < t[i] {
        TopByteDecides(hash, t, i);
        return;
      }
      if hash[i] > t[i] {
        TopByteDecides(t, hash, i);
        r := false;
      }
      i := i - 1;
    }
    if r {
      assert hash == t;
    }
  }

  ghost predicate RootIsRight(hh: Hasher, b: Block, h: Header) {
    b.totalTx > 0 ==> RootWalk(hh, StreamsOf(b), HeightOf(b.totalTx), 0, 0, 0).0 == h.merkleRoot
  }

  method CheckRoot(hh: Hasher, b: Block, h: Header) returns (r: bool)
    requires b.totalTx < 0x8000_0000
    ensures r <==> RootIsRight(hh, b, h)
  {
    var root := MerkleRoot(hh, b);
    r := b.totalTx == 0 || root == h.merkleRoot;
  }

  /** BRMerkleBlockIsValid */
  method IsValid(hh: Hasher, b: Block, h: Header, currentTime: nat) returns (r: bool)
    requires b.totalTx < 0x8000_0000 && Fits(h) && currentTime < 0x1_0000_0000
    ensures r <==>
      && RootIsRight(hh, b, h)
      && h.timestamp <= (currentTime + BLOCK_MAX_TIME_DRIFT) % 0x1_0000_0000
      && 0 < Unpack(h.target).mantissa < 0x800000 && !Less(EASIEST, Unpack(h.target))
      && LE(h.blockHash) <= Expand(Unpack(h.target))
  {
    var size, target := h.target / 0x1000000, h.target % 0x1000000;
    r := CheckRoot(hh, b, h);
    if h.timestamp > U32(currentTime + BLOCK_MAX_TIME_DRIFT) {
      r := false;
    }
    if target == 0 || target >= 0x800000 || size > MAX_SIZE || (size == MAX_SIZE && target > MAX_MANTISSA) {
      r := false;
    }
    var t := Target256(size, target);
    if r {
      TargetValue(size, target);
      r := MeetsTarget(h.blockHash, t);
    }
  }
}
