/** What a server promises about cache memory, what a client tests, and what a session then allocates. */
module CacheAccounting {

  datatype Layer = FullAttention | LinearAttention

  datatype Config = Config(
    kvHeads: nat, headDim: nat, hidden: nat, keyHeads: nat, keyDim: nat, valueHeads: nat, valueDim: nat,
    kernel: nat, elementSize: nat)

  const FLOAT32_SIZE := 4
  const INT64_SIZE := 8

  /** Bytes of the tensors in cache_specs for batch one. */
  function SpecBytes(c: Config, layer: Layer, maxLength: nat): nat {
    match layer
    case FullAttention =>
      Volume(c.kvHeads, maxLength, c.headDim, c.elementSize) + Volume(c.kvHeads, maxLength, c.headDim, c.elementSize)
    case LinearAttention =>
      Volume(1, maxLength, c.hidden, c.elementSize)
      + Volume(1, ConvDim(c), c.kernel, c.elementSize)
      + Volume(c.valueHeads, c.keyDim, c.valueDim, FLOAT32_SIZE)
      + INT64_SIZE
  }

  function ConvDim(c: Config): nat {
    2 * (c.keyHeads * c.keyDim) + c.valueHeads * c.valueDim
  }

  /** math.prod of a shape, times the size of an element. */
  function Volume(x: nat, y: nat, z: nat, size: nat): nat {
    x * y * z * size
  }

  /** Bytes of one session on blocks of the given layer types. */
  function SpanBytes(c: Config, blocks: seq<Layer>, maxLength: nat): nat
  {
    if blocks == [] then 0
    else SpanBytes(c, blocks[..|blocks| - 1], maxLength) + SpecBytes(c, blocks[|blocks| - 1], maxLength)
  }

  function CeilDiv(a: int, b: int): int
    requires b > 0
  {
    -((-a) / b)
  }

  /** custom_cache_accounting: the fixed part and the price per token, measured from two lengths. */
  function PerToken(c: Config, blocks: seq<Layer>): int
  {
    SpanBytes(c, blocks, 2) - SpanBytes(c, blocks, 1)
  }

  function FixedBytes(c: Config, blocks: seq<Layer>): nat
  {
    var x := SpanBytes(c, blocks, 1) - PerToken(c, blocks);
    if x < 0 then 0 else x
  }

  function Price(c: Config, blocks: seq<Layer>): nat
    requires blocks != []
  {
    var x := CeilDiv(PerToken(c, blocks), 2 * |blocks|);
    if x < 1 then 1 else x
  }

  /** The number a server advertises as its cache tokens left. */
  function CacheTokensLeft(c: Config, blocks: seq<Layer>, bytesLeft: int): nat
    requires blocks != []
  {
    var usable := bytesLeft - FixedBytes(c, blocks);
    (if usable < 0 then 0 else usable) / Price(c, blocks)
  }

  /**
   The client's test. It assumes that all blocks of the span will be used; the span is cut to the blocks that
   the client itself was made for.
   */
  predicate HasCacheFor(cacheTokensNeeded: nat, spanLength: nat, cacheTokensLeft: nat) {
    cacheTokensNeeded * 2 * spanLength <= cacheTokensLeft
  }

  // ----- the cost is affine in the length -----

  lemma {:induction false} SpecIsAffine(c: Config, layer: Layer, n: nat)
    ensures SpecBytes(c, layer, n)
         == SpecBytes(c, layer, 0) + n * (SpecBytes(c, layer, 1) - SpecBytes(c, layer, 0))
  {
    VolumeIsLinear(c.kvHeads, n, c.headDim, c.elementSize);
    VolumeIsLinear(1, n, c.hidden, c.elementSize);
    hide Volume, ConvDim;
  }

  lemma VolumeIsLinear(x: nat, n: nat, z: nat, size: nat)
    ensures Volume(x, n, z, size) == n * Volume(x, 1, z, size)
    ensures Volume(x, 0, z, size) == 0
  {
  }

  lemma {:induction false} SpanIsAffine(c: Config, blocks: seq<Layer>, n: nat)
    ensures SpanBytes(c, blocks, n)
         == SpanBytes(c, blocks, 0) + n * (SpanBytes(c, blocks, 1) - SpanBytes(c, blocks, 0))
  {
    if blocks != [] {
      var layer := blocks[|blocks| - 1];
      hide SpecBytes;
      SpanIsAffine(c, blocks[..|blocks| - 1], n);
      SpecIsAffine(c, layer, n);
      var x := SpanBytes(c, blocks[..|blocks| - 1], 1) - SpanBytes(c, blocks[..|blocks| - 1], 0);
      var y := SpecBytes(c, layer, 1) - SpecBytes(c, layer, 0);
      assert n * (x + y) == n * x + n * y;
    }
  }

  lemma {:induction false} SpecGrows(c: Config, layer: Layer)
    ensures SpecBytes(c, layer, 0) <= SpecBytes(c, layer, 1)
  {
    VolumeIsLinear(c.kvHeads, 0, c.headDim, c.elementSize);
    VolumeIsLinear(1, 0, c.hidden, c.elementSize);
    hide Volume, ConvDim;
  }

  lemma {:induction false} SpanGrows(c: Config, blocks: seq<Layer>)
    ensures SpanBytes(c, blocks, 0) <= SpanBytes(c, blocks, 1)
  {
    if blocks != [] {
      hide SpecBytes;
      SpecGrows(c, blocks[|blocks| - 1]);
      SpanGrows(c, blocks[..|blocks| - 1]);
    }
  }

  /** A session costs exactly the fixed part plus the per-token part times its length. */
  lemma CostIsAffine(c: Config, blocks: seq<Layer>, n: nat)
    ensures SpanBytes(c, blocks, n) == FixedBytes(c, blocks) + n * PerToken(c, blocks) && PerToken(c, blocks) >= 0
  {
    SpanIsAffine(c, blocks, 2);
    SpanIsAffine(c, blocks, n);
    SpanGrows(c, blocks);
  }

  /** A run of the server's blocks costs no more than all of them. */
  lemma {:induction false} SubRunCostsLess(c: Config, blocks: seq<Layer>, i: nat, j: nat, n: nat)
    requires i <= j <= |blocks|
    ensures SpanBytes(c, blocks[i..j], n) <= SpanBytes(c, blocks, n)
    decreases |blocks|
  {
    if i == j {
      assert blocks[i..j] == [];
    } else {
      hide SpanBytes, SpecBytes;
      var last := |blocks| - 1;
      OneMoreLayer(c, blocks, n);
      if j == |blocks| {
        var run := blocks[i..j];
        assert run[..|run| - 1] == blocks[..last][i..last];
        OneMoreLayer(c, run, n);
        SubRunCostsLess(c, blocks[..last], i, last, n);
      } else {
        assert blocks[i..j] == blocks[..last][i..j];
        SubRunCostsLess(c, blocks[..last], i, j, n);
      }
    }
  }

  lemma OneMoreLayer(c: Config, blocks: seq<Layer>, n: nat)
    requires blocks != []
    ensures SpanBytes(c, blocks, n)
         == SpanBytes(c, blocks[..|blocks| - 1], n) + SpecBytes(c, blocks[|blocks| - 1], n)
  {
  }

  lemma CeilDivIsLeast(a: int, b: int)
    requires b > 0
    ensures a <= b * CeilDiv(a, b) < a + b
  {
  }

  lemma FloorDivIsGreatest(a: nat, b: nat, k: nat)
    requires b > 0
    ensures k <= a / b <==> k * b <= a
  {
    var q := a / b;
    assert a == q * b + a % b;
    if k <= q {
      assert k * b <= q * b;
    } else {
      assert (q + 1) * b <= k * b;
      assert (q + 1) * b == q * b + b;
    }
  }

  /** The advertised number is the greatest whose price fits beside the fixed part, and 0 if not even that part fits. */
  lemma TokensLeftIsGreatest(c: Config, blocks: seq<Layer>, bytesLeft: int, k: nat)
    requires blocks != []
    ensures k <= CacheTokensLeft(c, blocks, bytesLeft) <==>
            k == 0 || FixedBytes(c, blocks) + k * Price(c, blocks) <= bytesLeft
  {
    hide SpanBytes;
    var p, usable := Price(c, blocks), bytesLeft - FixedBytes(c, blocks);
    FloorDivIsGreatest(if usable < 0 then 0 else usable, p, k);
    assert k >= 1 ==> k * p >= 1;
  }

  /** A session of positive length on a span of some blocks passes exactly when fixed part and rounded price fit. */
  lemma AdmissionIsExact(c: Config, blocks: seq<Layer>, bytesLeft: int, n: nat, spanLength: nat)
    requires blocks != [] && n >= 1 && spanLength >= 1
    ensures HasCacheFor(n, spanLength, CacheTokensLeft(c, blocks, bytesLeft)) <==>
            FixedBytes(c, blocks) + n * 2 * spanLength * Price(c, blocks) <= bytesLeft
  {
    hide SpanBytes;
    var k, p := n * 2 * spanLength, Price(c, blocks);
    var usable := bytesLeft - FixedBytes(c, blocks);
    FloorDivIsGreatest(if usable < 0 then 0 else usable, p, k);
    assert k >= 1 && k * p >= 1;
  }

  /** The blocks i .. j - 1 cost no more per token than the price charged for their number. */
  predicate IsPaidFor(c: Config, blocks: seq<Layer>, i: nat, j: nat)
    requires i < j <= |blocks|
  {
    PerToken(c, blocks[i..j]) <= 2 * (j - i) * Price(c, blocks)
  }

  /** A client that sees the blocks i .. j - 1 of a server never admits a session for which there is no memory. */
  ghost predicate NeverMisled(c: Config, blocks: seq<Layer>, i: nat, j: nat)
    requires i < j <= |blocks|
  {
    forall bytesLeft: int, n: nat | n >= 1 && HasCacheFor(n, j - i, CacheTokensLeft(c, blocks, bytesLeft)) ::
      SpanBytes(c, blocks[i..j], n) <= bytesLeft
  }

  lemma FixedPartIsLess(c: Config, blocks: seq<Layer>, i: nat, j: nat)
    requires i <= j <= |blocks|
    ensures FixedBytes(c, blocks[i..j]) <= FixedBytes(c, blocks)
  {
    SubRunCostsLess(c, blocks, i, j, 0);
    CostIsAffine(c, blocks[i..j], 0);
    CostIsAffine(c, blocks, 0);
  }

  /** If the visible blocks are paid for, an admitted session fits on any run of them. */
  lemma PaidSessionFits(c: Config, blocks: seq<Layer>, bytesLeft: int, n: nat, i: nat, j: nat, a: nat, b: nat)
    requires i < j <= |blocks| && n >= 1 && IsPaidFor(c, blocks, i, j)
    requires HasCacheFor(n, j - i, CacheTokensLeft(c, blocks, bytesLeft))
    requires i <= a <= b <= j
    ensures SpanBytes(c, blocks[a..b], n) <= bytesLeft
  {
    hide SpanBytes, PerToken, FixedBytes, Price, CacheTokensLeft, HasCacheFor;
    AdmissionIsExact(c, blocks, bytesLeft, n, j - i);
    FixedPartIsLess(c, blocks, i, j);
    CostIsAffine(c, blocks[i..j], n);
    assert blocks[i..j][a - i..b - i] == blocks[a..b] by {
      var x, y := blocks[i..j][a - i..b - i], blocks[a..b];
      assert |x| == |y| && forall k | 0 <= k < |x| :: x[k] == blocks[a + k] == y[k];
    }
    SubRunCostsLess(c, blocks[i..j], a - i, b - i, n);
    Scaled(n, j - i, PerToken(c, blocks[i..j]), Price(c, blocks));
  }

  /** If they are not, a session long enough is admitted and does not fit, with just the memory it was admitted for. */
  lemma UnpaidSessionFails(c: Config, blocks: seq<Layer>, i: nat, j: nat) returns (bytesLeft: nat, n: nat)
    requires i < j <= |blocks| && !IsPaidFor(c, blocks, i, j)
    ensures n >= 1 && HasCacheFor(n, j - i, CacheTokensLeft(c, blocks, bytesLeft))
    ensures SpanBytes(c, blocks[i..j], n) > bytesLeft
  {
    hide SpanBytes, PerToken, FixedBytes, Price, CacheTokensLeft, HasCacheFor;
    n := FixedBytes(c, blocks) + 1;
    bytesLeft := FixedBytes(c, blocks) + n * 2 * (j - i) * Price(c, blocks);
    AdmissionIsExact(c, blocks, bytesLeft, n, j - i);
    CostIsAffine(c, blocks[i..j], n);
    Exceeds(n, j - i, PerToken(c, blocks[i..j]), Price(c, blocks));
  }

  lemma Exceeds(n: nat, blocks: nat, per: int, price: nat)
    requires per > 2 * blocks * price
    ensures n * per >= n * 2 * blocks * price + n
  {
    var reserved := 2 * blocks * price;
    Scales(n, reserved + 1, per);
    assert n * 2 * blocks * price == n * reserved;
    assert n * (reserved + 1) == n * reserved + n;
  }

  /**
   The server's price is an average over all its blocks, and the client counts the blocks it sees. The test is
   right for a client of the blocks i .. j - 1 exactly if these do not cost more than the average says.
   */
  lemma ClientIsNeverMisledExactly(c: Config, blocks: seq<Layer>, i: nat, j: nat)
    requires i < j <= |blocks|
    ensures NeverMisled(c, blocks, i, j) <==> IsPaidFor(c, blocks, i, j)
  {
    hide SpanBytes, CacheTokensLeft, HasCacheFor, IsPaidFor;
    if IsPaidFor(c, blocks, i, j) {
      forall bytesLeft: int, n: nat | n >= 1 && HasCacheFor(n, j - i, CacheTokensLeft(c, blocks, bytesLeft))
        ensures SpanBytes(c, blocks[i..j], n) <= bytesLeft
      {
        PaidSessionFits(c, blocks, bytesLeft, n, i, j, i, j);
      }
    } else {
      var bytesLeft, n := UnpaidSessionFails(c, blocks, i, j);
    }
  }

  /** Block k costs no more per token than two entries at the price. */
  predicate BlockIsPaidFor(c: Config, blocks: seq<Layer>, k: nat)
    requires k < |blocks|
  {
    PerToken(c, [blocks[k]]) <= 2 * Price(c, blocks)
  }

  lemma {:induction false} RunIsPaidFor(c: Config, blocks: seq<Layer>, i: nat, j: nat)
    requires i < j <= |blocks| && forall k: nat | k < |blocks| :: BlockIsPaidFor(c, blocks, k)
    ensures IsPaidFor(c, blocks, i, j)
    decreases j
  {
    hide SpanBytes, PerToken, Price;
    var run, price := blocks[i..j], Price(c, blocks);
    assert BlockIsPaidFor(c, blocks, j - 1);
    if i == j - 1 {
      assert run == [blocks[i]];
    } else {
      RunIsPaidFor(c, blocks, i, j - 1);
      assert run[..|run| - 1] == blocks[i..j - 1];
      PerTokenAdds(c, run);
      PriceAdds(j - 1 - i, price);
    }
  }

  lemma PriceAdds(blocks: nat, price: nat)
    ensures 2 * (blocks + 1) * price == 2 * blocks * price + 2 * price
  {
  }

  lemma PerTokenAdds(c: Config, blocks: seq<Layer>)
    requires blocks != []
    ensures PerToken(c, blocks) == PerToken(c, blocks[..|blocks| - 1]) + PerToken(c, [blocks[|blocks| - 1]])
  {
    var last := [blocks[|blocks| - 1]];
    OneMoreLayer(c, blocks, 1);
    OneMoreLayer(c, blocks, 2);
    OneMoreLayer(c, last, 1);
    OneMoreLayer(c, last, 2);
    assert last[..0] == [] && SpanBytes(c, [], 1) == SpanBytes(c, [], 2) == 0;
    hide SpanBytes, SpecBytes;
  }

  /** Every client of any part of the server is safe exactly if no single block costs more than the average says. */
  lemma EveryClientIsSafeExactly(c: Config, blocks: seq<Layer>)
    ensures (forall i: nat, j: nat | i < j <= |blocks| :: NeverMisled(c, blocks, i, j))
       <==> (forall k: nat | k < |blocks| :: BlockIsPaidFor(c, blocks, k))
  {
    hide NeverMisled, PerToken, Price;
    if forall k: nat | k < |blocks| :: BlockIsPaidFor(c, blocks, k) {
      forall i: nat, j: nat | i < j <= |blocks| ensures NeverMisled(c, blocks, i, j) {
        RunIsPaidFor(c, blocks, i, j);
        ClientIsNeverMisledExactly(c, blocks, i, j);
      }
    } else {
      var k: nat :| k < |blocks| && !BlockIsPaidFor(c, blocks, k);
      var next := k + 1;
      ClientIsNeverMisledExactly(c, blocks, k, next);
      assert blocks[k..next] == [blocks[k]];
      assert !NeverMisled(c, blocks, k, next);
    }
  }

  /** A client that sees all blocks of the server can allocate an admitted session on any run of them. */
  lemma AdmittedSessionFits(c: Config, blocks: seq<Layer>, bytesLeft: int, n: nat, i: nat, j: nat)
    requires blocks != [] && n >= 1 && i <= j <= |blocks|
    requires HasCacheFor(n, |blocks|, CacheTokensLeft(c, blocks, bytesLeft))
    ensures SpanBytes(c, blocks[i..j], n) <= bytesLeft
  {
    assert blocks[0..|blocks|] == blocks;
    PriceIsTight(c, blocks);
    hide SpanBytes, Price, CacheTokensLeft;
    PaidSessionFits(c, blocks, bytesLeft, n, 0, |blocks|, i, j);
  }

  /** The dimensions of the model the repository ships an adapter for, in two-byte numbers. */
  const QWEN := Config(2, 256, 2048, 16, 128, 32, 128, 4, 2)

  /** Three linear blocks and a full one, as the layers of that model repeat. */
  const FOUR_BLOCKS := [LinearAttention, LinearAttention, LinearAttention, FullAttention]

  lemma QwenCosts(n: nat)
    ensures SpecBytes(QWEN, LinearAttention, n) == 2162696 + 4096 * n
    ensures SpecBytes(QWEN, FullAttention, n) == 2048 * n
  {
  }

  lemma FourBlocksCost(n: nat)
    ensures SpanBytes(QWEN, FOUR_BLOCKS, n) == 6488088 + 14336 * n
    ensures SpanBytes(QWEN, FOUR_BLOCKS[0..1], n) == 2162696 + 4096 * n
  {
    var l := LinearAttention;
    QwenCosts(n);
    hide SpecBytes;
    OneMoreLayer(QWEN, [l, l, l, FullAttention], n);
    OneMoreLayer(QWEN, [l, l, l], n);
    OneMoreLayer(QWEN, [l, l], n);
    OneMoreLayer(QWEN, [l], n);
    assert [l, l, l, FullAttention][..3] == [l, l, l] && [l, l, l][..2] == [l, l];
    assert [l, l][..1] == [l] && [l][..0] == [];
    assert FOUR_BLOCKS[0..1] == [l] && SpanBytes(QWEN, [], n) == 0;
  }

  /** A client of one linear block is let in for 10000 tokens by a server that does not have the memory. */
  lemma PartialClientIsMisled()
    ensures HasCacheFor(10000, 1, CacheTokensLeft(QWEN, FOUR_BLOCKS, 42328088))
    ensures SpanBytes(QWEN, FOUR_BLOCKS[0..1], 10000) == 43122696
    ensures !NeverMisled(QWEN, FOUR_BLOCKS, 0, 1)
  {
    FourBlocksCost(1);
    FourBlocksCost(2);
    FourBlocksCost(10000);
    hide SpanBytes;
    assert PerToken(QWEN, FOUR_BLOCKS) == 14336 && FixedBytes(QWEN, FOUR_BLOCKS) == 6488088;
    assert Price(QWEN, FOUR_BLOCKS) == 1792;
    assert CacheTokensLeft(QWEN, FOUR_BLOCKS, 42328088) == 20000;
  }

  /**
   The reserved budget covers the cost. It does so by less than one byte per token, block and side exactly
   when tokens cost anything at all: the price is never rounded down to zero.
   */
  lemma PriceCovers(c: Config, blocks: seq<Layer>, n: nat)
    requires blocks != []
    ensures n * PerToken(c, blocks) <= n * 2 * |blocks| * Price(c, blocks)
    ensures n >= 1 ==>
              (n * 2 * |blocks| * Price(c, blocks) < n * PerToken(c, blocks) + 2 * |blocks| * n
               <==> PerToken(c, blocks) >= 1)
  {
    PriceIsTight(c, blocks);
    hide *;
    Scaled(n, |blocks|, PerToken(c, blocks), Price(c, blocks));
  }

  /** Per token, the price times both sides of all blocks is at least the cost, and the least such multiple. */
  lemma PriceIsTight(c: Config, blocks: seq<Layer>)
    requires blocks != []
    ensures PerToken(c, blocks) <= 2 * |blocks| * Price(c, blocks)
    ensures 2 * |blocks| * Price(c, blocks) < PerToken(c, blocks) + 2 * |blocks| <==> PerToken(c, blocks) >= 1
  {
    CeilDivIsLeast(PerToken(c, blocks), 2 * |blocks|);
    AtLeastOne(PerToken(c, blocks), 2 * |blocks|, CeilDiv(PerToken(c, blocks), 2 * |blocks|));
    hide PerToken, CeilDiv;
  }

  lemma AtLeastOne(per: int, width: nat, q: int)
    requires width >= 1 && per <= width * q < per + width
    ensures var price := if q < 1 then 1 else q;
            per <= width * price && (width * price < per + width <==> per >= 1)
  {
    if q < 1 {
      assert width * q <= 0;
    } else {
      assert width * q >= width;
    }
  }

  lemma Scaled(n: nat, blocks: nat, per: int, price: nat)
    requires per <= 2 * blocks * price
    ensures n * per <= n * 2 * blocks * price
    ensures n >= 1 ==>
              (n * 2 * blocks * price < n * per + 2 * blocks * n <==> 2 * blocks * price < per + 2 * blocks)
  {
    var width, reserved := 2 * blocks, 2 * blocks * price;
    assert n * 2 * blocks * price == n * reserved;
    Scales(n, per, reserved);
    if reserved < per + width {
      Scales(n, reserved, per + width - 1);
      assert n * (per + width - 1) == n * per + n * width - n;
    } else {
      Scales(n, per + width, reserved);
      assert n * (per + width) == n * per + n * width;
    }
  }

  lemma Scales(n: nat, x: int, y: int)
    requires x <= y
    ensures n * x <= n * y
  {
  }
}
