/** What the builder assembles from decoded stages (EfficientNet._make_blocks
    and _make_layer), as functions of the stages and of the builder's running
    state: the input width of the next block and the index of the next layer.
    The builder class in module Network runs the same steps with loops over
    its fields and is proved to agree with these functions. */
module Assembly {
  import opened Base
  import opened Numerals
  import opened Padding
  import opened Decoder
  import opened Blocks

  /** round_channels(channels, multiplier, divisor, channel_min); its rounding
      rule is not part of this model. */
  type RoundChannels = (int, Rat, int, Option<int>) -> int

  /** (channel_multiplier, depth_multiplier, resolution, dropout_rate). */
  datatype ArchParams = ArchParams(channelMult: Rat, depthMult: Rat, resolution: int, dropout: Rat)

  /** The global parameters the builder reads. */
  datatype GlobalParams = GlobalParams(channelDivisor: int, channelMin: Option<int>, dropPathRate: Rat, padType: PadSpec)

  /** Everything a layer's construction depends on besides its own arguments. */
  datatype Context = Context(arch: ArchParams, globals: GlobalParams, roundChannels: RoundChannels, makeDivisible: MakeDivisible)
  {
    predicate Valid()
    {
      arch.channelMult.Valid() && arch.depthMult.Valid() && arch.dropout.Valid() && globals.dropPathRate.Valid()
    }

    /** _round_channel. */
    function RoundChannel(channels: int): int
    {
      roundChannels(channels, arch.channelMult, globals.channelDivisor, globals.channelMin)
    }
  }

  /** drop_path_rate * idx / total, exactly. */
  function DropRate(rate: Rat, idx: nat, total: nat): (r: Rat)
    requires rate.Valid() && total > 0
    ensures r.Valid()
  {
    MulAtLeast(total, rate.den);
    Rat(rate.num * idx, rate.den * total)
  }

  predicate Below(a: Rat, b: Rat)
    requires a.Valid() && b.Valid()
  {
    a.num * b.den < b.num * a.den
  }

  /** The first layer drops nothing, every later rate stays below the global
      rate when that is positive, and a zero global rate gives zero everywhere. */
  lemma DropRateBounds(rate: Rat, idx: nat, total: nat)
    requires rate.Valid() && idx < total
    ensures idx == 0 ==> DropRate(rate, idx, total).IsZero()
    ensures rate.num > 0 ==> Below(DropRate(rate, idx, total), rate)
    ensures rate.num >= 0 ==> DropRate(rate, idx, total).num >= 0
    ensures rate.IsZero() ==> DropRate(rate, idx, total).IsZero()
  {
    var r := DropRate(rate, idx, total);
    if rate.num > 0 {
      assert r.num * rate.den == rate.num * rate.den * idx;
      assert rate.num * r.den == rate.num * rate.den * total;
      assert rate.num * rate.den > 0;
      assert rate.num * rate.den * idx < rate.num * rate.den * total;
    }
    if rate.num >= 0 {
      assert rate.num * idx >= 0;
    }
  }

  function RatOf(d: Option<Decimal>): Option<Rat>
  {
    if d.Some? then Some(d.value.ToRat()) else None
  }

  /** The keyword arguments _make_layer hands to a block: the decoded arguments
      with the output (and mid) width rounded, the running input width, the
      drop-path rate and the padding type. */
  function ToLayerArgs(ctx: Context, a: BlockArgs, inCh: int, dropPath: Rat): (r: LayerArgs)
    requires a.stride.Some? && a.outChannel.Some?
    ensures r.inCh == inCh && r.outCh == ctx.RoundChannel(a.outChannel.value)
    ensures r.stride == a.stride.value && r.noskip == a.noskip && r.dropPath == dropPath
    ensures r.midCh.Some? <==> a.midChannel.Some?
    ensures a.midChannel.Some? ==> r.midCh == Some(ctx.RoundChannel(a.midChannel.value))
    ensures r.padType == ctx.globals.padType
    ensures r.kernel == a.kernelSize && r.seRatio == RatOf(a.seRatio) && r.expRatio == RatOf(a.expRatio)
  {
    LayerArgs(
      inCh,
      ctx.RoundChannel(a.outChannel.value),
      if a.kernelSize.Some? then Some(a.kernelSize.value) else None,
      a.stride.value,
      RatOf(a.seRatio),
      ctx.globals.padType,
      a.noskip,
      RatOf(a.expRatio),
      if a.midChannel.Some? then Some(ctx.RoundChannel(a.midChannel.value)) else None,
      dropPath)
  }

  /** _make_layer: the drop-path rate of layer idx of total, then the output
      width (KeyError when absent), then the block kind (KeyError for an
      unknown one), then the block constructor's own checks. */
  function MakeLayer(ctx: Context, a: BlockArgs, inCh: int, idx: nat, total: nat): (r: Result<Block>)
    requires ctx.Valid() && a.stride.Some? && idx < total
    ensures a.outChannel.None? ==> r == Err(MissingKey("out_channel"))
    ensures a.outChannel.Some? && BlockKindOf(a.blockType).None? ==> r == Err(UnknownBlockType(a.blockType))
    ensures r.Ok? ==> r.value.inCh == inCh
  {
    var dropPath := DropRate(ctx.globals.dropPathRate, idx, total);
    if a.outChannel.None? then Err(MissingKey("out_channel"))
    else
      match BlockKindOf(a.blockType)
      case None => Err(UnknownBlockType(a.blockType))
      case Some(kind) => MakeBlock(kind, ToLayerArgs(ctx, a, inCh, dropPath), ctx.makeDivisible)
  }

  /** A layer _make_layer builds: of the kind its block type names, reading
      inCh and writing the rounded output width, dropping paths at the rate of
      its index, with a residual connection exactly when its stride is 1, the
      widths agree and there is no noskip flag, with squeeze-and-excitation
      exactly when a positive se ratio is given, its convolutions chained from
      inCh to the output width and their strides multiplying to the record's. */
  lemma MakeLayerRules(ctx: Context, a: BlockArgs, inCh: int, idx: nat, total: nat)
    requires ctx.Valid() && a.stride.Some? && idx < total
    ensures MakeLayer(ctx, a, inCh, idx, total).Ok? ==>
      var b := MakeLayer(ctx, a, inCh, idx, total).value;
      a.outChannel.Some? && BlockKindOf(a.blockType) == Some(b.kind) &&
      b.inCh == inCh && b.outCh == ctx.RoundChannel(a.outChannel.value) &&
      b.dropPath == DropRate(ctx.globals.dropPathRate, idx, total) &&
      (b.hasResidual <==> a.stride.value == 1 && inCh == b.outCh && !a.noskip) &&
      (b.se.Some? <==> a.seRatio.Some? && a.seRatio.value.mantissa > 0) &&
      Chained(b.convs, inCh, b.outCh) && StrideProduct(b.convs) == a.stride.value
  {
    if a.outChannel.Some? && BlockKindOf(a.blockType).Some? {
      var la := ToLayerArgs(ctx, a, inCh, DropRate(ctx.globals.dropPathRate, idx, total));
      BlockRules(BlockKindOf(a.blockType).value, la, ctx.makeDivisible);
    }
  }

  /** The stride check of _make_blocks (KeyError when absent, assertion outside
      {1, 2}), then stride 1 for every block after a stage's first. */
  function PrepareArgs(a: BlockArgs, j: nat): (r: Result<BlockArgs>)
    ensures r.Ok? <==> a.stride.Some? && (a.stride.value == 1 || a.stride.value == 2)
    ensures r.Ok? ==> r.value.stride == if j > 0 then Some(1) else a.stride
    ensures r.Ok? ==> r.value == a.(stride := r.value.stride)
  {
    if a.stride.None? then Err(MissingKey("stride"))
    else if a.stride.value != 1 && a.stride.value != 2 then Err(BadStride(a.stride.value))
    else Ok(if j > 0 then a.(stride := Some(1)) else a)
  }

  /** What assembling a stage leaves: its blocks, the width entering the next
      block and the index of the next layer. */
  datatype StageOut = StageOut(blocks: seq<Block>, inCh: int, idx: nat)

  /** Assembles stage[j..] starting from input width inCh and layer idx. */
  function StageFrom(ctx: Context, total: nat, stage: seq<BlockArgs>, j: nat, inCh: int, idx: nat): (r: Result<StageOut>)
    requires ctx.Valid() && j <= |stage| && idx + (|stage| - j) <= total
    ensures r.Ok? ==> |r.value.blocks| == |stage| - j && r.value.idx == idx + (|stage| - j)
    decreases |stage| - j
  {
    if j == |stage| then Ok(StageOut([], inCh, idx))
    else
      match PrepareArgs(stage[j], j)
      case Err(e) => Err(e)
      case Ok(a) =>
        match MakeLayer(ctx, a, inCh, idx, total)
        case Err(e) => Err(e)
        case Ok(b) =>
          match StageFrom(ctx, total, stage, j + 1, b.outCh, idx + 1)
          case Err(e) => Err(e)
          case Ok(rest) => Ok(StageOut([b] + rest.blocks, rest.inCh, rest.idx))
  }

  /** total_layers: the number of records over all stages. */
  function LayerCount(stages: seq<seq<BlockArgs>>): nat
  {
    if stages == [] then 0 else |stages[0]| + LayerCount(stages[1..])
  }

  /** What assembling the stages leaves: the blocks per stage, the width after
      each stage (the entries appended to out_channels), the final width and
      the final layer index. */
  datatype NetOut = NetOut(blocks: seq<seq<Block>>, outs: seq<int>, inCh: int, idx: nat)

  /** Assembles stages[i..] starting from input width inCh and layer idx. */
  function StagesFrom(ctx: Context, total: nat, stages: seq<seq<BlockArgs>>, i: nat, inCh: int, idx: nat): Result<NetOut>
    requires ctx.Valid() && i <= |stages| && idx + LayerCount(stages[i..]) <= total
    decreases |stages| - i
  {
    if i == |stages| then Ok(NetOut([], [], inCh, idx))
    else
      assert stages[i..][1..] == stages[i + 1..];
      match StageFrom(ctx, total, stages[i], 0, inCh, idx)
      case Err(e) => Err(e)
      case Ok(s) =>
        match StagesFrom(ctx, total, stages, i + 1, s.inCh, s.idx)
        case Err(e) => Err(e)
        case Ok(rest) => Ok(NetOut([s.blocks] + rest.blocks, [s.inCh] + rest.outs, rest.inCh, rest.idx))
  }

  /** _make_blocks on decoded stages, from the stem width. */
  function AssembleBlocks(ctx: Context, stages: seq<seq<BlockArgs>>, stem: int): Result<NetOut>
    requires ctx.Valid()
  {
    assert stages[0..] == stages;
    StagesFrom(ctx, LayerCount(stages), stages, 0, stem, 0)
  }

  // ---------------------------------------------------------------------------
  // Properties of one stage

  /** Whether the builder accepts a record at position j of its stage. */
  predicate LayerAccepted(a: BlockArgs)
  {
    a.stride.Some? && (a.stride.value == 1 || a.stride.value == 2) &&
    a.outChannel.Some? &&
    BlockKindOf(a.blockType).Some? &&
    (BlockKindOf(a.blockType) == Some(EdgeResidual) || a.midChannel.None?) &&
    (a.kernelSize.GetOr(3) == 3 || a.kernelSize.GetOr(3) == 5)
  }

  lemma MakeLayerAccepts(ctx: Context, a: BlockArgs, j: nat, inCh: int, idx: nat, total: nat)
    requires ctx.Valid() && idx < total
    ensures PrepareArgs(a, j).Ok? && MakeLayer(ctx, PrepareArgs(a, j).value, inCh, idx, total).Ok? <==>
            LayerAccepted(a)
  {
    if PrepareArgs(a, j).Ok? {
      var p := PrepareArgs(a, j).value;
      if p.outChannel.Some? && BlockKindOf(p.blockType).Some? {
        var la := ToLayerArgs(ctx, p, inCh, DropRate(ctx.globals.dropPathRate, idx, total));
        BlockRules(BlockKindOf(p.blockType).value, la, ctx.makeDivisible);
      }
    }
  }

  /** A stage is assembled exactly when every one of its records is accepted. */
  lemma {:induction false} StageFromFails(ctx: Context, total: nat, stage: seq<BlockArgs>, j: nat, inCh: int, idx: nat)
    requires ctx.Valid() && j <= |stage| && idx + (|stage| - j) <= total
    ensures StageFrom(ctx, total, stage, j, inCh, idx).Ok? <==>
            forall k :: j <= k < |stage| ==> LayerAccepted(stage[k])
    decreases |stage| - j
  {
    if j < |stage| {
      MakeLayerAccepts(ctx, stage[j], j, inCh, idx, total);
      AcceptedFrom(stage, j);
      if LayerAccepted(stage[j]) {
        var b := MakeLayer(ctx, PrepareArgs(stage[j], j).value, inCh, idx, total).value;
        StageFromFails(ctx, total, stage, j + 1, b.outCh, idx + 1);
        assert StageFrom(ctx, total, stage, j, inCh, idx).Ok? == StageFrom(ctx, total, stage, j + 1, b.outCh, idx + 1).Ok?;
      } else {
        assert StageFrom(ctx, total, stage, j, inCh, idx).Err?;
      }
    }
  }

  /** Records j.. are accepted when record j and records j + 1.. are. */
  lemma AcceptedFrom(stage: seq<BlockArgs>, j: nat)
    requires j < |stage|
    ensures (forall k :: j <= k < |stage| ==> LayerAccepted(stage[k])) <==>
            LayerAccepted(stage[j]) && forall k :: j + 1 <= k < |stage| ==> LayerAccepted(stage[k])
  {
  }

  /** The blocks of an assembled stage, one per record: block k reads the width
      the block before it writes (inCh for the first), writes the rounded
      output width of its record, carries its record's stride only when it is
      the stage's first block, and drops paths at the rate of its layer index. */
  predicate StagePlaced(ctx: Context, total: nat, stage: seq<BlockArgs>, j: nat, inCh: int, idx: nat, blocks: seq<Block>)
    requires ctx.Valid() && j <= |stage| && idx + (|stage| - j) <= total
  {
    |blocks| == |stage| - j &&
    forall k :: 0 <= k < |blocks| ==>
      BlockPlaced(ctx, total, stage, j + k, blocks[k], idx + k) &&
      blocks[k].inCh == (if k == 0 then inCh else blocks[k - 1].outCh)
  }

  /** Block k of a stage placed from its first record is placed as record k,
      at layer idx + k. */
  lemma StageBlock(ctx: Context, total: nat, stage: seq<BlockArgs>, inCh: int, idx: nat, blocks: seq<Block>, k: nat)
    requires ctx.Valid() && idx + |stage| <= total
    requires StagePlaced(ctx, total, stage, 0, inCh, idx, blocks) && k < |blocks|
    ensures k < |stage| && idx + k < total
    ensures BlockPlaced(ctx, total, stage, k, blocks[k], idx + k)
  {
    assert BlockPlaced(ctx, total, stage, 0 + k, blocks[k], idx + k);
  }

  lemma StagePlacedCons(ctx: Context, total: nat, stage: seq<BlockArgs>, j: nat, inCh: int, idx: nat, b: Block, rest: seq<Block>)
    requires ctx.Valid() && j < |stage| && idx + (|stage| - j) <= total
    requires BlockPlaced(ctx, total, stage, j, b, idx) && b.inCh == inCh
    requires StagePlaced(ctx, total, stage, j + 1, b.outCh, idx + 1, rest)
    ensures StagePlaced(ctx, total, stage, j, inCh, idx, [b] + rest)
  {
    var blocks := [b] + rest;
    forall k | 0 <= k < |blocks|
      ensures BlockPlaced(ctx, total, stage, j + k, blocks[k], idx + k)
      ensures blocks[k].inCh == (if k == 0 then inCh else blocks[k - 1].outCh)
    {
      if k > 0 {
        assert blocks[k] == rest[k - 1];
        assert BlockPlaced(ctx, total, stage, (j + 1) + (k - 1), rest[k - 1], (idx + 1) + (k - 1));
        if k > 1 {
          assert blocks[k - 1] == rest[k - 2];
        } else {
          assert blocks[k - 1] == b && rest[0].inCh == b.outCh;
        }
      }
    }
  }

  /** An assembled stage carries out the width its last block writes (inCh
      when it has none), and its blocks are placed as StagePlaced says. */
  lemma {:induction false} StageFromShape(ctx: Context, total: nat, stage: seq<BlockArgs>, j: nat, inCh: int, idx: nat)
    requires ctx.Valid() && j <= |stage| && idx + (|stage| - j) <= total
    requires StageFrom(ctx, total, stage, j, inCh, idx).Ok?
    ensures var s := StageFrom(ctx, total, stage, j, inCh, idx).value;
      s.inCh == (if s.blocks == [] then inCh else s.blocks[|s.blocks| - 1].outCh) &&
      StagePlaced(ctx, total, stage, j, inCh, idx, s.blocks)
    decreases |stage| - j
  {
    if j < |stage| {
      StageFromRest(ctx, total, stage, j, inCh, idx);
      var b := StageFrom(ctx, total, stage, j, inCh, idx).value.blocks[0];
      StageFromShape(ctx, total, stage, j + 1, b.outCh, idx + 1);
      ShapeStep(ctx, total, stage, j, inCh, idx);
    }
  }

  /** One step of StageFromShape: the shape of the assembly of stage[j..]
      follows from the shape of the assembly of stage[j + 1..]. */
  lemma ShapeStep(ctx: Context, total: nat, stage: seq<BlockArgs>, j: nat, inCh: int, idx: nat)
    requires ctx.Valid() && j < |stage| && idx + (|stage| - j) <= total
    requires StageFrom(ctx, total, stage, j, inCh, idx).Ok?
    requires var b := StageFrom(ctx, total, stage, j, inCh, idx).value.blocks[0];
      var s := StageFrom(ctx, total, stage, j + 1, b.outCh, idx + 1);
      s.Ok? &&
      s.value.inCh == (if s.value.blocks == [] then b.outCh else s.value.blocks[|s.value.blocks| - 1].outCh) &&
      StagePlaced(ctx, total, stage, j + 1, b.outCh, idx + 1, s.value.blocks)
    ensures var s := StageFrom(ctx, total, stage, j, inCh, idx).value;
      s.inCh == (if s.blocks == [] then inCh else s.blocks[|s.blocks| - 1].outCh) &&
      StagePlaced(ctx, total, stage, j, inCh, idx, s.blocks)
  {
    var a := PrepareArgs(stage[j], j).value;
    var b := MakeLayer(ctx, a, inCh, idx, total).value;
    MakeLayerPlaced(ctx, total, stage, j, inCh, idx);
    var rest := StageFrom(ctx, total, stage, j + 1, b.outCh, idx + 1).value;
    assert StageFrom(ctx, total, stage, j, inCh, idx).value.blocks == [b] + rest.blocks;
    StagePlacedCons(ctx, total, stage, j, inCh, idx, b, rest.blocks);
  }

  /** Block b is what _make_layer builds from record p of the stage, as
      prepared for its position, from the block's input width at layer `at`. */
  predicate BuiltFrom(ctx: Context, total: nat, stage: seq<BlockArgs>, p: nat, b: Block, at: nat)
    requires ctx.Valid() && p < |stage| && at < total
  {
    PrepareArgs(stage[p], p).Ok? &&
    MakeLayer(ctx, PrepareArgs(stage[p], p).value, b.inCh, at, total) == Ok(b)
  }

  /** The first block of an assembly of stage[j..] is built from record j. */
  lemma StageFromFirst(ctx: Context, total: nat, stage: seq<BlockArgs>, j: nat, inCh: int, idx: nat)
    requires ctx.Valid() && j < |stage| && idx + (|stage| - j) <= total
    requires StageFrom(ctx, total, stage, j, inCh, idx).Ok?
    ensures BuiltFrom(ctx, total, stage, j, StageFrom(ctx, total, stage, j, inCh, idx).value.blocks[0], idx)
  {
    var a := PrepareArgs(stage[j], j).value;
    var b0 := MakeLayer(ctx, a, inCh, idx, total).value;
    assert StageFrom(ctx, total, stage, j, inCh, idx).value.blocks[0] == b0;
  }

  /** After its first block, an assembly of stage[j..] goes on as an assembly of
      stage[j + 1..] from that block's output width. */
  lemma StageFromRest(ctx: Context, total: nat, stage: seq<BlockArgs>, j: nat, inCh: int, idx: nat)
    requires ctx.Valid() && j < |stage| && idx + (|stage| - j) <= total
    requires StageFrom(ctx, total, stage, j, inCh, idx).Ok?
    ensures var s := StageFrom(ctx, total, stage, j, inCh, idx).value;
      s.blocks != [] &&
      StageFrom(ctx, total, stage, j + 1, s.blocks[0].outCh, idx + 1) == Ok(StageOut(s.blocks[1..], s.inCh, s.idx))
  {
    var b0 := MakeLayer(ctx, PrepareArgs(stage[j], j).value, inCh, idx, total).value;
    var rest := StageFrom(ctx, total, stage, j + 1, b0.outCh, idx + 1).value;
    assert StageFrom(ctx, total, stage, j, inCh, idx).value.blocks == [b0] + rest.blocks;
  }

  /** The width an assembly of stage[j..] hands to its block at offset d. */
  function WidthBefore(inCh: int, blocks: seq<Block>, d: nat): int
    requires d <= |blocks|
  {
    if d == 0 then inCh else blocks[d - 1].outCh
  }

  /** The assembly of stage[j..] reaches record p, handing it width w at layer
      index `at`; from p on it builds tail and ends with width outCh at index outIdx. */
  predicate SuffixAt(ctx: Context, total: nat, stage: seq<BlockArgs>, j: nat, inCh: int, idx: nat,
                     p: nat, at: nat, w: int, tail: seq<Block>, outCh: int, outIdx: nat)
  {
    ctx.Valid() && j <= |stage| && j <= p && idx + (|stage| - j) <= total && at == idx + (p - j) &&
    StageFrom(ctx, total, stage, j, inCh, idx).Ok? &&
    var s := StageFrom(ctx, total, stage, j, inCh, idx).value;
    p - j < |s.blocks| && w == WidthBefore(inCh, s.blocks, p - j) && tail == s.blocks[p - j..] &&
    outCh == s.inCh && outIdx == s.idx
  }

  /** One step of StageFromSuffix: what holds of the assembly of stage[j..]
      for a later record p holds of the assembly of stage[j + 1..]. */
  lemma SuffixStep(ctx: Context, total: nat, stage: seq<BlockArgs>, j: nat, inCh: int, idx: nat,
                   p: nat, at: nat, w: int, tail: seq<Block>, outCh: int, outIdx: nat)
    requires j < p && SuffixAt(ctx, total, stage, j, inCh, idx, p, at, w, tail, outCh, outIdx)
    ensures StageFrom(ctx, total, stage, j, inCh, idx).value.blocks != []
    ensures SuffixAt(ctx, total, stage, j + 1, StageFrom(ctx, total, stage, j, inCh, idx).value.blocks[0].outCh,
                     idx + 1, p, at, w, tail, outCh, outIdx)
  {
    var s := StageFrom(ctx, total, stage, j, inCh, idx).value;
    StageFromRest(ctx, total, stage, j, inCh, idx);
    assert s.blocks[1..][p - (j + 1)..] == tail;
  }

  /** The blocks an assembly of stage[j..] builds from record p on (tail) are
      an assembly of stage[p..] from the width w handed to block p, at layer
      index `at`, ending where the whole assembly ends. */
  lemma {:induction false} StageFromSuffix(ctx: Context, total: nat, stage: seq<BlockArgs>, j: nat, inCh: int, idx: nat,
                                           p: nat, at: nat, w: int, tail: seq<Block>, outCh: int, outIdx: nat)
    requires SuffixAt(ctx, total, stage, j, inCh, idx, p, at, w, tail, outCh, outIdx)
    ensures StageFrom(ctx, total, stage, p, w, at) == Ok(StageOut(tail, outCh, outIdx))
    decreases p - j
  {
    if p > j {
      SuffixStep(ctx, total, stage, j, inCh, idx, p, at, w, tail, outCh, outIdx);
      var b0 := StageFrom(ctx, total, stage, j, inCh, idx).value.blocks[0];
      StageFromSuffix(ctx, total, stage, j + 1, b0.outCh, idx + 1, p, at, w, tail, outCh, outIdx);
    } else {
      SuffixWhole(ctx, total, stage, j, inCh, idx, p, at, w, tail, outCh, outIdx);
    }
  }

  /** A suffix that starts where the assembly starts is the whole assembly. */
  lemma SuffixWhole(ctx: Context, total: nat, stage: seq<BlockArgs>, j: nat, inCh: int, idx: nat,
                    p: nat, at: nat, w: int, tail: seq<Block>, outCh: int, outIdx: nat)
    requires p == j && SuffixAt(ctx, total, stage, j, inCh, idx, p, at, w, tail, outCh, outIdx)
    ensures StageFrom(ctx, total, stage, p, w, at) == Ok(StageOut(tail, outCh, outIdx))
  {
    assert tail == StageFrom(ctx, total, stage, j, inCh, idx).value.blocks[0..];
  }

  /** The block an assembly of stage[j..] builds for record p is what
      _make_layer builds from that record at layer index `at`. */
  lemma StageFromLayer(ctx: Context, total: nat, stage: seq<BlockArgs>, j: nat, inCh: int, idx: nat, p: nat, at: nat)
    requires ctx.Valid() && j <= |stage| && j <= p && idx + (|stage| - j) <= total && at == idx + (p - j)
    requires StageFrom(ctx, total, stage, j, inCh, idx).Ok?
    requires p - j < |StageFrom(ctx, total, stage, j, inCh, idx).value.blocks|
    ensures p < |stage| && at < total
    ensures BuiltFrom(ctx, total, stage, p, StageFrom(ctx, total, stage, j, inCh, idx).value.blocks[p - j], at)
  {
    var s := StageFrom(ctx, total, stage, j, inCh, idx).value;
    var w := WidthBefore(inCh, s.blocks, p - j);
    StageFromSuffix(ctx, total, stage, j, inCh, idx, p, at, w, s.blocks[p - j..], s.inCh, s.idx);
    StageFromFirst(ctx, total, stage, p, w, at);
    assert StageFrom(ctx, total, stage, p, w, at).value.blocks[0] == s.blocks[p - j];
  }

  /** Block b stands at position j of its stage as layer idx of total. */
  predicate BlockPlaced(ctx: Context, total: nat, stage: seq<BlockArgs>, j: nat, b: Block, idx: nat)
    requires ctx.Valid() && j < |stage| && idx < total
  {
    stage[j].stride.Some? && stage[j].outChannel.Some? &&
    b.outCh == ctx.RoundChannel(stage[j].outChannel.value) &&
    StrideProduct(b.convs) == (if j == 0 then stage[j].stride.value else 1) &&
    (stage[j].stride.value == 1 || stage[j].stride.value == 2) &&
    b.dropPath == DropRate(ctx.globals.dropPathRate, idx, total) &&
    Chained(b.convs, b.inCh, b.outCh) &&
    BlockKindOf(stage[j].blockType) == Some(b.kind) &&
    (b.hasResidual <==> (j > 0 || stage[j].stride.value == 1) && b.inCh == b.outCh && !stage[j].noskip) &&
    (b.se.Some? <==> stage[j].seRatio.Some? && stage[j].seRatio.value.mantissa > 0)
  }

  lemma MakeLayerPlaced(ctx: Context, total: nat, stage: seq<BlockArgs>, j: nat, inCh: int, idx: nat)
    requires ctx.Valid() && j < |stage| && idx < total
    requires PrepareArgs(stage[j], j).Ok?
    requires MakeLayer(ctx, PrepareArgs(stage[j], j).value, inCh, idx, total).Ok?
    ensures var b := MakeLayer(ctx, PrepareArgs(stage[j], j).value, inCh, idx, total).value;
            BlockPlaced(ctx, total, stage, j, b, idx) && b.inCh == inCh
  {
    MakeLayerRules(ctx, PrepareArgs(stage[j], j).value, inCh, idx, total);
  }

  // ---------------------------------------------------------------------------
  // Properties of all stages

  lemma LayerCountSplit(stages: seq<seq<BlockArgs>>, i: nat)
    requires i < |stages|
    ensures LayerCount(stages[i..]) == |stages[i]| + LayerCount(stages[i + 1..])
  {
    assert stages[i..][1..] == stages[i + 1..];
  }

  lemma {:induction false} LayerCountAppend(a: seq<seq<BlockArgs>>, b: seq<seq<BlockArgs>>)
    ensures LayerCount(a + b) == LayerCount(a) + LayerCount(b)
    decreases |a|
  {
    if a == [] {
      assert a + b == b;
    } else {
      assert (a + b)[1..] == a[1..] + b;
      LayerCountAppend(a[1..], b);
    }
  }

  /** The records before stage i and from stage i on make up all of them. */
  lemma LayerCountPrefix(stages: seq<seq<BlockArgs>>, i: nat)
    requires i < |stages|
    ensures LayerCount(stages[..i + 1]) == LayerCount(stages[..i]) + |stages[i]|
    ensures LayerCount(stages) == LayerCount(stages[..i]) + LayerCount(stages[i..])
  {
    assert stages[..i + 1] == stages[..i] + [stages[i]];
    LayerCountAppend(stages[..i], [stages[i]]);
    assert [stages[i]][1..] == [];
    assert stages == stages[..i] + stages[i..];
    LayerCountAppend(stages[..i], stages[i..]);
  }

  /** After assembling stages[i..] there is one block list and one width per
      stage, the layer index has advanced by their number of records, and the
      width carried out is the last entry appended (or inCh if none is). */
  lemma {:induction false} StagesFromShape(ctx: Context, total: nat, stages: seq<seq<BlockArgs>>, i: nat, inCh: int, idx: nat)
    requires ctx.Valid() && i <= |stages| && idx + LayerCount(stages[i..]) <= total
    requires StagesFrom(ctx, total, stages, i, inCh, idx).Ok?
    ensures var n := StagesFrom(ctx, total, stages, i, inCh, idx).value;
      |n.blocks| == |stages| - i && |n.outs| == |stages| - i &&
      n.idx == idx + LayerCount(stages[i..]) &&
      n.inCh == (if n.outs == [] then inCh else n.outs[|n.outs| - 1])
    decreases |stages| - i
  {
    if i < |stages| {
      LayerCountSplit(stages, i);
      var s := StageFrom(ctx, total, stages[i], 0, inCh, idx).value;
      StagesFromShape(ctx, total, stages, i + 1, s.inCh, s.idx);
    }
  }

  /** The stages are assembled exactly when every record of every stage is
      accepted, and then there is one block list and one width per stage, every
      record is numbered as a layer, and the width carried out of the last
      stage (the stem width when there is none) enters the head. */
  lemma AssembleBlocksOk(ctx: Context, stages: seq<seq<BlockArgs>>, stem: int)
    requires ctx.Valid()
    ensures AssembleBlocks(ctx, stages, stem).Ok? <==>
      forall m, k :: 0 <= m < |stages| && 0 <= k < |stages[m]| ==> LayerAccepted(stages[m][k])
    ensures AssembleBlocks(ctx, stages, stem).Ok? ==>
      var n := AssembleBlocks(ctx, stages, stem).value;
      |n.blocks| == |stages| && |n.outs| == |stages| && n.idx == LayerCount(stages) &&
      n.inCh == (if stages == [] then stem else n.outs[|stages| - 1])
  {
    assert stages[0..] == stages;
    StagesFromFails(ctx, LayerCount(stages), stages, 0, stem, 0);
    if AssembleBlocks(ctx, stages, stem).Ok? {
      StagesFromShape(ctx, LayerCount(stages), stages, 0, stem, 0);
    }
  }

  /** The stages are assembled exactly when every record of every stage is accepted. */
  lemma {:induction false} StagesFromFails(ctx: Context, total: nat, stages: seq<seq<BlockArgs>>, i: nat, inCh: int, idx: nat)
    requires ctx.Valid() && i <= |stages| && idx + LayerCount(stages[i..]) <= total
    ensures StagesFrom(ctx, total, stages, i, inCh, idx).Ok? <==>
            forall m, k :: i <= m < |stages| && 0 <= k < |stages[m]| ==> LayerAccepted(stages[m][k])
    decreases |stages| - i
  {
    if i < |stages| {
      LayerCountSplit(stages, i);
      StageFromFails(ctx, total, stages[i], 0, inCh, idx);
      var r := StageFrom(ctx, total, stages[i], 0, inCh, idx);
      if r.Ok? {
        StagesFromFails(ctx, total, stages, i + 1, r.value.inCh, r.value.idx);
      }
    }
  }

  /** Stage m of the whole assembly, entered with width entry, yields the given
      blocks and width, from layer LayerCount(stages[..m]) on. */
  predicate StageAt(ctx: Context, stages: seq<seq<BlockArgs>>, m: nat, entry: int, blocks: seq<Block>, out: int)
    requires ctx.Valid() && m < |stages|
  {
    LayerCount(stages[..m]) + |stages[m]| <= LayerCount(stages) &&
    StageFrom(ctx, LayerCount(stages), stages[m], 0, entry, LayerCount(stages[..m])) ==
      Ok(StageOut(blocks, out, LayerCount(stages[..m + 1])))
  }

  /** The width entering stage d of a run: inCh for the first, else the
      width the stage before it carries out. */
  function Entry(inCh: int, outs: seq<int>, d: nat): int
    requires d <= |outs|
  {
    if d == 0 then inCh else outs[d - 1]
  }

  /** Stages i.. of the whole assembly, entered with inCh, yield the given
      block lists and widths, each stage entered with the width the one
      before it carries out. */
  predicate StagesAt(ctx: Context, stages: seq<seq<BlockArgs>>, i: nat, inCh: int, blocks: seq<seq<Block>>, outs: seq<int>)
    requires ctx.Valid() && i <= |stages|
    decreases |stages| - i
  {
    |blocks| == |stages| - i && |outs| == |stages| - i &&
    (i < |stages| ==>
      StageAt(ctx, stages, i, inCh, blocks[0], outs[0]) &&
      StagesAt(ctx, stages, i + 1, outs[0], blocks[1..], outs[1..]))
  }

  /** Stage m of the whole assembly, for m from i on, is stage m - i of a run
      from stage i: it is entered with the width the run lists before it and
      yields the run's block list and width for it. */
  lemma {:induction false} StagesAtIndex(ctx: Context, stages: seq<seq<BlockArgs>>, i: nat, inCh: int,
                                         blocks: seq<seq<Block>>, outs: seq<int>, m: nat, entry: int, b: seq<Block>, out: int)
    requires ctx.Valid() && i <= m < |stages| && StagesAt(ctx, stages, i, inCh, blocks, outs)
    requires |blocks| == |outs| == |stages| - i
    requires entry == Entry(inCh, outs, m - i) && b == blocks[m - i] && out == outs[m - i]
    ensures StageAt(ctx, stages, m, entry, b, out)
    decreases m - i
  {
    if m > i {
      assert blocks[1..][m - (i + 1)] == b && outs[1..][m - (i + 1)] == out;
      assert Entry(outs[0], outs[1..], m - (i + 1)) == entry;
      StagesAtIndex(ctx, stages, i + 1, outs[0], blocks[1..], outs[1..], m, entry, b, out);
    }
  }

  lemma StagesAtCons(ctx: Context, stages: seq<seq<BlockArgs>>, i: nat, inCh: int, b: seq<Block>, out: int, blocks: seq<seq<Block>>, outs: seq<int>)
    requires ctx.Valid() && i < |stages|
    requires StageAt(ctx, stages, i, inCh, b, out)
    requires StagesAt(ctx, stages, i + 1, out, blocks, outs)
    ensures StagesAt(ctx, stages, i, inCh, [b] + blocks, [out] + outs)
  {
    assert ([b] + blocks)[1..] == blocks && ([out] + outs)[1..] == outs;
  }

  /** Assembling from stage i splits into the assemblies of the single stages,
      each entered with the width the one before it carries out. */
  lemma {:induction false} StagesFromDecompose(ctx: Context, stages: seq<seq<BlockArgs>>, i: nat, inCh: int)
    requires ctx.Valid() && i <= |stages|
    requires LayerCount(stages[..i]) + LayerCount(stages[i..]) == LayerCount(stages)
    requires StagesFrom(ctx, LayerCount(stages), stages, i, inCh, LayerCount(stages[..i])).Ok?
    ensures var n := StagesFrom(ctx, LayerCount(stages), stages, i, inCh, LayerCount(stages[..i])).value;
      StagesAt(ctx, stages, i, inCh, n.blocks, n.outs)
    decreases |stages| - i
  {
    var total := LayerCount(stages);
    if i < |stages| {
      var n := StagesFrom(ctx, total, stages, i, inCh, LayerCount(stages[..i])).value;
      LayerCountSplit(stages, i);
      LayerCountPrefix(stages, i);
      var s := StageFrom(ctx, total, stages[i], 0, inCh, LayerCount(stages[..i])).value;
      assert StageAt(ctx, stages, i, inCh, s.blocks, s.inCh);
      if i + 1 < |stages| {
        LayerCountPrefix(stages, i + 1);
      } else {
        assert stages[..i + 1] == stages;
        assert stages[i + 1..] == [];
      }
      StagesFromDecompose(ctx, stages, i + 1, s.inCh);
      var rest := StagesFrom(ctx, total, stages, i + 1, s.inCh, s.idx).value;
      assert n.blocks == [s.blocks] + rest.blocks && n.outs == [s.inCh] + rest.outs;
      StagesAtCons(ctx, stages, i, inCh, s.blocks, s.inCh, rest.blocks, rest.outs);
    }
  }
}
