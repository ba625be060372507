/** The EfficientNet builder: a class whose construction decodes the block
    definition, scales every stage's depth, and assembles the blocks while it
    updates its running input width, layer index and list of output widths.
    Each method is proved to compute what the functions of modules
    DepthScaler and Assembly describe, and Construct states the whole
    construction as a function of the constructor's arguments. */
module Network {
  import opened Base
  import opened Padding
  import opened Decoder
  import opened DepthScaler
  import opened Blocks
  import opened Assembly

  /** The arguments of the EfficientNet constructor. */
  datatype Config = Config(
    blockDef: seq<seq<string>>,
    ctx: Context,
    numClasses: int,
    inChannel: int,
    stemSize: int,
    fixStem: bool,
    numFeatures: Option<int>,
    fixBlockFirstLast: bool)
  {
    predicate Valid()
    {
      ctx.Valid()
    }
  }

  /** What construction leaves in the network: the head width, the stem
      convolution, the blocks per stage, the head convolution and the list of
      output widths (stem, one per stage, head, classes). */
  datatype Net = Net(numFeatures: int, stemConv: Conv, blocks: seq<seq<Block>>, headConv: Conv, outChannels: seq<int>)

  /** num_features: round_channels(1280) unless given. */
  function NumFeatures(cfg: Config): int
  {
    if cfg.numFeatures.None? then cfg.ctx.RoundChannel(1280) else cfg.numFeatures.value
  }

  /** The stem width: rounded unless fix_stem. */
  function StemWidth(cfg: Config): int
  {
    if cfg.fixStem then cfg.stemSize else cfg.ctx.RoundChannel(cfg.stemSize)
  }

  /** _make_blocks: the block definition decoded, then assembled from inCh. */
  function MadeBlocks(cfg: Config, inCh: int, fixFirstLast: bool): Result<NetOut>
    requires cfg.Valid()
  {
    match DecodeBlocks(cfg.blockDef, cfg.ctx.arch.depthMult, fixFirstLast)
    case Err(e) => Err(e)
    case Ok(stages) => AssembleBlocks(cfg.ctx, stages, inCh)
  }

  /** The whole of EfficientNet.__init__ as a function of its arguments. */
  function Construct(cfg: Config): Result<Net>
    requires cfg.Valid()
  {
    var pad := cfg.ctx.globals.padType;
    var stem := StemWidth(cfg);
    match MadeBlocks(cfg, stem, cfg.fixBlockFirstLast)
    case Err(e) => Err(e)
    case Ok(n) =>
      Ok(Net(NumFeatures(cfg),
             CreateConv2d(cfg.inChannel, stem, 3, 2, pad, false),
             n.blocks,
             CreateConv2d(n.inCh, NumFeatures(cfg), 1, 1, pad, false),
             [stem] + n.outs + [NumFeatures(cfg), cfg.numClasses]))
  }

  /** Proof step for Build: Construct unfolded once the blocks are made from the stem width. */
  lemma ConstructFromMade(cfg: Config, n: NetOut)
    requires cfg.Valid() && MadeBlocks(cfg, StemWidth(cfg), cfg.fixBlockFirstLast) == Ok(n)
    ensures Construct(cfg) ==
      Ok(Net(NumFeatures(cfg),
             CreateConv2d(cfg.inChannel, StemWidth(cfg), 3, 2, cfg.ctx.globals.padType, false),
             n.blocks,
             CreateConv2d(n.inCh, NumFeatures(cfg), 1, 1, cfg.ctx.globals.padType, false),
             [StemWidth(cfg)] + n.outs + [NumFeatures(cfg), cfg.numClasses]))
  {
  }

  // ---------------------------------------------------------------------------
  // What construction guarantees

  /** The width a stage hands on: its last block's output, or its entry width
      when it has no block. */
  function StageExit(entry: int, stageBlocks: seq<Block>): int
  {
    if stageBlocks == [] then entry else stageBlocks[|stageBlocks| - 1].outCh
  }

  /** Stage m of the decoded stages, entered with width entry, was assembled
      into stageBlocks as Assembly.StagePlaced says, from layer
      LayerCount(stages[..m]) on. */
  predicate PlacedAt(ctx: Context, stages: seq<seq<BlockArgs>>, m: nat, entry: int, stageBlocks: seq<Block>)
    requires ctx.Valid() && m < |stages|
  {
    LayerCount(stages[..m]) + |stages[m]| <= LayerCount(stages) &&
    StagePlaced(ctx, LayerCount(stages), stages[m], 0, entry, LayerCount(stages[..m]), stageBlocks)
  }

  /** The network was assembled from the decoded stages: one block list per
      stage, out_channels holding the stem width, each stage's exit width and
      two more entries, and every stage placed from the width listed before it. */
  predicate NetPlaced(ctx: Context, stages: seq<seq<BlockArgs>>, net: Net)
    requires ctx.Valid()
  {
    |net.blocks| == |stages| && |net.outChannels| == |stages| + 3 &&
    forall m :: 0 <= m < |stages| ==>
      PlacedAt(ctx, stages, m, net.outChannels[m], net.blocks[m]) &&
      net.outChannels[m + 1] == StageExit(net.outChannels[m], net.blocks[m])
  }

  /** Stage m of an assembly run from the stem width: entered with the width
      listed before it, placed as PlacedAt says, and handing on its exit width. */
  lemma AssembledStage(ctx: Context, stages: seq<seq<BlockArgs>>, stem: int, n: NetOut,
                       m: nat, entry: int, b: seq<Block>, out: int)
    requires ctx.Valid() && m < |stages| && AssembleBlocks(ctx, stages, stem) == Ok(n)
    requires |n.blocks| == |stages| && |n.outs| == |stages|
    requires entry == Entry(stem, n.outs, m) && b == n.blocks[m] && out == n.outs[m]
    ensures StageAt(ctx, stages, m, entry, b, out)
    ensures PlacedAt(ctx, stages, m, entry, b) && out == StageExit(entry, b)
  {
    assert StageAt(ctx, stages, m, entry, b, out) by {
      assert stages[..0] == [] && stages[0..] == stages;
      StagesFromDecompose(ctx, stages, 0, stem);
      StagesAtIndex(ctx, stages, 0, stem, n.blocks, n.outs, m, entry, b, out);
    }
    StageAtPlaced(ctx, stages, m, entry, b, out);
  }

  /** A stage that assembles to blocks b and width out is placed as PlacedAt
      says and hands on the exit width of its blocks. */
  lemma StageAtPlaced(ctx: Context, stages: seq<seq<BlockArgs>>, m: nat, entry: int, b: seq<Block>, out: int)
    requires ctx.Valid() && m < |stages| && StageAt(ctx, stages, m, entry, b, out)
    ensures PlacedAt(ctx, stages, m, entry, b) && out == StageExit(entry, b)
  {
    StageFromShape(ctx, LayerCount(stages), stages[m], 0, entry, LayerCount(stages[..m]));
  }

  /** A network whose blocks are an assembly run from the stem width, and whose
      out_channels list the stem width, the run's widths and two more entries,
      is placed as NetPlaced says. */
  lemma AssembledNetPlaced(ctx: Context, stages: seq<seq<BlockArgs>>, stem: int, n: NetOut, net: Net, a: int, c: int)
    requires ctx.Valid() && AssembleBlocks(ctx, stages, stem) == Ok(n)
    requires net.blocks == n.blocks && net.outChannels == [stem] + n.outs + [a, c]
    ensures NetPlaced(ctx, stages, net)
  {
    assert stages[0..] == stages;
    StagesFromShape(ctx, LayerCount(stages), stages, 0, stem, 0);
    forall m | 0 <= m < |stages|
      ensures PlacedAt(ctx, stages, m, net.outChannels[m], net.blocks[m])
      ensures net.outChannels[m + 1] == StageExit(net.outChannels[m], net.blocks[m])
    {
      assert net.outChannels[m] == Entry(stem, n.outs, m) && net.outChannels[m + 1] == n.outs[m];
      AssembledStage(ctx, stages, stem, n, m, net.outChannels[m], n.blocks[m], n.outs[m]);
    }
  }

  /** A built network holds one block list per stage of the block definition
      and is placed as NetPlaced says: stage m is entered with the width listed
      before it in out_channels, its first block reads that width and every
      later block its predecessor's output width, each block writes its
      record's rounded output width, carries its record's stride only when
      first in its stage, and drops paths at the rate of its layer index. */
  lemma ConstructPlaced(cfg: Config)
    requires cfg.Valid() && Construct(cfg).Ok?
    ensures DecodeBlocks(cfg.blockDef, cfg.ctx.arch.depthMult, cfg.fixBlockFirstLast).Ok?
    ensures var stages := DecodeBlocks(cfg.blockDef, cfg.ctx.arch.depthMult, cfg.fixBlockFirstLast).value;
      |stages| == |cfg.blockDef| && NetPlaced(cfg.ctx, stages, Construct(cfg).value)
  {
    var depth := cfg.ctx.arch.depthMult;
    var stages := DecodeBlocks(cfg.blockDef, depth, cfg.fixBlockFirstLast).value;
    DecodeStagesShape(cfg.blockDef, depth, cfg.fixBlockFirstLast, 0, stages);
    var stem := StemWidth(cfg);
    var n := AssembleBlocks(cfg.ctx, stages, stem).value;
    AssembledNetPlaced(cfg.ctx, stages, stem, n, Construct(cfg).value, NumFeatures(cfg), cfg.numClasses);
  }

  /** The channel wiring of a placed network: within and across stages each
      block reads the width the one before it writes, and out_channels lists
      each stage's exit width after the width it is entered with. */
  lemma PlacedWiring(ctx: Context, stages: seq<seq<BlockArgs>>, net: Net)
    requires ctx.Valid() && NetPlaced(ctx, stages, net)
    ensures forall m, k :: 0 <= m < |net.blocks| && 0 <= k < |net.blocks[m]| ==>
      net.blocks[m][k].inCh == (if k == 0 then net.outChannels[m] else net.blocks[m][k - 1].outCh)
    ensures forall m :: 0 <= m < |net.blocks| ==> net.outChannels[m + 1] == StageExit(net.outChannels[m], net.blocks[m])
  {
    forall m, k | 0 <= m < |net.blocks| && 0 <= k < |net.blocks[m]|
      ensures net.blocks[m][k].inCh == (if k == 0 then net.outChannels[m] else net.blocks[m][k - 1].outCh)
    {
      assert PlacedAt(ctx, stages, m, net.outChannels[m], net.blocks[m]);
    }
  }

  /** The stem and head of a built network: the stem reads the input image's
      channels and writes out_channels[0], the stem width; the head reads the
      last stage's exit width and writes num_features; out_channels ends with
      num_features and num_classes. */
  lemma ConstructWiring(cfg: Config)
    requires cfg.Valid() && Construct(cfg).Ok?
    ensures var net := Construct(cfg).value;
      var n := |net.blocks|;
      n == |cfg.blockDef| && |net.outChannels| == n + 3 &&
      net.stemConv.inCh == cfg.inChannel && net.stemConv.outCh == net.outChannels[0] == StemWidth(cfg) &&
      net.stemConv.kernel == 3 && net.stemConv.stride == 2 &&
      net.headConv.inCh == net.outChannels[n] && net.headConv.outCh == net.numFeatures &&
      net.outChannels[n + 1] == net.numFeatures == NumFeatures(cfg) && net.outChannels[n + 2] == cfg.numClasses
  {
    ConstructPlaced(cfg);
    var stages := DecodeBlocks(cfg.blockDef, cfg.ctx.arch.depthMult, cfg.fixBlockFirstLast).value;
    var stem := StemWidth(cfg);
    var a := AssembleBlocks(cfg.ctx, stages, stem).value;
    assert stages[0..] == stages;
    StagesFromShape(cfg.ctx, LayerCount(stages), stages, 0, stem, 0);
  }

  /** Strides in a placed network: every record of the decoded stages has
      stride 1 or 2, a stage's first block downsamples by its record's stride
      and every later block keeps the spatial size. */
  lemma PlacedStrides(ctx: Context, stages: seq<seq<BlockArgs>>, net: Net)
    requires ctx.Valid() && NetPlaced(ctx, stages, net)
    ensures forall m, k :: 0 <= m < |stages| && 0 <= k < |net.blocks[m]| ==>
      k < |stages[m]| && stages[m][k].stride.Some? &&
      (stages[m][k].stride.value == 1 || stages[m][k].stride.value == 2) &&
      StrideProduct(net.blocks[m][k].convs) == (if k == 0 then stages[m][0].stride.value else 1)
  {
    forall m, k | 0 <= m < |stages| && 0 <= k < |net.blocks[m]|
      ensures k < |stages[m]| && stages[m][k].stride.Some?
      ensures stages[m][k].stride.value == 1 || stages[m][k].stride.value == 2
      ensures StrideProduct(net.blocks[m][k].convs) == (if k == 0 then stages[m][0].stride.value else 1)
    {
      assert PlacedAt(ctx, stages, m, net.outChannels[m], net.blocks[m]);
      assert BlockPlaced(ctx, LayerCount(stages), stages[m], 0 + k, net.blocks[m][k], LayerCount(stages[..m]) + k);
    }
  }

  /** What each block of a placed network takes from its record: the kind its
      block type names, a residual connection exactly when the block keeps the
      spatial size (a later block of a stage, or a first one of stride 1), keeps
      the width and its record has no noskip flag, and squeeze-and-excitation
      exactly when its record gives a positive se ratio. */
  lemma PlacedBlockRules(ctx: Context, stages: seq<seq<BlockArgs>>, net: Net)
    requires ctx.Valid() && NetPlaced(ctx, stages, net)
    ensures forall m, k :: 0 <= m < |stages| && 0 <= k < |net.blocks[m]| ==>
      k < |stages[m]| && stages[m][k].stride.Some? &&
      BlockKindOf(stages[m][k].blockType) == Some(net.blocks[m][k].kind) &&
      (net.blocks[m][k].hasResidual <==>
        (k > 0 || stages[m][k].stride.value == 1) && net.blocks[m][k].inCh == net.blocks[m][k].outCh &&
        !stages[m][k].noskip) &&
      (net.blocks[m][k].se.Some? <==> stages[m][k].seRatio.Some? && stages[m][k].seRatio.value.mantissa > 0)
  {
    forall m, k | 0 <= m < |stages| && 0 <= k < |net.blocks[m]|
      ensures k < |stages[m]| && stages[m][k].stride.Some?
      ensures BlockKindOf(stages[m][k].blockType) == Some(net.blocks[m][k].kind)
      ensures net.blocks[m][k].hasResidual <==>
        (k > 0 || stages[m][k].stride.value == 1) && net.blocks[m][k].inCh == net.blocks[m][k].outCh &&
        !stages[m][k].noskip
      ensures net.blocks[m][k].se.Some? <==> stages[m][k].seRatio.Some? && stages[m][k].seRatio.value.mantissa > 0
    {
      assert PlacedAt(ctx, stages, m, net.outChannels[m], net.blocks[m]);
      assert BlockPlaced(ctx, LayerCount(stages), stages[m], 0 + k, net.blocks[m][k], LayerCount(stages[..m]) + k);
    }
  }

  /** Block k of stage m of a built network is exactly what _make_layer builds
      from record k of decoded stage m (its stride kept only for k == 0), from
      the block's input width, at layer index LayerCount(stages[..m]) + k. */
  lemma ConstructLayer(cfg: Config, stages: seq<seq<BlockArgs>>, m: nat, k: nat)
    requires cfg.Valid() && Construct(cfg).Ok?
    requires DecodeBlocks(cfg.blockDef, cfg.ctx.arch.depthMult, cfg.fixBlockFirstLast) == Ok(stages)
    requires m < |Construct(cfg).value.blocks| && k < |Construct(cfg).value.blocks[m]|
    ensures m < |stages| && k < |stages[m]| && LayerCount(stages[..m]) + k < LayerCount(stages)
    ensures BuiltFrom(cfg.ctx, LayerCount(stages), stages[m], k, Construct(cfg).value.blocks[m][k], LayerCount(stages[..m]) + k)
  {
    var stem := StemWidth(cfg);
    AssembledLayer(cfg.ctx, stages, stem, AssembleBlocks(cfg.ctx, stages, stem).value, Construct(cfg).value, m, k);
  }

  /** Block k of stage m of an assembly is what _make_layer builds from record
      k of that stage, at the layer index counted over all stages before it. */
  lemma AssembledLayer(ctx: Context, stages: seq<seq<BlockArgs>>, stem: int, n: NetOut, net: Net, m: nat, k: nat)
    requires ctx.Valid() && AssembleBlocks(ctx, stages, stem) == Ok(n) && net.blocks == n.blocks
    requires m < |net.blocks| && k < |net.blocks[m]|
    ensures m < |stages| && k < |stages[m]| && LayerCount(stages[..m]) + k < LayerCount(stages) &&
      BuiltFrom(ctx, LayerCount(stages), stages[m], k, net.blocks[m][k], LayerCount(stages[..m]) + k)
  {
    assert stages[0..] == stages;
    StagesFromShape(ctx, LayerCount(stages), stages, 0, stem, 0);
    var entry := Entry(stem, n.outs, m);
    AssembledStage(ctx, stages, stem, n, m, entry, n.blocks[m], n.outs[m]);
    StageFromLayer(ctx, LayerCount(stages), stages[m], 0, entry, LayerCount(stages[..m]), k, LayerCount(stages[..m]) + k);
  }

  /** The drop-path rate of block k of stage m of a placed network, the stages
      before m holding before of all total layers. */
  lemma BlockDropPath(ctx: Context, stages: seq<seq<BlockArgs>>, net: Net, m: nat, k: nat, before: nat, total: nat)
    requires ctx.Valid() && NetPlaced(ctx, stages, net) && m < |stages| && k < |net.blocks[m]|
    requires before == LayerCount(stages[..m]) && total == LayerCount(stages)
    ensures before + k < total
    ensures net.blocks[m][k].dropPath == DropRate(ctx.globals.dropPathRate, before + k, total)
  {
    assert PlacedAt(ctx, stages, m, net.outChannels[m], net.blocks[m]);
    StageBlock(ctx, total, stages[m], net.outChannels[m], before, net.blocks[m], k);
  }

  /** With drop_path_rate zero, no block of a placed network drops paths. */
  lemma PlacedNoDropPath(ctx: Context, stages: seq<seq<BlockArgs>>, net: Net)
    requires ctx.Valid() && NetPlaced(ctx, stages, net) && ctx.globals.dropPathRate.IsZero()
    ensures forall m, k :: 0 <= m < |stages| && 0 <= k < |net.blocks[m]| ==> net.blocks[m][k].dropPath.num == 0
  {
    forall m, k | 0 <= m < |stages| && 0 <= k < |net.blocks[m]|
      ensures net.blocks[m][k].dropPath.num == 0
    {
      BlockDropPath(ctx, stages, net, m, k, LayerCount(stages[..m]), LayerCount(stages));
    }
  }

  /** Construction succeeds exactly when the block definition decodes and the
      assembler accepts every decoded record. */
  lemma ConstructAccepts(cfg: Config)
    requires cfg.Valid()
    ensures Construct(cfg).Ok? <==>
      DecodeBlocks(cfg.blockDef, cfg.ctx.arch.depthMult, cfg.fixBlockFirstLast).Ok? &&
      var stages := DecodeBlocks(cfg.blockDef, cfg.ctx.arch.depthMult, cfg.fixBlockFirstLast).value;
      forall m, k :: 0 <= m < |stages| && 0 <= k < |stages[m]| ==> LayerAccepted(stages[m][k])
  {
    var d := DecodeBlocks(cfg.blockDef, cfg.ctx.arch.depthMult, cfg.fixBlockFirstLast);
    if d.Ok? {
      assert d.value[0..] == d.value;
      StagesFromFails(cfg.ctx, LayerCount(d.value), d.value, 0, StemWidth(cfg), 0);
    }
  }

  // ---------------------------------------------------------------------------
  // Loop-invariant helpers: a result with a finished part put in front or behind

  function Prefixed<T>(pre: seq<T>, r: Result<seq<T>>): Result<seq<T>>
  {
    match r
    case Err(e) => Err(e)
    case Ok(s) => Ok(pre + s)
  }

  function Suffixed<T>(r: Result<seq<T>>, post: seq<T>): Result<seq<T>>
  {
    match r
    case Err(e) => Err(e)
    case Ok(s) => Ok(s + post)
  }

  function AfterStage(pre: seq<Block>, r: Result<StageOut>): Result<StageOut>
  {
    match r
    case Err(e) => Err(e)
    case Ok(s) => Ok(StageOut(pre + s.blocks, s.inCh, s.idx))
  }

  function AfterStages(preBlocks: seq<seq<Block>>, preOuts: seq<int>, r: Result<NetOut>): Result<NetOut>
  {
    match r
    case Err(e) => Err(e)
    case Ok(n) => Ok(NetOut(preBlocks + n.blocks, preOuts + n.outs, n.inCh, n.idx))
  }

  lemma SuffixedTwice<T>(r: Result<seq<T>>, a: seq<T>, b: seq<T>)
    ensures Suffixed(Suffixed(r, a), b) == Suffixed(r, a + b)
  {
    if r.Ok? {
      assert r.value + a + b == r.value + (a + b);
    }
  }

  lemma SuffixedNothing<T>(r: Result<seq<T>>)
    ensures Suffixed(r, []) == r
  {
    if r.Ok? {
      assert r.value + [] == r.value;
    }
  }

  lemma PrefixedNothing<T>(r: Result<seq<T>>)
    ensures Prefixed([], r) == r
  {
    if r.Ok? {
      assert [] + r.value == r.value;
    }
  }

  lemma AfterNoStages(r: Result<NetOut>)
    ensures AfterStages([], [], r) == r
  {
    if r.Ok? {
      assert [] + r.value.blocks == r.value.blocks && [] + r.value.outs == r.value.outs;
    }
  }

  lemma AfterNoBlocks(r: Result<StageOut>)
    ensures AfterStage([], r) == r
  {
    if r.Ok? {
      assert [] + r.value.blocks == r.value.blocks;
    }
  }

  lemma ReversedSnoc<T>(s: seq<T>, x: T)
    ensures Reversed(s + [x]) == [x] + Reversed(s)
  {
    var a, b := Reversed(s + [x]), [x] + Reversed(s);
    assert |a| == |b|;
    forall k | 0 <= k < |a| ensures a[k] == b[k] {
      if k > 0 {
        assert (s + [x])[|s| - k] == s[|s| - 1 - (k - 1)];
      }
    }
  }

  // ---------------------------------------------------------------------------
  // One step of each of the builder's loops, against the function it computes

  /** The backwards walk over repeats[..k]: the last count takes its share of
      the budget, the prefix before it shares what is left, and a prefix that
      sums to zero cannot be divided by. */
  lemma ScaleWalk(repeats: seq<nat>, k: nat, budget: int, acc: seq<int>)
    requires 0 < k <= |repeats|
    ensures Sum(repeats[..k]) == Sum(repeats[..k - 1]) + repeats[k - 1] >= 0
    ensures Sum(repeats[..k]) == 0 ==> Suffixed(ScaleFrom(repeats[..k], budget), Reversed(acc)) == Err(ZeroRepeats)
    ensures Sum(repeats[..k]) > 0 ==>
      var rs := Share(repeats[k - 1], budget, Sum(repeats[..k]));
      Suffixed(ScaleFrom(repeats[..k], budget), Reversed(acc)) ==
      Suffixed(ScaleFrom(repeats[..k - 1], budget - rs), Reversed(acc + [rs]))
  {
    assert repeats[..k][..k - 1] == repeats[..k - 1];
    SumNonNegative(repeats[..k]);
    if Sum(repeats[..k]) > 0 {
      var rs := Share(repeats[k - 1], budget, Sum(repeats[..k]));
      ReversedSnoc(acc, rs);
      SuffixedTwice(ScaleFrom(repeats[..k - 1], budget - rs), [rs], Reversed(acc));
    }
  }

  lemma ExpandWalk(args: seq<BlockArgs>, counts: seq<int>, i: nat, out: seq<BlockArgs>)
    requires i < |args| && i < |counts|
    requires Expand(args, counts) == out + Expand(args[i..], counts[i..])
    ensures Expand(args, counts) == (out + Copies(args[i], counts[i])) + Expand(args[i + 1..], counts[i + 1..])
  {
    assert args[i..][1..] == args[i + 1..] && counts[i..][1..] == counts[i + 1..];
    AppendAssoc(out, Copies(args[i], counts[i]), Expand(args[i + 1..], counts[i + 1..]));
  }

  lemma ExpandDone(args: seq<BlockArgs>, counts: seq<int>, i: nat, out: seq<BlockArgs>)
    requires i <= |args| && i <= |counts| && (i == |args| || i == |counts|)
    requires Expand(args, counts) == out + Expand(args[i..], counts[i..])
    ensures Expand(args, counts) == out
  {
    assert Expand(args[i..], counts[i..]) == [];
    assert out + [] == out;
  }

  /** One string of a stage: its decoding error ends the walk, or its record
      is appended and the walk resumes at the next string. */
  lemma DecodeAllAdvance(strings: seq<string>, j: nat, pre: seq<BlockArgs>, a: Result<BlockArgs>,
                         post: seq<BlockArgs>, next: nat)
    requires j < |strings| && next == j + 1 && a == Decode(strings[j])
    requires a.Ok? ==> post == pre + [a.value]
    ensures a.Err? ==> Prefixed(pre, DecodeAll(strings[j..])) == Err(a.error)
    ensures a.Ok? ==> Prefixed(pre, DecodeAll(strings[j..])) == Prefixed(post, DecodeAll(strings[next..]))
  {
    var s := strings[j..];
    assert s != [] && s[0] == strings[j] && s[1..] == strings[next..];
    if a.Err? {
      assert DecodeAll(s) == Err(a.error);
    } else {
      var d := DecodeAll(strings[next..]);
      if d.Ok? {
        assert DecodeAll(s) == Ok([a.value] + d.value);
        AppendAssoc(pre, [a.value], d.value);
      } else {
        assert DecodeAll(s) == Err(d.error);
      }
    }
  }

  /** One stage of the loop of _decode_block_def, stated on what the stage
      decoded to: its error ends the walk, or its records are appended and
      the walk resumes at the next stage. */
  lemma DecodeStagesAdvance(blockDef: seq<seq<string>>, depth: Rat, fixFirstLast: bool, idx: nat,
                            pre: seq<seq<BlockArgs>>, exempt: bool, st: Result<seq<BlockArgs>>,
                            post: seq<seq<BlockArgs>>, next: nat)
    requires depth.Valid() && idx < |blockDef| && next == idx + 1
    requires exempt == Exempt(fixFirstLast, idx, |blockDef|) && st == DecodeStage(blockDef[idx], depth, exempt)
    requires st.Ok? ==> post == pre + [st.value]
    ensures st.Err? ==> Prefixed(pre, DecodeStagesFrom(blockDef, depth, fixFirstLast, idx)) == Err(st.error)
    ensures st.Ok? ==>
      Prefixed(pre, DecodeStagesFrom(blockDef, depth, fixFirstLast, idx)) ==
      Prefixed(post, DecodeStagesFrom(blockDef, depth, fixFirstLast, next))
  {
    var d := DecodeStagesFrom(blockDef, depth, fixFirstLast, idx + 1);
    if st.Ok? && d.Ok? {
      AppendAssoc(pre, [st.value], d.value);
    }
  }

  lemma StageWalkFails(ctx: Context, total: nat, stage: seq<BlockArgs>, j: nat, inCh: int, idx: nat, pre: seq<Block>)
    requires ctx.Valid() && j < |stage| && idx + (|stage| - j) <= total
    ensures PrepareArgs(stage[j], j).Err? ==>
      AfterStage(pre, StageFrom(ctx, total, stage, j, inCh, idx)) == Err(PrepareArgs(stage[j], j).error)
    ensures PrepareArgs(stage[j], j).Ok? && MakeLayer(ctx, PrepareArgs(stage[j], j).value, inCh, idx, total).Err? ==>
      AfterStage(pre, StageFrom(ctx, total, stage, j, inCh, idx)) ==
      Err(MakeLayer(ctx, PrepareArgs(stage[j], j).value, inCh, idx, total).error)
  {
  }

  lemma StageWalk(ctx: Context, total: nat, stage: seq<BlockArgs>, j: nat, inCh: int, idx: nat, pre: seq<Block>, b: Block,
                  inNext: int, idxNext: nat)
    requires ctx.Valid() && j < |stage| && idx + (|stage| - j) <= total
    requires PrepareArgs(stage[j], j).Ok? && MakeLayer(ctx, PrepareArgs(stage[j], j).value, inCh, idx, total) == Ok(b)
    requires inNext == b.outCh && idxNext == idx + 1
    ensures AfterStage(pre, StageFrom(ctx, total, stage, j, inCh, idx)) ==
            AfterStage(pre + [b], StageFrom(ctx, total, stage, j + 1, inNext, idxNext))
  {
    var rest := StageFrom(ctx, total, stage, j + 1, b.outCh, idx + 1);
    if rest.Ok? {
      AppendAssoc(pre, [b], rest.value.blocks);
    }
  }

  /** One stage of the outer loop of _make_blocks, stated on what MakeStage
      reports: its error ends the walk, or its blocks and exit width are
      appended and the walk resumes at the next stage. */
  lemma StagesAdvance(ctx: Context, total: nat, stages: seq<seq<BlockArgs>>, i: nat, inCh: int, idx: nat,
                      preBlocks: seq<seq<Block>>, preOuts: seq<int>, r: Result<seq<Block>>, inNext: int, idxNext: nat)
    requires ctx.Valid() && i < |stages| && idx + LayerCount(stages[i..]) == total
    requires var s := StageFrom(ctx, total, stages[i], 0, inCh, idx);
      (s.Err? ==> r == Err(s.error)) &&
      (s.Ok? ==> r == Ok(s.value.blocks) && inNext == s.value.inCh && idxNext == s.value.idx)
    ensures r.Err? ==> AfterStages(preBlocks, preOuts, StagesFrom(ctx, total, stages, i, inCh, idx)) == Err(r.error)
    ensures r.Ok? ==> idxNext + LayerCount(stages[i + 1..]) == total
    ensures r.Ok? ==>
      AfterStages(preBlocks, preOuts, StagesFrom(ctx, total, stages, i, inCh, idx)) ==
      AfterStages(preBlocks + [r.value], preOuts + [inNext], StagesFrom(ctx, total, stages, i + 1, inNext, idxNext))
  {
    StagesWalk(ctx, total, stages, i, inCh, idx, preBlocks, preOuts);
  }

  lemma StagesWalk(ctx: Context, total: nat, stages: seq<seq<BlockArgs>>, i: nat, inCh: int, idx: nat,
                   preBlocks: seq<seq<Block>>, preOuts: seq<int>)
    requires ctx.Valid() && i < |stages| && idx + LayerCount(stages[i..]) <= total
    ensures LayerCount(stages[i..]) == |stages[i]| + LayerCount(stages[i + 1..])
    ensures var s := StageFrom(ctx, total, stages[i], 0, inCh, idx);
      (s.Err? ==> AfterStages(preBlocks, preOuts, StagesFrom(ctx, total, stages, i, inCh, idx)) == Err(s.error)) &&
      (s.Ok? ==> AfterStages(preBlocks, preOuts, StagesFrom(ctx, total, stages, i, inCh, idx)) ==
                 AfterStages(preBlocks + [s.value.blocks], preOuts + [s.value.inCh],
                             StagesFrom(ctx, total, stages, i + 1, s.value.inCh, s.value.idx)))
  {
    LayerCountSplit(stages, i);
    var s := StageFrom(ctx, total, stages[i], 0, inCh, idx);
    if s.Ok? {
      var rest := StagesFrom(ctx, total, stages, i + 1, s.value.inCh, s.value.idx);
      if rest.Ok? {
        AppendAssoc(preBlocks, [s.value.blocks], rest.value.blocks);
        AppendAssoc(preOuts, [s.value.inCh], rest.value.outs);
      }
    }
  }

  class EfficientNet {
    const cfg: Config
    var inChannel: int
    var numFeatures: int
    var stemConv: Conv
    var headConv: Conv
    var outChannels: seq<int>
    var blocks: seq<seq<Block>>
    var totalLayers: nat
    var layerIdx: nat

    /** The constructor's first assignments; Build runs the rest of it. */
    constructor (cfg: Config)
      ensures this.cfg == cfg && inChannel == cfg.inChannel
      ensures outChannels == [] && blocks == [] && totalLayers == 0 && layerIdx == 0
    {
      this.cfg := cfg;
      inChannel := cfg.inChannel;
      numFeatures := 0;
      stemConv := Conv(0, 0, 0, 0, 0, false, 0);
      headConv := Conv(0, 0, 0, 0, 0, false, 0);
      outChannels := [];
      blocks := [];
      totalLayers := 0;
      layerIdx := 0;
    }

    /** __init__ after its first assignments: head width, stem, blocks, head,
        and the output-width list. */
    method Build() returns (r: Outcome)
      requires cfg.Valid()
      modifies this
      ensures Construct(cfg).Err? ==> r == Fail(Construct(cfg).error)
      ensures Construct(cfg).Ok? ==>
        r == Pass && Net(numFeatures, stemConv, blocks, headConv, outChannels) == Construct(cfg).value
      ensures Construct(cfg).Ok? ==>
        inChannel == headConv.inCh &&
        totalLayers == LayerCount(DecodeBlocks(cfg.blockDef, cfg.ctx.arch.depthMult, cfg.fixBlockFirstLast).value) &&
        layerIdx == totalLayers
    {
      var pad := cfg.ctx.globals.padType;
      numFeatures := if cfg.numFeatures.None? then cfg.ctx.RoundChannel(1280) else cfg.numFeatures.value;
      var stemSize := cfg.stemSize;
      if !cfg.fixStem {
        stemSize := cfg.ctx.RoundChannel(stemSize);
      }
      assert stemSize == StemWidth(cfg);
      stemConv := CreateConv2d(cfg.inChannel, stemSize, 3, 2, pad, false);
      outChannels := [stemSize];
      var made := MakeBlocks(stemSize, cfg.fixBlockFirstLast);
      if made.Err? {
        return Fail(made.error);
      }
      ConstructFromMade(cfg, MadeBlocks(cfg, stemSize, cfg.fixBlockFirstLast).value);
      blocks := made.value;
      var lastChannel := inChannel;
      headConv := CreateConv2d(lastChannel, numFeatures, 1, 1, pad, false);
      outChannels := outChannels + [numFeatures, cfg.numClasses];
      r := Pass;
    }

    /** The first loop of _scale_stage_depth: the scaled counts, produced from
        the last block string backwards while the raw and scaled remainders
        shrink. */
    method ScaleRepeatCounts(repeats: seq<nat>) returns (r: Result<seq<int>>)
      requires cfg.Valid()
      ensures r == ScaleRepeats(repeats, cfg.ctx.arch.depthMult)
    {
      var depth := cfg.ctx.arch.depthMult;
      var numRepeat := Sum(repeats);
      var numRepeatScaled := Ceil(numRepeat * depth.num, depth.den);
      var scaledBackwards: seq<int> := [];
      var k := |repeats|;
      assert repeats[..k] == repeats && Reversed(scaledBackwards) == [];
      SuffixedNothing(ScaleRepeats(repeats, depth));
      while k > 0
        invariant 0 <= k <= |repeats|
        invariant numRepeat == Sum(repeats[..k])
        invariant ScaleRepeats(repeats, depth) ==
                  Suffixed(ScaleFrom(repeats[..k], numRepeatScaled), Reversed(scaledBackwards))
      {
        var rep := repeats[k - 1];
        ScaleWalk(repeats, k, numRepeatScaled, scaledBackwards);
        if numRepeat == 0 {
          return Err(ZeroRepeats);
        }
        var rs := Share(rep, numRepeatScaled, numRepeat);
        scaledBackwards := scaledBackwards + [rs];
        numRepeat := numRepeat - rep;
        numRepeatScaled := numRepeatScaled - rs;
        k := k - 1;
      }
      var scaled := Reversed(scaledBackwards);
      assert [] + scaled == scaled;
      return Ok(scaled);
    }

    /** _scale_stage_depth: the scaled counts, then each record copied as many
        times as its count. */
    method ScaleStageDepth(stageArgs: seq<BlockArgs>, repeats: seq<nat>) returns (r: Result<seq<BlockArgs>>)
      requires cfg.Valid()
      ensures r == ScaleStage(stageArgs, repeats, cfg.ctx.arch.depthMult)
    {
      var counts := ScaleRepeatCounts(repeats);
      if counts.Err? {
        return Err(counts.error);
      }
      var scaled := counts.value;
      var out: seq<BlockArgs> := [];
      var i := 0;
      assert stageArgs[0..] == stageArgs && scaled[0..] == scaled && [] + Expand(stageArgs, scaled) == Expand(stageArgs, scaled);
      while i < |stageArgs| && i < |scaled|
        invariant 0 <= i <= |stageArgs| && i <= |scaled|
        invariant Expand(stageArgs, scaled) == out + Expand(stageArgs[i..], scaled[i..])
      {
        ExpandWalk(stageArgs, scaled, i, out);
        out := out + Copies(stageArgs[i], scaled[i]);
        i := i + 1;
      }
      ExpandDone(stageArgs, scaled, i, out);
      return Ok(out);
    }

    /** The inner loop of _decode_block_def: each string of a stage decoded
        in order, stopping at the first that fails. */
    method DecodeStrings(strings: seq<string>) returns (r: Result<seq<BlockArgs>>)
      ensures r == DecodeAll(strings)
    {
      var stageArgs: seq<BlockArgs> := [];
      var j := 0;
      assert strings[0..] == strings;
      PrefixedNothing(DecodeAll(strings));
      while j < |strings|
        invariant 0 <= j <= |strings|
        invariant DecodeAll(strings) == Prefixed(stageArgs, DecodeAll(strings[j..]))
      {
        var a := DecodeStrDef(strings[j]);
        var next := j + 1;
        ghost var after := if a.Ok? then stageArgs + [a.value] else stageArgs;
        DecodeAllAdvance(strings, j, stageArgs, a, after, next);
        if a.Err? {
          return Err(a.error);
        }
        stageArgs := stageArgs + [a.value];
        j := next;
      }
      assert strings[j..] == [] && stageArgs + [] == stageArgs;
      return Ok(stageArgs);
    }

    /** The repeat key popped from every record of a stage (absent counts as 0). */
    method PopRepeats(stageArgs: seq<BlockArgs>) returns (repeats: seq<nat>, popped: seq<BlockArgs>)
      ensures repeats == Repeats(stageArgs) && popped == Popped(stageArgs)
    {
      repeats, popped := [], [];
      var t := 0;
      while t < |stageArgs|
        invariant 0 <= t <= |stageArgs| && |repeats| == t && |popped| == t
        invariant forall u :: 0 <= u < t ==> repeats[u] == stageArgs[u].repeat.GetOr(0)
        invariant forall u :: 0 <= u < t ==> popped[u] == stageArgs[u].(repeat := None)
      {
        repeats := repeats + [stageArgs[t].repeat.GetOr(0)];
        popped := popped + [stageArgs[t].(repeat := None)];
        t := t + 1;
      }
    }

    /** One iteration of _decode_block_def: the stage's strings decoded in
        order, the repeat popped from each record, and the records scaled
        unless the stage is exempt. */
    method DecodeStageStrings(strings: seq<string>, exempt: bool) returns (r: Result<seq<BlockArgs>>)
      requires cfg.Valid()
      ensures r == DecodeStage(strings, cfg.ctx.arch.depthMult, exempt)
    {
      var decoded := DecodeStrings(strings);
      if decoded.Err? {
        return Err(decoded.error);
      }
      var repeats, popped := PopRepeats(decoded.value);
      if exempt {
        return Ok(popped);
      }
      r := ScaleStageDepth(popped, repeats);
    }

    /** _decode_block_def: every stage decoded in order, the first and last
        exempt from scaling when fixFirstLast is set. */
    method DecodeBlockDef(fixFirstLast: bool) returns (r: Result<seq<seq<BlockArgs>>>)
      requires cfg.Valid()
      ensures r == DecodeBlocks(cfg.blockDef, cfg.ctx.arch.depthMult, fixFirstLast)
    {
      var depth := cfg.ctx.arch.depthMult;
      var blockDef := cfg.blockDef;
      var blocksArgs: seq<seq<BlockArgs>> := [];
      var idx := 0;
      ghost var goal := DecodeBlocks(blockDef, depth, fixFirstLast);
      PrefixedNothing(goal);
      while idx < |blockDef|
        invariant 0 <= idx <= |blockDef|
        invariant goal == Prefixed(blocksArgs, DecodeStagesFrom(blockDef, depth, fixFirstLast, idx))
      {
        var exempt := fixFirstLast && (idx == 0 || idx == |blockDef| - 1);
        var stage := DecodeStageStrings(blockDef[idx], exempt);
        var next := idx + 1;
        ghost var after := if stage.Ok? then blocksArgs + [stage.value] else blocksArgs;
        DecodeStagesAdvance(blockDef, depth, fixFirstLast, idx, blocksArgs, exempt, stage, after, next);
        if stage.Err? {
          return Err(stage.error);
        }
        blocksArgs := blocksArgs + [stage.value];
        idx := next;
      }
      assert DecodeStagesFrom(blockDef, depth, fixFirstLast, idx) == Ok([]) && blocksArgs + [] == blocksArgs;
      return Ok(blocksArgs);
    }

    /** _make_layer: the block for one record, built from the running input
        width and layer index, which then advance to its output width and the
        next layer. Nothing changes when the block cannot be built. */
    method MakeLayer(a: BlockArgs) returns (r: Result<Block>)
      requires cfg.Valid() && a.stride.Some? && layerIdx < totalLayers
      modifies this
      ensures r == Assembly.MakeLayer(cfg.ctx, a, old(inChannel), old(layerIdx), old(totalLayers))
      ensures r.Ok? ==> inChannel == r.value.outCh && layerIdx == old(layerIdx) + 1
      ensures r.Err? ==> inChannel == old(inChannel) && layerIdx == old(layerIdx)
      ensures totalLayers == old(totalLayers) && outChannels == old(outChannels) && blocks == old(blocks)
      ensures numFeatures == old(numFeatures) && stemConv == old(stemConv) && headConv == old(headConv)
    {
      var dropRate := DropRate(cfg.ctx.globals.dropPathRate, layerIdx, totalLayers);
      if a.outChannel.None? {
        return Err(MissingKey("out_channel"));
      }
      var kind := BlockKindOf(a.blockType);
      if kind.None? {
        return Err(UnknownBlockType(a.blockType));
      }
      var layerArgs := ToLayerArgs(cfg.ctx, a, inChannel, dropRate);
      r := MakeBlock(kind.value, layerArgs, cfg.ctx.makeDivisible);
      BlockRules(kind.value, layerArgs, cfg.ctx.makeDivisible);
      if r.Ok? {
        inChannel := layerArgs.outCh;
        layerIdx := layerIdx + 1;
      }
    }

    /** The inner loop of _make_blocks over one stage: stride checked, forced
        to 1 after the first record, and one layer made per record. */
    method MakeStage(stage: seq<BlockArgs>) returns (r: Result<seq<Block>>)
      requires cfg.Valid() && layerIdx + |stage| <= totalLayers
      modifies this
      ensures var s := StageFrom(cfg.ctx, old(totalLayers), stage, 0, old(inChannel), old(layerIdx));
        (s.Err? ==> r == Err(s.error)) &&
        (s.Ok? ==> r == Ok(s.value.blocks) && inChannel == s.value.inCh && layerIdx == s.value.idx)
      ensures totalLayers == old(totalLayers) && outChannels == old(outChannels) && blocks == old(blocks)
      ensures numFeatures == old(numFeatures) && stemConv == old(stemConv) && headConv == old(headConv)
    {
      ghost var entry, start, total, ctx := inChannel, layerIdx, totalLayers, cfg.ctx;
      var stageBlocks: seq<Block> := [];
      var j := 0;
      AfterNoBlocks(StageFrom(ctx, total, stage, 0, entry, start));
      while j < |stage|
        invariant 0 <= j <= |stage| && layerIdx == start + j && start + |stage| <= total
        invariant StageFrom(ctx, total, stage, 0, entry, start) ==
                  AfterStage(stageBlocks, StageFrom(ctx, total, stage, j, inChannel, layerIdx))
        invariant totalLayers == total && outChannels == old(outChannels) && blocks == old(blocks)
        invariant numFeatures == old(numFeatures) && stemConv == old(stemConv) && headConv == old(headConv)
      {
        ghost var inBefore, idxBefore := inChannel, layerIdx;
        StageWalkFails(ctx, total, stage, j, inBefore, idxBefore, stageBlocks);
        var args := stage[j];
        if args.stride.None? {
          return Err(MissingKey("stride"));
        }
        if args.stride.value != 1 && args.stride.value != 2 {
          return Err(BadStride(args.stride.value));
        }
        if j > 0 {
          args := args.(stride := Some(1));
        }
        assert args == PrepareArgs(stage[j], j).value;
        var layer := MakeLayer(args);
        if layer.Err? {
          return Err(layer.error);
        }
        var b := layer.value;
        ghost var inAfter, idxAfter := inChannel, layerIdx;
        StageWalk(ctx, total, stage, j, inBefore, idxBefore, stageBlocks, b, inAfter, idxAfter);
        ghost var next := StageFrom(ctx, total, stage, j + 1, inAfter, idxAfter);
        assert StageFrom(ctx, total, stage, 0, entry, start) == AfterStage(stageBlocks + [b], next);
        stageBlocks := stageBlocks + [b];
        j := j + 1;
        assert next == StageFrom(ctx, total, stage, j, inChannel, layerIdx);
      }
      assert StageFrom(ctx, total, stage, j, inChannel, layerIdx) == Ok(StageOut([], inChannel, layerIdx));
      assert stageBlocks + [] == stageBlocks;
      r := Ok(stageBlocks);
    }

    /** _make_blocks: decodes the block definition, then assembles its stages. */
    method MakeBlocks(inCh: int, fixFirstLast: bool) returns (r: Result<seq<seq<Block>>>)
      requires cfg.Valid()
      modifies this
      ensures MadeBlocks(cfg, inCh, fixFirstLast).Err? ==> r == Err(MadeBlocks(cfg, inCh, fixFirstLast).error)
      ensures MadeBlocks(cfg, inCh, fixFirstLast).Ok? ==>
        r == Ok(MadeBlocks(cfg, inCh, fixFirstLast).value.blocks) &&
        inChannel == MadeBlocks(cfg, inCh, fixFirstLast).value.inCh &&
        outChannels == old(outChannels) + MadeBlocks(cfg, inCh, fixFirstLast).value.outs &&
        totalLayers == LayerCount(DecodeBlocks(cfg.blockDef, cfg.ctx.arch.depthMult, fixFirstLast).value) &&
        layerIdx == totalLayers
      ensures numFeatures == old(numFeatures) && stemConv == old(stemConv) && headConv == old(headConv)
      ensures blocks == old(blocks)
    {
      var decoded := DecodeBlockDef(fixFirstLast);
      if decoded.Err? {
        return Err(decoded.error);
      }
      r := MakeStages(decoded.value, inCh);
    }

    /** The stage loop of _make_blocks: walks the decoded stages from input
        width inCh, appending the running width to outChannels after each
        stage; the layer index ends at the number of records. */
    method MakeStages(stages: seq<seq<BlockArgs>>, inCh: int) returns (r: Result<seq<seq<Block>>>)
      requires cfg.Valid()
      modifies this
      ensures AssembleBlocks(cfg.ctx, stages, inCh).Err? ==> r == Err(AssembleBlocks(cfg.ctx, stages, inCh).error)
      ensures AssembleBlocks(cfg.ctx, stages, inCh).Ok? ==>
        r == Ok(AssembleBlocks(cfg.ctx, stages, inCh).value.blocks) &&
        inChannel == AssembleBlocks(cfg.ctx, stages, inCh).value.inCh &&
        outChannels == old(outChannels) + AssembleBlocks(cfg.ctx, stages, inCh).value.outs &&
        layerIdx == totalLayers
      ensures totalLayers == LayerCount(stages)
      ensures numFeatures == old(numFeatures) && stemConv == old(stemConv) && headConv == old(headConv)
      ensures blocks == old(blocks)
    {
      inChannel := inCh;
      totalLayers := LayerCount(stages);
      layerIdx := 0;
      ghost var ctx, total := cfg.ctx, totalLayers;
      var built: seq<seq<Block>> := [];
      ghost var outs: seq<int> := [];
      var i := 0;
      assert stages[0..] == stages;
      AfterNoStages(AssembleBlocks(ctx, stages, inCh));
      while i < |stages|
        invariant 0 <= i <= |stages|
        invariant totalLayers == total == LayerCount(stages)
        invariant layerIdx + LayerCount(stages[i..]) == total
        invariant outChannels == old(outChannels) + outs
        invariant AssembleBlocks(ctx, stages, inCh) ==
                  AfterStages(built, outs, StagesFrom(ctx, total, stages, i, inChannel, layerIdx))
        invariant numFeatures == old(numFeatures) && stemConv == old(stemConv) && headConv == old(headConv)
        invariant blocks == old(blocks)
      {
        ghost var inBefore, idxBefore := inChannel, layerIdx;
        LayerCountSplit(stages, i);
        var stage := MakeStage(stages[i]);
        StagesAdvance(ctx, total, stages, i, inBefore, idxBefore, built, outs, stage, inChannel, layerIdx);
        if stage.Err? {
          return Err(stage.error);
        }
        built := built + [stage.value];
        AppendAssoc(old(outChannels), outs, [inChannel]);
        outChannels := outChannels + [inChannel];
        outs := outs + [inChannel];
        i := i + 1;
      }
      assert stages[i..] == [] && built + [] == built && outs + [] == outs;
      r := Ok(built);
    }
  }
}
