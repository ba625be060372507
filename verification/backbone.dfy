/** The backbone factory: the table of supported EfficientNet variants, the
    three block-definition families they are built from, the split of a built
    network into five feature stages, and get_backbone, which checks the model
    name, switches drop-path off, builds the network and checks the feature
    type. */
module Backbone {
  import opened Base
  import opened Padding
  import opened Blocks
  import opened Assembly
  import opened Network
  import opened DepthScaler
  import opened Decoder

  // ---------------------------------------------------------------------------
  // Variants

  /** Which factory a variant goes through: _efficientnet, _efficientnet_edge
      or _efficientnet_lite. */
  datatype Family = Standard | Edge | Lite

  /** One supported model: its name, its family and its architecture
      parameters (channel multiplier, depth multiplier, resolution, dropout). */
  datatype Variant = Variant(name: string, family: Family, arch: Arch)

  /** Architecture parameters as the source writes them: multipliers and
      the dropout rate with one decimal, as tenths. */
  datatype Arch = Arch(channelTenths: nat, depthTenths: nat, resolution: int, dropoutTenths: nat)
  {
    /** The exact parameters the network is built with. */
    function Params(): (a: ArchParams)
      ensures a.channelMult == Tenths(channelTenths) && a.depthMult == Tenths(depthTenths)
      ensures a.resolution == resolution && a.dropout == Tenths(dropoutTenths)
      ensures a.channelMult.Valid() && a.depthMult.Valid() && a.dropout.Valid()
    {
      ArchParams(Tenths(channelTenths), Tenths(depthTenths), resolution, Tenths(dropoutTenths))
    }
  }

  /** A multiplier or rate written with one decimal, as tenths. */
  function Tenths(n: nat): (q: Rat)
    ensures q.Valid() && q.num == n && q.den == 10
  {
    Rat(n, 10)
  }

  /** The variants in the order of the pretrained-weight table, whose keys are
      the supported model names. */
  const Variants: seq<Variant> := [
    Variant("efficientnet_b0", Standard, Arch(10, 10, 224, 2)),
    Variant("efficientnet_b1", Standard, Arch(10, 11, 240, 2)),
    Variant("efficientnet_b2", Standard, Arch(11, 12, 260, 3)),
    Variant("efficientnet_b3", Standard, Arch(12, 14, 300, 3)),
    Variant("efficientnet_b4", Standard, Arch(14, 18, 380, 4)),
    Variant("efficientnet_b5", Standard, Arch(16, 22, 456, 4)),
    Variant("efficientnet_b6", Standard, Arch(18, 26, 528, 5)),
    Variant("efficientnet_b7", Standard, Arch(20, 31, 600, 5)),
    Variant("efficientnet_b8", Standard, Arch(22, 36, 672, 5)),
    Variant("efficientnet_l2", Standard, Arch(43, 53, 800, 5)),
    Variant("efficientnet_l2_475", Standard, Arch(43, 53, 475, 5)),
    Variant("efficientnet_edge_s", Edge, Arch(10, 10, 224, 2)),
    Variant("efficientnet_edge_m", Edge, Arch(10, 11, 240, 2)),
    Variant("efficientnet_edge_l", Edge, Arch(12, 14, 300, 3)),
    Variant("efficientnet_lite0", Lite, Arch(10, 10, 224, 2)),
    Variant("efficientnet_lite1", Lite, Arch(10, 11, 240, 2)),
    Variant("efficientnet_lite2", Lite, Arch(11, 12, 260, 3)),
    Variant("efficientnet_lite3", Lite, Arch(12, 14, 280, 3)),
    Variant("efficientnet_lite4", Lite, Arch(14, 18, 300, 3))
  ]

  /** supported_models: the names of the variant table, in order. */
  function Names(vs: seq<Variant>): (r: seq<string>)
    ensures |r| == |vs| && forall i :: 0 <= i < |vs| ==> r[i] == vs[i].name
  {
    if vs == [] then [] else [vs[0].name] + Names(vs[1..])
  }

  function SupportedModels(): seq<string>
  {
    Names(Variants)
  }

  /** The first variant of vs called name, if any. */
  function Lookup(vs: seq<Variant>, name: string): (r: Option<Variant>)
  {
    if vs == [] then None
    else if vs[0].name == name then Some(vs[0])
    else Lookup(vs[1..], name)
  }

  /** A name is found exactly when it is listed, and what is found carries
      that name and comes from the table. */
  lemma {:induction false} LookupFinds(vs: seq<Variant>, name: string)
    ensures Lookup(vs, name).Some? <==> name in Names(vs)
    ensures Lookup(vs, name).Some? ==> Lookup(vs, name).value.name == name && Lookup(vs, name).value in vs
  {
    if vs != [] {
      LookupFinds(vs[1..], name);
      assert Names(vs) == [vs[0].name] + Names(vs[1..]);
    }
  }


  // ---------------------------------------------------------------------------
  // Families

  /** The block definition of each family: seven stages with squeeze-excite
      for the standard models, six edge-residual and inverted-residual stages
      for the EdgeTPU models, and the standard stages without squeeze-excite
      for the Lite models. */
  function FamilyBlockDef(f: Family): (d: seq<seq<string>>)
    ensures |d| == (if f == Edge then 6 else 7)
    ensures forall i :: 0 <= i < |d| ==> |d[i]| == 1
  {
    match f
    case Standard => [
      ["ds_r1_k3_s1_e1_c16_se0.25"],
      ["ir_r2_k3_s2_e6_c24_se0.25"],
      ["ir_r2_k5_s2_e6_c40_se0.25"],
      ["ir_r3_k3_s2_e6_c80_se0.25"],
      ["ir_r3_k5_s1_e6_c112_se0.25"],
      ["ir_r4_k5_s2_e6_c192_se0.25"],
      ["ir_r1_k3_s1_e6_c320_se0.25"]]
    case Edge => [
      ["er_r1_k3_s1_e4_c24_m24_noskip"],
      ["er_r2_k3_s2_e8_c32"],
      ["er_r4_k3_s2_e8_c48"],
      ["ir_r5_k5_s2_e8_c96"],
      ["ir_r4_k5_s1_e8_c144"],
      ["ir_r2_k5_s2_e8_c192"]]
    case Lite => [
      ["ds_r1_k3_s1_e1_c16"],
      ["ir_r2_k3_s2_e6_c24"],
      ["ir_r2_k5_s2_e6_c40"],
      ["ir_r3_k3_s2_e6_c80"],
      ["ir_r3_k5_s1_e6_c112"],
      ["ir_r4_k5_s2_e6_c192"],
      ["ir_r1_k3_s1_e6_c320"]]
  }

  /** The global parameters every family shares: channel divisor 8, no
      channel minimum, 'same' padding, and the given drop-path rate. */
  function Globals(dropPathRate: Rat): (g: GlobalParams)
    ensures g.channelDivisor == 8 && g.channelMin.None? && g.padType == PadName("same")
    ensures g.dropPathRate == dropPathRate
  {
    GlobalParams(8, None, dropPathRate, PadName("same"))
  }

  /** The default drop-path rate of every family, 0.2. */
  const DefaultDropPath: Rat := Tenths(2)

  /** _create_model for a variant: the family's block definition and globals
      (drop_path_rate replaced by the override when one is given), the Lite
      family's fixed stem, fixed 1280-wide head and unscaled end stages, and
      num_classes passed on only when no pretrained weights are loaded (the
      network is otherwise built with its default 1000 classes). The input
      channels and stem size keep their defaults, 3 and 32. */
  function ModelConfig(v: Variant, roundChannels: RoundChannels, makeDivisible: MakeDivisible,
                       numClasses: int, pretrained: bool, dropOverride: Option<Rat>): (cfg: Config)
    ensures cfg.blockDef == FamilyBlockDef(v.family) && cfg.ctx.arch == v.arch.Params()
    ensures cfg.Valid() == dropOverride.GetOr(DefaultDropPath).Valid()
    ensures cfg.ctx.globals == Globals(dropOverride.GetOr(DefaultDropPath))
    ensures cfg.numClasses == (if pretrained then 1000 else numClasses)
    ensures cfg.inChannel == 3 && cfg.stemSize == 32
    ensures cfg.fixStem == cfg.fixBlockFirstLast == (v.family == Lite)
    ensures cfg.numFeatures == (if v.family == Lite then Some(1280) else None)
  {
    var lite := v.family == Lite;
    Config(FamilyBlockDef(v.family),
           Context(v.arch.Params(), Globals(dropOverride.GetOr(DefaultDropPath)), roundChannels, makeDivisible),
           if pretrained then 1000 else numClasses,
           3, 32, lite,
           if lite then Some(1280) else None,
           lite)
  }

  // ---------------------------------------------------------------------------
  // Feature stages

  /** One feature stage: a sequential of the stem convolution (first stage
      only) followed by whole network stages. */
  datatype FeatureStage = FeatureStage(stem: Option<Conv>, blocks: seq<seq<Block>>)

  /** The feature stages and the output width of each. */
  datatype Split = Split(stages: seq<FeatureStage>, channels: seq<int>)

  /** Python's out_channels[1:-2]. */
  function BlockChannels(outChannels: seq<int>): (r: seq<int>)
    ensures |r| == if |outChannels| <= 3 then 0 else |outChannels| - 3
    ensures forall i :: 0 <= i < |r| ==> r[i] == outChannels[i + 1]
  {
    if |outChannels| <= 3 then [] else outChannels[1..|outChannels| - 2]
  }

  /** The network stages a list of feature stages holds, in order. */
  function Flatten(fs: seq<FeatureStage>): seq<seq<Block>>
  {
    if fs == [] then [] else fs[0].blocks + Flatten(fs[1..])
  }

  /** _efficientnet_stages: the widths at positions 0, 1, 2, 4 and -1 of the
      stage widths (an IndexError when there are fewer than five), then the
      stem with stage 0, stage 1, stage 2, stages 3 and 4, and the last one
      or two stages, which needs exactly 6 or 7 stages. The partition fails
      exactly when there are fewer than five stage widths (checked first) or
      a stage count other than 6 or 7. */
  function Stages(net: Net): (r: Result<Split>)
    ensures r.Ok? <==> |net.outChannels| >= 8 && (|net.blocks| == 6 || |net.blocks| == 7)
    ensures |net.outChannels| < 8 ==> r == Err(StageIndexOutOfRange)
    ensures |net.outChannels| >= 8 && |net.blocks| != 6 && |net.blocks| != 7 ==> r == Err(BadStageCount(|net.blocks|))
  {
    var bc := BlockChannels(net.outChannels);
    var n := |net.blocks|;
    if |bc| < 5 then Err(StageIndexOutOfRange)
    else if n != 6 && n != 7 then Err(BadStageCount(n))
    else
      var last := if n == 6 then [net.blocks[5]] else [net.blocks[5], net.blocks[6]];
      Ok(Split([FeatureStage(Some(net.stemConv), [net.blocks[0]]),
                FeatureStage(None, [net.blocks[1]]),
                FeatureStage(None, [net.blocks[2]]),
                FeatureStage(None, [net.blocks[3], net.blocks[4]]),
                FeatureStage(None, last)],
               [bc[0], bc[1], bc[2], bc[4], bc[|bc| - 1]]))
  }

  /** A successful partition has five non-empty feature stages that together
      hold every network stage exactly once and in order, with the stem only
      in the first. */
  lemma StagesPartition(net: Net)
    requires Stages(net).Ok?
    ensures var s := Stages(net).value;
      |s.stages| == 5 && |s.channels| == 5 &&
      Flatten(s.stages) == net.blocks &&
      s.stages[0].stem == Some(net.stemConv) &&
      (forall g :: 1 <= g < 5 ==> s.stages[g].stem.None?) &&
      (forall g :: 0 <= g < 5 ==> s.stages[g].blocks != [])
  {
    var st := Stages(net).value.stages;
    assert st[..5] == st;
    FlattenCovers(st);
  }

  /** When out_channels lists one width per stage between the stem width and
      the last two entries, feature stage g reports the width listed after the
      network stages it and the stages before it cover. */
  lemma StagesWidths(net: Net)
    requires Stages(net).Ok? && |net.outChannels| == |net.blocks| + 3
    ensures var s := Stages(net).value;
      |s.stages| == 5 && |s.channels| == 5 &&
      forall g :: 0 <= g < 5 ==>
        Covered(s.stages, g) < |net.outChannels| &&
        s.channels[g] == net.outChannels[Covered(s.stages, g)]
  {
    var s := Stages(net).value;
    var n := |net.blocks|;
    FlattenCovers(s.stages);
    assert |Flatten(s.stages[..1])| == 1 && s.channels[0] == net.outChannels[1];
    assert |Flatten(s.stages[..2])| == 2 && s.channels[1] == net.outChannels[2];
    assert |Flatten(s.stages[..3])| == 3 && s.channels[2] == net.outChannels[3];
    assert |Flatten(s.stages[..4])| == 5 && s.channels[3] == net.outChannels[5];
    assert s.stages[..5] == s.stages && |Flatten(s.stages)| == n && s.channels[4] == net.outChannels[n];
  }

  /** How many network stages feature stages 0 to g hold together. */
  function Covered(fs: seq<FeatureStage>, g: nat): nat
    requires g < |fs|
  {
    |Flatten(fs[..g + 1])|
  }

  /** How many network stages the first 1 to 5 feature stages cover. */
  lemma FlattenCovers(st: seq<FeatureStage>)
    requires |st| == 5
    ensures |Flatten(st[..1])| == |st[0].blocks|
    ensures |Flatten(st[..2])| == |st[0].blocks| + |st[1].blocks|
    ensures |Flatten(st[..3])| == |st[0].blocks| + |st[1].blocks| + |st[2].blocks|
    ensures |Flatten(st[..4])| == |st[0].blocks| + |st[1].blocks| + |st[2].blocks| + |st[3].blocks|
    ensures Flatten(st) == st[0].blocks + st[1].blocks + st[2].blocks + st[3].blocks + st[4].blocks
  {
    assert st[..0] == [] && st[..5] == st;
    FlattenPrefix(st, 0);
    assert Flatten(st[..1]) == st[0].blocks by {
      assert [] + st[0].blocks == st[0].blocks;
    }
    FlattenPrefix(st, 1);
    FlattenPrefix(st, 2);
    FlattenPrefix(st, 3);
    FlattenPrefix(st, 4);
  }

  // ---------------------------------------------------------------------------
  // get_backbone

  /** What get_backbone returns: a feature pyramid over the stages, or the
      stages followed by the network's classifier head. */
  datatype Kind = TriStageFpn | Classifier(numClasses: int)
  datatype Features = Features(kind: Kind, split: Split, net: Net)

  /** The body of get_backbone once the variant is known: the network is
      built and partitioned, then the feature type is checked. A built
      feature set holds the constructed network and its partition, and its
      kind is the one the feature type names. */
  function BuildFeatures(cfg: Config, featureType: string, numClasses: int): (r: Result<Features>)
    requires cfg.Valid()
    ensures Construct(cfg).Err? ==> r == Err(Construct(cfg).error)
    ensures Construct(cfg).Ok? && Stages(Construct(cfg).value).Err? ==> r == Err(Stages(Construct(cfg).value).error)
    ensures r.Ok? ==> (Construct(cfg).Ok? && Stages(Construct(cfg).value).Ok? &&
      r.value.net == Construct(cfg).value && r.value.split == Stages(Construct(cfg).value).value)
    ensures r.Ok? ==> r.value.kind == (if featureType == "tri_stage_fpn" then TriStageFpn else Classifier(numClasses))
    ensures r.Ok? <==> (Construct(cfg).Ok? && Stages(Construct(cfg).value).Ok? &&
      (featureType == "tri_stage_fpn" || featureType == "classifier"))
  {
    match Construct(cfg)
    case Err(e) => Err(e)
    case Ok(net) =>
      match Stages(net)
      case Err(e) => Err(e)
      case Ok(split) =>
        if featureType == "tri_stage_fpn" then Ok(Features(TriStageFpn, split, net))
        else if featureType == "classifier" then Ok(Features(Classifier(numClasses), split, net))
        else Err(UnsupportedFeatureType(featureType))
  }

  /** The configuration get_backbone builds for a supported variant:
      drop_path_rate overridden to 0. */
  function BackboneConfig(v: Variant, roundChannels: RoundChannels, makeDivisible: MakeDivisible,
                          numClasses: int, pretrained: bool): (cfg: Config)
    ensures cfg.Valid() && cfg.ctx.globals.dropPathRate.IsZero()
    ensures |cfg.blockDef| == 6 || |cfg.blockDef| == 7
    ensures cfg == ModelConfig(v, roundChannels, makeDivisible, numClasses, pretrained, Some(Zero))
  {
    ModelConfig(v, roundChannels, makeDivisible, numClasses, pretrained, Some(Zero))
  }

  /** get_backbone: an unsupported name is rejected first; the named variant
      is then built with drop_path_rate 0, partitioned into feature stages,
      and an unsupported feature type is rejected last. */
  function GetBackbone(name: string, pretrained: bool, featureType: string, numClasses: int,
                       roundChannels: RoundChannels, makeDivisible: MakeDivisible): (r: Result<Features>)
    ensures name !in SupportedModels() ==> r == Err(UnsupportedModel(name))
    ensures r.Ok? ==> name in SupportedModels()
  {
    LookupFinds(Variants, name);
    var v := Lookup(Variants, name);
    if v.None? then Err(UnsupportedModel(name))
    else
      BuildFeatures(BackboneConfig(v.value, roundChannels, makeDivisible, numClasses, pretrained), featureType, numClasses)
  }

  /** For a block definition of 6 or 7 stages, a built network always
      partitions, so building features fails only where construction fails or
      the feature type is neither 'tri_stage_fpn' nor 'classifier'. */
  lemma BuildFeaturesOutcome(cfg: Config, featureType: string, numClasses: int)
    requires cfg.Valid() && (|cfg.blockDef| == 6 || |cfg.blockDef| == 7)
    ensures Construct(cfg).Err? ==> BuildFeatures(cfg, featureType, numClasses) == Err(Construct(cfg).error)
    ensures Construct(cfg).Ok? ==> Stages(Construct(cfg).value).Ok?
    ensures Construct(cfg).Ok? ==>
      (BuildFeatures(cfg, featureType, numClasses).Ok? <==> featureType == "tri_stage_fpn" || featureType == "classifier")
    ensures Construct(cfg).Ok? && featureType != "tri_stage_fpn" && featureType != "classifier" ==>
      BuildFeatures(cfg, featureType, numClasses) == Err(UnsupportedFeatureType(featureType))
  {
    if Construct(cfg).Ok? {
      ConstructWiring(cfg);
    }
  }

  /** For a supported name get_backbone gives the result of building its
      variant's features. */
  lemma GetBackboneChecks(name: string, pretrained: bool, featureType: string, numClasses: int,
                          rc: RoundChannels, md: MakeDivisible)
    ensures name in SupportedModels() ==>
      Lookup(Variants, name).Some? && Lookup(Variants, name).value.name == name &&
      GetBackbone(name, pretrained, featureType, numClasses, rc, md) ==
        BuildFeatures(BackboneConfig(Lookup(Variants, name).value, rc, md, numClasses, pretrained), featureType, numClasses)
  {
    LookupFinds(Variants, name);
  }

  /** What a built feature set holds: drop-path rate 0 in every block when the
      global rate is 0, five widths each the output width of the last network
      stage of its feature stage, and out_channels ending with num_features
      and num_classes. */
  lemma BuildFeaturesNetwork(cfg: Config, featureType: string, numClasses: int)
    requires cfg.Valid() && BuildFeatures(cfg, featureType, numClasses).Ok?
    ensures var f := BuildFeatures(cfg, featureType, numClasses).value;
      var n := |f.net.blocks|;
      f.net == Construct(cfg).value && n == |cfg.blockDef| && |f.net.outChannels| == n + 3 &&
      (cfg.ctx.globals.dropPathRate.IsZero() ==>
        forall m, k :: 0 <= m < n && 0 <= k < |f.net.blocks[m]| ==> f.net.blocks[m][k].dropPath.num == 0) &&
      f.net.outChannels[n + 1] == NumFeatures(cfg) && f.net.outChannels[n + 2] == cfg.numClasses &&
      |f.split.channels| == 5 && |f.split.stages| == 5 &&
      forall g :: 0 <= g < 5 ==>
        var c := Covered(f.split.stages, g);
        0 < c <= n && f.split.stages[g].blocks != [] &&
        f.split.stages[g].blocks[|f.split.stages[g].blocks| - 1] == f.net.blocks[c - 1] &&
        f.split.channels[g] == StageExit(f.net.outChannels[c - 1], f.net.blocks[c - 1])
  {
    var net := Construct(cfg).value;
    ConstructWiring(cfg);
    ConstructPlaced(cfg);
    var stages := DecodeBlocks(cfg.blockDef, cfg.ctx.arch.depthMult, cfg.fixBlockFirstLast).value;
    PlacedFeatures(cfg.ctx, stages, net);
  }

  /** The drop-path and feature-width facts of a placed network that
      partitions into feature stages. */
  lemma PlacedFeatures(ctx: Context, stages: seq<seq<BlockArgs>>, net: Net)
    requires ctx.Valid() && NetPlaced(ctx, stages, net) && Stages(net).Ok?
    ensures ctx.globals.dropPathRate.IsZero() ==>
      forall m, k :: 0 <= m < |net.blocks| && 0 <= k < |net.blocks[m]| ==> net.blocks[m][k].dropPath.num == 0
    ensures var s := Stages(net).value;
      |s.channels| == 5 && |s.stages| == 5 &&
      forall g :: 0 <= g < 5 ==>
        var c := Covered(s.stages, g);
        0 < c <= |net.blocks| && s.stages[g].blocks != [] &&
        s.stages[g].blocks[|s.stages[g].blocks| - 1] == net.blocks[c - 1] &&
        s.channels[g] == StageExit(net.outChannels[c - 1], net.blocks[c - 1])
  {
    PlacedWiring(ctx, stages, net);
    if ctx.globals.dropPathRate.IsZero() {
      PlacedNoDropPath(ctx, stages, net);
    }
    SplitChannels(net);
  }

  /** In a network whose out_channels lists each stage's exit width after
      the width it is entered with, every feature width is the exit width of
      the last network stage of its feature stage. */
  lemma SplitChannels(net: Net)
    requires Stages(net).Ok? && |net.outChannels| == |net.blocks| + 3
    requires forall m :: 0 <= m < |net.blocks| ==>
      net.outChannels[m + 1] == StageExit(net.outChannels[m], net.blocks[m])
    ensures var s := Stages(net).value;
      |s.channels| == 5 && |s.stages| == 5 &&
      forall g :: 0 <= g < 5 ==>
        var c := Covered(s.stages, g);
        0 < c <= |net.blocks| && s.stages[g].blocks != [] &&
        s.stages[g].blocks[|s.stages[g].blocks| - 1] == net.blocks[c - 1] &&
        s.channels[g] == StageExit(net.outChannels[c - 1], net.blocks[c - 1])
  {
    var s := Stages(net).value;
    StagesPartition(net);
    StagesWidths(net);
    forall g | 0 <= g < 5
      ensures var c := Covered(s.stages, g);
        0 < c <= |net.blocks| && s.stages[g].blocks != [] &&
        s.stages[g].blocks[|s.stages[g].blocks| - 1] == net.blocks[c - 1] &&
        s.channels[g] == StageExit(net.outChannels[c - 1], net.blocks[c - 1])
    {
      FlattenLast(s.stages, net.blocks, g);
      var c := Covered(s.stages, g);
      assert s.channels[g] == net.outChannels[c];
      assert net.outChannels[(c - 1) + 1] == StageExit(net.outChannels[c - 1], net.blocks[c - 1]);
    }
  }

  /** The last network stage of feature stage g is the last one the first
      g + 1 feature stages cover. */
  lemma FlattenLast(fs: seq<FeatureStage>, all: seq<seq<Block>>, g: nat)
    requires Flatten(fs) == all && g < |fs| && fs[g].blocks != []
    ensures var c := Covered(fs, g);
      0 < c <= |all| && fs[g].blocks[|fs[g].blocks| - 1] == all[c - 1]
  {
    FlattenPrefix(fs, g);
    FlattenAppend(fs[..g + 1], fs[g + 1..]);
    assert fs == fs[..g + 1] + fs[g + 1..];
  }

  /** A backbone built by get_backbone comes from a supported variant's
      features: all its blocks drop paths at rate 0, its out_channels ends
      with the 1280-wide head for a Lite model and with 1000 classes whenever
      pretrained weights are asked for, and it reports five feature widths. */
  lemma GetBackboneNetwork(name: string, pretrained: bool, featureType: string, numClasses: int,
                           rc: RoundChannels, md: MakeDivisible)
    requires GetBackbone(name, pretrained, featureType, numClasses, rc, md).Ok?
    ensures Lookup(Variants, name).Some? && name in SupportedModels()
    ensures var f := GetBackbone(name, pretrained, featureType, numClasses, rc, md).value;
      var v := Lookup(Variants, name).value;
      var cfg := BackboneConfig(v, rc, md, numClasses, pretrained);
      var n := |f.net.blocks|;
      BuildFeatures(cfg, featureType, numClasses) == Ok(f) &&
      n == |FamilyBlockDef(v.family)| && |f.net.outChannels| == n + 3 && |f.split.channels| == 5 &&
      (forall m, k :: 0 <= m < n && 0 <= k < |f.net.blocks[m]| ==> f.net.blocks[m][k].dropPath.num == 0) &&
      (v.family == Lite ==> f.net.outChannels[n + 1] == 1280) &&
      f.net.outChannels[n + 2] == (if pretrained then 1000 else numClasses)
  {
    LookupFinds(Variants, name);
    var v := Lookup(Variants, name).value;
    var cfg := BackboneConfig(v, rc, md, numClasses, pretrained);
    BuildFeaturesNetwork(cfg, featureType, numClasses);
  }

  /** Flattening the first g + 1 feature stages adds stage g's lists at the end. */
  lemma FlattenPrefix(fs: seq<FeatureStage>, g: nat)
    requires g < |fs|
    ensures Flatten(fs[..g + 1]) == Flatten(fs[..g]) + fs[g].blocks
  {
    FlattenAppend(fs[..g], [fs[g]]);
    assert fs[..g + 1] == fs[..g] + [fs[g]];
    assert [fs[g]][1..] == [];
  }

  /** Flattening distributes over concatenation. */
  lemma {:induction false} FlattenAppend(xs: seq<FeatureStage>, ys: seq<FeatureStage>)
    ensures Flatten(xs + ys) == Flatten(xs) + Flatten(ys)
  {
    if xs == [] {
      assert xs + ys == ys;
    } else {
      assert (xs + ys)[0] == xs[0] && (xs + ys)[1..] == xs[1..] + ys;
      FlattenAppend(xs[1..], ys);
    }
  }
}
