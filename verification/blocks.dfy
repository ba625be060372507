/** The three block kinds an EfficientNet stage is built from, as
    configuration records: which convolutions a block holds (channels, kernel,
    stride, resolved padding, groups), whether it has a squeeze-and-excitation
    unit and whether its input is added back to its output. The tensor work of
    the layers is not modelled; a block is what its constructor decides. */
module Blocks {
  import opened Base
  import opened Padding

  datatype BlockKind = DepthwiseSeparable | InvertedResidual | EdgeResidual

  /** The block map of the builder: "ds", "ir" and "er". */
  function BlockKindOf(name: string): (k: Option<BlockKind>)
    ensures k == Some(DepthwiseSeparable) <==> name == "ds"
    ensures k == Some(InvertedResidual) <==> name == "ir"
    ensures k == Some(EdgeResidual) <==> name == "er"
    ensures k.None? <==> name != "ds" && name != "ir" && name != "er"
  {
    if name == "ds" then Some(DepthwiseSeparable)
    else if name == "ir" then Some(InvertedResidual)
    else if name == "er" then Some(EdgeResidual)
    else None
  }

  /** make_divisible(value, divisor), with None for its default divisor; its
      rounding rule is not part of this model. */
  type MakeDivisible = (Rat, Option<int>) -> int

  /** channels * ratio, exactly. */
  function Times(n: int, q: Rat): (r: Rat)
    requires q.Valid()
    ensures r.Valid() && r.num * q.den == n * q.num * r.den
  {
    Rat(n * q.num, q.den)
  }

  // ---------------------------------------------------------------------------
  // Convolutions

  datatype Conv = Conv(inCh: int, outCh: int, kernel: int, stride: int, padding: int, dynamic: bool, groups: int)

  /** create_conv2d with dilation 1: the padding is resolved by GetPadding, and a
      depthwise convolution has one group per input channel. */
  function CreateConv2d(inCh: int, outCh: int, kernel: int, stride: int, padType: PadSpec, depthwise: bool): (c: Conv)
    ensures c.inCh == inCh && c.outCh == outCh && c.kernel == kernel && c.stride == stride
    ensures c.groups == if depthwise then inCh else 1
    ensures Resolved(c.padding, c.dynamic) == GetPadding(padType, kernel, stride, 1)
  {
    var p := GetPadding(padType, kernel, stride, 1);
    Conv(inCh, outCh, kernel, stride, p.amount, p.dynamic, if depthwise then inCh else 1)
  }

  /** The output length of one convolution along one axis: a static convolution
      pads both sides by its amount; a dynamic one pads by get_same_padding. */
  function ConvOut(c: Conv, x: int): int
    requires c.stride >= 1
  {
    if c.dynamic then ConvOutLength(x, GetSamePadding(x, c.kernel, c.stride, 1), 0, c.kernel, c.stride, 1)
    else ConvOutLength(x, c.padding, c.padding, c.kernel, c.stride, 1)
  }

  predicate PositiveStrides(convs: seq<Conv>)
  {
    forall i :: 0 <= i < |convs| ==> convs[i].stride >= 1
  }

  /** The output length of a chain of convolutions. */
  function Through(convs: seq<Conv>, x: int): int
    requires PositiveStrides(convs)
  {
    if convs == [] then x else Through(convs[1..], ConvOut(convs[0], x))
  }

  /** At stride 1 an odd kernel keeps the length under every padding name but
      'valid': the resolved padding is half the kernel extent on each side. */
  lemma ConvKeepsLength(padType: PadSpec, kernel: int, x: int)
    requires padType.PadName? && !IsMode(padType, "valid")
    requires kernel >= 1 && kernel % 2 == 1
    ensures !CreateConv2d(0, 0, kernel, 1, padType, false).dynamic
    ensures ConvOut(CreateConv2d(0, 0, kernel, 1, padType, false), x) == x
  {
  }

  /** Under 'same' padding a convolution yields ceil(x / stride) outputs for an
      odd kernel, statically at stride 1 and dynamically otherwise. */
  lemma SameConvOutput(padType: PadSpec, inCh: int, outCh: int, kernel: int, stride: int, depthwise: bool, x: int)
    requires IsMode(padType, "same") && kernel >= 1 && kernel % 2 == 1 && stride >= 1
    ensures ConvOut(CreateConv2d(inCh, outCh, kernel, stride, padType, depthwise), x) == Ceil(x, stride)
  {
    var c := CreateConv2d(inCh, outCh, kernel, stride, padType, depthwise);
    if c.dynamic {
      SamePaddingOutputLength(x, kernel, stride, 1);
    } else {
      assert stride == 1;
      assert Ceil(x, 1) == x;
    }
  }

  // ---------------------------------------------------------------------------
  // Squeeze-and-excitation

  datatype SqueezeExcite = SqueezeExcite(channels: int, reduced: int)

  /** SqueezeExcite(channels, se_ratio, reduced_base_chs): the reduced width is
      make_divisible(base * ratio, 1), where a zero base falls back to channels. */
  function MakeSqueezeExcite(channels: int, seRatio: Rat, reducedBase: int, makeDivisible: MakeDivisible): (se: SqueezeExcite)
    requires seRatio.Valid()
    ensures se.channels == channels
    ensures reducedBase != 0 ==> se.reduced == makeDivisible(Times(reducedBase, seRatio), Some(1))
    ensures reducedBase == 0 ==> se.reduced == makeDivisible(Times(channels, seRatio), Some(1))
  {
    var base := if reducedBase != 0 then reducedBase else channels;
    SqueezeExcite(channels, makeDivisible(Times(base, seRatio), Some(1)))
  }

  // ---------------------------------------------------------------------------
  // Block arguments and blocks

  /** The keyword arguments a block constructor receives; an absent optional
      argument takes the constructor's default. */
  datatype LayerArgs = LayerArgs(
    inCh: int,
    outCh: int,
    kernel: Option<int>,
    stride: int,
    seRatio: Option<Rat>,
    padType: PadSpec,
    noskip: bool,
    expRatio: Option<Rat>,
    midCh: Option<int>,
    dropPath: Rat)

  predicate ValidArgs(a: LayerArgs)
  {
    (a.seRatio.Some? ==> a.seRatio.value.Valid()) &&
    (a.expRatio.Some? ==> a.expRatio.value.Valid()) &&
    a.dropPath.Valid()
  }

  function Kernel(a: LayerArgs): int { a.kernel.GetOr(3) }

  function SeRatio(a: LayerArgs): Rat { a.seRatio.GetOr(Zero) }

  function ExpRatio(a: LayerArgs): Rat { a.expRatio.GetOr(FromInt(1)) }

  /** has_se: a ratio is given and is positive. */
  predicate HasSe(a: LayerArgs)
    requires ValidArgs(a)
  {
    a.seRatio.Some? && a.seRatio.value.num > 0
  }

  /** has_residual: stride 1, as many output as input channels, and no noskip flag. */
  predicate HasResidual(a: LayerArgs)
  {
    a.stride == 1 && a.inCh == a.outCh && !a.noskip
  }

  datatype Block = Block(
    kind: BlockKind,
    inCh: int,
    outCh: int,
    convs: seq<Conv>,
    se: Option<SqueezeExcite>,
    hasResidual: bool,
    dropPath: Rat)

  function SeUnit(a: LayerArgs, channels: int, makeDivisible: MakeDivisible): Option<SqueezeExcite>
    requires ValidArgs(a)
  {
    if HasSe(a) then Some(MakeSqueezeExcite(channels, SeRatio(a), a.inCh, makeDivisible)) else None
  }

  /** DepthwiseSeparableConv: a depthwise convolution carrying the stride, then a
      pointwise one; squeeze-and-excitation on the input width. */
  function MakeDepthwiseSeparable(a: LayerArgs, makeDivisible: MakeDivisible): (r: Result<Block>)
    requires ValidArgs(a)
    ensures a.midCh.Some? ==> r == Err(UnexpectedArgument("mid_channel"))
    ensures a.midCh.None? && Kernel(a) != 3 && Kernel(a) != 5 ==> r == Err(BadKernel(Kernel(a)))
    ensures r.Ok? ==> |r.value.convs| == 2
    ensures r.Ok? ==> r.value.convs[0] == CreateConv2d(a.inCh, a.inCh, Kernel(a), a.stride, a.padType, true)
    ensures r.Ok? ==> r.value.convs[1] == CreateConv2d(a.inCh, a.outCh, 1, 1, a.padType, false)
    ensures r.Ok? ==> r.value.se == SeUnit(a, a.inCh, makeDivisible)
  {
    if a.midCh.Some? then Err(UnexpectedArgument("mid_channel"))
    else if Kernel(a) != 3 && Kernel(a) != 5 then Err(BadKernel(Kernel(a)))
    else
      var convs := [CreateConv2d(a.inCh, a.inCh, Kernel(a), a.stride, a.padType, true),
                    CreateConv2d(a.inCh, a.outCh, 1, 1, a.padType, false)];
      Ok(Block(DepthwiseSeparable, a.inCh, a.outCh, convs, SeUnit(a, a.inCh, makeDivisible), HasResidual(a), a.dropPath))
  }

  /** InvertedResidualBlock: pointwise expansion to make_divisible(in * exp_ratio),
      a depthwise convolution carrying the stride, then a pointwise projection;
      squeeze-and-excitation on the expanded width, reduced from the input width. */
  function MakeInvertedResidual(a: LayerArgs, makeDivisible: MakeDivisible): (r: Result<Block>)
    requires ValidArgs(a)
    ensures a.midCh.Some? ==> r == Err(UnexpectedArgument("mid_channel"))
    ensures a.midCh.None? && Kernel(a) != 3 && Kernel(a) != 5 ==> r == Err(BadKernel(Kernel(a)))
    ensures r.Ok? ==> |r.value.convs| == 3
    ensures r.Ok? ==> var mid := makeDivisible(Times(a.inCh, ExpRatio(a)), None);
      r.value.convs == [CreateConv2d(a.inCh, mid, 1, 1, a.padType, false),
                        CreateConv2d(mid, mid, Kernel(a), a.stride, a.padType, true),
                        CreateConv2d(mid, a.outCh, 1, 1, a.padType, false)] &&
      r.value.se == SeUnit(a, mid, makeDivisible)
  {
    if a.midCh.Some? then Err(UnexpectedArgument("mid_channel"))
    else if Kernel(a) != 3 && Kernel(a) != 5 then Err(BadKernel(Kernel(a)))
    else
      var mid := makeDivisible(Times(a.inCh, ExpRatio(a)), None);
      var convs := [CreateConv2d(a.inCh, mid, 1, 1, a.padType, false),
                    CreateConv2d(mid, mid, Kernel(a), a.stride, a.padType, true),
                    CreateConv2d(mid, a.outCh, 1, 1, a.padType, false)];
      Ok(Block(InvertedResidual, a.inCh, a.outCh, convs, SeUnit(a, mid, makeDivisible), HasResidual(a), a.dropPath))
  }

  /** The expanded width of an edge-residual block: from mid_channel when it is
      positive, otherwise from the input width. */
  function EdgeMid(a: LayerArgs, makeDivisible: MakeDivisible): int
    requires ValidArgs(a)
  {
    var m := a.midCh.GetOr(0);
    if m > 0 then makeDivisible(Times(m, ExpRatio(a)), None)
    else makeDivisible(Times(a.inCh, ExpRatio(a)), None)
  }

  /** EdgeResidual: a full expansion convolution with the block's kernel at
      stride 1, then a pointwise projection carrying the stride. */
  function MakeEdgeResidual(a: LayerArgs, makeDivisible: MakeDivisible): (r: Result<Block>)
    requires ValidArgs(a)
    ensures r.Err? <==> Kernel(a) != 3 && Kernel(a) != 5
    ensures r.Err? ==> r.error == BadKernel(Kernel(a))
    ensures r.Ok? ==> var mid := EdgeMid(a, makeDivisible);
      r.value.convs == [CreateConv2d(a.inCh, mid, Kernel(a), 1, a.padType, false),
                        CreateConv2d(mid, a.outCh, 1, a.stride, a.padType, false)] &&
      r.value.se == SeUnit(a, mid, makeDivisible)
  {
    if Kernel(a) != 3 && Kernel(a) != 5 then Err(BadKernel(Kernel(a)))
    else
      var mid := EdgeMid(a, makeDivisible);
      var convs := [CreateConv2d(a.inCh, mid, Kernel(a), 1, a.padType, false),
                    CreateConv2d(mid, a.outCh, 1, a.stride, a.padType, false)];
      Ok(Block(EdgeResidual, a.inCh, a.outCh, convs, SeUnit(a, mid, makeDivisible), HasResidual(a), a.dropPath))
  }

  /** The expanded width of an edge-residual block depends on the input width
      only when mid_channel is not positive, and then it is the width an
      inverted-residual block with the same arguments expands to. */
  lemma EdgeMidWidth(a: LayerArgs, makeDivisible: MakeDivisible, inCh: int)
    requires ValidArgs(a)
    ensures a.midCh.Some? && a.midCh.value > 0 ==> EdgeMid(a, makeDivisible) == EdgeMid(a.(inCh := inCh), makeDivisible)
    ensures a.midCh.GetOr(0) <= 0 && Kernel(a) in {3, 5} ==>
      EdgeMid(a, makeDivisible) == MakeInvertedResidual(a.(midCh := None), makeDivisible).value.convs[0].outCh
  {
  }

  /** block_map[block_type](**layer_args): the constructor of the named kind,
      which keeps the kind, the widths, the drop-path rate and has_residual. */
  function MakeBlock(kind: BlockKind, a: LayerArgs, makeDivisible: MakeDivisible): (r: Result<Block>)
    requires ValidArgs(a)
    ensures r.Ok? <==> Accepts(kind, a)
    ensures r.Err? ==> r.error == (if a.midCh.Some? && kind != EdgeResidual then UnexpectedArgument("mid_channel") else BadKernel(Kernel(a)))
    ensures r.Ok? ==> r.value.kind == kind && r.value.inCh == a.inCh && r.value.outCh == a.outCh &&
                      r.value.dropPath == a.dropPath && (r.value.hasResidual <==> HasResidual(a))
  {
    match kind
    case DepthwiseSeparable => MakeDepthwiseSeparable(a, makeDivisible)
    case InvertedResidual => MakeInvertedResidual(a, makeDivisible)
    case EdgeResidual => MakeEdgeResidual(a, makeDivisible)
  }

  // ---------------------------------------------------------------------------
  // What every block satisfies

  /** The convolutions feed one another: the first reads the block's input
      width, each next one reads what the previous writes, the last writes the
      block's output width. */
  predicate Chained(convs: seq<Conv>, inCh: int, outCh: int)
  {
    |convs| >= 1 && convs[0].inCh == inCh && convs[|convs| - 1].outCh == outCh &&
    forall i :: 0 <= i < |convs| - 1 ==> convs[i].outCh == convs[i + 1].inCh
  }

  /** The product of the convolutions' strides. */
  function StrideProduct(convs: seq<Conv>): int
  {
    if convs == [] then 1 else convs[0].stride * StrideProduct(convs[1..])
  }

  /** Which argument combinations a block constructor accepts: mid_channel only
      for the edge-residual kind, and a kernel of 3 or 5. */
  predicate Accepts(kind: BlockKind, a: LayerArgs)
  {
    (kind == EdgeResidual || a.midCh.None?) && (Kernel(a) == 3 || Kernel(a) == 5)
  }

  /** The block rules shared by the three kinds. */
  lemma BlockRules(kind: BlockKind, a: LayerArgs, makeDivisible: MakeDivisible)
    requires ValidArgs(a)
    ensures MakeBlock(kind, a, makeDivisible).Ok? <==> Accepts(kind, a)
    ensures kind != EdgeResidual && a.midCh.Some? ==>
              MakeBlock(kind, a, makeDivisible) == Err(UnexpectedArgument("mid_channel"))
    ensures MakeBlock(kind, a, makeDivisible).Ok? ==>
      var b := MakeBlock(kind, a, makeDivisible).value;
      b.kind == kind && b.inCh == a.inCh && b.outCh == a.outCh && b.dropPath == a.dropPath &&
      (b.hasResidual <==> a.stride == 1 && a.inCh == a.outCh && !a.noskip) &&
      (b.se.Some? <==> a.seRatio.Some? && a.seRatio.value.num > 0) &&
      Chained(b.convs, a.inCh, a.outCh) &&
      StrideProduct(b.convs) == a.stride
  {
    var r := MakeBlock(kind, a, makeDivisible);
    if r.Ok? {
      var convs := r.value.convs;
      var n := |convs|;
      assert convs[n - 1..][1..] == [];
      assert StrideProduct(convs[n - 1..]) == convs[n - 1].stride;
      if n == 3 {
        assert convs[1..][1..] == convs[2..] == convs[n - 1..];
        assert StrideProduct(convs[1..]) == convs[1].stride * convs[2].stride;
      } else {
        assert convs[1..] == convs[n - 1..];
      }
    }
  }

  /** A block with a residual connection keeps the spatial size under every
      padding name but 'valid', so its input can be added to its output. */
  lemma ResidualKeepsSize(kind: BlockKind, a: LayerArgs, makeDivisible: MakeDivisible, x: int)
    requires ValidArgs(a) && MakeBlock(kind, a, makeDivisible).Ok?
    requires MakeBlock(kind, a, makeDivisible).value.hasResidual
    requires a.padType.PadName? && !IsMode(a.padType, "valid")
    ensures PositiveStrides(MakeBlock(kind, a, makeDivisible).value.convs)
    ensures Through(MakeBlock(kind, a, makeDivisible).value.convs, x) == x
  {
    var b := MakeBlock(kind, a, makeDivisible).value;
    var k := Kernel(a);
    assert a.stride == 1;
    forall c | c in b.convs ensures c.stride == 1 && !c.dynamic && ConvOut(c, x) == x {
    }
    ThroughKeeps(b.convs, x);
  }

  lemma {:induction false} ThroughKeeps(convs: seq<Conv>, x: int)
    requires forall c | c in convs :: c.stride == 1 && ConvOut(c, x) == x
    ensures PositiveStrides(convs)
    ensures Through(convs, x) == x
    decreases |convs|
  {
    if convs != [] {
      ThroughKeeps(convs[1..], x);
    }
  }

  lemma {:induction false} ThroughTwo(c0: Conv, c1: Conv, x: int)
    requires c0.stride >= 1 && c1.stride >= 1
    ensures PositiveStrides([c0, c1])
    ensures Through([c0, c1], x) == ConvOut(c1, ConvOut(c0, x))
  {
    assert [c0, c1][1..] == [c1];
    assert [c1][1..] == [];
    var y := ConvOut(c0, x);
    assert Through([c1], y) == Through([], ConvOut(c1, y));
  }

  lemma {:induction false} ThroughThree(c0: Conv, c1: Conv, c2: Conv, x: int)
    requires c0.stride >= 1 && c1.stride >= 1 && c2.stride >= 1
    ensures PositiveStrides([c0, c1, c2])
    ensures Through([c0, c1, c2], x) == ConvOut(c2, ConvOut(c1, ConvOut(c0, x)))
  {
    assert [c0, c1, c2][1..] == [c1, c2];
    ThroughTwo(c1, c2, ConvOut(c0, x));
  }

  /** Under 'same' padding every block yields ceil(x / stride) outputs along an axis. */
  lemma SameBlockOutput(kind: BlockKind, a: LayerArgs, makeDivisible: MakeDivisible, x: int)
    requires ValidArgs(a) && MakeBlock(kind, a, makeDivisible).Ok?
    requires IsMode(a.padType, "same") && a.stride >= 1
    ensures PositiveStrides(MakeBlock(kind, a, makeDivisible).value.convs)
    ensures Through(MakeBlock(kind, a, makeDivisible).value.convs, x) == Ceil(x, a.stride)
  {
    var convs := MakeBlock(kind, a, makeDivisible).value.convs;
    var k := Kernel(a);
    var y := Ceil(x, a.stride);
    assert Ceil(y, 1) == y && Ceil(x, 1) == x;
    match kind
    case DepthwiseSeparable =>
      SameConvOutput(a.padType, a.inCh, a.inCh, k, a.stride, true, x);
      SameConvOutput(a.padType, a.inCh, a.outCh, 1, 1, false, y);
      ThroughTwo(convs[0], convs[1], x);
      assert convs == [convs[0], convs[1]];
    case InvertedResidual =>
      var mid := convs[0].outCh;
      SameConvOutput(a.padType, a.inCh, mid, 1, 1, false, x);
      SameConvOutput(a.padType, mid, mid, k, a.stride, true, x);
      SameConvOutput(a.padType, mid, a.outCh, 1, 1, false, y);
      ThroughThree(convs[0], convs[1], convs[2], x);
    case EdgeResidual =>
      var mid := convs[0].outCh;
      SameConvOutput(a.padType, a.inCh, mid, k, 1, false, x);
      SameConvOutput(a.padType, mid, a.outCh, 1, a.stride, false, x);
      ThroughTwo(convs[0], convs[1], x);
  }
}
