# EfficientNet construction, modelled in Dafny

This project models how the vortex EfficientNet backbone is built, from
`vortex/networks/modules/backbones/efficientnet.py`. It covers the integer
and string logic that turns a table of block-definition strings
(`ir_r2_k5_s2_e6_c40_se0.25`, …) and the architecture parameters
(channel multiplier, depth multiplier, resolution, dropout) into a network
of configured blocks. Tensors, weights and forward passes are not modelled.
Each layer is a record holding:

- its kind;
- its input and output widths;
- its convolutions (widths, kernel, stride, groups, resolved padding);
- its squeeze-and-excitation unit;
- whether it has a residual connection;
- its drop-path rate.

The modules follow the source:

- **Base**: shared pieces. These are option and result types, the error
  kinds (which follow the exceptions the source raises, in the order it
  raises them), exact rationals, ceiling division, Python's
  round-half-to-even, and sums.
- **Numerals**: the `int()` and `float()` casts the block decoder applies to
  value text. Decimals are kept exactly as a mantissa and a scale.
- **Padding**: `get_padding`, `get_same_padding` and the split of the
  asymmetric padding in `pad_same`, with the convolution output length they
  produce.
- **Decoder**: `_decode_str_def`. A block string is split on `_`. Each token
  is cut at its first digit, its key is looked up in the key table, and the
  value is cast. A missing `r` key is rejected. An encoder for the same
  records shows that decoding inverts it.
- **DepthScaler**: `_scale_stage_depth` (the reverse greedy redistribution of
  repeat counts) and `_decode_block_def`.
- **Blocks**: `create_conv2d`, `SqueezeExcite` and the three block
  constructors `DepthwiseSeparableConv`, `InvertedResidualBlock` and
  `EdgeResidual`, as configuration records.
- **Assembly**: `_make_blocks` and `_make_layer` as functions of the decoded
  stages and the builder's running state. This covers the stride check, the
  stride-1 rule after a stage's first block, channel chaining and the
  per-layer drop-path rate.
- **Network**: the `EfficientNet` class. Its fields are the running input
  width, the layer index and count, the list of output widths, the stem and
  head convolutions and the stages. Its methods run the decoding, scaling
  and assembly loops and are proved to compute what the functions above
  describe. `Construct` states the whole constructor as a function of its
  arguments.
- **Backbone**: the table of supported variants, the three block-definition
  families, `_create_model`, `_efficientnet_stages` (the five feature stages
  and their widths) and `get_backbone`.

`round_channels` and `make_divisible` live in `vortex/networks/modules/utils/arch_utils`.
That file is not part of this model, so both are taken as function
parameters and no rounding rule is assumed for them.

## Model

| member | source | states |
|---|---|---|
| Base.RoundHalfEven | vortex/networks/modules/backbones/efficientnet.py:427 | Python's round of a/b is the floor or one above it. It goes up only when the remainder is at least half, and stays down only when the remainder is at most half. |
| Padding.Lower | vortex/networks/modules/backbones/efficientnet.py:57 | The mode string is lower-cased character by character: exactly the ASCII capitals move by 32, every other character is kept, and the length is unchanged. |
| Padding.GetPadding | vortex/networks/modules/backbones/efficientnet.py:54-74 | The full mode table, with the mode compared case-insensitively. 'same' is dynamic exactly when not (stride 1 and dilation*(kernel-1) even). A dynamic result pads 0. Static 'same' pads half of dilation*(kernel-1). 'valid' gives (0, static). Any other name gives ((stride-1)+dilation*(kernel-1)) div 2. A numeric padding passes through unchanged and static. |
| Padding.StaticSameKeepsLength | vortex/networks/modules/backbones/efficientnet.py:58-63 | When 'same' resolves statically at stride 1, the convolution output length equals the input length. |
| Padding.GetSamePadding | vortex/networks/modules/backbones/efficientnet.py:90-95 | The padding is never negative. When it is positive it equals (ceil(x/s)-1)*s + (k-1)*d + 1 - x. |
| Padding.SamePaddingOutputLength | vortex/networks/modules/backbones/efficientnet.py:90-95 | With the computed padding, the convolution output length is exactly ceil(x/s). When the padding is positive, one less would give a shorter output, so the padding is the least that reaches ceil(x/s). |
| Padding.SplitPad | vortex/networks/modules/backbones/efficientnet.py:105 | pad div 2 leads and the rest trails. The two parts sum to pad, and the trailing part exceeds the leading part by pad mod 2, which is 0 or 1. |
| Padding.PadSame | vortex/networks/modules/backbones/efficientnet.py:98-106 | No padding is applied exactly when both axes need none. Otherwise left+right and top+bottom are the two axes' same-paddings, each split with the trailing side larger by at most 1. |
| Padding.Conv2dSameOutputSize | vortex/networks/modules/backbones/efficientnet.py:98-112 | A convolution padded by pad_same produces ceil(h/sh) by ceil(w/sw) outputs. |
| Padding.SplitOutputLength | vortex/networks/modules/backbones/efficientnet.py:105 | The output length depends only on the total padding, not on how it is split between the edges. |
| Padding.SevenByKernelThreeStrideTwo | vortex/networks/modules/backbones/efficientnet.py:90-106 | Worked case: x=7, k=3, s=2, d=1 needs padding 2, split 1/1 on both axes. |
| Numerals.ParseInt | vortex/networks/modules/backbones/efficientnet.py:398-403 | int() of the value text succeeds exactly when the text is a non-empty string of ASCII digits. |
| Numerals.ParseIntOfString | vortex/networks/modules/backbones/efficientnet.py:416 | Casting the decimal numeral of n back with int() gives n. |
| Numerals.NatToStringRoundTrip | vortex/networks/modules/backbones/efficientnet.py:416 | The digits written for n have the value n. |
| Numerals.DecimalRoundTrip | vortex/networks/modules/backbones/efficientnet.py:416 | float() of the text written for an exact decimal gives back that decimal. |
| Numerals.ParsePointed | vortex/networks/modules/backbones/efficientnet.py:416 | float() of digits, a point and digits is the decimal whose mantissa is all the digits and whose scale is the number of fraction digits. |
| Numerals.ParseDecimal | vortex/networks/modules/backbones/efficientnet.py:416 | Text without a point parses exactly when it is a non-empty digit string, and then to that integer at scale 0. The scale is always less than the length of the text. |
| Numerals.Find | vortex/networks/modules/backbones/efficientnet.py:416 | Returns the index of the first occurrence of the character, or None exactly when it does not occur. |
| Decoder.Split | vortex/networks/modules/backbones/efficientnet.py:396 | str.split on one character: at least one piece, and no piece contains the separator. |
| Decoder.SplitJoin | vortex/networks/modules/backbones/efficientnet.py:396 | Joining the pieces of a split with the separator gives back the string. |
| Decoder.JoinSplit | vortex/networks/modules/backbones/efficientnet.py:396 | Splitting a join of separator-free pieces gives back the pieces. |
| Decoder.SplitNoSep | vortex/networks/modules/backbones/efficientnet.py:396 | A string without the separator splits into itself alone. |
| Decoder.KeyTable | vortex/networks/modules/backbones/efficientnet.py:397-405 | Every field has a key, and looking up that key finds the field. |
| Decoder.FieldOfKey | vortex/networks/modules/backbones/efficientnet.py:397-415 | A key the table knows maps to a field whose key is that key. |
| Decoder.Cast | vortex/networks/modules/backbones/efficientnet.py:398-416 | A successful cast yields a decimal for the two float fields (exp_ratio, se_ratio) and an integer for the others. |
| Decoder.Set | vortex/networks/modules/backbones/efficientnet.py:416 | Storing a field makes it read back and leaves every other field, the block type and the flag unchanged. |
| Decoder.FirstDigit | vortex/networks/modules/backbones/efficientnet.py:413 | Finds the first digit: no digit before it, or None exactly when the token has no digit. |
| Decoder.Line | vortex/networks/modules/backbones/efficientnet.py:413 | The value captured by `(\d.*)` is a prefix of the rest of the token and holds no newline. It is the whole rest, or it stops exactly at the first newline. |
| Decoder.SplitAtDigit | vortex/networks/modules/backbones/efficientnet.py:413-414 | None exactly when the token has no digit. Otherwise the key is the digit-free part before the first digit, and the value is the captured line from that digit on, so it starts with a digit. |
| Decoder.ReadToken | vortex/networks/modules/backbones/efficientnet.py:410-416 | A token is the noskip flag exactly when it is 'noskip'. A token that assigns a field assigns a value of the field's type. |
| Decoder.ReadTokenCases | vortex/networks/modules/backbones/efficientnet.py:410-416 | A token other than 'noskip' without a digit fails with NoDigit. A key outside the table fails with UnknownKey. A value the field's cast rejects fails with BadNumber. An assignment names the field of the token's key and holds the cast of its value text. Conversely, a token with a digit, a known key and a value the cast accepts is always read as that assignment. |
| Decoder.DecodeStrDef | vortex/networks/modules/backbones/efficientnet.py:394-419 | The loop over tokens, filling the argument record, returns exactly the decoding function's result, errors included. |
| Decoder.Decode | vortex/networks/modules/backbones/efficientnet.py:394-419 | A decoded record has a repeat count and the first piece as its block type. noskip holds exactly when a later piece is 'noskip'. |
| Decoder.ApplyTokensOk | vortex/networks/modules/backbones/efficientnet.py:407-417 | After a successful pass the block type is kept. noskip is set exactly when it was set before or the flag token occurs. Each field holds the value of its last assignment, or its old value when it is never assigned. |
| Decoder.ApplyTokensErr | vortex/networks/modules/backbones/efficientnet.py:409-416 | The pass fails exactly when some token is bad: no digit, or an unknown key, or a value the cast rejects. |
| Decoder.DecodeOk | vortex/networks/modules/backbones/efficientnet.py:394-419 | A decoded record has the first token as block type. noskip holds exactly when a later token is 'noskip'. repeat is present. Every field is the last value assigned to it. |
| Decoder.DecodeFails | vortex/networks/modules/backbones/efficientnet.py:409-418 | Decoding fails exactly when a later token is bad or no token assigns 'r'. |
| Decoder.ReadWrittenPiece | vortex/networks/modules/backbones/efficientnet.py:413-416 | A key followed by the written value reads back as that field and value. |
| Decoder.ApplyAppend | vortex/networks/modules/backbones/efficientnet.py:409-416 | Applying two token lists in a row is applying the first, then the second unless the first failed. |
| Decoder.ApplyWritten | vortex/networks/modules/backbones/efficientnet.py:409-416 | Applying the written tokens for a list of fields copies exactly those fields into the record. |
| Decoder.CopyFields | vortex/networks/modules/backbones/efficientnet.py:409-416 | Each listed field that is present is copied over. Every other field, the block type and the flag are kept. |
| Decoder.EncodeDecode | vortex/networks/modules/backbones/efficientnet.py:394-419 | Every record with a repeat count and an underscore-free block type decodes back from its encoding. |
| DepthScaler.ScaleFromFails | vortex/networks/modules/backbones/efficientnet.py:423-431 | The reverse walk fails exactly when the first substage's repeat count is 0, which is when the remaining raw total reaches 0 and Python divides by zero. |
| DepthScaler.ScaleFrom | vortex/networks/modules/backbones/efficientnet.py:423-431 | The reverse walk gives one count per substage. Its only error is ZeroRepeats. |
| DepthScaler.ScaleFromShape | vortex/networks/modules/backbones/efficientnet.py:425-431 | One scaled count per substage, and every count is at least 1. |
| DepthScaler.ScaleRepeats | vortex/networks/modules/backbones/efficientnet.py:421-431 | Scaling fails, with ZeroRepeats, exactly when the first substage's count is 0. Otherwise it gives one count per substage, each at least 1. |
| DepthScaler.ScaleFromExact | vortex/networks/modules/backbones/efficientnet.py:423-431 | When every repeat count is at least 1 and the scaled budget is at least the raw total, the scaled counts sum exactly to the budget. |
| DepthScaler.ShareFits | vortex/networks/modules/backbones/efficientnet.py:427 | The rounded share of one substage leaves at least one unit of budget per remaining raw repeat. |
| DepthScaler.BudgetAtLeastSum | vortex/networks/modules/backbones/efficientnet.py:424 | With a depth multiplier of at least 1, ceil(sum*d) is at least the raw sum. |
| DepthScaler.ScaleRepeatsTotal | vortex/networks/modules/backbones/efficientnet.py:421-436 | For d >= 1 and every r_i >= 1, scaling succeeds and the scaled repeats sum exactly to ceil(sum(r_i)*d). |
| DepthScaler.ShrinkingOvershoots | vortex/networks/modules/backbones/efficientnet.py:424-428 | For d < 1 the exact total is not kept. Repeats [1, 1] at d = 1/2 have budget 1 but scale to [1, 1]. |
| DepthScaler.ScaleFromIdentity | vortex/networks/modules/backbones/efficientnet.py:423-431 | With the budget equal to the raw total, every substage keeps its count. |
| DepthScaler.ScaleSingle | vortex/networks/modules/backbones/efficientnet.py:421-431 | A single substage scales to max(1, ceil(r*d)). |
| DepthScaler.Copies | vortex/networks/modules/backbones/efficientnet.py:435 | k copies of the record, none when k is not positive. |
| DepthScaler.ExpandShape | vortex/networks/modules/backbones/efficientnet.py:433-436 | The expanded stage has as many entries as the counts sum to. Record i fills exactly the counts[i] slots after the slots of the records before it, so the records appear in substage order, each repeated its own count. Each entry is one of the substage records. |
| DepthScaler.ExpandAppend | vortex/networks/modules/backbones/efficientnet.py:434-435 | Expanding two record lists one after the other gives the expansion of their concatenation. |
| DepthScaler.ExpandSplit | vortex/networks/modules/backbones/efficientnet.py:434-435 | The expansion is the records before i, then counts[i] copies of record i, then the records after it. |
| DepthScaler.ExpandSlot | vortex/networks/modules/backbones/efficientnet.py:434-435 | Every slot in record i's run of slots holds record i. |
| DepthScaler.ScaleStage | vortex/networks/modules/backbones/efficientnet.py:421-436 | A scaled stage fails, with ZeroRepeats, exactly when the first count is 0. Otherwise, when there is one count per record, each record is repeated its scaled count of times, in substage order, and there are as many records as the scaled counts sum to. |
| DepthScaler.ScaleStageLength | vortex/networks/modules/backbones/efficientnet.py:421-436 | For d >= 1 and every r_i >= 1, the scaled stage has exactly ceil(sum(r_i)*d) blocks. |
| DepthScaler.DecodeAll | vortex/networks/modules/backbones/efficientnet.py:387 | Decoding a stage's strings succeeds exactly when every string decodes. It then gives one record per string, each the decoding of its string. |
| DepthScaler.DecodeAllFirstError | vortex/networks/modules/backbones/efficientnet.py:387 | When string k is the first that fails to decode, the stage fails with that string's error. |
| DepthScaler.Repeats | vortex/networks/modules/backbones/efficientnet.py:388 | The repeat count popped from each record, in order. |
| DepthScaler.Popped | vortex/networks/modules/backbones/efficientnet.py:388 | Each record with its repeat key removed. |
| DepthScaler.DecodeStageShape | vortex/networks/modules/backbones/efficientnet.py:385-391 | An exempt stage keeps one record per string. No record of a decoded stage still has a repeat key. |
| DepthScaler.DecodeStageOk | vortex/networks/modules/backbones/efficientnet.py:385-391 | A stage decodes exactly when all its strings decode and, unless it is exempt, its first record's repeat count is positive. A stage whose strings all decode can fail only with ZeroRepeats. |
| DepthScaler.DecodeStagesStep | vortex/networks/modules/backbones/efficientnet.py:385-391 | The decoded stages begin with the decoding of stage idx, with the exemption for first and last stages, followed by the decoding of the rest. |
| DepthScaler.DecodeStagesShape | vortex/networks/modules/backbones/efficientnet.py:381-392 | One decoded stage per stage definition. Every exempt first or last stage keeps its record count. No record has a repeat key. |
| DepthScaler.DecodeStagesOk | vortex/networks/modules/backbones/efficientnet.py:381-392 | Decoding stages idx onward succeeds exactly when each of them decodes under its first/last exemption. |
| DepthScaler.DecodeBlocks | vortex/networks/modules/backbones/efficientnet.py:381-392 | _decode_block_def succeeds exactly when every stage decodes under its exemption. It then gives one stage per definition, no record keeps a repeat key, and an exempt stage keeps its record count. |
| Blocks.BlockKindOf | vortex/networks/modules/backbones/efficientnet.py:460-464 | 'ds', 'ir' and 'er' map to their block kinds. Every other name is unknown. |
| Blocks.Times | vortex/networks/modules/backbones/efficientnet.py:289-291 | The exact product of a width and a ratio. |
| Blocks.CreateConv2d | vortex/networks/modules/backbones/efficientnet.py:77-84 | The convolution keeps the widths, kernel and stride. Its groups are the input width exactly when it is depthwise, and 1 otherwise. Its padding and dynamic flag are what get_padding resolves at dilation 1. |
| Blocks.ConvKeepsLength | vortex/networks/modules/backbones/efficientnet.py:58-84 | An odd kernel at stride 1, with any named padding other than 'valid', resolves statically and keeps the length. |
| Blocks.SameConvOutput | vortex/networks/modules/backbones/efficientnet.py:58-106 | A 'same' convolution with an odd kernel maps length x to ceil(x/stride), statically or through the dynamic padding. |
| Blocks.MakeSqueezeExcite | vortex/networks/modules/backbones/efficientnet.py:128-137 | The unit keeps the channel width and reduces to make_divisible((reduced_base or channels) * ratio, 1). |
| Blocks.MakeDepthwiseSeparable | vortex/networks/modules/backbones/efficientnet.py:148-183 | mid_channel is rejected as an unexpected argument, then a kernel other than 3 or 5. Otherwise a depthwise convolution carries the kernel and stride, followed by a pointwise convolution to the output width, with squeeze-excitation on the input width. |
| Blocks.MakeInvertedResidual | vortex/networks/modules/backbones/efficientnet.py:203-246 | mid_channel is rejected, then a bad kernel. Otherwise: pointwise expansion to make_divisible(in*exp_ratio), a depthwise convolution carrying the stride, a pointwise projection, and squeeze-excitation on the expanded width. |
| Blocks.MakeEdgeResidual | vortex/networks/modules/backbones/efficientnet.py:274-309 | Fails exactly on a kernel other than 3 or 5. Otherwise: a full expansion convolution with the kernel at stride 1 to the mid width, then a pointwise projection carrying the stride. The mid width comes from mid_channel when positive, else from the input width. |
| Blocks.EdgeMidWidth | vortex/networks/modules/backbones/efficientnet.py:288-291 | A positive mid_channel alone fixes the expanded width, whatever the input width. Without one, the width is the inverted-residual expansion of the input width. |
| Blocks.BlockRules | vortex/networks/modules/backbones/efficientnet.py:161-285 | For all three kinds: construction succeeds exactly when the kind accepts the arguments. There is a residual connection exactly when stride 1, in == out and not noskip. Squeeze-excitation is present exactly when se_ratio is given and positive. The convolutions chain from the input to the output width. Their strides multiply to the block's stride. |
| Blocks.MakeBlock | vortex/networks/modules/backbones/efficientnet.py:460-477 | A block is built exactly when its kind accepts the arguments. Otherwise the error is mid_channel as an unexpected argument for a kind other than edge-residual, else the bad kernel. The block keeps its kind, widths and drop-path rate, and has a residual exactly when stride 1, in == out and not noskip. |
| Blocks.ResidualKeepsSize | vortex/networks/modules/backbones/efficientnet.py:164-285 | A block with a residual connection keeps the spatial size under named padding, so the skip can be added. |
| Blocks.SameBlockOutput | vortex/networks/modules/backbones/efficientnet.py:148-309 | Under 'same' padding every block maps length x to ceil(x/stride). |
| Assembly.DropRateBounds | vortex/networks/modules/backbones/efficientnet.py:465 | The first layer drops nothing. Every rate stays below a positive global rate and is never negative. A zero global rate gives zero everywhere. |
| Assembly.ToLayerArgs | vortex/networks/modules/backbones/efficientnet.py:466-474 | The block's input width is the running width and its output width is round_channels(out_channel). Kernel, stride, se_ratio, exp_ratio, noskip and the drop-path rate are passed on. mid_channel is rounded when present. The padding type is the global one. |
| Assembly.PrepareArgs | vortex/networks/modules/backbones/efficientnet.py:449-451 | Accepted exactly when the stride is 1 or 2. A stage's first block keeps its stride, every later block gets stride 1, and nothing else changes. |
| Assembly.MakeLayer | vortex/networks/modules/backbones/efficientnet.py:458-481 | A missing out_channel is reported first, then an unknown block type. A made layer reads the width it is given. |
| Assembly.MakeLayerRules | vortex/networks/modules/backbones/efficientnet.py:458-481 | A made layer has the kind its block type names and the rounded output width. It has its layer's drop-path rate and the record's stride as its convolutions' stride product. It has a residual exactly when stride 1, in == out and not noskip, and squeeze-excitation exactly when se_ratio is given and positive. |
| Assembly.StageFrom | vortex/networks/modules/backbones/efficientnet.py:445-455 | A stage yields one block per record and advances the layer index by the stage length. |
| Assembly.MakeLayerAccepts | vortex/networks/modules/backbones/efficientnet.py:449-481 | A record becomes a layer exactly when it passes LayerAccepted. That means a stride of 1 or 2, an output width, a known block type, and arguments the block constructor accepts. |
| Assembly.StageFromFails | vortex/networks/modules/backbones/efficientnet.py:445-455 | A stage assembles exactly when every one of its records is accepted. |
| Assembly.StageFromShape | vortex/networks/modules/backbones/efficientnet.py:445-480 | Each block of an assembled stage has its record's block kind and rounded output width, stride 1 after the first, and the drop-path rate of its layer index. It has a residual exactly when its stride is 1, in == out and not noskip, and squeeze-excitation exactly when se_ratio is positive. It reads the previous block's output width. The width handed on is the last block's output. |
| Assembly.StageFromLayer | vortex/networks/modules/backbones/efficientnet.py:445-481 | The block an assembled stage holds for record p is exactly what _make_layer builds from that record, as prepared for its position, at its layer index. |
| Assembly.MakeLayerPlaced | vortex/networks/modules/backbones/efficientnet.py:458-481 | A made layer sits in its place: it reads the running width and has its layer's drop-path rate. |
| Assembly.LayerCountAppend | vortex/networks/modules/backbones/efficientnet.py:442 | The layer count of two stage lists together is the sum of their counts. |
| Assembly.StagesFromShape | vortex/networks/modules/backbones/efficientnet.py:438-456 | One block list and one output width per stage. The layer index ends at the total layer count. The width handed on is the last stage's exit width. |
| Assembly.StagesFromFails | vortex/networks/modules/backbones/efficientnet.py:438-456 | Assembly succeeds exactly when every record of every stage is accepted. |
| Assembly.StagesFromDecompose | vortex/networks/modules/backbones/efficientnet.py:445-455 | Every assembled stage, from stage i on, is placed from the width the previous stage handed on, starting at its layer offset. |
| Assembly.AssembleBlocksOk | vortex/networks/modules/backbones/efficientnet.py:438-456 | _make_blocks succeeds exactly when every record of every stage is accepted. It then gives one block list and one exit width per stage, ends at the total layer count, and hands on the last stage's exit width (the stem width when there are no stages). |
| Network.ConstructPlaced | vortex/networks/modules/backbones/efficientnet.py:333-456 | A constructed network decodes its block definition into one stage per definition. Each stage is placed from the width listed before it. |
| Network.AssembledNetPlaced | vortex/networks/modules/backbones/efficientnet.py:356-456 | Assembled stages, listed after the stem width, make a placed network. |
| Network.PlacedWiring | vortex/networks/modules/backbones/efficientnet.py:441-479 | Channel chaining: a stage's first block reads the width listed before the stage, every later block reads its predecessor's output, and each stage appends its exit width. |
| Network.ConstructWiring | vortex/networks/modules/backbones/efficientnet.py:343-370 | One stage per definition. out_channels holds the stem width, one width per stage, then num_features and num_classes. The stem is a 3x3 stride-2 convolution from in_channel to the (possibly rounded) stem width. The head reads the last stage's width and writes num_features. |
| Network.PlacedStrides | vortex/networks/modules/backbones/efficientnet.py:449-451 | Every record has stride 1 or 2. A stage's first block strides by its record's stride and every later block by 1. |
| Network.PlacedBlockRules | vortex/networks/modules/backbones/efficientnet.py:449-481 | In a placed network every block has the kind its record names. It has a residual exactly when it is not first in its stage or its record's stride is 1, in == out, and noskip is not set. It has squeeze-excitation exactly when se_ratio is positive. |
| Network.BlockDropPath | vortex/networks/modules/backbones/efficientnet.py:442-465 | The block at layer position i (counted across stages) has drop-path rate rate*i/total_layers, with i < total_layers. |
| Network.PlacedNoDropPath | vortex/networks/modules/backbones/efficientnet.py:937-939 | A zero drop_path_rate leaves every block's drop-path rate at zero. |
| Network.ConstructAccepts | vortex/networks/modules/backbones/efficientnet.py:333-481 | Construction succeeds exactly when the block definition decodes and every decoded record is accepted. |
| Network.ConstructLayer | vortex/networks/modules/backbones/efficientnet.py:438-481 | Block k of stage m of a constructed network is exactly what _make_layer builds from record k of decoded stage m, at layer index LayerCount(stages[..m]) + k. |
| Network.EfficientNet.constructor | vortex/networks/modules/backbones/efficientnet.py:333-342 | Keeps the arguments and starts with an empty network. |
| Network.EfficientNet.Build | vortex/networks/modules/backbones/efficientnet.py:333-370 | Running the constructor fails with exactly Construct's error, or leaves fields equal to the constructed network. After a successful construction in_channel is the width the head reads, total_layers is the decoded layer count and layer_idx equals it. |
| Network.EfficientNet.ScaleRepeatCounts | vortex/networks/modules/backbones/efficientnet.py:422-431 | The reverse loop that decrements the raw and scaled remainders computes the scaled repeats, errors included. |
| Network.EfficientNet.ScaleStageDepth | vortex/networks/modules/backbones/efficientnet.py:421-436 | Scales the repeats, then extends the stage with copies of each record, as ScaleStage describes. |
| Network.EfficientNet.DecodeStrings | vortex/networks/modules/backbones/efficientnet.py:387 | The comprehension over a stage's strings decodes them all or fails with the first error. |
| Network.EfficientNet.PopRepeats | vortex/networks/modules/backbones/efficientnet.py:388 | Pops each record's repeat count, leaving the records without it. |
| Network.EfficientNet.DecodeStageStrings | vortex/networks/modules/backbones/efficientnet.py:385-391 | Decodes, pops and, unless exempt, scales one stage. |
| Network.EfficientNet.DecodeBlockDef | vortex/networks/modules/backbones/efficientnet.py:381-392 | The loop over stage definitions computes the decoded stages, exempting first and last when fix_first_last is set. |
| Network.EfficientNet.MakeLayer | vortex/networks/modules/backbones/efficientnet.py:458-481 | Makes the layer from the running width and index. On success the running width becomes the layer's output and the index advances by one. On failure both are unchanged. Every other field is kept. |
| Network.EfficientNet.MakeStage | vortex/networks/modules/backbones/efficientnet.py:445-455 | The inner loop assembles a stage as StageFrom does and leaves the running width and index where it does. |
| Network.EfficientNet.MakeBlocks | vortex/networks/modules/backbones/efficientnet.py:438-456 | Decodes the block definition and assembles its stages. A decoding error is returned as is. Otherwise out_channels grows by one exit width per stage, total_layers is the decoded layer count and layer_idx ends equal to it. |
| Network.EfficientNet.MakeStages | vortex/networks/modules/backbones/efficientnet.py:441-455 | The stage loop over decoded stages is the stage assembly: same blocks, final width and exit widths appended to out_channels. total_layers is the record count and layer_idx ends equal to it. Fields outside the loop's state are unchanged. |
| Backbone.LookupFinds | vortex/networks/modules/backbones/efficientnet.py:21-48 | A name is found exactly when it is a supported model name, and the variant found carries that name. |
| Backbone.FamilyBlockDef | vortex/networks/modules/backbones/efficientnet.py:549-630 | The edge family defines six stages and the others seven, each with one block string. |
| Backbone.Globals | vortex/networks/modules/backbones/efficientnet.py:558-638 | Channel divisor 8, no channel minimum, 'same' padding, and the given drop-path rate. |
| Backbone.ModelConfig | vortex/networks/modules/backbones/efficientnet.py:507-645 | The family's block definition and globals, with drop_path_rate replaced by any override. The variant's architecture parameters. num_classes is 1000 when pretrained. Input 3 and stem 32. Lite fixes the stem, the end stages and a 1280-wide head. |
| Backbone.BlockChannels | vortex/networks/modules/backbones/efficientnet.py:902 | out_channels[1:-2]: the stage widths without the stem and the two head entries. |
| Backbone.Stages | vortex/networks/modules/backbones/efficientnet.py:902-913 | The partition fails with an index error when there are fewer than five stage widths. Otherwise it fails exactly when the stage count is not 6 or 7. |
| Backbone.StagesPartition | vortex/networks/modules/backbones/efficientnet.py:904-929 | Five non-empty feature stages that together hold every network stage in order, with the stem only in the first. |
| Backbone.StagesWidths | vortex/networks/modules/backbones/efficientnet.py:902-903 | Five widths, each the width listed after the stages its feature stage ends with. |
| Backbone.SplitChannels | vortex/networks/modules/backbones/efficientnet.py:902-929 | Each feature stage's width is the exit width of its last network stage. |
| Backbone.BackboneConfig | vortex/networks/modules/backbones/efficientnet.py:937-940 | get_backbone builds the variant with drop_path_rate overridden to 0, from a 6- or 7-stage definition. |
| Backbone.BuildFeaturesOutcome | vortex/networks/modules/backbones/efficientnet.py:940-949 | A construction error is passed on. A built network always partitions. The result fails exactly on a feature type other than 'tri_stage_fpn' or 'classifier'. |
| Backbone.BuildFeatures | vortex/networks/modules/backbones/efficientnet.py:940-949 | Construction and partition errors are passed on. A result holds the constructed network and its partition. Its kind is the feature pyramid for 'tri_stage_fpn' and the classifier otherwise. It succeeds exactly when both steps succeed and the feature type is one of the two. |
| Backbone.GetBackboneChecks | vortex/networks/modules/backbones/efficientnet.py:932-950 | For a supported name the variant found carries that name, and the result is that of building its features with drop-path 0. |
| Backbone.GetBackbone | vortex/networks/modules/backbones/efficientnet.py:932-936 | A name outside supported_models is rejected with UnsupportedModel, whatever else is passed. A returned backbone always has a supported name. |
| Backbone.BuildFeaturesNetwork | vortex/networks/modules/backbones/efficientnet.py:940-950 | The backbone's network is the constructed one with one stage per definition. With a zero drop-path rate every block's rate is zero. Each of the five widths is the exit width of the last stage of its feature stage. |
| Backbone.GetBackboneNetwork | vortex/networks/modules/backbones/efficientnet.py:932-950 | A returned backbone comes from a supported variant, has every drop-path rate zero, has five stage widths, has a 1280-wide head for Lite, and ends in num_classes (1000 when pretrained). |

## Left out

- Tensor work is not modelled. This covers torch layers, batch norm, activations, squeeze-excitation gating, DropPath, `F.pad` and every `forward`. Blocks are configuration records, and `Conv2dSame` is kept only as its padding arithmetic.
- `round_channels` and `make_divisible` are function parameters with no rounding rule, because their file is not part of this model.
- Pretrained weights are not modelled. This covers `model_urls` as URLs, `load_state_dict_from_url`, `load_state_dict` and `reset_classifier` (network I/O and external state). Only the num_classes choice of `_create_model` is kept.
- The `eval` dispatch of `get_backbone` is a static lookup of name to family and architecture parameters.
- `Backbone` and `ClassifierFeature` come from a file that is not part of this model. The result records only the feature type, the stages and the network.
- `act_layer`, `norm_kwargs`, the dropout layer and the classifier layer carry no construction logic beyond their widths, and are not modelled.
- `vortex/networks/modules/preprocess/normalizer.py` is float tensor normalisation and is not part of this model.
- `tests/test_darknet53.py` tests an unrelated network's forward shape and is not part of this model.
- Multipliers and rates are exact rationals, and decoded float values are exact decimals. Python's binary floats may round differently at boundaries.
- Numerals.ParseInt and Numerals.ParseDecimal accept only ASCII digits (with one point for float). Python's casts also accept surrounding whitespace, signs, underscores, exponents and non-ASCII digits, and `\d` in the token regex matches non-ASCII digits too.
- A dictionary-valued `override_params` is reduced to an optional drop-path rate, which is the only override `get_backbone` passes.
- The `isinstance` assertions on the argument types are not modelled, because the Dafny types already guarantee them.
- The argument records are values, so the in-place writes to `args`, the `deepcopy` of repeated records and the aliasing they avoid are not modelled.
- After an exception, the builder's fields are unspecified (Python leaves the half-built object unreachable).
- Backbone.ModelConfig: the keyword arguments that `_create_model` forwards to `EfficientNet` are not inputs of the model. in_channel and stem_size are fixed at their defaults 3 and 32, and fix_stem, num_features and fix_block_first_last follow the family. `progress` only affects the weight download.
- Backbone.GetBackbone: extra keyword arguments are not forwarded, so the network is always built with the defaults that Backbone.ModelConfig fixes.
- Padding.Lower: lowers ASCII capitals only. Python's `str.lower` also maps non-ASCII capitals such as 'İ' or the Kelvin sign, which padding names do not contain.
- Network.Construct, Assembly.StagesFrom, Assembly.AssembleBlocks, Blocks.EdgeMid: these functions carry no contract of their own. Their properties are stated by the lemmas about them (Network.ConstructWiring, Network.ConstructPlaced, Assembly.StagesFromShape, Assembly.AssembleBlocksOk, Blocks.EdgeMidWidth).
- Network.EfficientNet.Build: `__init__` is split into a constructor that stores the arguments and a method that builds, because a Dafny constructor cannot fail with an error value.

## Notes on the source

- The worked padding case x=7, k=3, s=2, d=1 gives padding 2, split 1/1 (Padding.SevenByKernelThreeStrideTwo).
- The exact total of the depth scaler holds only for a depth multiplier of at least 1. For smaller multipliers the `max(1, …)` floor can overshoot the budget (DepthScaler.ShrinkingOvershoots).
- `_efficientnet_stages` requires exactly 6 or 7 stages.
- A repeat count of 0 in a stage's first substage makes `_scale_stage_depth` divide by zero. It is modelled as an error (DepthScaler.ScaleFromFails).
