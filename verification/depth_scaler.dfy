/** Depth scaling of one stage (EfficientNet._scale_stage_depth) and the
    decoding of a whole block definition (EfficientNet._decode_block_def).
    The repeat counts of a stage's block strings are scaled together: the
    stage's total is multiplied by the depth multiplier and rounded up, and
    that budget is shared out from the last block string backwards, each one
    taking its proportional share rounded half to even, but never less than
    one. Every block string is then repeated as many times as its share. */
module DepthScaler {
  import opened Base
  import opened Decoder

  // ---------------------------------------------------------------------------
  // Sharing out the scaled repeat budget

  /** max(1, round(r / total * budget)), a block string's share of the budget. */
  function Share(r: int, budget: int, total: int): int
    requires total > 0
  {
    Max(1, RoundHalfEven(r * budget, total))
  }

  /** The shares of the prefix p when `budget` repeats remain for it: the last
      element takes max(1, round(r / sum(p) * budget)) and the rest of the
      prefix shares what is left. A prefix whose sum is zero cannot be divided
      by (ZeroDivisionError). */
  function ScaleFrom(p: seq<nat>, budget: int): (r: Result<seq<int>>)
    ensures r.Ok? ==> |r.value| == |p|
    ensures r.Err? ==> r.error == ZeroRepeats
    decreases |p|
  {
    if p == [] then Ok([])
    else
      var n := |p|;
      var total := Sum(p);
      SumNonNegative(p);
      if total == 0 then Err(ZeroRepeats)
      else
        var share := Share(p[n - 1], budget, total);
        match ScaleFrom(p[..n - 1], budget - share)
        case Err(e) => Err(e)
        case Ok(front) => Ok(front + [share])
  }

  /** The budget of a stage: ceil(sum(repeats) * depth multiplier). */
  function Budget(repeats: seq<nat>, depth: Rat): int
    requires depth.Valid()
  {
    Ceil(Sum(repeats) * depth.num, depth.den)
  }

  /** The scaled repeat counts of one stage: one count of at least one per
      block string, or ZeroDivisionError when the first count is zero. */
  function ScaleRepeats(repeats: seq<nat>, depth: Rat): (r: Result<seq<int>>)
    requires depth.Valid()
    ensures r.Err? <==> |repeats| > 0 && repeats[0] == 0
    ensures r.Err? ==> r.error == ZeroRepeats
    ensures r.Ok? ==> |r.value| == |repeats| && forall i :: 0 <= i < |repeats| ==> r.value[i] >= 1
  {
    var budget := Budget(repeats, depth);
    ScaleFromFails(repeats, budget);
    if ScaleFrom(repeats, budget).Ok? then
      ScaleFromShape(repeats, budget);
      ScaleFrom(repeats, budget)
    else ScaleFrom(repeats, budget)
  }

  lemma {:induction false} SumNonNegative(p: seq<nat>)
    ensures Sum(p) >= 0
    decreases |p|
  {
    if p != [] {
      SumNonNegative(p[..|p| - 1]);
    }
  }

  /** k deep copies of one argument record. */
  function Copies(a: BlockArgs, k: int): (r: seq<BlockArgs>)
    ensures |r| == if k <= 0 then 0 else k
    ensures forall i :: 0 <= i < |r| ==> r[i] == a
    decreases k
  {
    if k <= 0 then [] else Copies(a, k - 1) + [a]
  }

  /** zip(stage_args, repeats_scaled) expanded: each record as many times as its count. */
  function Expand(args: seq<BlockArgs>, counts: seq<int>): seq<BlockArgs>
    decreases |args|
  {
    if args == [] || counts == [] then []
    else Copies(args[0], counts[0]) + Expand(args[1..], counts[1..])
  }

  /** out is args expanded by counts: sum(counts) entries, and record i fills
      the counts[i] slots that follow the counts of the records before it. */
  predicate Expands(args: seq<BlockArgs>, counts: seq<int>, out: seq<BlockArgs>)
  {
    |args| == |counts| && |out| == Sum(counts) &&
    (forall k :: 0 <= k <= |counts| ==> 0 <= Sum(counts[..k]) <= Sum(counts)) &&
    forall i, j :: 0 <= i < |args| && Sum(counts[..i]) <= j < Sum(counts[..i + 1]) ==> out[j] == args[i]
  }

  /** _scale_stage_depth: fails exactly as the sharing out does; otherwise each
      record is repeated its scaled count of times, in substage order. */
  function ScaleStage(args: seq<BlockArgs>, repeats: seq<nat>, depth: Rat): (r: Result<seq<BlockArgs>>)
    requires depth.Valid()
    ensures r.Err? <==> |repeats| > 0 && repeats[0] == 0
    ensures r.Err? ==> r.error == ZeroRepeats
    ensures r.Ok? && |args| == |repeats| ==>
      Expands(args, ScaleRepeats(repeats, depth).value, r.value) &&
      forall j :: 0 <= j < |r.value| ==> r.value[j] in args
  {
    match ScaleRepeats(repeats, depth)
    case Err(e) => Err(e)
    case Ok(counts) =>
      if |args| == |repeats| then
        ExpandShape(args, counts);
        Ok(Expand(args, counts))
      else Ok(Expand(args, counts))
  }

  // ---------------------------------------------------------------------------
  // Properties of the shares

  lemma {:induction false} SumFirst(p: seq<nat>)
    requires |p| >= 1
    ensures Sum(p) >= p[0]
    decreases |p|
  {
    if |p| > 1 {
      SumFirst(p[..|p| - 1]);
    }
  }

  lemma SumSnoc(s: seq<int>, x: int)
    ensures Sum(s + [x]) == Sum(s) + x
  {
    assert (s + [x])[..|s|] == s;
  }

  lemma {:induction false} SumCons(x: int, s: seq<int>)
    ensures Sum([x] + s) == x + Sum(s)
    decreases |s|
  {
    if s != [] {
      var front := s[..|s| - 1];
      SumCons(x, front);
      assert ([x] + s)[..|s|] == [x] + front;
    } else {
      assert [x] + s == [x];
    }
  }

  /** Sharing out fails exactly when the first repeat count is zero: then the
      prefix holding only that count sums to zero; otherwise every prefix has
      a positive sum. */
  lemma {:induction false} ScaleFromFails(p: seq<nat>, budget: int)
    ensures ScaleFrom(p, budget).Err? <==> |p| > 0 && p[0] == 0
    ensures ScaleFrom(p, budget).Err? ==> ScaleFrom(p, budget).error == ZeroRepeats
    decreases |p|
  {
    if p != [] {
      var n := |p|;
      SumFirst(p);
      if Sum(p) != 0 {
        var share := Share(p[n - 1], budget, Sum(p));
        ScaleFromFails(p[..n - 1], budget - share);
        if n == 1 {
          assert Sum(p) == Sum(p[..0]) + p[0];
        }
      } else {
        assert p[0] == 0;
      }
    }
  }

  /** One share per repeat count, each at least one. */
  lemma {:induction false} ScaleFromShape(p: seq<nat>, budget: int)
    requires ScaleFrom(p, budget).Ok?
    ensures |ScaleFrom(p, budget).value| == |p|
    ensures forall i :: 0 <= i < |p| ==> ScaleFrom(p, budget).value[i] >= 1
    decreases |p|
  {
    if p != [] {
      var n := |p|;
      SumNonNegative(p);
      var share := Share(p[n - 1], budget, Sum(p));
      ScaleFromShape(p[..n - 1], budget - share);
    }
  }

  /** When the budget is at least the prefix's sum, the last element's share
      leaves at least as much as the rest of the prefix sums to. */
  lemma ShareFits(r: int, budget: int, rest: int)
    requires r >= 1 && rest >= 1 && budget >= rest + r
    ensures Share(r, budget, rest + r) <= budget - rest
  {
    var total := rest + r;
    var m := budget - rest;
    assert m * total - r * budget == rest * (budget - total);
    assert rest * (budget - total) >= 0;
    RoundBelow(r * budget, total, m);
  }

  /** With positive counts and a budget no smaller than their sum, the shares
      add up to exactly the budget: every step leaves at least as many repeats
      as the remaining prefix sums to, so no share is lifted by the floor of one,
      and the first element takes all that is left. */
  lemma {:induction false} ScaleFromExact(p: seq<nat>, budget: int)
    requires forall i :: 0 <= i < |p| ==> p[i] >= 1
    requires |p| > 0 && budget >= Sum(p)
    ensures ScaleFrom(p, budget).Ok?
    ensures Sum(ScaleFrom(p, budget).value) == budget
    decreases |p|
  {
    var n := |p|;
    var r := p[n - 1];
    var front := p[..n - 1];
    assert Sum(p) == Sum(front) + r;
    SumFirst(p);
    var share := Share(r, budget, Sum(p));
    if n == 1 {
      assert share == budget by {
        assert Sum(front) == 0;
        assert r * budget == budget * r;
        RoundExact(budget, r);
      }
      assert ScaleFrom(p, budget) == Ok([] + [share]);
    } else {
      assert share <= budget - Sum(front) by {
        SumFirst(front);
        ShareFits(r, budget, Sum(front));
      }
      ScaleFromExact(front, budget - share);
      ScaleFromSnoc(p, budget, share, ScaleFrom(front, budget - share).value);
    }
  }

  /** The last share appended to the scaled front adds up to the whole budget. */
  lemma ScaleFromSnoc(p: seq<nat>, budget: int, share: int, rest: seq<int>)
    requires |p| > 0 && Sum(p) > 0 && share == Share(p[|p| - 1], budget, Sum(p))
    requires ScaleFrom(p[..|p| - 1], budget - share) == Ok(rest) && Sum(rest) == budget - share
    ensures ScaleFrom(p, budget).Ok?
    ensures Sum(ScaleFrom(p, budget).value) == budget
  {
    assert ScaleFrom(p, budget) == Ok(rest + [share]);
    SumSnoc(rest, share);
  }

  /** A multiplier of at least one never shrinks the budget below the stage's total. */
  lemma BudgetAtLeastSum(repeats: seq<nat>, depth: Rat)
    requires depth.Valid() && depth.num >= depth.den
    ensures Budget(repeats, depth) >= Sum(repeats)
  {
    var s := Sum(repeats);
    var c := Budget(repeats, depth);
    SumNonNegative(repeats);
    assert s * depth.den <= s * depth.num;
    assert (s - c) * depth.den <= 0;
    FactorSign(s - c, depth.den);
  }

  /** The scaled counts of a stage of positive counts, under a multiplier of at
      least one, add up to ceil(sum(repeats) * multiplier). */
  lemma ScaleRepeatsTotal(repeats: seq<nat>, depth: Rat)
    requires depth.Valid() && depth.num >= depth.den
    requires |repeats| > 0 && forall i :: 0 <= i < |repeats| ==> repeats[i] >= 1
    ensures ScaleRepeats(repeats, depth).Ok?
    ensures Sum(ScaleRepeats(repeats, depth).value) == Budget(repeats, depth)
  {
    BudgetAtLeastSum(repeats, depth);
    ScaleFromExact(repeats, Budget(repeats, depth));
  }

  /** Below a multiplier of one the floor of one share per count can overshoot
      the budget: two single repeats at half depth keep two blocks although
      ceil(2 * 0.5) is one. */
  lemma ShrinkingOvershoots()
    ensures Budget([1, 1], Rat(1, 2)) == 1
    ensures ScaleRepeats([1, 1], Rat(1, 2)) == Ok([1, 1])
  {
    var p: seq<nat> := [1, 1];
    var one: seq<nat> := [1];
    assert p[..1] == one && one[..0] == [];
    assert Sum(one) == 1;
    assert Sum(p) == 2;
    assert Budget(p, Rat(1, 2)) == 1;
    assert RoundHalfEven(1, 2) == 0;
    assert RoundHalfEven(0, 1) == 0;
    assert Share(1, 1, 2) == 1;
    assert Share(1, 0, 1) == 1;
    assert ScaleFrom(one[..0], -1) == Ok([]);
    assert [] + [1] == [1];
    assert ScaleFrom(one, 0) == Ok([1]);
    assert ScaleFrom(p, 1) == Ok([1] + [1]);
    assert [1] + [1] == [1, 1];
    assert ScaleRepeats(p, Rat(1, 2)) == ScaleFrom(p, 1);
  }

  /** Under a multiplier of one, positive counts are kept as they are. */
  lemma {:induction false} ScaleFromIdentity(p: seq<nat>)
    requires forall i :: 0 <= i < |p| ==> p[i] >= 1
    ensures ScaleFrom(p, Sum(p)) == Ok(p)
    decreases |p|
  {
    if p != [] {
      var n := |p|;
      var r := p[n - 1];
      var front := p[..n - 1];
      assert Sum(p) == Sum(front) + r;
      SumNonNegative(front);
      SumFirst(p);
      assert r * Sum(p) == Sum(p) * r;
      RoundExact(r, Sum(p));
      ScaleFromIdentity(front);
      assert front + [r] == p;
    }
  }

  /** A single block string in a stage is repeated max(1, ceil(r * multiplier)) times. */
  lemma ScaleSingle(r: nat, depth: Rat)
    requires depth.Valid() && r > 0
    ensures ScaleRepeats([r], depth) == Ok([Max(1, Ceil(r * depth.num, depth.den))])
  {
    var p: seq<nat> := [r];
    assert p[..0] == [];
    assert Sum(p) == r;
    var b := Budget(p, depth);
    assert b == Ceil(r * depth.num, depth.den);
    assert r * b == b * r;
    RoundExact(b, r);
    assert RoundHalfEven(r * b, Sum(p)) == b;
    assert ScaleFrom(p[..0], b - Max(1, b)) == Ok([]);
    assert ScaleFrom(p, b) == Ok([] + [Max(1, b)]);
    assert ScaleRepeats(p, depth) == ScaleFrom(p, b);
    assert [] + [Max(1, b)] == [Max(1, b)];
  }

  // ---------------------------------------------------------------------------
  // Properties of the expansion

  /** With one count per record, the expansion holds sum(counts) records, and
      record i fills the counts[i] slots that follow the counts before it. */
  lemma ExpandShape(args: seq<BlockArgs>, counts: seq<int>)
    requires |args| == |counts|
    requires forall i :: 0 <= i < |counts| ==> counts[i] >= 0
    ensures Expands(args, counts, Expand(args, counts))
    ensures forall j :: 0 <= j < |Expand(args, counts)| ==> Expand(args, counts)[j] in args
  {
    ExpandLength(args, counts);
    forall k | 0 <= k <= |counts|
      ensures 0 <= Sum(counts[..k]) <= Sum(counts)
    {
      SumPrefixBound(counts, k);
    }
    forall i, j | 0 <= i < |args| && Sum(counts[..i]) <= j < Sum(counts[..i + 1])
      ensures Expand(args, counts)[j] == args[i]
    {
      ExpandSlot(args, counts, i, j);
    }
    forall j | 0 <= j < |Expand(args, counts)|
      ensures Expand(args, counts)[j] in args
    {
      var i := SlotOf(counts, j);
      ExpandSlot(args, counts, i, j);
    }
  }

  /** The expansion holds sum(counts) records. */
  lemma {:induction false} ExpandLength(args: seq<BlockArgs>, counts: seq<int>)
    requires |args| == |counts|
    requires forall i :: 0 <= i < |counts| ==> counts[i] >= 0
    ensures |Expand(args, counts)| == Sum(counts)
    decreases |args|
  {
    if args != [] {
      ExpandLength(args[1..], counts[1..]);
      SumCons(counts[0], counts[1..]);
      assert [counts[0]] + counts[1..] == counts;
    }
  }

  /** Expanding two record lists one after the other is expanding their concatenation. */
  lemma {:induction false} ExpandAppend(a1: seq<BlockArgs>, c1: seq<int>, a2: seq<BlockArgs>, c2: seq<int>)
    requires |a1| == |c1|
    ensures Expand(a1 + a2, c1 + c2) == Expand(a1, c1) + Expand(a2, c2)
    decreases |a1|
  {
    if a1 != [] {
      ExpandAppend(a1[1..], c1[1..], a2, c2);
      assert (a1 + a2)[1..] == a1[1..] + a2 && (c1 + c2)[1..] == c1[1..] + c2;
    } else {
      assert a1 + a2 == a2 && c1 + c2 == c2;
    }
  }

  /** The expansion is the records before i, then counts[i] copies of record i, then the records after it. */
  lemma ExpandSplit(args: seq<BlockArgs>, counts: seq<int>, i: nat)
    requires |args| == |counts| && i < |args|
    ensures Expand(args, counts) ==
      Expand(args[..i], counts[..i]) + Copies(args[i], counts[i]) + Expand(args[i + 1..], counts[i + 1..])
  {
    assert args == args[..i] + args[i..] && counts == counts[..i] + counts[i..];
    ExpandAppend(args[..i], counts[..i], args[i..], counts[i..]);
    assert args[i..][1..] == args[i + 1..] && counts[i..][1..] == counts[i + 1..];
  }

  /** Slot j of the expansion, in record i's run of slots, holds record i. */
  lemma ExpandSlot(args: seq<BlockArgs>, counts: seq<int>, i: nat, j: int)
    requires |args| == |counts|
    requires forall k :: 0 <= k < |counts| ==> counts[k] >= 0
    requires i < |args| && Sum(counts[..i]) <= j < Sum(counts[..i + 1])
    ensures 0 <= j < |Expand(args, counts)| && Expand(args, counts)[j] == args[i]
  {
    ExpandSplit(args, counts, i);
    ExpandLength(args[..i], counts[..i]);
    ExpandLength(args, counts);
    assert counts[..i + 1][..i] == counts[..i];
    SumPrefixBound(counts, i + 1);
    var front := Expand(args[..i], counts[..i]);
    var c := Copies(args[i], counts[i]);
    assert Expand(args, counts)[j] == c[j - |front|];
  }

  /** Sums of prefixes of non-negative counts never exceed the whole sum. */
  lemma {:induction false} SumPrefixBound(counts: seq<int>, k: nat)
    requires forall i :: 0 <= i < |counts| ==> counts[i] >= 0
    requires k <= |counts|
    ensures 0 <= Sum(counts[..k]) <= Sum(counts)
    decreases |counts|
  {
    if counts != [] {
      var n := |counts|;
      var k' := if k < n then k else n - 1;
      assert counts[..n - 1][..k'] == counts[..k'];
      SumPrefixBound(counts[..n - 1], k');
      assert counts[..n - 1][..n - 1] == counts[..n - 1];
      SumPrefixBound(counts[..n - 1], n - 1);
    }
    assert k == |counts| ==> counts[..k] == counts;
  }

  /** Every slot of the expansion lies in some record's run of slots. */
  lemma SlotOf(counts: seq<int>, j: int) returns (i: nat)
    requires forall k :: 0 <= k < |counts| ==> counts[k] >= 0
    requires 0 <= j < Sum(counts)
    ensures i < |counts| && Sum(counts[..i]) <= j < Sum(counts[..i + 1])
  {
    i := 0;
    assert counts[..0] == [];
    while i + 1 < |counts| && Sum(counts[..i + 1]) <= j
      invariant i < |counts| && Sum(counts[..i]) <= j
      decreases |counts| - i
    {
      i := i + 1;
    }
    assert i + 1 == |counts| ==> counts[..i + 1] == counts;
  }

  /** Scaling a stage of positive counts under a multiplier of at least one
      yields exactly ceil(sum(repeats) * multiplier) blocks. */
  lemma ScaleStageLength(args: seq<BlockArgs>, repeats: seq<nat>, depth: Rat)
    requires depth.Valid() && depth.num >= depth.den
    requires |args| == |repeats| > 0
    requires forall i :: 0 <= i < |repeats| ==> repeats[i] >= 1
    ensures ScaleStage(args, repeats, depth).Ok?
    ensures |ScaleStage(args, repeats, depth).value| == Budget(repeats, depth)
  {
    ScaleRepeatsTotal(repeats, depth);
    var counts := ScaleRepeats(repeats, depth).value;
    ScaleFromShape(repeats, Budget(repeats, depth));
    ExpandShape(args, counts);
  }

  // ---------------------------------------------------------------------------
  // Decoding a whole block definition

  /** The decoded records of one stage's strings, the first failure ending the list. */
  function DecodeAll(strings: seq<string>): (r: Result<seq<BlockArgs>>)
    ensures r.Ok? ==> |r.value| == |strings|
    ensures r.Ok? ==> forall i :: 0 <= i < |strings| ==> Decode(strings[i]) == Ok(r.value[i])
    ensures r.Ok? <==> forall i :: 0 <= i < |strings| ==> Decode(strings[i]).Ok?
    decreases |strings|
  {
    if strings == [] then Ok([])
    else
      match Decode(strings[0])
      case Err(e) => Err(e)
      case Ok(a) =>
        match DecodeAll(strings[1..])
        case Err(e) => Err(e)
        case Ok(rest) => Ok([a] + rest)
  }

  /** The first string that fails to decode decides the error of the stage. */
  lemma {:induction false} DecodeAllFirstError(strings: seq<string>, k: nat)
    requires k < |strings| && Decode(strings[k]).Err?
    requires forall i :: 0 <= i < k ==> Decode(strings[i]).Ok?
    ensures DecodeAll(strings) == Err(Decode(strings[k]).error)
    decreases k
  {
    if k > 0 {
      var rest := strings[1..];
      assert rest[k - 1] == strings[k];
      forall i | 0 <= i < k - 1 ensures Decode(rest[i]).Ok? {
        assert rest[i] == strings[i + 1];
      }
      DecodeAllFirstError(rest, k - 1);
    }
  }

  /** The repeat counts popped from decoded records. */
  function Repeats(args: seq<BlockArgs>): (r: seq<nat>)
    ensures |r| == |args|
    ensures forall i :: 0 <= i < |args| ==> r[i] == args[i].repeat.GetOr(0)
  {
    if args == [] then [] else [args[0].repeat.GetOr(0)] + Repeats(args[1..])
  }

  /** The records with their repeat key removed. */
  function Popped(args: seq<BlockArgs>): (r: seq<BlockArgs>)
    ensures |r| == |args|
    ensures forall i :: 0 <= i < |args| ==> r[i] == args[i].(repeat := None)
  {
    if args == [] then [] else [args[0].(repeat := None)] + Popped(args[1..])
  }

  /** Whether stage idx of n keeps its unscaled records (fix_first_last and an end stage). */
  predicate Exempt(fixFirstLast: bool, idx: int, n: int)
  {
    fixFirstLast && (idx == 0 || idx == n - 1)
  }

  /** One stage of the block definition, decoded and (unless exempt) scaled. */
  function DecodeStage(strings: seq<string>, depth: Rat, exempt: bool): Result<seq<BlockArgs>>
    requires depth.Valid()
  {
    match DecodeAll(strings)
    case Err(e) => Err(e)
    case Ok(args) =>
      if exempt then Ok(Popped(args))
      else ScaleStage(Popped(args), Repeats(args), depth)
  }

  /** What one stage needs to decode: every string decodes, and unless the stage
      is exempt from scaling its first repeat count is not zero. */
  predicate StageDecodes(strings: seq<string>, exempt: bool)
  {
    (forall i :: 0 <= i < |strings| ==> Decode(strings[i]).Ok?) &&
    (!exempt && |strings| > 0 ==> Decode(strings[0]).value.repeat.value > 0)
  }

  /** A stage decodes exactly when its strings do and its first count is usable;
      with every string decoded, the only failure left is ZeroDivisionError. */
  lemma DecodeStageOk(strings: seq<string>, depth: Rat, exempt: bool)
    requires depth.Valid()
    ensures DecodeStage(strings, depth, exempt).Ok? <==> StageDecodes(strings, exempt)
    ensures DecodeStage(strings, depth, exempt).Err? && DecodeAll(strings).Ok? ==>
      DecodeStage(strings, depth, exempt).error == ZeroRepeats
  {
    match DecodeAll(strings)
    case Err(_) =>
    case Ok(args) =>
      if !exempt && |strings| > 0 {
        assert Repeats(args)[0] == Decode(strings[0]).value.repeat.value;
      }
  }

  /** Stages idx.. of the block definition, each decoded after the ones before it. */
  function DecodeStagesFrom(blockDef: seq<seq<string>>, depth: Rat, fixFirstLast: bool, idx: nat): Result<seq<seq<BlockArgs>>>
    requires depth.Valid() && idx <= |blockDef|
    decreases |blockDef| - idx
  {
    if idx == |blockDef| then Ok([])
    else
      match DecodeStage(blockDef[idx], depth, Exempt(fixFirstLast, idx, |blockDef|))
      case Err(e) => Err(e)
      case Ok(stage) =>
        match DecodeStagesFrom(blockDef, depth, fixFirstLast, idx + 1)
        case Err(e) => Err(e)
        case Ok(rest) => Ok([stage] + rest)
  }

  /** _decode_block_def as a function of the block definition: it succeeds exactly
      when every stage decodes, and then gives one stage per stage of strings,
      keeps an exempt stage at one record per string and drops every repeat key. */
  function DecodeBlocks(blockDef: seq<seq<string>>, depth: Rat, fixFirstLast: bool): (r: Result<seq<seq<BlockArgs>>>)
    requires depth.Valid()
    ensures r.Ok? <==> StagesDecode(blockDef, fixFirstLast, 0)
    ensures r.Ok? ==> |r.value| == |blockDef| && NoRepeatKeys(r.value) &&
                      ExemptStagesKept(blockDef, fixFirstLast, 0, r.value)
  {
    DecodeStagesOk(blockDef, depth, fixFirstLast, 0);
    match DecodeStagesFrom(blockDef, depth, fixFirstLast, 0)
    case Err(e) => Err(e)
    case Ok(stages) =>
      DecodeStagesShape(blockDef, depth, fixFirstLast, 0, stages);
      Ok(stages)
  }

  /** Every stage from idx on decodes, each under its first/last exemption. */
  predicate StagesDecode(blockDef: seq<seq<string>>, fixFirstLast: bool, idx: nat)
    decreases |blockDef| - idx
  {
    idx >= |blockDef| ||
    (StageDecodes(blockDef[idx], Exempt(fixFirstLast, idx, |blockDef|)) && StagesDecode(blockDef, fixFirstLast, idx + 1))
  }

  /** StagesDecode holds exactly when every stage from idx on decodes. */
  lemma {:induction false} StagesDecodeEach(blockDef: seq<seq<string>>, fixFirstLast: bool, idx: nat)
    ensures StagesDecode(blockDef, fixFirstLast, idx) <==>
      forall i :: idx <= i < |blockDef| ==> StageDecodes(blockDef[i], Exempt(fixFirstLast, i, |blockDef|))
    decreases |blockDef| - idx
  {
    if idx < |blockDef| {
      StagesDecodeEach(blockDef, fixFirstLast, idx + 1);
      if forall i :: idx + 1 <= i < |blockDef| ==> StageDecodes(blockDef[i], Exempt(fixFirstLast, i, |blockDef|)) {
        if StageDecodes(blockDef[idx], Exempt(fixFirstLast, idx, |blockDef|)) {
          forall i | idx <= i < |blockDef| ensures StageDecodes(blockDef[i], Exempt(fixFirstLast, i, |blockDef|)) {
            if i == idx {
            }
          }
        }
      }
    }
  }

  /** Stages idx.. decode exactly when each of them does. */
  lemma DecodeStagesOk(blockDef: seq<seq<string>>, depth: Rat, fixFirstLast: bool, idx: nat)
    requires depth.Valid() && idx <= |blockDef|
    ensures DecodeStagesFrom(blockDef, depth, fixFirstLast, idx).Ok? <==> StagesDecode(blockDef, fixFirstLast, idx)
  {
    if DecodeStagesFrom(blockDef, depth, fixFirstLast, idx).Ok? {
      DecodeStagesSound(blockDef, depth, fixFirstLast, idx);
    }
    if StagesDecode(blockDef, fixFirstLast, idx) {
      DecodeStagesComplete(blockDef, depth, fixFirstLast, idx);
    }
  }

  /** Decoded stages idx.. each decode on their own. */
  lemma {:induction false} DecodeStagesSound(blockDef: seq<seq<string>>, depth: Rat, fixFirstLast: bool, idx: nat)
    requires depth.Valid() && idx <= |blockDef| && DecodeStagesFrom(blockDef, depth, fixFirstLast, idx).Ok?
    ensures StagesDecode(blockDef, fixFirstLast, idx)
    decreases |blockDef| - idx
  {
    if idx < |blockDef| {
      DecodeStagesUncons(blockDef, depth, fixFirstLast, idx);
      DecodeStagesSound(blockDef, depth, fixFirstLast, idx + 1);
      StagesDecodeCons(blockDef, fixFirstLast, idx);
    }
  }

  /** Stages idx.. each decode when stage idx and stages idx + 1.. do. */
  lemma StagesDecodeCons(blockDef: seq<seq<string>>, fixFirstLast: bool, idx: nat)
    requires idx < |blockDef| && StageDecodes(blockDef[idx], Exempt(fixFirstLast, idx, |blockDef|))
    requires StagesDecode(blockDef, fixFirstLast, idx + 1)
    ensures StagesDecode(blockDef, fixFirstLast, idx)
  {
  }

  /** When stages idx.. decode, so do stage idx and stages idx + 1... */
  lemma DecodeStagesUncons(blockDef: seq<seq<string>>, depth: Rat, fixFirstLast: bool, idx: nat)
    requires depth.Valid() && idx < |blockDef|
    requires DecodeStagesFrom(blockDef, depth, fixFirstLast, idx).Ok?
    ensures StageDecodes(blockDef[idx], Exempt(fixFirstLast, idx, |blockDef|))
    ensures DecodeStagesFrom(blockDef, depth, fixFirstLast, idx + 1).Ok?
  {
    DecodeStageOk(blockDef[idx], depth, Exempt(fixFirstLast, idx, |blockDef|));
  }

  /** Stages idx.. that each decode on their own decode together. */
  lemma {:induction false} DecodeStagesComplete(blockDef: seq<seq<string>>, depth: Rat, fixFirstLast: bool, idx: nat)
    requires depth.Valid() && idx <= |blockDef| && StagesDecode(blockDef, fixFirstLast, idx)
    ensures DecodeStagesFrom(blockDef, depth, fixFirstLast, idx).Ok?
    decreases |blockDef| - idx
  {
    if idx < |blockDef| {
      var exempt := Exempt(fixFirstLast, idx, |blockDef|);
      DecodeStageOk(blockDef[idx], depth, exempt);
      DecodeStagesComplete(blockDef, depth, fixFirstLast, idx + 1);
      DecodeStagesCons(blockDef, depth, fixFirstLast, idx);
    }
  }

  /** Stages idx.. decode when stage idx and stages idx + 1.. do. */
  lemma DecodeStagesCons(blockDef: seq<seq<string>>, depth: Rat, fixFirstLast: bool, idx: nat)
    requires depth.Valid() && idx < |blockDef|
    requires DecodeStage(blockDef[idx], depth, Exempt(fixFirstLast, idx, |blockDef|)).Ok?
    requires DecodeStagesFrom(blockDef, depth, fixFirstLast, idx + 1).Ok?
    ensures DecodeStagesFrom(blockDef, depth, fixFirstLast, idx).Ok?
  {
  }

  /** A decoded stage keeps no repeat key; an exempt stage has one record per string. */
  lemma DecodeStageShape(strings: seq<string>, depth: Rat, exempt: bool, stage: seq<BlockArgs>)
    requires depth.Valid() && DecodeStage(strings, depth, exempt) == Ok(stage)
    ensures exempt ==> |stage| == |strings|
    ensures forall j :: 0 <= j < |stage| ==> stage[j].repeat.None?
  {
    var args := DecodeAll(strings).value;
    if !exempt {
      var counts := ScaleRepeats(Repeats(args), depth).value;
      ScaleFromShape(Repeats(args), Budget(Repeats(args), depth));
      ExpandShape(Popped(args), counts);
      forall j | 0 <= j < |stage| ensures stage[j].repeat.None? {
        assert stage[j] in Popped(args);
      }
    }
  }

  /** No record of a decoded block definition keeps its repeat key. */
  predicate NoRepeatKeys(stages: seq<seq<BlockArgs>>)
  {
    forall i, j :: 0 <= i < |stages| && 0 <= j < |stages[i]| ==> stages[i][j].repeat.None?
  }

  /** Stage idx.. of a decoded definition keep one record per string where exempt. */
  predicate ExemptStagesKept(blockDef: seq<seq<string>>, fixFirstLast: bool, idx: nat, stages: seq<seq<BlockArgs>>)
    requires idx <= |blockDef| && |stages| == |blockDef| - idx
  {
    forall i :: idx <= i < |blockDef| && Exempt(fixFirstLast, i, |blockDef|) ==> |stages[i - idx]| == |blockDef[i]|
  }

  /** The stages decoded from idx on: the stage at idx, then the rest. */
  lemma DecodeStagesStep(blockDef: seq<seq<string>>, depth: Rat, fixFirstLast: bool, idx: nat, stages: seq<seq<BlockArgs>>)
    requires depth.Valid() && idx < |blockDef|
    requires DecodeStagesFrom(blockDef, depth, fixFirstLast, idx) == Ok(stages)
    ensures stages != []
    ensures DecodeStage(blockDef[idx], depth, Exempt(fixFirstLast, idx, |blockDef|)) == Ok(stages[0])
    ensures DecodeStagesFrom(blockDef, depth, fixFirstLast, idx + 1) == Ok(stages[1..])
  {
    var rest := DecodeStagesFrom(blockDef, depth, fixFirstLast, idx + 1).value;
    assert ([stages[0]] + rest)[1..] == rest;
  }

  /** A decoded block definition has one stage per stage of strings; an exempt
      stage has one record per string, and no record keeps its repeat key. */
  lemma {:induction false} DecodeStagesShape(blockDef: seq<seq<string>>, depth: Rat, fixFirstLast: bool, idx: nat,
                                             stages: seq<seq<BlockArgs>>)
    requires depth.Valid() && idx <= |blockDef|
    requires DecodeStagesFrom(blockDef, depth, fixFirstLast, idx) == Ok(stages)
    ensures |stages| == |blockDef| - idx
    ensures ExemptStagesKept(blockDef, fixFirstLast, idx, stages)
    ensures NoRepeatKeys(stages)
    decreases |blockDef| - idx
  {
    if idx < |blockDef| {
      DecodeStagesStep(blockDef, depth, fixFirstLast, idx, stages);
      DecodeStageShape(blockDef[idx], depth, Exempt(fixFirstLast, idx, |blockDef|), stages[0]);
      DecodeStagesShape(blockDef, depth, fixFirstLast, idx + 1, stages[1..]);
      StagesPrepend(blockDef, fixFirstLast, idx, stages);
    }
  }

  lemma StagesPrepend(blockDef: seq<seq<string>>, fixFirstLast: bool, idx: nat, stages: seq<seq<BlockArgs>>)
    requires idx < |blockDef| && |stages| == |blockDef| - idx
    requires Exempt(fixFirstLast, idx, |blockDef|) ==> |stages[0]| == |blockDef[idx]|
    requires ExemptStagesKept(blockDef, fixFirstLast, idx + 1, stages[1..])
    requires forall j :: 0 <= j < |stages[0]| ==> stages[0][j].repeat.None?
    requires NoRepeatKeys(stages[1..])
    ensures ExemptStagesKept(blockDef, fixFirstLast, idx, stages)
    ensures NoRepeatKeys(stages)
  {
    var rest := stages[1..];
    forall i | idx <= i < |blockDef| && Exempt(fixFirstLast, i, |blockDef|)
      ensures |stages[i - idx]| == |blockDef[i]|
    {
      if i > idx {
        assert stages[i - idx] == rest[i - (idx + 1)];
      }
    }
    forall i, j | 0 <= i < |stages| && 0 <= j < |stages[i]| ensures stages[i][j].repeat.None? {
      if i > 0 {
        assert stages[i] == rest[i - 1];
      }
    }
  }
}
