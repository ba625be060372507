/** The block-string decoder: one stage string such as "ir_r2_k5_s2_e6_c40_se0.25"
    becomes the argument record of one block (EfficientNet._decode_str_def).
    The string is split on '_'; the first piece names the block type; every
    later piece is either the bare flag "noskip" or a key followed by a value
    that starts at the piece's first digit. */
module Decoder {
  import opened Base
  import opened Numerals

  // ---------------------------------------------------------------------------
  // str.split on one separator character

  function Split(s: string, sep: char): (parts: seq<string>)
    ensures |parts| >= 1
    ensures forall i :: 0 <= i < |parts| ==> sep !in parts[i]
  {
    if s == [] then [[]]
    else
      var rest := Split(s[1..], sep);
      if s[0] == sep then [[]] + rest
      else [[s[0]] + rest[0]] + rest[1..]
  }

  function Join(parts: seq<string>, sep: char): string
    requires |parts| >= 1
  {
    if |parts| == 1 then parts[0] else parts[0] + [sep] + Join(parts[1..], sep)
  }

  lemma {:induction false} SplitJoin(s: string, sep: char)
    ensures Join(Split(s, sep), sep) == s
  {
    if s != [] {
      SplitJoin(s[1..], sep);
      var rest := Split(s[1..], sep);
      if s[0] != sep {
        if |rest| == 1 {
          assert Split(s, sep) == [[s[0]] + rest[0]];
        } else {
          assert Split(s, sep)[1..] == rest[1..];
        }
      }
    }
  }

  lemma {:induction false} JoinSplit(parts: seq<string>, sep: char)
    requires |parts| >= 1
    requires forall i :: 0 <= i < |parts| ==> sep !in parts[i]
    ensures Split(Join(parts, sep), sep) == parts
    decreases |parts|, |parts[0]|
  {
    if |parts| == 1 {
      SplitNoSep(parts[0], sep);
    } else if parts[0] == [] {
      JoinSplit(parts[1..], sep);
      JoinSplitEmptyFirst(parts, sep);
    } else {
      var shorter := [parts[0][1..]] + parts[1..];
      forall i | 0 <= i < |shorter| ensures sep !in shorter[i] {
        if i == 0 {
          assert forall c :: c in parts[0][1..] ==> c in parts[0];
        } else {
          assert shorter[i] == parts[i];
        }
      }
      JoinSplit(shorter, sep);
      JoinSplitFirstChar(parts, sep);
    }
  }

  /** An empty first part: the joined string starts with the separator. */
  lemma JoinSplitEmptyFirst(parts: seq<string>, sep: char)
    requires |parts| >= 2 && parts[0] == []
    requires Split(Join(parts[1..], sep), sep) == parts[1..]
    ensures Split(Join(parts, sep), sep) == parts
  {
    assert Join(parts, sep) == [sep] + Join(parts[1..], sep);
    assert Join(parts, sep)[1..] == Join(parts[1..], sep);
  }

  /** A non-empty first part: the joined string starts with its first character. */
  lemma JoinSplitFirstChar(parts: seq<string>, sep: char)
    requires |parts| >= 2 && parts[0] != [] && sep !in parts[0]
    requires Split(Join([parts[0][1..]] + parts[1..], sep), sep) == [parts[0][1..]] + parts[1..]
    ensures Split(Join(parts, sep), sep) == parts
  {
    var p0 := parts[0];
    var shorter := [p0[1..]] + parts[1..];
    assert Join(parts, sep) == [p0[0]] + Join(shorter, sep) by {
      assert p0 == [p0[0]] + p0[1..];
      assert shorter[1..] == parts[1..];
    }
    var j := Join(parts, sep);
    assert j[1..] == Join(shorter, sep);
    assert p0[0] in p0;
    assert j != [] && j[0] == p0[0] && j[0] != sep;
    assert Split(j, sep) == [[p0[0]] + p0[1..]] + parts[1..];
    assert [p0[0]] + p0[1..] == p0;
  }

  lemma {:induction false} SplitNoSep(s: string, sep: char)
    requires sep !in s
    ensures Split(s, sep) == [s]
  {
    if s != [] {
      assert sep !in s[1..] by { assert forall c :: c in s[1..] ==> c in s; }
      SplitNoSep(s[1..], sep);
      assert s == [s[0]] + s[1..];
    }
  }

  // ---------------------------------------------------------------------------
  // The argument map of the decoder

  /** The arguments a block string can set: r, k, s, e, m, c and se. */
  datatype Field = Repeat | KernelSize | Stride | ExpRatio | MidChannel | OutChannel | SeRatio

  /** The decoder's key table: key text to argument. */
  function FieldOfKey(key: string): (f: Option<Field>)
    ensures f.Some? ==> KeyOf(f.value) == key
  {
    if key == "r" then Some(Repeat)
    else if key == "k" then Some(KernelSize)
    else if key == "s" then Some(Stride)
    else if key == "e" then Some(ExpRatio)
    else if key == "m" then Some(MidChannel)
    else if key == "c" then Some(OutChannel)
    else if key == "se" then Some(SeRatio)
    else None
  }

  function KeyOf(f: Field): (key: string)
    ensures |key| >= 1 && forall i :: 0 <= i < |key| ==> 'a' <= key[i] <= 'z'
  {
    match f
    case Repeat => "r"
    case KernelSize => "k"
    case Stride => "s"
    case ExpRatio => "e"
    case MidChannel => "m"
    case OutChannel => "c"
    case SeRatio => "se"
  }

  lemma KeyTable(f: Field)
    ensures FieldOfKey(KeyOf(f)) == Some(f)
  {
  }

  /** e and se are read with float(), the other keys with int(). */
  predicate IsRatio(f: Field) { f == ExpRatio || f == SeRatio }

  datatype Value = IntValue(n: nat) | DecimalValue(d: Decimal)

  predicate Fits(f: Field, v: Value) { IsRatio(f) <==> v.DecimalValue? }

  /** The cast the key table names, applied to the value text. */
  function Cast(f: Field, text: string): (v: Option<Value>)
    ensures v.Some? ==> Fits(f, v.value)
  {
    if IsRatio(f) then
      match ParseDecimal(text)
      case Some(d) => Some(DecimalValue(d))
      case None => None
    else
      match ParseInt(text)
      case Some(n) => Some(IntValue(n))
      case None => None
  }

  /** The decoded arguments of one block string (the 'args' dict); an absent key is None. */
  datatype BlockArgs = BlockArgs(
    blockType: string,
    repeat: Option<nat>,
    kernelSize: Option<nat>,
    stride: Option<nat>,
    expRatio: Option<Decimal>,
    midChannel: Option<nat>,
    outChannel: Option<nat>,
    seRatio: Option<Decimal>,
    noskip: bool)

  function Initial(blockType: string): BlockArgs
  {
    BlockArgs(blockType, None, None, None, None, None, None, None, false)
  }

  function IntOpt(o: Option<nat>): Option<Value>
  {
    if o.Some? then Some(IntValue(o.value)) else None
  }

  function DecimalOpt(o: Option<Decimal>): Option<Value>
  {
    if o.Some? then Some(DecimalValue(o.value)) else None
  }

  /** args[key] for one argument, None when absent. */
  function Get(a: BlockArgs, f: Field): (v: Option<Value>)
    ensures v.Some? ==> Fits(f, v.value)
  {
    match f
    case Repeat => IntOpt(a.repeat)
    case KernelSize => IntOpt(a.kernelSize)
    case Stride => IntOpt(a.stride)
    case ExpRatio => DecimalOpt(a.expRatio)
    case MidChannel => IntOpt(a.midChannel)
    case OutChannel => IntOpt(a.outChannel)
    case SeRatio => DecimalOpt(a.seRatio)
  }

  /** args[key] = value. */
  function Set(a: BlockArgs, f: Field, v: Value): (b: BlockArgs)
    requires Fits(f, v)
    ensures Get(b, f) == Some(v)
    ensures forall g :: g != f ==> Get(b, g) == Get(a, g)
    ensures b.blockType == a.blockType && b.noskip == a.noskip
  {
    match f
    case Repeat => a.(repeat := Some(v.n))
    case KernelSize => a.(kernelSize := Some(v.n))
    case Stride => a.(stride := Some(v.n))
    case ExpRatio => a.(expRatio := Some(v.d))
    case MidChannel => a.(midChannel := Some(v.n))
    case OutChannel => a.(outChannel := Some(v.n))
    case SeRatio => a.(seRatio := Some(v.d))
  }

  /** Two argument records that agree on the block type, the flag and every argument are equal. */
  lemma ArgsExtensional(a: BlockArgs, b: BlockArgs)
    requires a.blockType == b.blockType && a.noskip == b.noskip
    requires forall f :: Get(a, f) == Get(b, f)
    ensures a == b
  {
    assert Get(a, Repeat) == Get(b, Repeat);
    assert Get(a, KernelSize) == Get(b, KernelSize);
    assert Get(a, Stride) == Get(b, Stride);
    assert Get(a, ExpRatio) == Get(b, ExpRatio);
    assert Get(a, MidChannel) == Get(b, MidChannel);
    assert Get(a, OutChannel) == Get(b, OutChannel);
    assert Get(a, SeRatio) == Get(b, SeRatio);
  }

  // ---------------------------------------------------------------------------
  // One token: re.split(r'(\d.*)', op)

  /** Index of the first digit of s. */
  function FirstDigit(s: string): (r: Option<nat>)
    ensures r.Some? ==> r.value < |s| && IsDigit(s[r.value]) &&
                        forall j :: 0 <= j < r.value ==> !IsDigit(s[j])
    ensures r.None? ==> forall j :: 0 <= j < |s| ==> !IsDigit(s[j])
  {
    if s == [] then None
    else if IsDigit(s[0]) then Some(0)
    else
      var t := FirstDigit(s[1..]);
      if t.Some? then Some(t.value + 1) else None
  }

  /** What '.*' matches: the text up to the first line break. */
  function Line(s: string): (r: string)
    ensures r <= s && '\n' !in r
    ensures r == s || (|r| < |s| && s[|r|] == '\n')
  {
    if s == [] || s[0] == '\n' then [] else [s[0]] + Line(s[1..])
  }

  /** The key before the first digit and the value from it, or None when the token has no digit. */
  function SplitAtDigit(op: string): (r: Option<(string, string)>)
    ensures r.None? <==> forall j :: 0 <= j < |op| ==> !IsDigit(op[j])
    ensures r.Some? ==>
      var (key, text) := r.value;
      |key| < |op| && key == op[..|key|] && IsDigit(op[|key|]) &&
      (forall j :: 0 <= j < |key| ==> !IsDigit(key[j])) &&
      text == Line(op[|key|..])
    ensures r.Some? ==> |r.value.1| >= 1 && IsDigit(r.value.1[0])
  {
    match FirstDigit(op)
    case None => None
    case Some(i) => Some((op[..i], Line(op[i..])))
  }

  /** How the decoding loop reads one token after the block type. */
  datatype Token = Flag | Assign(field: Field, value: Value) | Bad(error: Error)

  function ReadToken(op: string): (t: Token)
    ensures t.Flag? <==> op == "noskip"
    ensures t.Assign? ==> Fits(t.field, t.value)
  {
    if op == "noskip" then Flag
    else
      match SplitAtDigit(op)
      case None => Bad(NoDigit(op))
      case Some((key, text)) =>
        match FieldOfKey(key)
        case None => Bad(UnknownKey(key))
        case Some(f) =>
          match Cast(f, text)
          case None => Bad(BadNumber(text))
          case Some(v) => Assign(f, v)
  }

  /** Each outcome of reading a token: a token without a digit, a key outside the
      table and a value its cast rejects are reported as such, and otherwise the
      key names the field and the cast of the value text is the value assigned;
      a token with a digit, a known key and a value its cast accepts always assigns. */
  lemma ReadTokenCases(op: string)
    ensures ReadToken(op) == Bad(NoDigit(op)) <==> op != "noskip" && SplitAtDigit(op).None?
    ensures op != "noskip" && SplitAtDigit(op).Some? ==>
      var (key, text) := SplitAtDigit(op).value;
      (ReadToken(op) == Bad(UnknownKey(key)) <==> FieldOfKey(key).None?) &&
      (FieldOfKey(key).Some? ==>
        (ReadToken(op) == Bad(BadNumber(text)) <==> Cast(FieldOfKey(key).value, text).None?))
    ensures op != "noskip" && SplitAtDigit(op).Some? && FieldOfKey(SplitAtDigit(op).value.0).Some? &&
            Cast(FieldOfKey(SplitAtDigit(op).value.0).value, SplitAtDigit(op).value.1).Some? ==>
      ReadToken(op) == Assign(FieldOfKey(SplitAtDigit(op).value.0).value,
                              Cast(FieldOfKey(SplitAtDigit(op).value.0).value, SplitAtDigit(op).value.1).value)
    ensures ReadToken(op).Assign? ==>
      op != "noskip" && SplitAtDigit(op).Some? &&
      KeyOf(ReadToken(op).field) == SplitAtDigit(op).value.0 &&
      Cast(ReadToken(op).field, SplitAtDigit(op).value.1) == Some(ReadToken(op).value)
  {
  }

  function Step(a: BlockArgs, op: string): Result<BlockArgs>
  {
    match ReadToken(op)
    case Flag => Ok(a.(noskip := true))
    case Assign(f, v) => Ok(Set(a, f, v))
    case Bad(e) => Err(e)
  }

  /** The decoding loop over the tokens after the block type. */
  function ApplyTokens(a: BlockArgs, ops: seq<string>): Result<BlockArgs>
    decreases |ops|
  {
    if ops == [] then Ok(a)
    else
      match Step(a, ops[0])
      case Err(e) => Err(e)
      case Ok(b) => ApplyTokens(b, ops[1..])
  }

  /** _decode_str_def as a function of the stage string. */
  function Decode(s: string): (r: Result<BlockArgs>)
    ensures r.Ok? ==> r.value.repeat.Some? && r.value.blockType == Split(s, '_')[0]
    ensures r.Ok? ==> (r.value.noskip <==> "noskip" in Split(s, '_')[1..])
  {
    var parts := Split(s, '_');
    match ApplyTokens(Initial(parts[0]), parts[1..])
    case Err(e) => Err(e)
    case Ok(a) =>
      ApplyTokensOk(Initial(parts[0]), parts[1..], a);
      if a.repeat.None? then Err(MissingRepeat) else Ok(a)
  }

  /** _decode_str_def: fills the argument record token by token. */
  method DecodeStrDef(stageStr: string) returns (r: Result<BlockArgs>)
    ensures r == Decode(stageStr)
  {
    var stageData := Split(stageStr, '_');
    var args := Initial(stageData[0]);
    var noskip := false;
    var i := 1;
    while i < |stageData|
      invariant 1 <= i <= |stageData|
      invariant !args.noskip
      invariant ApplyTokens(Initial(stageData[0]), stageData[1..]) ==
                ApplyTokens(args.(noskip := noskip), stageData[i..])
    {
      var op := stageData[i];
      assert stageData[i..][0] == op && stageData[i..][1..] == stageData[i + 1..];
      if op == "noskip" {
        noskip := true;
      } else {
        var s := SplitAtDigit(op);
        if s.None? {
          return Err(NoDigit(op));
        }
        var (key, text) := s.value;
        var field := FieldOfKey(key);
        if field.None? {
          return Err(UnknownKey(key));
        }
        var v := Cast(field.value, text);
        if v.None? {
          return Err(BadNumber(text));
        }
        assert Set(args.(noskip := noskip), field.value, v.value) ==
               Set(args, field.value, v.value).(noskip := noskip);
        args := Set(args, field.value, v.value);
      }
      i := i + 1;
    }
    args := args.(noskip := noskip);
    if args.repeat.None? {
      return Err(MissingRepeat);
    }
    return Ok(args);
  }

  // ---------------------------------------------------------------------------
  // What decoding produces

  /** The value the last token naming f assigns, if any token does. */
  function LastValue(ops: seq<string>, f: Field): Option<Value>
  {
    if ops == [] then None
    else
      var later := LastValue(ops[1..], f);
      if later.Some? then later
      else
        match ReadToken(ops[0])
        case Assign(g, v) => if g == f then Some(v) else None
        case _ => None
  }

  lemma {:induction false} ApplyTokensOk(acc: BlockArgs, ops: seq<string>, a: BlockArgs)
    requires ApplyTokens(acc, ops) == Ok(a)
    ensures a.blockType == acc.blockType
    ensures a.noskip <==> acc.noskip || "noskip" in ops
    ensures forall f :: Get(a, f) == if LastValue(ops, f).Some? then LastValue(ops, f) else Get(acc, f)
    decreases |ops|
  {
    if ops != [] {
      var b := Step(acc, ops[0]).value;
      ApplyTokensOk(b, ops[1..], a);
      ApplyStep(acc, ops, b, a);
    }
  }

  /** One token of the decoding loop: what holds of the rest carries over to the whole. */
  lemma ApplyStep(acc: BlockArgs, ops: seq<string>, b: BlockArgs, a: BlockArgs)
    requires ops != [] && Step(acc, ops[0]) == Ok(b)
    requires a.blockType == b.blockType
    requires a.noskip <==> b.noskip || "noskip" in ops[1..]
    requires forall f :: Get(a, f) == if LastValue(ops[1..], f).Some? then LastValue(ops[1..], f) else Get(b, f)
    ensures a.blockType == acc.blockType
    ensures a.noskip <==> acc.noskip || "noskip" in ops
    ensures forall f :: Get(a, f) == if LastValue(ops, f).Some? then LastValue(ops, f) else Get(acc, f)
  {
    StepFlag(acc, ops[0], b);
    FlagCons(ops);
    forall f
      ensures Get(a, f) == if LastValue(ops, f).Some? then LastValue(ops, f) else Get(acc, f)
    {
      LastValueCons(ops, f);
      StepField(acc, ops[0], b, f);
    }
  }

  /** The flag token sets noskip and every other token leaves it and the block type alone. */
  lemma StepFlag(acc: BlockArgs, op: string, b: BlockArgs)
    requires Step(acc, op) == Ok(b)
    ensures b.blockType == acc.blockType
    ensures b.noskip <==> acc.noskip || op == "noskip"
  {
  }

  /** The flag occurs among the tokens exactly when it is the first or occurs among the rest. */
  lemma FlagCons(ops: seq<string>)
    requires ops != []
    ensures "noskip" in ops <==> ops[0] == "noskip" || "noskip" in ops[1..]
  {
    assert ops == [ops[0]] + ops[1..];
  }

  /** The last assignment in a list of tokens comes from the rest if any, else from the head. */
  lemma LastValueCons(ops: seq<string>, f: Field)
    requires ops != []
    ensures LastValue(ops, f) == if LastValue(ops[1..], f).Some? then LastValue(ops[1..], f) else LastValue([ops[0]], f)
  {
    assert [ops[0]][1..] == [];
  }

  /** A token changes the field it assigns and no other. */
  lemma StepField(acc: BlockArgs, op: string, b: BlockArgs, f: Field)
    requires Step(acc, op) == Ok(b)
    ensures Get(b, f) == if LastValue([op], f).Some? then LastValue([op], f) else Get(acc, f)
  {
    assert [op][1..] == [];
  }

  lemma {:induction false} ApplyTokensErr(acc: BlockArgs, ops: seq<string>)
    ensures ApplyTokens(acc, ops).Err? <==> exists i :: 0 <= i < |ops| && ReadToken(ops[i]).Bad?
    decreases |ops|
  {
    if ops != [] {
      match Step(acc, ops[0])
      case Err(_) =>
      case Ok(b) =>
        ApplyTokensErr(b, ops[1..]);
        if exists i :: 0 <= i < |ops| && ReadToken(ops[i]).Bad? {
          var i :| 0 <= i < |ops| && ReadToken(ops[i]).Bad?;
          assert ops[1..][i - 1] == ops[i];
        }
        if exists i :: 0 <= i < |ops[1..]| && ReadToken(ops[1..][i]).Bad? {
          var i :| 0 <= i < |ops[1..]| && ReadToken(ops[1..][i]).Bad?;
          assert ops[i + 1] == ops[1..][i];
        }
    }
  }

  /** A decoded record: the block type is the first piece, noskip is set exactly
      when a "noskip" piece follows, and every argument holds the value of the
      last piece that names its key (absent when none does). */
  lemma DecodeOk(s: string, a: BlockArgs)
    requires Decode(s) == Ok(a)
    ensures a.blockType == Split(s, '_')[0]
    ensures a.noskip <==> "noskip" in Split(s, '_')[1..]
    ensures a.repeat.Some?
    ensures forall f :: Get(a, f) == LastValue(Split(s, '_')[1..], f)
  {
    var parts := Split(s, '_');
    ApplyTokensOk(Initial(parts[0]), parts[1..], a);
  }

  /** Decoding fails exactly when some piece after the block type has no digit,
      an unknown key or an unreadable value, or no piece sets the repeat count. */
  lemma DecodeFails(s: string)
    ensures Decode(s).Err? <==>
      (exists i :: 1 <= i < |Split(s, '_')| && ReadToken(Split(s, '_')[i]).Bad?) ||
      LastValue(Split(s, '_')[1..], Repeat).None?
  {
    var parts := Split(s, '_');
    var ops := parts[1..];
    ApplyTokensErr(Initial(parts[0]), ops);
    if exists i :: 1 <= i < |parts| && ReadToken(parts[i]).Bad? {
      var i :| 1 <= i < |parts| && ReadToken(parts[i]).Bad?;
      assert ops[i - 1] == parts[i];
    }
    if exists i :: 0 <= i < |ops| && ReadToken(ops[i]).Bad? {
      var i :| 0 <= i < |ops| && ReadToken(ops[i]).Bad?;
      assert parts[i + 1] == ops[i];
    }
    match ApplyTokens(Initial(parts[0]), ops)
    case Err(_) =>
    case Ok(a) =>
      ApplyTokensOk(Initial(parts[0]), ops, a);
      assert Get(a, Repeat) == LastValue(ops, Repeat);
  }

  // ---------------------------------------------------------------------------
  // Writing a record back as a block string

  /** The order in which the arguments are written back. */
  const AllFields: seq<Field> := [Repeat, KernelSize, Stride, ExpRatio, MidChannel, OutChannel, SeRatio]

  lemma AllFieldsComplete(f: Field)
    ensures f in AllFields
  {
  }

  function ValueText(v: Value): (t: string)
    ensures |t| >= 1 && IsDigit(t[0])
  {
    match v
    case IntValue(n) => NatToString(n)
    case DecimalValue(d) => DecimalToString(d)
  }

  /** One key-value piece per argument that is present, in the order of fs. */
  function TokensFor(a: BlockArgs, fs: seq<Field>): seq<string>
  {
    if fs == [] then []
    else
      (if Get(a, fs[0]).Some? then [KeyOf(fs[0]) + ValueText(Get(a, fs[0]).value)] else []) +
      TokensFor(a, fs[1..])
  }

  function Pieces(a: BlockArgs): seq<string>
  {
    [a.blockType] + TokensFor(a, AllFields) + (if a.noskip then ["noskip"] else [])
  }

  /** The block string of an argument record: its block type, then its arguments, then the flag. */
  function Encode(a: BlockArgs): string
  {
    Join(Pieces(a), '_')
  }

  predicate NumeralText(s: string)
  {
    forall i :: 0 <= i < |s| ==> IsDigit(s[i]) || s[i] == '.'
  }

  lemma ValueTextChars(v: Value)
    ensures NumeralText(ValueText(v))
  {
    match v
    case IntValue(n) =>
    case DecimalValue(d) =>
      if d.scale > 0 {
        var p := Pow10(d.scale);
        var whole := NatToString(Quot(d.mantissa, p));
        var frac := PadLeft(NatToString(Rem(d.mantissa, p)), d.scale);
        assert DecimalToString(d) == whole + "." + frac;
      }
  }

  lemma {:induction false} FirstDigitAfterKey(key: string, t: string)
    requires forall i :: 0 <= i < |key| ==> 'a' <= key[i] <= 'z'
    requires |t| >= 1 && IsDigit(t[0])
    ensures FirstDigit(key + t) == Some(|key|)
  {
    if key != [] {
      assert (key + t)[1..] == key[1..] + t;
      FirstDigitAfterKey(key[1..], t);
    }
  }

  /** A written piece reads back as the assignment it was written from. */
  lemma ReadWrittenPiece(f: Field, v: Value)
    requires Fits(f, v)
    ensures ReadToken(KeyOf(f) + ValueText(v)) == Assign(f, v)
  {
    var key, t := KeyOf(f), ValueText(v);
    var op := key + t;
    assert op != "noskip" by {
      assert IsDigit(op[|key|]);
      assert |key| <= 2;
    }
    FirstDigitAfterKey(key, t);
    ValueTextChars(v);
    assert '\n' !in t by {
      forall i | 0 <= i < |t| ensures t[i] != '\n' { }
    }
    assert op[..|key|] == key && op[|key|..] == t;
    KeyTable(f);
    match v
    case IntValue(n) => ParseIntOfString(n);
    case DecimalValue(d) => DecimalRoundTrip(d);
  }

  lemma {:induction false} ApplyAppend(acc: BlockArgs, xs: seq<string>, ys: seq<string>)
    ensures ApplyTokens(acc, xs + ys) ==
            match ApplyTokens(acc, xs)
            case Ok(b) => ApplyTokens(b, ys)
            case Err(e) => Err(e)
    decreases |xs|
  {
    if xs != [] {
      assert (xs + ys)[0] == xs[0] && (xs + ys)[1..] == xs[1..] + ys;
      match Step(acc, xs[0])
      case Err(_) =>
      case Ok(b) => ApplyAppend(b, xs[1..], ys);
    } else {
      assert xs + ys == ys;
    }
  }

  /** acc with the arguments in fs that a has taken from a. */
  function CopyFields(acc: BlockArgs, a: BlockArgs, fs: seq<Field>): (b: BlockArgs)
    ensures b.blockType == acc.blockType && b.noskip == acc.noskip
    ensures forall g :: Get(b, g) == if g in fs && Get(a, g).Some? then Get(a, g) else Get(acc, g)
    decreases |fs|
  {
    if fs == [] then acc
    else
      var next := if Get(a, fs[0]).Some? then Set(acc, fs[0], Get(a, fs[0]).value) else acc;
      CopyFields(next, a, fs[1..])
  }

  lemma {:induction false} ApplyWritten(acc: BlockArgs, a: BlockArgs, fs: seq<Field>)
    ensures ApplyTokens(acc, TokensFor(a, fs)) == Ok(CopyFields(acc, a, fs))
    decreases |fs|
  {
    if fs != [] {
      var f := fs[0];
      if Get(a, f).Some? {
        var piece := KeyOf(f) + ValueText(Get(a, f).value);
        ReadWrittenPiece(f, Get(a, f).value);
        ApplyAppend(acc, [piece], TokensFor(a, fs[1..]));
        ApplyWritten(Set(acc, f, Get(a, f).value), a, fs[1..]);
      } else {
        assert TokensFor(a, fs) == TokensFor(a, fs[1..]);
        ApplyWritten(acc, a, fs[1..]);
      }
    }
  }

  lemma {:induction false} WrittenPiecesHaveNoSeparator(a: BlockArgs, fs: seq<Field>)
    ensures forall i :: 0 <= i < |TokensFor(a, fs)| ==> '_' !in TokensFor(a, fs)[i]
    decreases |fs|
  {
    if fs != [] {
      WrittenPiecesHaveNoSeparator(a, fs[1..]);
      var f := fs[0];
      if Get(a, f).Some? {
        var t := ValueText(Get(a, f).value);
        ValueTextChars(Get(a, f).value);
        var piece := KeyOf(f) + t;
        forall i | 0 <= i < |piece| ensures piece[i] != '_' {
          if i >= |KeyOf(f)| {
            assert piece[i] == t[i - |KeyOf(f)|];
          }
        }
      }
    }
  }

  lemma SplitEncoded(a: BlockArgs)
    requires '_' !in a.blockType
    ensures Split(Encode(a), '_') == Pieces(a)
  {
    var toks := TokensFor(a, AllFields);
    var parts := Pieces(a);
    WrittenPiecesHaveNoSeparator(a, AllFields);
    forall i | 0 <= i < |parts| ensures '_' !in parts[i] {
      if 1 <= i < 1 + |toks| {
        assert parts[i] == toks[i - 1];
      }
    }
    JoinSplit(parts, '_');
  }

  lemma ApplyFlag(b: BlockArgs, noskip: bool)
    ensures ApplyTokens(b, if noskip then ["noskip"] else []) == Ok(b.(noskip := b.noskip || noskip))
  {
    if noskip {
      assert ReadToken("noskip") == Flag;
    }
  }

  lemma CopyEvery(acc: BlockArgs, a: BlockArgs, fs: seq<Field>)
    requires acc.blockType == a.blockType
    requires forall f :: f in fs
    requires forall f :: Get(acc, f).None?
    ensures CopyFields(acc, a, fs).(noskip := a.noskip) == a
  {
    var b := CopyFields(acc, a, fs).(noskip := a.noskip);
    forall f ensures Get(b, f) == Get(a, f) {
      assert f in fs;
    }
    ArgsExtensional(b, a);
  }

  lemma CopyAll(a: BlockArgs)
    ensures CopyFields(Initial(a.blockType), a, AllFields).(noskip := a.noskip) == a
  {
    forall f ensures f in AllFields {
      AllFieldsComplete(f);
    }
    CopyEvery(Initial(a.blockType), a, AllFields);
  }

  lemma ApplyEncoded(a: BlockArgs)
    ensures ApplyTokens(Initial(a.blockType), Pieces(a)[1..]) == Ok(a)
  {
    var toks := TokensFor(a, AllFields);
    var flag: seq<string> := if a.noskip then ["noskip"] else [];
    assert Pieces(a)[1..] == toks + flag;
    ApplyAppend(Initial(a.blockType), toks, flag);
    ApplyWritten(Initial(a.blockType), a, AllFields);
    ApplyFlag(CopyFields(Initial(a.blockType), a, AllFields), a.noskip);
    CopyAll(a);
  }

  /** Writing a record back and decoding it again gives the record, whenever its
      block type has no '_' and it carries a repeat count. */
  lemma EncodeDecode(a: BlockArgs)
    requires '_' !in a.blockType && a.repeat.Some?
    ensures Decode(Encode(a)) == Ok(a)
  {
    SplitEncoded(a);
    ApplyEncoded(a);
  }
}
