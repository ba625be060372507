/** Shared vocabulary of the EfficientNet construction model: optional values,
    results that carry the configuration errors the builder raises, exact
    rationals for the multipliers and rates, and the integer roundings the
    builder relies on (ceiling division and Python's round-half-to-even). */
module Base {

  datatype Option<+T> = None | Some(value: T) {
    function GetOr(default: T): T {
      match this
      case Some(v) => v
      case None => default
    }
  }

  /** Every way construction of a network can fail. Each variant stands for
      one exception the builder raises; the comment names it. */
  datatype Error =
    | NoDigit(token: string)            // token without a digit (assert len(s) >= 2)
    | UnknownKey(key: string)           // key not in the decoder's argument map (KeyError)
    | BadNumber(text: string)           // int()/float() could not read the value (ValueError)
    | MissingRepeat                     // no 'r' token in a block string (assert)
    | ZeroRepeats                       // repeat budget of zero in the depth scaler (ZeroDivisionError)
    | MissingKey(name: string)          // layer argument absent (KeyError on 'stride' / 'out_channel')
    | BadStride(stride: int)            // stride outside {1, 2} (assert)
    | UnknownBlockType(name: string)    // block type outside the block map (KeyError)
    | UnexpectedArgument(name: string)  // keyword a block class does not accept (TypeError)
    | BadKernel(kernel: int)            // kernel size outside {3, 5} (assert)
    | StageIndexOutOfRange              // channel selection indexes past the stage list (IndexError)
    | BadStageCount(count: int)         // stage partition needs 6 or 7 stages (RuntimeError)
    | UnsupportedModel(name: string)    // model name not in the supported list (RuntimeError)
    | UnsupportedFeatureType(name: string) // feature type other than the two known (NotImplementedError)

  datatype Result<+T> = Ok(value: T) | Err(error: Error) {
    predicate IsFailure() { Err? }
    function PropagateFailure<U>(): Result<U>
      requires Err?
    {
      Err(error)
    }
    function Extract(): T
      requires Ok?
    {
      value
    }
  }

  datatype Outcome = Pass | Fail(error: Error)

  /** An exact rational num/den; the source holds these as Python floats. */
  datatype Rat = Rat(num: int, den: int) {
    predicate Valid() { den > 0 }
    predicate IsPositive() requires Valid() { num > 0 }
    predicate IsZero() requires Valid() { num == 0 }
  }

  const Zero: Rat := Rat(0, 1)

  function FromInt(n: int): (q: Rat)
    ensures q.Valid() && q.num == n * q.den
  {
    Rat(n, 1)
  }

  function Max(a: int, b: int): (m: int)
    ensures m >= a && m >= b && (m == a || m == b)
  {
    if a >= b then a else b
  }

  /** ceil(a / b) for b > 0 (Python's math.ceil of an exact quotient). */
  function Ceil(a: int, b: int): int
    requires b > 0
  {
    -((-a) / b)
  }

  /** Concatenation is associative. */
  lemma AppendAssoc<T>(a: seq<T>, b: seq<T>, c: seq<T>)
    ensures a + (b + c) == (a + b) + c
  {
  }

  lemma CeilBounds(a: int, b: int)
    requires b > 0
    ensures (Ceil(a, b) - 1) * b < a <= Ceil(a, b) * b
  {
  }

  /** round(a / b) with ties to the even neighbour, as Python's built-in round does. */
  function RoundHalfEven(a: int, b: int): (r: int)
    requires b > 0
    ensures a / b <= r <= a / b + 1
    ensures r == a / b + 1 ==> 2 * (a % b) >= b
    ensures r == a / b ==> 2 * (a % b) <= b
  {
    var q := a / b;
    var rem := a % b;
    if 2 * rem < b then q
    else if 2 * rem > b then q + 1
    else if q % 2 == 0 then q else q + 1
  }

  /** The rounding lies within half of b of a, and a tie goes to the even neighbour. */
  lemma RoundNearest(a: int, b: int)
    requires b > 0
    ensures var r := RoundHalfEven(a, b);
      -b <= 2 * (r * b - a) <= b &&
      (2 * (r * b - a) == b ==> r % 2 == 0) &&
      (2 * (r * b - a) == -b ==> r % 2 == 0)
  {
  }

  lemma {:induction false} MulAtLeast(k: int, b: int)
    requires k >= 1 && b >= 1
    ensures k * b >= b
    decreases k
  {
    if k > 1 {
      MulAtLeast(k - 1, b);
    }
  }

  /** A product with a positive factor is non-positive only if the other factor is. */
  lemma FactorSign(k: int, b: int)
    requires b > 0 && k * b <= 0
    ensures k <= 0
  {
    if k > 0 {
      MulAtLeast(k, b);
    }
  }

  /** A product with a positive factor is negative only if the other factor is. */
  lemma FactorSignStrict(k: int, b: int)
    requires b > 0 && k * b < 0
    ensures k < 0
  {
    if k > 0 {
      MulAtLeast(k, b);
    }
  }

  /** Floor division is determined by the quotient-remainder decomposition. */
  lemma DivUnique(a: int, b: int, q: int, r: int)
    requires b > 0 && a == q * b + r && 0 <= r < b
    ensures a / b == q && a % b == r
  {
    var q', r' := a / b, a % b;
    assert (q - q' - 1) * b < 0;
    FactorSignStrict(q - q' - 1, b);
    assert (q' - q - 1) * b < 0;
    FactorSignStrict(q' - q - 1, b);
  }

  /** A rounding within 1/2 of an exact quotient never passes an integer bound. */
  lemma RoundBelow(a: int, b: int, m: int)
    requires b > 0 && a <= m * b
    ensures RoundHalfEven(a, b) <= m
  {
    var r := RoundHalfEven(a, b);
    RoundNearest(a, b);
    assert (2 * r - 2 * m - 1) * b == 2 * (r * b - a) - b + 2 * (a - m * b);
    FactorSign(2 * r - 2 * m - 1, b);
  }

  /** An exact quotient rounds to itself. */
  lemma RoundExact(n: int, b: int)
    requires b > 0
    ensures RoundHalfEven(n * b, b) == n
  {
    DivUnique(n * b, b, n, 0);
  }

  /** Python's sum of a list of ints. */
  function Sum(s: seq<int>): int
  {
    if s == [] then 0 else Sum(s[..|s| - 1]) + s[|s| - 1]
  }

  function Reversed<T>(s: seq<T>): (r: seq<T>)
    ensures |r| == |s|
    ensures forall i :: 0 <= i < |s| ==> r[i] == s[|s| - 1 - i]
  {
    if s == [] then [] else [s[|s| - 1]] + Reversed(s[..|s| - 1])
  }
}
