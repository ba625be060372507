/** Padding resolution for the network's convolutions: the choice between
    static and dynamic TensorFlow-style 'same' padding, the amount of dynamic
    padding for an input length, and its split between the two edges. */
module Padding {
  import opened Base

  /** The padding argument of a convolution: a mode name, or an explicit amount. */
  datatype PadSpec = PadName(name: string) | PadAmount(amount: int)

  /** Resolved padding: the static amount, and whether 'same' padding must be computed per input. */
  datatype Resolved = Resolved(amount: int, dynamic: bool)

  /** Python's str.lower() on the ASCII letters. */
  function LowerChar(c: char): (l: char)
    ensures 'A' <= c <= 'Z' ==> l as int == c as int + 32
    ensures !('A' <= c <= 'Z') ==> l == c
  {
    if 'A' <= c <= 'Z' then (c as int + 32) as char else c
  }

  function Lower(s: string): (l: string)
    ensures |l| == |s| && forall i :: 0 <= i < |s| ==> l[i] == LowerChar(s[i])
  {
    seq(|s|, i requires 0 <= i < |s| => LowerChar(s[i]))
  }

  predicate IsMode(padding: PadSpec, mode: string)
  {
    padding.PadName? && Lower(padding.name) == mode
  }

  /** Picks static or dynamic 'same' padding (get_padding). The mode name is
      compared after lower-casing; 'same' is static exactly when the stride is
      1 and the dilated kernel extent is even, and then pads half of it on each
      side; 'valid' pads nothing; any other name pads symmetrically; an explicit
      amount passes through. */
  function GetPadding(padding: PadSpec, kernel: int, stride: int, dilation: int): (r: Resolved)
    ensures r.dynamic <==> IsMode(padding, "same") && !(stride == 1 && (dilation * (kernel - 1)) % 2 == 0)
    ensures r.dynamic ==> r.amount == 0
    ensures IsMode(padding, "same") && !r.dynamic ==> 2 * r.amount == dilation * (kernel - 1)
    ensures IsMode(padding, "valid") ==> r == Resolved(0, false)
    ensures padding.PadName? && !IsMode(padding, "same") && !IsMode(padding, "valid") ==>
              r == Resolved(((stride - 1) + dilation * (kernel - 1)) / 2, false)
    ensures padding.PadAmount? ==> r == Resolved(padding.amount, false)
  {
    match padding
    case PadAmount(p) => Resolved(p, false)
    case PadName(name) =>
      var mode := Lower(name);
      if mode == "same" then
        if stride == 1 && (dilation * (kernel - 1)) % 2 == 0 then
          Resolved(((stride - 1) + dilation * (kernel - 1)) / 2, false)
        else
          Resolved(0, true)
      else if mode == "valid" then
        Resolved(0, false)
      else
        Resolved(((stride - 1) + dilation * (kernel - 1)) / 2, false)
  }

  /** Output length of a convolution over an input of length x padded by lo and hi. */
  function ConvOutLength(x: int, lo: int, hi: int, kernel: int, stride: int, dilation: int): int
    requires stride >= 1
  {
    (x + lo + hi - dilation * (kernel - 1) - 1) / stride + 1
  }

  /** Static 'same' padding at stride 1 leaves the length unchanged. */
  lemma StaticSameKeepsLength(padding: PadSpec, x: int, kernel: int, dilation: int)
    requires IsMode(padding, "same") && !GetPadding(padding, kernel, 1, dilation).dynamic
    ensures var p := GetPadding(padding, kernel, 1, dilation).amount;
            ConvOutLength(x, p, p, kernel, 1, dilation) == x
  {
  }

  /** TensorFlow-style 'same' padding for one axis (get_same_padding). */
  function GetSamePadding(x: int, kernel: int, stride: int, dilation: int): (pad: int)
    requires stride >= 1
    ensures pad >= 0
    ensures pad > 0 ==> pad == (Ceil(x, stride) - 1) * stride + (kernel - 1) * dilation + 1 - x
  {
    Max((Ceil(x, stride) - 1) * stride + (kernel - 1) * dilation + 1 - x, 0)
  }

  /** With the dynamic padding in place the convolution yields ceil(x / stride)
      outputs, and one pad element less would yield fewer. */
  lemma SamePaddingOutputLength(x: int, kernel: int, stride: int, dilation: int)
    requires stride >= 1 && kernel >= 1 && dilation >= 0
    ensures var pad := GetSamePadding(x, kernel, stride, dilation);
            ConvOutLength(x, pad, 0, kernel, stride, dilation) == Ceil(x, stride)
    ensures var pad := GetSamePadding(x, kernel, stride, dilation);
            pad > 0 ==> ConvOutLength(x, pad - 1, 0, kernel, stride, dilation) < Ceil(x, stride)
  {
    var pad := GetSamePadding(x, kernel, stride, dilation);
    var c := Ceil(x, stride);
    var extent := dilation * (kernel - 1);
    assert extent >= 0;
    var n := x + pad - extent - 1;
    assert (c - 1) * stride <= n < c * stride;
    DivUnique(n, stride, c - 1, n - (c - 1) * stride);
    if pad > 0 {
      assert n - 1 == (c - 2) * stride + (stride - 1);
      DivUnique(n - 1, stride, c - 2, stride - 1);
    }
  }

  /** Splits a padding amount between the leading and the trailing edge. */
  function SplitPad(pad: int): (r: (int, int))
    ensures r.0 + r.1 == pad
    ensures 0 <= r.1 - r.0 <= 1
    ensures r.1 - r.0 == pad % 2
  {
    (pad / 2, pad - pad / 2)
  }

  /** Arguments of the zero-padding call: left, right, top, bottom. */
  datatype Pad4 = Pad4(left: int, right: int, top: int, bottom: int)

  /** Dynamic 'same' padding of an h x w input (pad_same): None when neither axis needs padding. */
  function PadSame(h: int, w: int, kh: int, kw: int, sh: int, sw: int, dh: int, dw: int): (r: Option<Pad4>)
    requires sh >= 1 && sw >= 1
    ensures r.None? <==> GetSamePadding(h, kh, sh, dh) == 0 && GetSamePadding(w, kw, sw, dw) == 0
    ensures r.Some? ==> r.value.left + r.value.right == GetSamePadding(w, kw, sw, dw)
    ensures r.Some? ==> r.value.top + r.value.bottom == GetSamePadding(h, kh, sh, dh)
    ensures r.Some? ==> 0 <= r.value.right - r.value.left <= 1 && 0 <= r.value.bottom - r.value.top <= 1
  {
    var padH := GetSamePadding(h, kh, sh, dh);
    var padW := GetSamePadding(w, kw, sw, dw);
    if padH > 0 || padW > 0 then
      var (l, rt) := SplitPad(padW);
      var (t, b) := SplitPad(padH);
      Some(Pad4(l, rt, t, b))
    else
      None
  }

  /** Output size of a dynamically padded convolution (conv2d_same): the padded
      input, convolved without further padding, has ceil(h / sh) x ceil(w / sw) outputs. */
  lemma Conv2dSameOutputSize(h: int, w: int, kh: int, kw: int, sh: int, sw: int, dh: int, dw: int)
    requires sh >= 1 && sw >= 1 && kh >= 1 && kw >= 1 && dh >= 0 && dw >= 0
    ensures var p := PadSame(h, w, kh, kw, sh, sw, dh, dw).GetOr(Pad4(0, 0, 0, 0));
            ConvOutLength(h, p.top, p.bottom, kh, sh, dh) == Ceil(h, sh) &&
            ConvOutLength(w, p.left, p.right, kw, sw, dw) == Ceil(w, sw)
  {
    var p := PadSame(h, w, kh, kw, sh, sw, dh, dw).GetOr(Pad4(0, 0, 0, 0));
    assert ConvOutLength(h, p.top, p.bottom, kh, sh, dh) == Ceil(h, sh) by {
      SamePaddingOutputLength(h, kh, sh, dh);
      SplitOutputLength(h, p.top, p.bottom, GetSamePadding(h, kh, sh, dh), kh, sh, dh);
    }
    assert ConvOutLength(w, p.left, p.right, kw, sw, dw) == Ceil(w, sw) by {
      SamePaddingOutputLength(w, kw, sw, dw);
      SplitOutputLength(w, p.left, p.right, GetSamePadding(w, kw, sw, dw), kw, sw, dw);
    }
  }

  /** Only the total padding of an axis matters for its output length. */
  lemma SplitOutputLength(x: int, lo: int, hi: int, pad: int, kernel: int, stride: int, dilation: int)
    requires stride >= 1 && lo + hi == pad
    ensures ConvOutLength(x, lo, hi, kernel, stride, dilation) == ConvOutLength(x, pad, 0, kernel, stride, dilation)
  {
  }

  /** A 7-long input, kernel 3, stride 2, dilation 1: padding 2, one element on each edge. */
  lemma SevenByKernelThreeStrideTwo()
    ensures GetSamePadding(7, 3, 2, 1) == 2
    ensures PadSame(7, 7, 3, 3, 2, 2, 1, 1) == Some(Pad4(1, 1, 1, 1))
  {
  }
}
