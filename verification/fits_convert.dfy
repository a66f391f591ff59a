/** Conversion of `unsigned long` input values to the integer types of a FITS
    column, for an unscaled column (TSCALn = 1, TZEROn = 0). Values that do not
    fit a narrower type are saturated to its maximum and flag OVERFLOW_ERR;
    the 64-bit target takes every value's bit pattern unchanged. */
module FitsConvert {

  /** cfitsio's internal status for a conversion that had to saturate. */
  const OverflowErr: int := -11

  /** `unsigned long` on an LP64 platform. */
  const ULongModulus: int := 0x1_0000_0000_0000_0000
  type ULong = x: int | 0 <= x < ULongModulus

  const UCharMax: int := 255
  const ShrtMax: int := 32767
  const Int32Max: int := 2147483647
  const LongLongMax: int := 0x7FFF_FFFF_FFFF_FFFF
  const LongLongMin: int := -0x8000_0000_0000_0000

  /** One value after saturation at `max`. */
  function Clamp(x: ULong, max: int): int {
    if x > max then max else x
  }

  /** Does some value of `input` exceed `max`? */
  predicate AnyAbove(input: seq<ULong>, max: int) {
    exists i :: 0 <= i < |input| && input[i] > max
  }

  /** The unscaled loop shared by the 8-, 16- and 32-bit converters: copy the
      values that fit, saturate the rest, and set OVERFLOW_ERR when any value
      had to be saturated (the incoming status survives otherwise). */
  method Saturate(input: seq<ULong>, max: nat, status: int) returns (output: seq<int>, st: int)
    ensures |output| == |input|
    ensures forall i :: 0 <= i < |input| ==> 0 <= output[i] <= max
    ensures forall i :: 0 <= i < |input| ==> (output[i] == input[i] <==> input[i] <= max)
    ensures forall i :: 0 <= i < |input| ==> output[i] == Clamp(input[i], max)
    ensures st == if AnyAbove(input, max) then OverflowErr else status
  {
    output := [];
    st := status;
    var ii := 0;
    while ii < |input|
      invariant 0 <= ii <= |input| && |output| == ii
      invariant forall i :: 0 <= i < ii ==> output[i] == Clamp(input[i], max)
      invariant st == if AnyAbove(input[..ii], max) then OverflowErr else status
    {
      assert input[..ii + 1] == input[..ii] + [input[ii]];
      if input[ii] > max {
        st := OverflowErr;
        output := output + [max];
      } else {
        output := output + [input[ii]];
      }
      ii := ii + 1;
    }
    assert input[..ii] == input;
  }

  /** `ffu4fi1`, unscaled branch: to `unsigned char`. */
  method ToUChar(input: seq<ULong>, status: int) returns (output: seq<int>, st: int)
    ensures |output| == |input|
    ensures forall i :: 0 <= i < |input| ==> 0 <= output[i] <= UCharMax
    ensures forall i :: 0 <= i < |input| ==> (output[i] == input[i] <==> input[i] <= UCharMax)
    ensures forall i :: 0 <= i < |input| && input[i] > UCharMax ==> output[i] == UCharMax
    ensures st == if AnyAbove(input, UCharMax) then OverflowErr else status
  {
    output, st := Saturate(input, UCharMax, status);
  }

  /** `ffu4fi2`, unscaled branch: to `short`. No input is negative, so only the
      upper bound can be hit. */
  method ToShort(input: seq<ULong>, status: int) returns (output: seq<int>, st: int)
    ensures |output| == |input|
    ensures forall i :: 0 <= i < |input| ==> 0 <= output[i] <= ShrtMax
    ensures forall i :: 0 <= i < |input| ==> (output[i] == input[i] <==> input[i] <= ShrtMax)
    ensures forall i :: 0 <= i < |input| && input[i] > ShrtMax ==> output[i] == ShrtMax
    ensures st == if AnyAbove(input, ShrtMax) then OverflowErr else status
  {
    output, st := Saturate(input, ShrtMax, status);
  }

  /** `ffu4fi4`, unscaled branch: to a 32-bit integer. */
  method ToInt32(input: seq<ULong>, status: int) returns (output: seq<int>, st: int)
    ensures |output| == |input|
    ensures forall i :: 0 <= i < |input| ==> 0 <= output[i] <= Int32Max
    ensures forall i :: 0 <= i < |input| ==> (output[i] == input[i] <==> input[i] <= Int32Max)
    ensures forall i :: 0 <= i < |input| && input[i] > Int32Max ==> output[i] == Int32Max
    ensures st == if AnyAbove(input, Int32Max) then OverflowErr else status
  {
    output, st := Saturate(input, Int32Max, status);
  }

  /** The C conversion of an `unsigned long` to `LONGLONG`: values above
      LONGLONG_MAX come out negative, with the same 64 bits. */
  function AsLongLong(x: ULong): int {
    if x > LongLongMax then x - ULongModulus else x
  }

  /** Reading a `LONGLONG` back as 64 unsigned bits. */
  function AsULong(y: int): int {
    if y < 0 then y + ULongModulus else y
  }

  /** `ffu4fi8`, unscaled branch: a plain copy. Every value keeps its bit
      pattern, and the status is never touched. */
  method ToLongLong(input: seq<ULong>, status: int) returns (output: seq<int>, st: int)
    ensures |output| == |input|
    ensures forall i :: 0 <= i < |input| ==> LongLongMin <= output[i] <= LongLongMax
    ensures forall i :: 0 <= i < |input| ==> AsULong(output[i]) == input[i]
    ensures forall i :: 0 <= i < |input| ==> (output[i] == input[i] <==> input[i] <= LongLongMax)
    ensures st == status
  {
    output := [];
    var ii := 0;
    while ii < |input|
      invariant 0 <= ii <= |input| && |output| == ii
      invariant forall i :: 0 <= i < ii ==> output[i] == AsLongLong(input[i])
    {
      output := output + [AsLongLong(input[ii])];
      ii := ii + 1;
    }
    st := status;
  }
}
