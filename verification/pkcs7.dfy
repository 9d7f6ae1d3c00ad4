/**
  PKCS#7 padding for a 16-byte block (section 6.3 of RFC 5652, section 10.3
  of RFC 2315), as `Crypto.Util.Padding.pad` and `unpad` implement it with
  `style='pkcs7'`.
 */
module Pkcs7 {
  import opened Bytes
  import opened Results

  /** `AES.block_size`. */
  const BlockSize := 16

  /** The `ValueError` messages `unpad` can raise. */
  datatype PadError =
    | EmptyInput        // "Zero-length input cannot be unpadded"
    | NotAligned        // "Input data is not padded"
    | CountOutOfRange   // "Padding is incorrect."
    | BytesMismatch     // "PKCS#7 padding is incorrect."

  /** `k` copies of the byte `k`. */
  function Run(k: byte): (r: seq<byte>)
    ensures |r| == k && forall i :: 0 <= i < |r| ==> r[i] == k
  {
    seq(k, _ => k)
  }

  /**
    `pad(x, 16)`: appends between 1 and 16 bytes, each holding the count
    appended, so that the result is a positive multiple of the block size.
   */
  function Pad(x: seq<byte>): (r: seq<byte>)
    ensures |r| % BlockSize == 0 && |x| < |r| <= |x| + BlockSize
    ensures r[..|x|] == x
    ensures forall i :: |x| <= i < |r| ==> r[i] == |r| - |x|
  {
    var k: byte := BlockSize - |x| % BlockSize;
    x + Run(k)
  }

  /** Every byte of `s[from..]` equals `n`. */
  predicate TailIs(s: seq<byte>, from: nat, n: int)
    requires from <= |s|
  {
    forall i :: from <= i < |s| ==> s[i] == n
  }

  /**
    `unpad(p, 16)`. The checks run in the library's order: empty input,
    length not a multiple of the block size, last byte outside 1..16, and one
    of the last `n` bytes different from `n`.
   */
  function Unpad(p: seq<byte>): (r: Result<seq<byte>, PadError>)
    ensures |p| == 0 ==> r == Failure(EmptyInput)
    ensures |p| > 0 && |p| % BlockSize != 0 ==> r == Failure(NotAligned)
    ensures |p| > 0 && |p| % BlockSize == 0 && !(1 <= p[|p| - 1] <= BlockSize) ==> r == Failure(CountOutOfRange)
    ensures (|p| > 0 && |p| % BlockSize == 0 && 1 <= p[|p| - 1] <= BlockSize
             && !TailIs(p, |p| - p[|p| - 1], p[|p| - 1])) ==> r == Failure(BytesMismatch)
    ensures r.Success? ==> Pad(r.value) == p
  {
    if |p| == 0 then Failure(EmptyInput)
    else if |p| % BlockSize != 0 then Failure(NotAligned)
    else
      var n := p[|p| - 1];
      // the library bounds n by min(block size, |p|); |p| >= 16 here
      if n < 1 || n > BlockSize then Failure(CountOutOfRange)
      else if !TailIs(p, |p| - n, n) then Failure(BytesMismatch)
      else
        var x := p[..|p| - n];
        assert p[|p| - n..] == Run(n);
        assert p == x + Run(n);
        Success(x)
  }

  /** `unpad(pad(x)) == x`: padding is always removable and removes exactly what was added. */
  lemma UnpadPad(x: seq<byte>)
    ensures Unpad(Pad(x)) == Success(x)
  {
    var p := Pad(x);
    var k := |p| - |x|;
    assert p[|p| - 1] == k;
    assert p[|p| - k..] == Run(k);
    assert p[..|p| - k] == x;
  }

  /** `unpad` succeeds on exactly the outputs of `pad`, and then returns their preimage. */
  lemma UnpadExactlyOnPadded(p: seq<byte>)
    ensures Unpad(p).Success? <==> exists x :: Pad(x) == p
    ensures forall x :: Pad(x) == p ==> Unpad(p) == Success(x)
  {
    forall x | Pad(x) == p
      ensures Unpad(p) == Success(x)
    {
      UnpadPad(x);
    }
  }
}
