/**
  AES in ECB mode (`AES.new(AES_KEY, AES.MODE_ECB)`). The block cipher
  itself is not modelled: it is any keyed map on 16-byte blocks, supplied as
  a value, and the round-trip facts assume its decryption inverts its
  encryption. ECB applies it to each block independently.
 */
module Ecb {
  import opened Bytes
  import opened Results

  const BlockSize := 16

  type Block = s: seq<byte> | |s| == BlockSize witness seq(BlockSize, _ => 0)

  /** The block cipher engine: encryption and decryption of one block under a key. */
  datatype BlockCipher = BlockCipher(encrypt: (seq<byte>, Block) -> Block, decrypt: (seq<byte>, Block) -> Block)

  /** Decryption undoes encryption under every key: what AES guarantees. */
  ghost predicate Inverts(c: BlockCipher) {
    forall k, b :: c.decrypt(k, c.encrypt(k, b)) == b
  }

  /** The library's `ValueError` for input that is not whole blocks. */
  datatype CipherError = NotBlockAligned   // "Data must be aligned to block boundary in ECB mode"

  /** `f` applied to each 16-byte block of `x` in turn, with no chaining. */
  function Blockwise(f: Block -> Block, x: seq<byte>): (r: seq<byte>)
    requires |x| % BlockSize == 0
    ensures |r| == |x|
    decreases |x|
  {
    if |x| == 0 then [] else f(x[..BlockSize]) + Blockwise(f, x[BlockSize..])
  }

  /** `cipher.encrypt(x)`; only whole blocks are accepted. */
  function Encrypt(c: BlockCipher, key: seq<byte>, x: seq<byte>): (r: Result<seq<byte>, CipherError>)
    ensures r.Success? <==> |x| % BlockSize == 0
    ensures r.Success? ==> |r.value| == |x|
  {
    if |x| % BlockSize != 0 then Failure(NotBlockAligned)
    else Success(Blockwise((b: Block) => c.encrypt(key, b), x))
  }

  /** `cipher.decrypt(x)`; only whole blocks are accepted (an empty input is zero blocks). */
  function Decrypt(c: BlockCipher, key: seq<byte>, x: seq<byte>): (r: Result<seq<byte>, CipherError>)
    ensures r.Success? <==> |x| % BlockSize == 0
    ensures r.Success? ==> |r.value| == |x|
  {
    if |x| % BlockSize != 0 then Failure(NotBlockAligned)
    else Success(Blockwise((b: Block) => c.decrypt(key, b), x))
  }

  /** No chaining: the mode on a concatenation of whole blocks is the concatenation of the modes. */
  lemma {:induction false} BlockwiseAppend(f: Block -> Block, a: seq<byte>, b: seq<byte>)
    requires |a| % BlockSize == 0 && |b| % BlockSize == 0
    ensures Blockwise(f, a + b) == Blockwise(f, a) + Blockwise(f, b)
    decreases |a|
  {
    if |a| == 0 {
      assert a + b == b;
    } else {
      assert (a + b)[..BlockSize] == a[..BlockSize];
      assert (a + b)[BlockSize..] == a[BlockSize..] + b;
      BlockwiseAppend(f, a[BlockSize..], b);
    }
  }

  lemma {:induction false} BlockwiseInverse(c: BlockCipher, key: seq<byte>, x: seq<byte>)
    requires Inverts(c) && |x| % BlockSize == 0
    ensures Blockwise((b: Block) => c.decrypt(key, b), Blockwise((b: Block) => c.encrypt(key, b), x)) == x
    decreases |x|
  {
    var e := (b: Block) => c.encrypt(key, b);
    var d := (b: Block) => c.decrypt(key, b);
    if |x| > 0 {
      var y := Blockwise(e, x);
      assert y == e(x[..BlockSize]) + Blockwise(e, x[BlockSize..]);
      assert y[..BlockSize] == e(x[..BlockSize]);
      assert y[BlockSize..] == Blockwise(e, x[BlockSize..]);
      BlockwiseInverse(c, key, x[BlockSize..]);
      assert d(e(x[..BlockSize])) == x[..BlockSize];
      assert x == x[..BlockSize] + x[BlockSize..];
    }
  }

  /** Under an inverting cipher, ECB decryption recovers any block-aligned plaintext. */
  lemma DecryptEncrypt(c: BlockCipher, key: seq<byte>, x: seq<byte>)
    requires Inverts(c) && |x| % BlockSize == 0
    ensures Encrypt(c, key, x).Success?
    ensures Decrypt(c, key, Encrypt(c, key, x).value) == Success(x)
  {
    BlockwiseInverse(c, key, x);
  }
}
