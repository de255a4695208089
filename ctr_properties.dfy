/**
 * What a sequence of ProcessBlock calls computes. Over values: the keystream
 * is E(c), E(c + 1), E(c + 2), ... for the block function E of the keyed
 * cipher and the starting counter c, and each data block is XORed with the
 * keystream block of its position. On the engine: a loop of ProcessBlock
 * calls produces exactly that transform, and the reset and the counter
 * cycle behave accordingly.
 */
module CtrProperties {
  import opened Wrappers
  import opened BigEndianCounter
  import opened BlockCiphers
  import opened SicMode

  /** Byte-wise XOR of two blocks of one length. */
  function XorBlock(a: seq<bv8>, b: seq<bv8>): (r: seq<bv8>)
    requires |a| == |b|
    ensures |r| == |a|
  {
    seq(|a|, i requires 0 <= i < |a| => a[i] ^ b[i])
  }

  /** XORing the same keystream block twice gives back the data. */
  lemma {:induction false} XorBlockInvolution(k: seq<bv8>, p: seq<bv8>)
    requires |k| == |p|
    ensures XorBlock(k, XorBlock(k, p)) == p
  {
    forall i | 0 <= i < |p|
      ensures XorBlock(k, XorBlock(k, p))[i] == p[i]
    {
      assert k[i] ^ (k[i] ^ p[i]) == p[i];
    }
  }

  /** XORing a keystream block into zero bytes gives the keystream block itself. */
  lemma XorBlockZero(k: seq<bv8>)
    ensures XorBlock(k, Fill(|k|, 0)) == k
  {
    forall i | 0 <= i < |k|
      ensures XorBlock(k, Fill(|k|, 0))[i] == k[i]
    {
      assert k[i] ^ 0 == k[i];
    }
  }

  /** E maps n-byte blocks to n-byte blocks. */
  ghost predicate PreservesLength(E: seq<bv8> -> seq<bv8>, n: nat)
  {
    forall b :: |b| == n ==> |E(b)| == n
  }

  /** The first count keystream blocks from counter c: block i is E applied to c after i steps. */
  function Keystream(E: seq<bv8> -> seq<bv8>, c: seq<bv8>, count: nat): (ks: seq<seq<bv8>>)
    ensures |ks| == count
    ensures forall i :: 0 <= i < count ==> ks[i] == E(IncrementN(c, i))
    decreases count
  {
    if count == 0 then [] else [E(c)] + Keystream(E, Increment(c), count - 1)
  }

  /** CTR mode over whole blocks: each block XORed with the keystream block of its position. */
  function CtrTransform(E: seq<bv8> -> seq<bv8>, c: seq<bv8>, blocks: seq<seq<bv8>>): (out: seq<seq<bv8>>)
    requires PreservesLength(E, |c|)
    requires forall i :: 0 <= i < |blocks| ==> |blocks[i]| == |c|
    ensures |out| == |blocks|
    ensures forall i :: 0 <= i < |blocks| ==>
              (|E(IncrementN(c, i))| == |c| && out[i] == XorBlock(E(IncrementN(c, i)), blocks[i]))
    decreases |blocks|
  {
    if blocks == [] then []
    else
      assert |E(c)| == |c|;
      [XorBlock(E(c), blocks[0])] + CtrTransform(E, Increment(c), blocks[1..])
  }

  /** Transforming one more block appends that block XOR the keystream block of its position. */
  lemma {:induction false} CtrTransformSnoc(E: seq<bv8> -> seq<bv8>, c: seq<bv8>, blocks: seq<seq<bv8>>, i: nat)
    requires PreservesLength(E, |c|)
    requires forall j :: 0 <= j < |blocks| ==> |blocks[j]| == |c|
    requires i < |blocks|
    ensures |E(IncrementN(c, i))| == |c|
    ensures CtrTransform(E, c, blocks[..i + 1]) ==
              CtrTransform(E, c, blocks[..i]) + [XorBlock(E(IncrementN(c, i)), blocks[i])]
  {
    var longer, shorter := CtrTransform(E, c, blocks[..i + 1]), CtrTransform(E, c, blocks[..i]);
    var appended := shorter + [XorBlock(E(IncrementN(c, i)), blocks[i])];
    forall j | 0 <= j <= i
      ensures longer[j] == appended[j]
    {
      assert blocks[..i + 1][j] == blocks[j];
      if j < i {
        assert blocks[..i][j] == blocks[j];
      }
    }
  }

  /**
   * Decryption is encryption: running CTR mode again from the same counter
   * recovers the data.
   */
  lemma {:induction false} CtrInvolution(E: seq<bv8> -> seq<bv8>, c: seq<bv8>, blocks: seq<seq<bv8>>)
    requires PreservesLength(E, |c|)
    requires forall i :: 0 <= i < |blocks| ==> |blocks[i]| == |c|
    ensures CtrTransform(E, c, CtrTransform(E, c, blocks)) == blocks
  {
    var once := CtrTransform(E, c, blocks);
    var twice := CtrTransform(E, c, once);
    forall i | 0 <= i < |blocks|
      ensures twice[i] == blocks[i]
    {
      XorBlockInvolution(E(IncrementN(c, i)), blocks[i]);
    }
  }

  /**
   * The keystream repeats after 256^n blocks for an n-byte counter, and is
   * periodic from there on: block 256^n + i equals block i.
   */
  lemma {:induction false} KeystreamPeriodic(E: seq<bv8> -> seq<bv8>, c: seq<bv8>, count: nat, i: nat)
    requires Pow256(|c|) + i < count
    ensures Keystream(E, c, count)[Pow256(|c|) + i] == Keystream(E, c, count)[i]
  {
    CounterPeriodic(c, i);
  }

  /**
   * With a one-byte block the counter comes back to its start after 256
   * blocks, so keystream block 257 is keystream block 1 again.
   */
  lemma {:induction false} OneByteCounterCycle(E: seq<bv8> -> seq<bv8>, c: seq<bv8>)
    requires |c| == 1
    ensures IncrementN(c, 256) == c
    ensures Keystream(E, c, 257)[256] == Keystream(E, c, 257)[0]
  {
    assert Pow256(1) == 256;
    CounterCycle(c);
    KeystreamPeriodic(E, c, 257, 0);
  }

  /**
   * Encrypting one block, resetting and processing the ciphertext again gives
   * back the plaintext. Reset restores the counter, and the key and
   * direction of the cipher did not change in between, so both calls use the
   * same keystream block.
   */
  method ResetRestartsKeystream(engine: SicBlockCipher, plain: array<bv8>, cipherText: array<bv8>, recovered: array<bv8>)
    requires engine.Valid() && engine.iv != null && engine.iv.Length >= engine.blockSize
    requires plain.Length == engine.blockSize && cipherText.Length == engine.blockSize
    requires recovered.Length == engine.blockSize
    requires plain !in engine.Repr && cipherText !in engine.Repr && recovered !in engine.Repr
    requires plain != cipherText && cipherText != recovered && plain != recovered
    modifies engine.counter, engine.counterOut, engine.cipher`resets, cipherText, recovered
    ensures recovered[..] == plain[..]
    ensures cipherText[..] == XorBlock(engine.cipher.Apply(engine.iv[..engine.blockSize]), plain[..])
  {
    var n := engine.blockSize;
    var r := engine.Reset();
    ghost var ks := engine.cipher.Apply(engine.iv[..n]);
    var e := engine.ProcessBlock(plain, 0, cipherText, 0);
    assert cipherText[..] == XorBlock(ks, plain[..]);
    r := engine.Reset();
    var d := engine.ProcessBlock(cipherText, 0, recovered, 0);
    assert recovered[..] == XorBlock(ks, cipherText[..]);
    XorBlockInvolution(ks, plain[..]);
  }

  /**
   * Init keeps its own copy of the IV: a caller that overwrites its IV buffer
   * after Init does not change what a later Reset restores.
   */
  method CallerIvChangeIsInvisible(engine: SicBlockCipher, ivBuffer: array<bv8>, key: Option<KeyParameters>)
    requires engine.Valid() && ivBuffer !in engine.Repr
    requires ivBuffer.Length >= engine.blockSize && ivBuffer.Length > 0
    modifies engine, engine.counter, engine.cipher, ivBuffer
    ensures engine.Valid()
    ensures engine.counter[..] == old(ivBuffer[..engine.blockSize])
    ensures ivBuffer[0] != old(ivBuffer[0])
  {
    var r := engine.Init(true, ParametersWithIV(ivBuffer, key));
    ivBuffer[0] := ivBuffer[0] ^ 0xFF;
    r := engine.Reset();
  }

  /**
   * Copies one data block into input and processes it: the output is the
   * block XOR E(counter) and the counter steps once.
   */
  method ProcessOneBlock(engine: SicBlockCipher, block: seq<bv8>, input: array<bv8>, output: array<bv8>)
    returns (o: seq<bv8>)
    requires engine.Valid()
    requires input.Length == engine.blockSize && output.Length == engine.blockSize
    requires input != output && input !in engine.Repr && output !in engine.Repr
    requires |block| == engine.blockSize
    modifies engine.counter, engine.counterOut, input, output
    ensures engine.Valid()
    ensures |engine.cipher.BlockFunction()(old(engine.counter[..]))| == engine.blockSize
    ensures o == XorBlock(engine.cipher.BlockFunction()(old(engine.counter[..])), block)
    ensures engine.counter[..] == Increment(old(engine.counter[..]))
  {
    var n := engine.GetBlockSize();
    forall j | 0 <= j < n {
      input[j] := block[j];
    }
    assert input[..] == block;
    ghost var c := engine.counter[..];
    ghost var E := engine.cipher.BlockFunction();
    ghost var ks := engine.cipher.Apply(c);
    assert ks == E(c);
    assert CompletedSteps(n, n, 0, n, 0) == n;
    var r := engine.ProcessBlock(input, 0, output, 0);
    assert E == engine.cipher.BlockFunction();
    o := output[..];
    assert o == XorBlock(ks, block);
    assert c == old(engine.counter[..]);
    assert engine.cipher.BlockFunction()(old(engine.counter[..])) == ks;
  }

  /**
   * A 16-byte block, an all-zero counter and an all-zero plaintext: the
   * ciphertext is the keystream block E(0^16) itself, and the next block
   * will use the counter 0^15 01.
   */
  method ZeroCounterFirstBlock(engine: SicBlockCipher, input: array<bv8>, output: array<bv8>)
    returns (cipherText: seq<bv8>)
    requires engine.Valid() && engine.blockSize == 16
    requires engine.counter[..] == Fill(16, 0)
    requires input.Length == 16 && output.Length == 16
    requires input !in engine.Repr && output !in engine.Repr && input != output
    modifies engine.counter, engine.counterOut, input, output
    ensures cipherText == engine.cipher.Apply(Fill(16, 0))
    ensures engine.counter[..] == Fill(15, 0) + [1]
  {
    ghost var ks := engine.cipher.Apply(Fill(16, 0));
    assert engine.cipher.BlockFunction()(Fill(16, 0)) == ks;
    cipherText := ProcessOneBlock(engine, Fill(16, 0), input, output);
    XorBlockZero(ks);
    ZeroStepsToOne(16);
  }

  /**
   * Processes the blocks one after the other through the engine, copying each
   * into input and collecting output. The result is CTR mode over the blocks
   * from the counter the engine held, under the cipher's present block
   * function, and the counter has stepped once per block.
   */
  method ProcessBlocks(engine: SicBlockCipher, blocks: seq<seq<bv8>>, input: array<bv8>, output: array<bv8>)
    returns (out: seq<seq<bv8>>)
    requires engine.Valid()
    requires input.Length == engine.blockSize && output.Length == engine.blockSize
    requires input != output && input !in engine.Repr && output !in engine.Repr
    requires forall i :: 0 <= i < |blocks| ==> |blocks[i]| == engine.blockSize
    modifies engine.counter, engine.counterOut, input, output
    ensures engine.Valid()
    ensures PreservesLength(engine.cipher.BlockFunction(), engine.blockSize)
    ensures out == CtrTransform(engine.cipher.BlockFunction(), old(engine.counter[..]), blocks)
    ensures engine.counter[..] == IncrementN(old(engine.counter[..]), |blocks|)
  {
    ghost var E := engine.cipher.BlockFunction();
    ghost var c0 := engine.counter[..];
    out := [];
    var i := 0;
    while i < |blocks|
      invariant 0 <= i <= |blocks|
      invariant engine.Valid()
      invariant engine.counter[..] == IncrementN(c0, i)
      invariant out == CtrTransform(E, c0, blocks[..i])
    {
      var o := ProcessOneBlock(engine, blocks[i], input, output);
      IncrementNSucc(c0, i);
      CtrTransformSnoc(E, c0, blocks, i);
      out := out + [o];
      i := i + 1;
    }
    assert blocks[..|blocks|] == blocks;
  }

  /**
   * 256^blockSize blocks through the engine bring its counter back to where
   * it started, so the next block reuses the first keystream block.
   */
  method EngineCounterCycle(engine: SicBlockCipher, blocks: seq<seq<bv8>>, input: array<bv8>, output: array<bv8>)
    returns (out: seq<seq<bv8>>)
    requires engine.Valid()
    requires input.Length == engine.blockSize && output.Length == engine.blockSize
    requires input != output && input !in engine.Repr && output !in engine.Repr
    requires |blocks| == Pow256(engine.blockSize)
    requires forall i :: 0 <= i < |blocks| ==> |blocks[i]| == engine.blockSize
    modifies engine.counter, engine.counterOut, input, output
    ensures engine.Valid()
    ensures PreservesLength(engine.cipher.BlockFunction(), engine.blockSize)
    ensures out == CtrTransform(engine.cipher.BlockFunction(), old(engine.counter[..]), blocks)
    ensures engine.counter[..] == old(engine.counter[..])
  {
    ghost var c0 := engine.counter[..];
    out := ProcessBlocks(engine, blocks, input, output);
    CounterCycle(c0);
  }

  /**
   * Encrypting any number of blocks, resetting and processing the ciphertext
   * blocks again gives back the plaintext blocks: Reset restores the counter
   * and keeps the cipher's key and direction.
   */
  method EngineRoundTrip(engine: SicBlockCipher, plain: seq<seq<bv8>>, input: array<bv8>, output: array<bv8>)
    returns (cipherText: seq<seq<bv8>>, recovered: seq<seq<bv8>>)
    requires engine.Valid() && engine.iv != null && engine.iv.Length >= engine.blockSize
    requires input.Length == engine.blockSize && output.Length == engine.blockSize
    requires input != output && input !in engine.Repr && output !in engine.Repr
    requires forall i :: 0 <= i < |plain| ==> |plain[i]| == engine.blockSize
    modifies engine.counter, engine.counterOut, engine.cipher`resets, input, output
    ensures recovered == plain
    ensures PreservesLength(engine.cipher.BlockFunction(), engine.blockSize)
    ensures cipherText == CtrTransform(engine.cipher.BlockFunction(), engine.iv[..engine.blockSize], plain)
  {
    var r := engine.Reset();
    ghost var c := engine.counter[..];
    cipherText := ProcessBlocks(engine, plain, input, output);
    r := engine.Reset();
    recovered := ProcessBlocks(engine, cipherText, input, output);
    CtrInvolution(engine.cipher.BlockFunction(), c, plain);
  }
}
