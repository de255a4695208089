/**
 * The Segmented Integer Counter (SIC) mode, also known as CTR mode, on top of
 * a block cipher: the cipher encrypts a counter block, the result is XORed
 * into the data, and the counter steps on as a big-endian integer.
 */
module SicMode {
  import opened Wrappers
  import opened BigEndianCounter
  import opened BlockCiphers

  /** The exceptions the engine raises, or lets escape from the array operations it uses. */
  datatype Error =
      /** Init was given parameters that are not ParametersWithIV. */
    | NotParametersWithIV
      /** Init was given an IV with fewer than blockSize - 8 bytes; carries that minimum. */
    | IvTooShort(minimumLength: int)
      /** Reset was called while no IV is stored (before any Init that got as far as storing one). */
    | NullIv
      /** Reset copies a whole block out of the stored IV, which is shorter than a block. */
    | IvShorterThanBlock
      /** ProcessBlock indexed past the end (or before the start) of input or output. */
    | IndexOutOfRange

  /**
   * How many of the indexes offset, offset + 1, ..., offset + n - 1 lie inside
   * an array of the given length before the first one that does not.
   */
  function InBoundsPrefix(n: nat, length: int, offset: int): (k: nat)
    ensures k <= n
    ensures k > 0 ==> 0 <= offset && offset + k <= length
    ensures k < n ==> !(0 <= offset + k < length)
  {
    if offset < 0 || length <= offset then 0
    else if length - offset < n then length - offset
    else n
  }

  /** How many bytes the XOR loop of ProcessBlock writes before it faults, or n if it does not fault. */
  function CompletedSteps(n: nat, inLength: int, inOff: int, outLength: int, outOff: int): (k: nat)
    ensures k <= n
    // every step before k reads and writes inside the buffers ...
    ensures k > 0 ==> 0 <= inOff && inOff + k <= inLength && 0 <= outOff && outOff + k <= outLength
    // ... and step k, if there is one, is outside input or outside output
    ensures k < n ==> !(0 <= inOff + k < inLength && 0 <= outOff + k < outLength)
  {
    var a := InBoundsPrefix(n, inLength, inOff);
    var b := InBoundsPrefix(n, outLength, outOff);
    if a < b then a else b
  }

  /**
   * No byte that the XOR loop still has to read has already been overwritten:
   * the buffers differ, or the output starts no later than the input, or the
   * two regions are disjoint.
   */
  predicate NoReadAfterWrite(input: array<bv8>, inOff: int, output: array<bv8>, outOff: int, n: nat)
  {
    input != output || outOff <= inOff || inOff + n <= outOff
  }

  class SicBlockCipher {
    const cipher: BlockCipher
    const blockSize: nat
    const counter: array<bv8>
    const counterOut: array<bv8>
    /** The engine's private copy of the IV; null until Init stores one. */
    var iv: array?<bv8>
    /** The arrays the engine owns. */
    ghost var Repr: set<object>

    ghost predicate Valid()
      reads this
    {
      && cipher.Valid()
      && blockSize == cipher.blockSize
      && counter.Length == blockSize
      && counterOut.Length == blockSize
      && counter != counterOut
      && (iv != null ==> iv != counter && iv != counterOut)
      && Repr == {counter, counterOut} + (if iv == null then {} else {iv})
    }

    /** The counter read as a big-endian unsigned integer. */
    ghost function CounterValue(): nat
      reads this, counter
    {
      BigEndian(counter[..])
    }

    constructor (cipher: BlockCipher)
      requires cipher.Valid()
      ensures Valid() && fresh(Repr)
      ensures this.cipher == cipher && blockSize == cipher.blockSize
      ensures counter[..] == Fill(blockSize, 0) && counterOut[..] == Fill(blockSize, 0)
      ensures iv == null
    {
      this.cipher := cipher;
      blockSize := cipher.blockSize;
      counter := new bv8[cipher.blockSize](_ => 0);
      counterOut := new bv8[cipher.blockSize](_ => 0);
      iv := null;
      new;
      Repr := {counter, counterOut};
    }

    /** The block cipher this engine wraps. */
    function GetUnderlyingCipher(): (c: BlockCipher)
      ensures c == cipher
    {
      cipher
    }

    /** The name of the underlying algorithm followed by "/CTR". */
    function AlgorithmName(): (name: string)
      ensures |name| == |cipher.algorithmName| + 4
      ensures name[..|cipher.algorithmName|] == cipher.algorithmName
      ensures name[|cipher.algorithmName|..] == "/CTR"
    {
      cipher.algorithmName + "/CTR"
    }

    /** CTR mode can encrypt a final block of any length by using part of the keystream. */
    function IsPartialBlockOkay(): (ok: bool)
      ensures ok
    {
      true
    }

    /** The block size of the underlying cipher, which is also the length of the counter. */
    function GetBlockSize(): (n: int)
      requires Valid()
      reads this
      ensures n == blockSize && n == counter.Length && n == counterOut.Length
    {
      cipher.blockSize
    }

    /**
     * Restores the counter to the first blockSize bytes of the stored IV and
     * resets the underlying cipher. The copy takes a whole block out of the IV:
     * a missing IV or one shorter than a block makes it fail, and then neither
     * the counter nor the cipher is touched. No zero-padding takes place.
     */
    method Reset() returns (r: Outcome<Error>)
      requires Valid()
      modifies counter, cipher`resets
      ensures Valid()
      ensures iv == null ==> r == Fail(NullIv)
      ensures iv != null && iv.Length < blockSize ==> r == Fail(IvShorterThanBlock)
      ensures r.Fail? ==> unchanged(counter) && cipher.resets == old(cipher.resets)
      ensures iv != null && iv.Length >= blockSize ==>
                r == Pass && counter[..] == iv[..blockSize] && cipher.resets == old(cipher.resets) + 1
    {
      if iv == null {
        return Fail(NullIv);
      }
      if iv.Length < counter.Length {
        return Fail(IvShorterThanBlock);
      }
      forall i | 0 <= i < counter.Length {
        counter[i] := iv[i];
      }
      cipher.Reset();
      r := Pass;
    }

    /**
     * Sets up the engine for a new IV, and for a new key when one is nested in
     * the parameters. The direction flag is ignored: the cipher is always keyed
     * for encryption, since CTR decryption uses the same keystream.
     */
    method Init(forEncryption: bool, parameters: CipherParameters) returns (r: Outcome<Error>)
      requires Valid()
      modifies this, counter, cipher
      ensures Valid() && fresh(Repr - old(Repr))
      // anything but ParametersWithIV is rejected before any state changes
      ensures !parameters.ParametersWithIV? ==>
                r == Fail(NotParametersWithIV) && unchanged(this) && unchanged(counter) && unchanged(cipher)
      // otherwise a private copy of the caller's IV is stored first, whatever follows
      ensures parameters.ParametersWithIV? ==> fresh(iv) && iv[..] == old(parameters.iv[..])
      ensures parameters.ParametersWithIV? && blockSize - parameters.iv.Length > 8 ==>
                r == Fail(IvTooShort(blockSize - 8))
      ensures parameters.ParametersWithIV? && blockSize - parameters.iv.Length <= 8
                && parameters.iv.Length < blockSize ==>
                r == Fail(IvShorterThanBlock)
      ensures r.Fail? ==> unchanged(counter) && unchanged(cipher)
      ensures parameters.ParametersWithIV? && parameters.iv.Length >= blockSize ==>
                && r == Pass
                && counter[..] == old(parameters.iv[..blockSize])
                && cipher.resets == old(cipher.resets) + 1
                && (parameters.parameters.Some? ==>
                      cipher.key == parameters.parameters && cipher.forEncryption)
                && (parameters.parameters.None? ==>
                      cipher.key == old(cipher.key) && cipher.forEncryption == old(cipher.forEncryption))
    {
      if !parameters.ParametersWithIV? {
        return Fail(NotParametersWithIV);
      }
      var source := parameters.iv;
      var copy := new bv8[source.Length];
      forall i | 0 <= i < source.Length {
        copy[i] := source[i];
      }
      iv := copy;
      Repr := {counter, counterOut, copy};

      if blockSize - iv.Length > 8 {
        return Fail(IvTooShort(blockSize - 8));
      }

      r := Reset();
      if r.Fail? {
        return;
      }

      // no nested key parameters: only the IV changes
      if parameters.parameters.Some? {
        cipher.Init(true, parameters.parameters.value);
      }
    }

    /**
     * Steps the counter in place: scanning from the last byte, each byte is
     * incremented, and the scan stops at the first byte that does not wrap
     * from 0xFF to 0x00. If every byte wraps the counter is all zero.
     */
    method IncrementCounter()
      requires Valid()
      modifies counter
      ensures counter[..] == Increment(old(counter[..]))
      ensures CounterValue() == (old(CounterValue()) + 1) % Pow256(blockSize)
    {
      ghost var c0 := counter[..];
      ghost var carried := true;
      var j := counter.Length;
      while j > 0
        invariant 0 <= j <= blockSize
        invariant forall t :: 0 <= t < j ==> counter[t] == c0[t]
        invariant forall t :: j <= t < blockSize ==> counter[t] == 0 && c0[t] == 0xFF
      {
        j := j - 1;
        counter[j] := counter[j] + 1;
        if counter[j] != 0 {
          IncrementStopsAt(c0, counter[..], j);
          carried := false;
          break;
        }
      }
      if carried {
        IncrementWrapsAll(c0, counter[..]);
      }
      IncrementValue(c0);
    }

    /**
     * The XOR loop of ProcessBlock: output[outOff + i] := counterOut[i] ^ input[inOff + i]
     * for i = 0, 1, ..., blockSize - 1, with checked indexing. It reports false
     * at the first index outside input or output, having written the bytes
     * before it.
     */
    method XorKeystream(input: array<bv8>, inOff: int, output: array<bv8>, outOff: int)
      returns (ok: bool)
      requires Valid()
      requires output !in Repr
      modifies output
      ensures var k := CompletedSteps(blockSize, input.Length, inOff, output.Length, outOff);
              && ok == (k == blockSize)
              && (NoReadAfterWrite(input, inOff, output, outOff, blockSize) ==>
                    forall i :: 0 <= i < k ==> output[outOff + i] == counterOut[i] ^ old(input[inOff + i]))
              // one array, output starting inside the input block: the first outOff - inOff
              // steps read original bytes, every later step reads a byte written d steps before
              && (!NoReadAfterWrite(input, inOff, output, outOff, blockSize) ==>
                    forall i :: 0 <= i < k ==>
                      output[outOff + i] == counterOut[i] ^
                        (if i < outOff - inOff then old(output[inOff + i]) else output[inOff + i]))
              && (forall j :: 0 <= j < output.Length && !(outOff <= j < outOff + k) ==>
                    output[j] == old(output[j]))
    {
      ghost var k := CompletedSteps(blockSize, input.Length, inOff, output.Length, outOff);
      ghost var aliased := !NoReadAfterWrite(input, inOff, output, outOff, blockSize);
      ghost var d := outOff - inOff;
      var i := 0;
      while i < counterOut.Length
        invariant 0 <= i <= k
        invariant forall j :: 0 <= j < output.Length && !(outOff <= j < outOff + i) ==>
                    output[j] == old(output[j])
        invariant !aliased ==>
                    forall t :: 0 <= t < i ==> output[outOff + t] == counterOut[t] ^ old(input[inOff + t])
        invariant aliased ==>
                    forall t :: 0 <= t < i ==>
                      output[outOff + t] == counterOut[t] ^ (if t < d then old(output[inOff + t]) else output[inOff + t])
      {
        // the runtime bounds checks on input[inOff + i] and output[outOff + i]
        if !(0 <= inOff + i < input.Length && 0 <= outOff + i < output.Length) {
          return false;
        }
        var x := input[inOff + i];
        // otherwise byte inOff + i is not yet written; in the overlapping case it
        // is original or was written at step i - d
        assert !aliased ==> x == old(input[inOff + i]);
        assert aliased ==> x == (if i < d then old(output[inOff + i]) else output[inOff + i]);
        ghost var prev := output[..];
        output[outOff + i] := counterOut[i] ^ x;
        forall t | 0 <= t <= i && !aliased
          ensures output[outOff + t] == counterOut[t] ^ old(input[inOff + t])
        {
          if t < i {
            assert output[outOff + t] == prev[outOff + t];
          }
        }
        forall t | 0 <= t <= i && aliased
          ensures output[outOff + t] == counterOut[t] ^ (if t < d then old(output[inOff + t]) else output[inOff + t])
        {
          if t < i {
            assert output[outOff + t] == prev[outOff + t];
            if d <= t {
              assert output[inOff + t] == prev[inOff + t];
            }
          }
        }
        i := i + 1;
      }
      return true;
    }

    /**
     * Encrypts the counter, XORs the keystream block into output and steps the
     * counter. The XOR loop runs with checked indexing: when input or output is
     * too short it stops at the first bad index, leaving the bytes written so
     * far, and the counter does not advance.
     */
    method ProcessBlock(input: array<bv8>, inOff: int, output: array<bv8>, outOff: int)
      returns (r: Result<int, Error>)
      requires Valid()
      requires input !in Repr && output !in Repr
      modifies output, counter, counterOut
      ensures Valid()
      ensures counterOut[..] == cipher.Apply(old(counter[..]))
      ensures input != output ==> unchanged(input)
      ensures var k := CompletedSteps(blockSize, input.Length, inOff, output.Length, outOff);
              && (k == blockSize ==> r == Ok(blockSize) && counter[..] == Increment(old(counter[..])))
              && (k < blockSize ==> r == Err(IndexOutOfRange) && unchanged(counter))
              && (NoReadAfterWrite(input, inOff, output, outOff, blockSize) ==>
                    forall i :: 0 <= i < k ==> output[outOff + i] == counterOut[i] ^ old(input[inOff + i]))
              && (!NoReadAfterWrite(input, inOff, output, outOff, blockSize) ==>
                    forall i :: 0 <= i < k ==>
                      output[outOff + i] == counterOut[i] ^
                        (if i < outOff - inOff then old(output[inOff + i]) else output[inOff + i]))
              && (forall j :: 0 <= j < output.Length && !(outOff <= j < outOff + k) ==>
                    output[j] == old(output[j]))
      ensures r.Ok? ==> CounterValue() == (old(CounterValue()) + 1) % Pow256(blockSize)
    {
      ghost var c0 := counter[..];
      assert c0 == counter[0..blockSize];
      var _ := cipher.ProcessBlock(counter, 0, counterOut, 0);
      assert counterOut[..] == counterOut[0..blockSize];

      var ok := XorKeystream(input, inOff, output, outOff);
      if !ok {
        return Err(IndexOutOfRange);
      }
      assert counter[..] == c0;
      IncrementCounter();
      assert CounterValue() == (BigEndian(c0) + 1) % Pow256(blockSize);
      return Ok(counter.Length);
    }
  }
}
