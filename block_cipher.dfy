/**
 * The wrapped block cipher, seen from the counter-mode engine. Its algorithm
 * and key schedule are not part of this model: the cipher is given by a
 * deterministic block transform of (key state, direction, block), and the
 * key state it was initialised with is an opaque value.
 */
module BlockCiphers {
  import opened Wrappers

  /** Key parameters for the wrapped cipher; the engine only passes them on. */
  datatype KeyParameters = KeyParameters(material: seq<bv8>)

  /** The cipher parameter objects the engine tells apart. */
  datatype CipherParameters =
    | KeyParameter(key: KeyParameters)
      /** An IV (the caller's own buffer) with optional nested key parameters. */
    | ParametersWithIV(iv: array<bv8>, parameters: Option<KeyParameters>)
      /** Any other parameters object, including a null reference. */
    | OtherParameters

  class BlockCipher {
    const blockSize: nat
    const algorithmName: string
    /** The block transform for a key state and a direction (true: encrypt). */
    const transform: (Option<KeyParameters>, bool, seq<bv8>) -> seq<bv8>

    /** The opaque key schedule: the parameters of the last Init, if any. */
    var key: Option<KeyParameters>
    var forEncryption: bool
    /** How many times Reset has been called; Reset clears non-key state only. */
    var resets: nat

    ghost predicate Valid() {
      forall k, d, b :: |b| == blockSize ==> |transform(k, d, b)| == blockSize
    }

    constructor (blockSize: nat, algorithmName: string,
                 transform: (Option<KeyParameters>, bool, seq<bv8>) -> seq<bv8>)
      requires forall k, d, b :: |b| == blockSize ==> |transform(k, d, b)| == blockSize
      ensures Valid()
      ensures this.blockSize == blockSize && this.algorithmName == algorithmName
      ensures this.transform == transform
      ensures key == None && !forEncryption && resets == 0
    {
      this.blockSize := blockSize;
      this.algorithmName := algorithmName;
      this.transform := transform;
      key := None;
      forEncryption := false;
      resets := 0;
    }

    /** The current block function, E, under the present key and direction. */
    function Apply(block: seq<bv8>): (r: seq<bv8>)
      requires Valid()
      reads this
      ensures |block| == blockSize ==> |r| == blockSize
    {
      var k, d := key, forEncryption;
      assert |block| == blockSize ==> |transform(k, d, block)| == blockSize;
      transform(k, d, block)
    }

    /**
     * The block function as a value, fixed by the present key and direction;
     * it depends on nothing else, in particular not on the reset count.
     */
    function BlockFunction(): (E: seq<bv8> -> seq<bv8>)
      reads this`key, this`forEncryption
      ensures forall b :: E(b) == transform(key, forEncryption, b)
      ensures Valid() ==> forall b :: |b| == blockSize ==> |E(b)| == blockSize
    {
      var t, k, d := transform, key, forEncryption;
      b => t(k, d, b)
    }

    method Init(forEncryption: bool, parameters: KeyParameters)
      modifies this`key, this`forEncryption
      ensures key == Some(parameters) && this.forEncryption == forEncryption
    {
      key := Some(parameters);
      this.forEncryption := forEncryption;
    }

    /** Transforms one block of input into output; input and output may be the same array. */
    method ProcessBlock(input: array<bv8>, inOff: nat, output: array<bv8>, outOff: nat) returns (n: int)
      requires Valid()
      requires inOff + blockSize <= input.Length && outOff + blockSize <= output.Length
      modifies output
      ensures n == blockSize
      ensures output[outOff..outOff + blockSize] == Apply(old(input[inOff..inOff + blockSize]))
      ensures forall j :: 0 <= j < output.Length && !(outOff <= j < outOff + blockSize) ==>
                output[j] == old(output[j])
    {
      var r := Apply(input[inOff..inOff + blockSize]);
      forall i | 0 <= i < blockSize {
        output[outOff + i] := r[i];
      }
      assert output[outOff..outOff + blockSize] == r;
      n := blockSize;
    }

    method Reset()
      modifies this`resets
      ensures resets == old(resets) + 1
    {
      resets := resets + 1;
    }
  }
}
