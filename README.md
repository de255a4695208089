# SIC / CTR mode engine, modelled in Dafny

This project models `SicBlockCipher`, the Segmented Integer Counter (CTR) mode
of the BouncyCastle C# library. The mode turns any block cipher into a
keystream generator. The engine owns a counter block and a scratch block, both
`blockSize` bytes long, and keeps a private copy of the IV.

- `Init` checks the parameters, stores a clone of the IV, resets the counter
  and, when key parameters are nested, keys the wrapped cipher for encryption.
- `ProcessBlock` encrypts the counter into the scratch block, XORs it into the
  output and increments the counter as a big-endian integer.
- `Reset` copies one block of the IV back into the counter and resets the
  wrapped cipher.

Files:

- `wrappers.dfy`: `Option`, `Result` and `Outcome`, which stand for the
  exceptions the engine throws.
- `counter.dfy` (module `BigEndianCounter`): the counter as a big-endian
  number. It defines `Increment`, one step of the counter, and proves that the
  step adds one modulo 256^n, that all-0xFF wraps to all zero, and that the
  cycle length is exactly 256^n.
- `block_cipher.dfy` (module `BlockCiphers`): the parameter objects and the
  wrapped cipher. The cipher is a class whose block function is a parameter
  fixed at construction: a deterministic map from (key state, direction,
  block) to a block of the same length. Its key state, direction and a count
  of resets are fields, so it is observable how the engine calls `Init` and
  `Reset` on it.
- `sic_block_cipher.dfy` (module `SicMode`): the engine as a class. `counter`
  and `counterOut` are `array<bv8>` fields, `iv` is a nullable array that
  `Init` replaces, and the methods carry `modifies` clauses and loop
  invariants.
- `ctr_properties.dfy` (module `CtrProperties`): CTR mode over values
  (`Keystream`, `CtrTransform`), its involution and periodicity, and three
  client methods that drive the class: encrypt, reset and decrypt; a caller
  overwriting its IV buffer after `Init`; the first block from an all-zero
  counter; and a loop of `ProcessBlock` calls, shown to compute CTR mode over
  the blocks, to return the counter to its start after 256^blockSize blocks,
  and to decrypt what it encrypted after a `Reset`.

Modelling decisions taken from the code:

- `Reset` does not zero-pad. It copies `counter.Length` bytes out of the
  stored IV (crypto/src/crypto/modes/SicBlockCipher.cs:111). An IV shorter
  than the block therefore passes the length check in `Init` (line 57), as
  long as it has at least `blockSize - 8` bytes. The copy then fails with an
  argument error, and so does `Init`. The model returns
  `Fail(IvShorterThanBlock)` and leaves the counter and the cipher untouched.
  An IV longer than the block is cut to its first `blockSize` bytes.
- `Init` stores the IV clone (line 55) before it checks the length (line 57).
  The model makes the same choice: a rejected short IV still replaces the
  stored IV.
- `Reset` before any `Init` has no IV to copy, so it fails (`Fail(NullIv)`).
  `ProcessBlock` before `Init` works on the all-zero counter, as far as the
  engine is concerned; what the unkeyed cipher does then is not modelled.
- The XOR loop (lines 95-98) indexes with runtime checks. A buffer that is
  too short makes it stop at the first bad index. The bytes written so far
  stay written, the scratch block already holds the keystream, the counter is
  not incremented, and the result is `Err(IndexOutOfRange)`.
- When input and output are one array and the output starts inside the
  input block after `inOff`, the loop reads bytes it has already written.
  The contracts of `XorKeystream` and `ProcessBlock` state that case too.
- The engine's own arrays are private. The `Repr` set names them, and
  `ProcessBlock` requires that the caller's buffers are not among them.

## Model

| member | source | states |
|---|---|---|
| `SicMode.SicBlockCipher.constructor` | crypto/src/crypto/modes/SicBlockCipher.cs:29-35 | the block size is the cipher's; counter and scratch block are fresh, `blockSize` long and zero; no IV is stored |
| `SicMode.SicBlockCipher.GetUnderlyingCipher` | crypto/src/crypto/modes/SicBlockCipher.cs:42-45 | returns the wrapped cipher |
| `SicMode.SicBlockCipher.Init` | crypto/src/crypto/modes/SicBlockCipher.cs:47-67 | non-`ParametersWithIV` parameters fail with nothing changed; otherwise a fresh copy of the caller's IV is stored; an IV more than 8 bytes shorter than the block fails with the minimum `blockSize - 8`; an IV that passes but is shorter than a block fails in the reset and leaves counter and cipher untouched; otherwise the counter is the first `blockSize` IV bytes, the cipher was reset once and, only when key parameters are nested, keyed with them in the encrypt direction whatever `forEncryption` says; without key parameters the cipher's key and direction stay |
| `SicMode.SicBlockCipher.AlgorithmName` | crypto/src/crypto/modes/SicBlockCipher.cs:69-72 | the name is the cipher's name followed by `/CTR` |
| `SicMode.SicBlockCipher.IsPartialBlockOkay` | crypto/src/crypto/modes/SicBlockCipher.cs:74-77 | always true |
| `SicMode.SicBlockCipher.GetBlockSize` | crypto/src/crypto/modes/SicBlockCipher.cs:79-82 | the cipher's block size, equal to the lengths of the counter and scratch block |
| `SicMode.SicBlockCipher.ProcessBlock` | crypto/src/crypto/modes/SicBlockCipher.cs:84-107 | the scratch block is E(old counter); when both buffers hold a block it returns `blockSize`, writes `output[outOff+i] == E(counter)[i] ^ input[inOff+i]` for every `i < blockSize` (with the original input bytes, except that when input and output are one array and the output starts `d` bytes after the input inside the block, bytes from `d` on are XORed with bytes the call wrote `d` steps earlier), changes no other output byte, leaves a separate input buffer unchanged and steps the counter (big-endian +1 modulo 256^blockSize); when a buffer is too short it fails after writing exactly the bytes before the first bad index, and the counter does not move |
| `SicMode.SicBlockCipher.XorKeystream` | crypto/src/crypto/modes/SicBlockCipher.cs:95-98 | succeeds exactly when all `blockSize` indexes are in bounds; the first `k` output bytes are keystream XOR input, where `k` is the number of steps before the first bad index; when input and output are one array and the output starts `d` bytes after the input inside the block, byte `i` is XORed with the original byte for `i < d` and with the byte written `d` steps earlier otherwise; all other output bytes are unchanged |
| `SicMode.SicBlockCipher.IncrementCounter` | crypto/src/crypto/modes/SicBlockCipher.cs:100-104 | the counter becomes `Increment` of the old counter, and its big-endian value goes up by one modulo 256^blockSize |
| `SicMode.SicBlockCipher.Reset` | crypto/src/crypto/modes/SicBlockCipher.cs:109-113 | no stored IV fails; an IV shorter than a block fails; a failure changes neither counter nor cipher; otherwise the counter is the first `blockSize` bytes of the stored IV and the cipher was reset once, keeping its key |
| `SicMode.CompletedSteps` | crypto/src/crypto/modes/SicBlockCipher.cs:95-97 | the index of the first loop step that reads outside input or writes outside output, or `blockSize` if there is none: every step before it stays inside both buffers |
| `SicMode.InBoundsPrefix` | crypto/src/crypto/modes/SicBlockCipher.cs:95-97 | the number of leading loop indexes that are in bounds: all indexes before it are in the array, and the index at it (if below the block size) is not |
| `BlockCiphers.BlockCipher.constructor` | crypto/src/crypto/modes/SicBlockCipher.cs:31-32 | a cipher with a given block size, name and length-preserving block function; no key yet |
| `BlockCiphers.BlockCipher.Apply` | crypto/src/crypto/modes/SicBlockCipher.cs:90 | the block function under the current key and direction maps a block to a block |
| `BlockCiphers.BlockCipher.ProcessBlock` | crypto/src/crypto/modes/SicBlockCipher.cs:90 | writes the block function of the input block into the output block, nothing else, and returns the block size |
| `BlockCiphers.BlockCipher.Init` | crypto/src/crypto/modes/SicBlockCipher.cs:65 | records the key parameters and the direction |
| `BlockCiphers.BlockCipher.Reset` | crypto/src/crypto/modes/SicBlockCipher.cs:112 | counts one reset; the key schedule is kept |
| `BigEndianCounter.Increment` | crypto/src/crypto/modes/SicBlockCipher.cs:101-104 | one counter step keeps the block length; its value is stated by `IncrementValue` and `IncrementCarry`, its byte-wise form by `IncrementStopsAt` and `IncrementWrapsAll` |
| `BigEndianCounter.IncrementN` | crypto/src/crypto/modes/SicBlockCipher.cs:100-104 | k counter steps keep the block length; their value is stated by `IncrementNValue` |
| `BigEndianCounter.IncrementNSucc` | crypto/src/crypto/modes/SicBlockCipher.cs:100-104 | k + 1 steps are k steps followed by one more, which is how successive calls step the counter |
| `BigEndianCounter.IncrementNWraps` | crypto/src/crypto/modes/SicBlockCipher.cs:100-104 | k steps add k to the value, less a whole number of wrap-arounds past 256^n - 1 |
| `BigEndianCounter.IncrementValue` | crypto/src/crypto/modes/SicBlockCipher.cs:101-104 | one counter step adds one to the big-endian value, modulo 256^n |
| `BigEndianCounter.IncrementCarry` | crypto/src/crypto/modes/SicBlockCipher.cs:101-104 | the step adds exactly one, except from 256^n - 1, which wraps to zero |
| `BigEndianCounter.IncrementStopsAt` | crypto/src/crypto/modes/SicBlockCipher.cs:101-104 | the byte-wise result of the backward scan that stops at the first byte below 0xFF is `Increment` of the old counter |
| `BigEndianCounter.IncrementWrapsAll` | crypto/src/crypto/modes/SicBlockCipher.cs:101-104 | a scan that carried through every byte (all were 0xFF, all are now 0) is `Increment` of the old counter |
| `BigEndianCounter.IncrementOnesSuffix` | crypto/src/crypto/modes/SicBlockCipher.cs:102 | trailing 0xFF bytes become zero and carry into the bytes before them |
| `BigEndianCounter.AllOnesWrapsToZero` | crypto/src/crypto/modes/SicBlockCipher.cs:101-104 | the all-0xFF counter wraps silently to all zero |
| `BigEndianCounter.ZeroStepsToOne` | crypto/src/crypto/modes/SicBlockCipher.cs:101-104 | the all-zero counter steps to zeros followed by a single 1 |
| `BigEndianCounter.BigEndian` | crypto/src/crypto/modes/SicBlockCipher.cs:19 | the number an n-byte counter block denotes, first byte most significant, is below 256^n |
| `BigEndianCounter.BigEndianInjective` | crypto/src/crypto/modes/SicBlockCipher.cs:19 | two counters of one length with the same value are equal |
| `BigEndianCounter.IncrementNValue` | crypto/src/crypto/modes/SicBlockCipher.cs:101-104 | k steps add k to the value, modulo 256^n |
| `BigEndianCounter.CounterCycle` | crypto/src/crypto/modes/SicBlockCipher.cs:101-104 | after 256^n steps the counter is back at its start |
| `BigEndianCounter.CounterPeriodExact` | crypto/src/crypto/modes/SicBlockCipher.cs:101-104 | no smaller positive number of steps brings it back |
| `BigEndianCounter.CounterPeriodic` | crypto/src/crypto/modes/SicBlockCipher.cs:101-104 | counters 256^n steps apart coincide |
| `CtrProperties.XorBlock` | crypto/src/crypto/modes/SicBlockCipher.cs:97 | byte-wise XOR keeps the block length |
| `CtrProperties.XorBlockZero` | crypto/src/crypto/modes/SicBlockCipher.cs:97 | XORing a keystream block into zero bytes gives the keystream block |
| `CtrProperties.XorBlockInvolution` | crypto/src/crypto/modes/SicBlockCipher.cs:92-97 | XORing the same keystream block twice gives back the data |
| `CtrProperties.Keystream` | crypto/src/crypto/modes/SicBlockCipher.cs:90-104 | keystream block i is E of the counter after i steps |
| `CtrProperties.CtrTransform` | crypto/src/crypto/modes/SicBlockCipher.cs:90-104 | output block i is data block i XOR E of the counter after i steps |
| `CtrProperties.CtrTransformSnoc` | crypto/src/crypto/modes/SicBlockCipher.cs:84-107 | one more block appends that block XOR the keystream block of its position |
| `CtrProperties.CtrInvolution` | crypto/src/crypto/modes/SicBlockCipher.cs:90-104 | processing the output again from the same counter recovers the input exactly |
| `CtrProperties.KeystreamPeriodic` | crypto/src/crypto/modes/SicBlockCipher.cs:101-104 | keystream block 256^n + i equals keystream block i |
| `CtrProperties.OneByteCounterCycle` | crypto/src/crypto/modes/SicBlockCipher.cs:101-104 | with a one-byte block the counter returns after 256 blocks, and the 257th keystream block equals the first |
| `CtrProperties.ResetRestartsKeystream` | crypto/src/crypto/modes/SicBlockCipher.cs:84-113 | encrypt one block, `Reset`, process the ciphertext: the plaintext comes back, and the ciphertext is E(first block of the IV) XOR plaintext |
| `CtrProperties.CallerIvChangeIsInvisible` | crypto/src/crypto/modes/SicBlockCipher.cs:55 | after `Init`, overwriting the caller's IV buffer does not change what `Reset` restores |
| `CtrProperties.ZeroCounterFirstBlock` | crypto/src/crypto/modes/SicBlockCipher.cs:84-107 | block size 16, zero counter, zero plaintext: the ciphertext is E(0^16) and the next counter is 0^15 01 |
| `CtrProperties.ProcessOneBlock` | crypto/src/crypto/modes/SicBlockCipher.cs:84-107 | one whole block through the engine: the output is the block XOR E(counter) and the counter steps once |
| `CtrProperties.ProcessBlocks` | crypto/src/crypto/modes/SicBlockCipher.cs:84-107 | a loop of `ProcessBlock` calls computes `CtrTransform` from the engine's counter under the cipher's present block function, and leaves the counter stepped once per block |
| `CtrProperties.EngineCounterCycle` | crypto/src/crypto/modes/SicBlockCipher.cs:100-104 | after 256^blockSize blocks through the engine its counter is back where it started |
| `CtrProperties.EngineRoundTrip` | crypto/src/crypto/modes/SicBlockCipher.cs:84-113 | `Reset`, encrypt any number of blocks, `Reset`, process the ciphertext blocks: the plaintext blocks come back, and the ciphertext is `CtrTransform` from the first block of the IV |
| `BlockCiphers.BlockCipher.BlockFunction` | crypto/src/crypto/modes/SicBlockCipher.cs:90 | the block function as a value, depending only on the key and direction, length-preserving for a valid cipher |

## Left out

- SicMode.SicBlockCipher.Init: the contract does not say that the result is independent of `forEncryption`. It only shows that the flag is never used: no clause mentions it, and the cipher is always keyed with `true`.
- Offsets are unbounded integers, not 32-bit. Arrays are shorter than 2^31 bytes, so an offset that would overflow is out of bounds either way, and the fault is the same.
- The wrapped cipher's algorithm and key schedule are external. It is a deterministic, length-preserving block function of (key parameters, direction, block). Its own errors are not modelled: use before keying, rejected keys, and data-length checks. Its `ProcessBlock` requires that the buffers hold a block, which the engine always ensures.
- Parameter objects are reduced to the distinctions the engine makes: `ParametersWithIV` (whose IV is the caller's array) and everything else (`OtherParameters`, which also stands for a null reference). Nested key parameters are opaque key material.
- Thread safety, timing and constant-time behaviour cannot be stated in this model.
- `crypto/src/cmp/ProtectedPkiMessage.cs` is not part of this model. Its logic rests on ASN.1 encoding, certificate parsing, verifier and MAC factories and a constant-time comparison, none of which are available as code.
- `crypto/src/cmp/CmpException.cs` is not part of this model. It holds exception constructors with no behaviour.
