# A verified model of an ML-KEM implementation in C

The repository implements ML-KEM (FIPS 203) for small microcontrollers: 16-bit integer transforms with lazy modular
reduction, matrix products that sample the matrix while they multiply, a re-encryption check that never builds a
ciphertext, and a bit-interleaved Keccak that permutes its state in place. Each of these fast forms has a simple
mathematical object behind it. This project states those objects and proves that the code computes them.

There are four connected parts, a fifth beside them, and a sixth about all of them.

1. **Ring arithmetic.** `Modular`, `Reduce`, `Ring`, `Zetas`, `NttMath`, `Transform`, `Products`, `Convolution`.
   `Ring` has the ring Z[X]/(X^256 + 1) with the schoolbook product, `NttMath` the transform as repeated reduction
   modulo factors of X^256 + 1, and `Transform` and `Products` the in-place loops on `int16_t`, with every wrap-around
   explicit. The main result is that transform, pairwise product and inverse transform give the schoolbook product,
   with all Montgomery factors cancelling.
2. **Encoding, sampling and the encryption scheme.** `Compress`, `Encode`, `Packing`, `Codec`, `Poly`, `Polyvec`, `Cbd`,
   `Sample`, `Matacc`, `Verify`, `Vectors`, `Kpke`, `Correctness`, `Indcpa`, `Kem`, `Chance`. `Kpke` is the scheme as plain vector
   algebra and byte encodings; `Indcpa` and `Kem` are the code with its reused buffers, proved equal to it for
   K = 2, 3, 4, all inputs and all hash functions. `Correctness` proves that decryption returns the message exactly when
   an explicit noise polynomial fits, and `Chance` gives hash functions for which it never does.
3. **The permutation.** `KeccakSpec` is section 3 of FIPS 202 bit by bit; `Halves`, `KeccakTable`, `KeccakMatch`,
   `KeccakConstants` and `KeccakRounds` show that four unrolled rounds on permuted positions, six times over, are
   Keccak-f[1600].
4. **The sponge.** `LaneBytes` and `StateBytes` connect interleaved words with bytes, `Sponge` connects byte-wise
   absorbing and squeezing with section 4 of FIPS 202, `Fips202` has the incremental context, and `Symmetric` the hash
   functions ML-KEM uses. `Symmetric.Standard` instantiates the hash functions that part 2 keeps abstract, and
   `Symmetric.MataccInnerShake` runs the fused sampler down to the permutation.
5. **The bitsliced AES** that drives deterministic tests. `AesSpec` is FIPS 197 on single blocks, with the S-box as a
   list of gates on one byte, and `AesSbox` proves that this S-box is the affine map of inversion in GF(2^8); `AesSlice`, `AesLayout`, `AesCipher` and `AesKeys` show that four blocks in eight
   64-bit words go through the cipher without influencing each other, under the key expansion of FIPS 197.
6. **Laws of the references.** A reference definition is only as good as what is known about it. `CodecLaws`, `RingLaws`,
   `KpkeLaws`, `KemLaws`, `KeccakLaws`, `SpongeLaws` and `AesLaws` prove, in bytes, bits, numbers and plain polynomials and
   without the auxiliary definitions, what the references of parts 1 to 5 say: which bits of a string are which
   coefficient, what one bit of a state or of a buffer changes, which bytes are hashed in which order, how large every
   object is, and the equations between keys, noise, matrix and ciphertext in the ring.

Conventions. `int16` is a subset type of `int`; a value that the C code lets wrap goes through `I16` or `U32`, and
otherwise its range is proved. `Cong` is congruence modulo 3329 and `CongSeq` the same for each coefficient. Bytes are
`bv8`. Words of the Keccak and AES states are sequences of 32 or 64 bits. Buffers that the C code only reads are passed as sequences,
buffers it writes are arrays, changed in place, and the aliases the code relies on (`basemul` into an operand, `sp.vec[0]`
as the accumulator) are allowed by the contracts. The randomness is an argument: the `_derand` entry points are modelled.

## Where code and text differ

- The comment of `keccak_absorb` (fips202/fips202.c:20-31) says that it zeroes the state; the callers do. The model follows
  the code: a cleared state is required of `Fips202.KeccakAbsorb`, and `Symmetric.XofAbsorb` clears it.
- Key generation hashes the 32-byte seed alone (mlkem/indcpa.c:38). Final FIPS 203 appends the parameter K; the code
  follows the draft. `Kpke` does what the code does.
- `montgomery_reduce` is documented with the range (-q, q). That range is true, and enough for the sum of K = 4 products in
  one coefficient: each adds two results, 26624 in all. It is not enough for `invntt`, which adds two such coefficients
  before `barrett_reduce`: 53248 does not fit an `int16_t`. What makes the sum safe is the tighter bound that depends on
  the argument: with one centred operand each product adds at most 3536, four of them at most 14144, and two coefficients
  at most 28288.
- Decryption tolerates noise from -832 to 832 on a coefficient whose message bit is 0, but only to 831 where it is 1:
  `Correctness.NoiseFits` is the exact condition.

## Model

| member | source | states |
|---|---|---|
| Reduce.MontgomeryReduce | mlkem/reduce.c:17-23 | for every argument the callers may pass, 2^16 times the result is congruent to it; the result lies in (-q, q) and is within q/2 of the argument divided by 2^16 |
| Reduce.MontgomeryExact | mlkem/reduce.c:17-23 | the subtraction clears the low 16 bits for every wrapped product, so the shift divides exactly |
| Reduce.BarrettReduce | mlkem/reduce.c:35-42 | the centred representative of every int16 |
| Reduce.BarrettQuotient | mlkem/reduce.c:35-42 | the rounded quotient is exact enough for every int16, and the wrap of t * q is undone by the final subtraction |
| Reduce.FqMul | mlkem/ntt.c:69-71 | 2^16 times the result is congruent to the product |
| Zetas.ZetaIsRoot | mlkem/ntt.c:22-57 | every table entry is 2^16 times 17 to the bit-reversed index modulo q |
| Zetas.ZSquare | mlkem/ntt.c:40-57 | z[2k]^2 = z[k], z[2k+1]^2 = -z[k] and z[1]^2 = -1: the factors at a node of the transform split as they must |
| Zetas.ZMirror | mlkem/ntt.c:112-124 | z[k] * z[3 * 2^l - 1 - k] = -1 inside layer l, which is why the inverse may walk the same table backwards |
| Ring.MulIsSchoolbook | mlkem/poly.c:546-568 | the ring product that the proofs use is the double sum with negative wrap-around |
| NttMath.InvNttOfNtt | mlkem/ntt.c:81-128 | the inverse transform undoes the transform, for all polynomials |
| NttMath.NttOfInvNtt | mlkem/ntt.c:81-128 | and the other way round, so both are bijections modulo q |
| NttMath.NttHomomorphism | mlkem/ntt.c:141-153 | the transform turns the product modulo X^256 + 1 into products modulo X^2 - z and X^2 + z |
| NttMath.ConvolutionTheorem | mlkem/ntt.c:81-153 | pairwise products between the transforms are polynomial multiplication |
| Transform.NodeSplits | mlkem/ntt.c:88-93 | one block of butterflies replaces a residue by its residues modulo the two factors |
| Transform.InLayerStep | mlkem/ntt.c:87-94 | inside a layer, blocks already passed hold the next residues, and later blocks are untouched |
| Transform.TwiddleMulBound | mlkem/ntt.c:90 | the product with a table entry is at most (1664 b + 2^15 q) / 2^16 in size, for an argument of size b |
| Transform.NttInPlace | mlkem/ntt.c:81-96 | for every bound of at most 16943 on the coefficients nothing wraps, the array ends as the 128 residues of the input, and the bound has grown layer by layer as stated |
| Transform.GrowthLimits | mlkem/ntt.c:81-128 | from 16943 the seven layers end exactly at 32767, and from 3197 below what the first sums of the inverse can take |
| Transform.NttRoundTrip | mlkem/ntt.c:81-128 | the two loop nests one after the other multiply by 2^16, for coefficients of at most 3197 |
| Transform.NodeMerges | mlkem/ntt.c:115-121 | one inverse block merges two residues, up to a factor two, using the table entry of the mirrored index |
| Transform.InvNttInPlace | mlkem/ntt.c:107-128 | for coefficients up to 16383 nothing that must be exact wraps, and the array ends as 2^16 times the inverse transform |
| Products.MontMulMeans | mlkem/ntt.c:141-179 | 2^16 times the stored pair products are the ring's pair products (plus the old values when adding); each addition grows a coefficient by at most 6656, and by at most 3536 with one centred operand, so nothing wraps |
| Products.Basemul | mlkem/ntt.c:141-153 | the new pair, for all operands whose products can be reduced, also when the output is an operand |
| Products.BasemulAcc | mlkem/ntt.c:167-179 | the same, added to the old pair |
| Products.DoubleBasemul | mlkem/matacc.c:8-16 | two neighbouring pairs with opposite factors |
| Products.PolyBasemul | mlkem/poly.c:555-568 | all 256 coefficients, also when the output is an operand |
| Convolution.MontgomeryConvolution | mlkem/ntt.c:81-153 | whatever representatives the steps compute, the result is congruent to the schoolbook product: the factors 2^-16 and 2^16 cancel |
| Convolution.TransformAndBack | mlkem/poly.c:528-544 | with the reduction between them, the same for coefficients of at most 16943 |
| Convolution.MultiplyInPlace | mlkem/indcpa.c:108-114 | the code's sequence of calls multiplies two polynomials, with the second operand's buffer as the output |
| Compress.CompressCodeExact | mlkem/poly.c:34-38 | each of the four multiply-and-shift forms is round(2^d u / q) mod 2^d for every u, including the wrapping 32-bit ones |
| Compress.CompressDecompress | mlkem/poly.c:83-113 | compressing a decompressed value returns it |
| Compress.DecompressCompress | mlkem/poly.c:83-113 | decompressing a compressed value moves it by at most round(q / 2^(d+1)) |
| Encode.DecodeEncode | mlkem/poly.c:360-392 | unpacking undoes packing, for every width |
| Encode.EncodeDecode | mlkem/poly.c:360-392 | packing undoes unpacking, for every byte string |
| Encode.EncodeSpellsNumber | mlkem/poly.c:360-374 | the packed bytes and the packed values are the same number in two bases: bits are in FIPS 203 order |
| Packing.PackIsEncode | mlkem/poly.c:146-156 | the shifts, masks and ors for 4, 5, 10, 11 and 12 bits are that change of base |
| Packing.UnpackIsDecode | mlkem/poly.c:198-205 | and so are those that unpack |
| Codec.PolyCompress | mlkem/poly.c:20-71 | writes ByteEncode_d(Compress_d(a)) at its place and nothing else, for all four widths |
| Codec.PolyDecompress | mlkem/poly.c:83-113 | Decompress_d(ByteDecode_d(b)), for all four widths |
| Codec.CmpPolyCompress | mlkem/poly.c:228-349 | zero if and only if the bytes at that place are the compressed polynomial |
| Codec.CipherRoundTrip | mlkem/poly.c:83-217 | every ciphertext string survives decompression and compression |
| Codec.CipherError | mlkem/poly.c:83-217 | the compression error per coefficient, for whole polynomials |
| Codec.PolyStore | mlkem/poly.c:360-374 | the 12-bit encoding at its place and nothing else |
| Codec.PolyLoad | mlkem/poly.c:386-392 | the 12-bit decoding, not reduced |
| Codec.BytesRoundTrip | mlkem/poly.c:360-392 | storing what was loaded returns all 384-byte strings, canonical or not |
| Codec.PolyRoundTrip | mlkem/poly.c:360-392 | loading what was stored gives the representatives in [0, q) |
| Polyvec.LoosePackSame | mlkem/polyvec.c:37-71 | packing without masks stores the same bytes |
| Polyvec.LooseUnpackSame | mlkem/polyvec.c:97-119 | masking 16-bit words in the end reads the same values |
| Polyvec.PolyvecCompress | mlkem/polyvec.c:16-78 | exactly the bytes that the one-polynomial form writes for each polynomial in turn |
| Polyvec.PolyvecDecompress | mlkem/polyvec.c:90-130 | exactly what the one-polynomial form reads |
| Polyvec.PolyvecBasemulAcc | mlkem/polyvec.c:204-215 | 2^16 times the result is congruent to the inner product, with centred coefficients |
| Polyvec.SeparatelyAdded | mlkem/polyvec.c:209-212 | multiplying and then adding keeps the invariant that accumulating keeps, without wrapping |
| Poly.PolyReduce | mlkem/poly.c:594-599 | the centred representatives |
| Poly.PolyLoadBasemul | mlkem/poly.c:407-425 | loading fused with multiplying is loading and then multiplying |
| Poly.PolyFromMsg | mlkem/poly.c:435-448 | Decompress_1(ByteDecode_1(m)) |
| Poly.MessageBitWraps | mlkem/poly.c:465-472 | despite the wrap of negative values, the bit is 1 exactly for centred values of size 833 or more |
| Poly.PolyToMsg | mlkem/poly.c:458-476 | ByteEncode_1(Compress_1(a)) |
| Verify.Verify | mlkem/verify.c:17-26 | 0 for equal strings, 1 for different ones |
| Verify.Cmov | mlkem/verify.c:41-48 | copies or keeps the whole buffer |
| Cbd.PairLane | mlkem/cbd.c:62-68 | no carry leaves a two-bit lane of the masked sum |
| Cbd.TripleLane | mlkem/cbd.c:95-102 | nor a three-bit lane |
| Cbd.PairCount | mlkem/cbd.c:61-69 | lane l of the word is the number of ones among its two bits of the buffer |
| Cbd.TripleCount | mlkem/cbd.c:94-103 | the same for three bits |
| Cbd.Cbd2 | mlkem/cbd.c:56-75 | SamplePolyCBD with eta = 2, stored or added to any prior polynomial |
| Cbd.Cbd3 | mlkem/cbd.c:89-109 | SamplePolyCBD with eta = 3 |
| Sample.AcceptedGrows | mlkem/matacc.c:52-76 | reading on never changes the candidates already accepted |
| Sample.FoundNext | mlkem/matacc.c:57-71 | one more candidate extends the sampled polynomial by one coefficient or by none |
| Matacc.Push | mlkem/matacc.c:57-65 | storing a candidate and flushing four of them keeps the invariant that all but the last ctr mod 4 are multiplied in |
| Matacc.ScanBlock | mlkem/matacc.c:51-76 | no candidate is lost or used twice within and between blocks |
| Matacc.MataccInner | mlkem/matacc.c:32-79 | sampling fused with multiplying leaves r as if the polynomial were sampled first and then multiplied |
| Vectors.PointAssoc | mlkem/ntt.c:130-153 | pairwise products associate |
| Vectors.TransposeSwap | mlkem/matacc.c:93-100 | (A^T y) . s = (A s) . y for the transformed products: key generation and encryption agree on one matrix read in two ways |
| Indcpa.FactorsCancel | mlkem/poly.c:542-544 | the inverse transform of 2^-16 times a vector, times 2^16, is the vector's inverse transform |
| Indcpa.AccumulateNext | mlkem/matacc.c:97-99 | adding one more product keeps 2^16 r congruent to the partial inner product and grows it as the operands allow |
| Indcpa.PolyNtt | mlkem/poly.c:528-531 | the transform, centred |
| Indcpa.PolyNoise | mlkem/poly.c:492-517 | noise from the seed and nonce, stored or added; KpkeLaws.NoiseIsDrawn and CodecLaws.NoiseFromBits say which bits |
| Indcpa.MataccRow | mlkem/matacc.c:93-100 | a row of A or of its transpose times a vector, sampled on the way, in range for the inverse transform; KpkeLaws.EntryOrder gives the streams |
| Indcpa.KeyProduct | mlkem/indcpa.c:108-113 | the stored key times the transformed vector, accumulated in the buffer of one of the operands |
| Indcpa.IndcpaKeypairDerand | mlkem/indcpa.c:27-60 | the public key is the canonical encoding of A s + e transformed, with no further Montgomery correction, then the first half of G(d); the secret key encodes s |
| Indcpa.IndcpaEnc | mlkem/indcpa.c:78-122 | the ciphertext of the plain scheme, byte for byte; KpkeLaws.ParameterSizes and KpkeLaws.CipherEquation say which that is |
| Indcpa.IndcpaEncCmp | mlkem/indcpa.c:161-210 | 0 if the ciphertext is what encryption would produce, 1 otherwise, although none is produced |
| Indcpa.IndcpaDec | mlkem/indcpa.c:137-159 | the message the plain scheme decrypts, for every ciphertext and key string |
| Correctness.PhaseIsMessagePlusNoise | mlkem/indcpa.c:137-159 | v - s . u is the message polynomial plus the noise e . y + e2 + c_v - s . (e1 + c_u) |
| Correctness.BitSurvives | mlkem/poly.c:458-476 | a coefficient decodes to its bit if and only if its centred noise is in the interval of that bit |
| Correctness.CompressionErrors | mlkem/indcpa.c:105-121 | the c_u and c_v of honest ciphertexts are bounded by the compression error |
| Correctness.DecryptInvertsEncrypt | mlkem/indcpa.c:27-159 | for all keys, messages and coins, decryption returns the message if and only if every noise coefficient fits |
| Kem.KemKeypairDerand | mlkem/kem.c:26-35 | both keys, with the hash and the rejection seed at their places |
| Kem.KemEncDerand | mlkem/kem.c:75-94 | ciphertext and shared key of the reference |
| Kem.KemDec | mlkem/kem.c:137-162 | for every ciphertext and secret key, the first half of G(m' and the key hash) if re-encryption gives the ciphertext, and the rejection hash otherwise |
| Kem.DecapsulateEncapsulate | mlkem/kem.c:26-162 | honest parties agree whenever the noise fits |
| Chance.KeysAgreeByChance | mlkem/kem.c:26-162 | there are hash functions for which the noise of K = 2 never fits, so decryption returns another message, while both sides still compute the same key |
| Kem.DecapsulateMisses | mlkem/kem.c:137-162 | if it does not, decapsulation answers for a different message: with that message's key if it encrypts to the same ciphertext, and with the rejection hash otherwise |
| KeccakSpec.OffsetsAreTriangular | fips202/keccakf1600.c:251-749 | the rotation counts are the triangular numbers along the walk of section 3.2.2 of FIPS 202 |
| Halves.HalvesRefineRound | fips202/keccakf1600.c:251-375 | theta, rho, pi, chi and iota on even and odd words are a round on the 1600-bit state |
| KeccakMatch.LinesFit | fips202/keccakf1600.c:251-749 | each of the 200 lines of the four unrolled rounds reads, rotates and writes the words that the placement of its round asks for |
| KeccakConstants.ConstantsFit | fips202/keccakf1600.c:223-249 | the interleaved constants are the output of the LFSR of section 3.2.5 of FIPS 202, for all 24 rounds |
| KeccakMatch.RoundsMeet | fips202/keccakf1600.c:251-749 | every round writes each word where the next round reads it, and the fourth writes it where the state has it: the four maps compose to the identity |
| KeccakRounds.KeccakRound | fips202/keccakf1600.c:251-749 | each unrolled round takes a state placed for it to the next state placed for the following round |
| KeccakRounds.FourRounds | fips202/keccakf1600.c:871-887 | one pass of the loop is four rounds |
| KeccakRounds.EndMark | fips202/keccakf1600.c:887 | the end mark stops the loop after exactly 48 words, never before |
| KeccakRounds.Permute | fips202/keccakf1600.c:751-939 | Keccak-f[1600] on every state; KeccakLaws.RoundAt and SpongeLaws.PermutationIsTrail say what that is |
| LaneBytes.ToInterleaved | fips202/keccakf1600.c:47-63 | bit z of a lane goes to bit z / 2 of the even or odd word |
| LaneBytes.FromInterleaved | fips202/keccakf1600.c:75-97 | and comes back |
| LaneBytes.InterleavingInverts | fips202/keccakf1600.c:47-97 | the two macros are inverse to each other, in both directions |
| StateBytes.AddBytesInLane | fips202/keccakf1600.c:99-121 | bytes are xored into a lane at their offset, and no other bit changes |
| StateBytes.AddLanes | fips202/keccakf1600.c:125-160 | the same for whole lanes |
| StateBytes.XorBytes | fips202/SnP-Relaned.h:27-54 | xor of any number of bytes at any offset, on both paths |
| StateBytes.ExtractBytes | fips202/SnP-Relaned.h:85-112 | the bytes of the state at any offset, written to their place only |
| Sponge.AbsorbingIsBlocks | fips202/fips202.c:112-127 | on whole blocks the byte-wise state is that of the absorbing phase of section 4 of FIPS 202 |
| Sponge.PaddedBits | fips202/fips202.c:142-154 | the domain byte and the last bit are suffix and pad10*1, also when they share a byte |
| Sponge.PadFills | fips202/fips202.c:142-154 | pad10*1 always ends at a block boundary |
| Sponge.SealedIsSponge | fips202/fips202.c:32-55 | the state after absorbing is that of the sponge on message, suffix and padding, for every length |
| Sponge.OutIsSqueeze | fips202/fips202.c:69-78 | the output bytes are what the squeezing phase extracts |
| Fips202.Context.constructor | fips202/fips202.c:90-97 | nothing absorbed |
| Fips202.Context.Absorb | fips202/fips202.c:112-127 | any splitting of the input over calls gives the state of the joined input; the counter stays below the rate |
| Fips202.Context.Finalize | fips202/fips202.c:142-154 | the padded message has been absorbed and no output taken |
| Fips202.Context.Squeeze | fips202/fips202.c:169-197 | any splitting of the output over calls gives consecutive bytes of one stream, and nothing else is written |
| Fips202.KeccakAbsorb | fips202/fips202.c:32-55 | the same final state as the incremental functions |
| Fips202.KeccakSqueezeBlocks | fips202/fips202.c:69-78 | the next whole blocks of the same stream |
| Symmetric.DigestIsSponge | fips202/fips202.c:282-313 | a digest is the truncated sponge output of section 4 of FIPS 202, for every message and length |
| Symmetric.StandardIsFips202 | mlkem/symmetric.h:27-32 | G, H and J are SHA3-512, SHA3-256 and SHAKE256 |
| Symmetric.StreamsAreShake | mlkem/symmetric-shake.c:19-50 | PRF and XOF are SHAKE256 and SHAKE128 |
| Symmetric.Hash | fips202/fips202.c:259-313 | the one-shot functions write the digest |
| Symmetric.HashG | fips202/fips202.c:303-313 | the 64 bytes of G and no others |
| Symmetric.HashH | fips202/fips202.c:282-292 | the 32 bytes of H at their place |
| Symmetric.Prf | mlkem/symmetric-shake.c:43-50 | the stream of key and nonce |
| Symmetric.Rkprf | mlkem/symmetric-shake.c:63-71 | absorbing key and ciphertext separately gives the hash of both joined |
| Symmetric.XofAbsorb | mlkem/symmetric-shake.c:19-30 | the state before the first block of the stream |
| Symmetric.XofSqueezeBlock | fips202/fips202.c:245-247 | the next block of the stream |
| Symmetric.MataccInnerShake | mlkem/matacc.c:32-79 | the fused sampler on SHAKE128 output, block by block, with no abstract function left |
| AesSbox.SboxIsFips197 | test/common/aes.c:69-241 | on every byte the circuit is the affine map of section 5.1.1 of FIPS 197 applied to an inverse in GF(2^8), with zero its own |
| AesSlice.GateAt | test/common/aes.c:69-241 | a gate on 64-bit words is the same gate at every bit position |
| AesSlice.BitsliceSbox | test/common/aes.c:69-241 | the circuit on words is the circuit on each of 64 bytes, which AesSbox.SboxIsFips197 identifies |
| AesSlice.LaneShiftRows | test/common/aes.c:417-432 | the seven masked shifts move the rows of every block as FIPS 197 does |
| AesSlice.LaneMixColumns | test/common/aes.c:438-467 | the rotations and exclusive ors are 2 a + 3 b + c + d in GF(2^8) in every column of every block |
| AesLayout.Ortho | test/common/aes.c:243-270 | the twelve swaps transpose the bit matrices |
| AesLayout.TransposedTwice | test/common/aes.c:243-270 | the transposition is its own inverse |
| AesLayout.OutUndoesIn | test/common/aes.c:272-318 | reading off interleaved words returns them |
| AesCipher.LaneLoaded | test/common/aes.c:479-483 | interleaved and transposed, bit i of byte (r, c) of block b is bit 16 r + 4 c + b of word i |
| AesCipher.BlockUnloaded | test/common/aes.c:496-499 | and every block is found there again |
| AesCipher.NextRound | test/common/aes.c:486-491 | a round on the words is a round of FIPS 197 on each of the four blocks alone |
| AesCipher.Ecb4x | test/common/aes.c:474-501 | four blocks, each encrypted by itself under its own part of the key words |
| AesCipher.Ecb | test/common/aes.c:513-530 | any number of blocks, each encrypted by itself, whatever the unset words of the last call hold |
| AesKeys.SubstituteWord | test/common/aes.c:324-333 | the S-box on the four bytes of one word |
| AesKeys.RconIs | test/common/aes.c:320-322 | the table holds the powers of x in GF(2^8) |
| AesKeys.ExpandKey | test/common/aes.c:335-358 | the words of section 5.2 of FIPS 197, for all three key sizes |
| AesKeys.NibbleFill | test/common/aes.c:384-404 | subtracting a sparse word from sixteen times itself, modulo 2^64, copies one bit to its whole nibble |
| AesKeys.RoundKeyUnpacked | test/common/aes.c:360-404 | compressing and expanding the round keys gives every block the same key |
| AesKeys.AesEcb | test/common/aes.c:606-628 | key expansion and encryption together are FIPS 197, block by block; the S-box in it is that of AesSbox.SboxIsFips197 |
| RingLaws.MonomialShifts | mlkem/poly.c:546-568 | multiplying by X^i moves every coefficient i places up, and those that leave come back negated |
| RingLaws.CoefficientMoves | mlkem/poly.c:546-568 | adding c to one coefficient of a factor adds c X^i times the other factor to the product |
| RingLaws.DotTerms | mlkem/matacc.c:93-100 | inner products have exactly one term for each of the two, three or four polynomials |
| RingLaws.NttEvaluates | mlkem/ntt.c:81-96 | pair i of the transform is the even and the odd part of the polynomial at 17^(2 BitRev7(i) + 1), for every polynomial: the order of FIPS 203 |
| CodecLaws.ByteIsNumber | mlkem/poly.c:360-374 | bytes are the numbers below 256, whichever way they are written in bits |
| CodecLaws.EncodedField | mlkem/poly.c:360-374 | packing puts coefficient i, least significant bit first, into bits d i to d i + d - 1, for every width |
| CodecLaws.DecodedField | mlkem/poly.c:386-392 | unpacking reads it there |
| CodecLaws.CompressIsNearest | mlkem/poly.c:20-71 | compression takes the level nearest to 2^d u / 3329 |
| CodecLaws.DecompressIsNearest | mlkem/poly.c:83-113 | decompression takes the coefficient nearest to 3329 y / 2^d, the greater one of two, and no other value does |
| CodecLaws.ErrorBounds | mlkem/poly.c:83-217 | the compression errors of the five widths as numbers |
| CodecLaws.PackedLevel | mlkem/poly.c:20-71 | which bits of a compressed polynomial are the level of coefficient i |
| CodecLaws.UnpackedLevel | mlkem/poly.c:83-113 | and which bits a coefficient is decompressed from |
| CodecLaws.MessageCoefficient | mlkem/poly.c:435-448 | message bit i becomes coefficient i with value 0 or 1665 |
| CodecLaws.KeyCoefficient | mlkem/poly.c:386-392 | coefficient i of a key polynomial is read from bits 12 i to 12 i + 11, unreduced |
| CodecLaws.WrittenCoefficient | mlkem/poly.c:360-374 | and written there, with 3329 added to negative ones |
| CodecLaws.NoiseFromBits | mlkem/cbd.c:56-109 | coefficient i of the noise counts buffer bits 2 eta i to 2 eta i + eta - 1 up and the next eta down |
| CodecLaws.CandidatePair | mlkem/matacc.c:51-55 | two candidates below 4096 spell the number of three bytes, the first one in its low bits |
| CodecLaws.CandidatePlace | mlkem/matacc.c:51-76 | an acceptable candidate becomes the coefficient whose index is the number of acceptable ones before it |
| CodecLaws.SampleableIs | mlkem/matacc.c:47-78 | a stream suffices exactly when some prefix holds 256 acceptable candidates |
| KpkeLaws.ParameterSizes | mlkem/params.h:26-55 | the lengths of ciphertexts, keys, compressed polynomials and noise buffers, as numbers, for K = 2, 3, 4 |
| KpkeLaws.SecretsAreSmall | mlkem/params.h:29-41 | all coefficients of s and e lie within 3 for K = 2 and within 2 for K = 3, 4 |
| KpkeLaws.SeedHalves | mlkem/indcpa.c:32-38 | public seed and noise seed, in this order, are the 64 bytes of the hash |
| KpkeLaws.PublishedSeed | mlkem/indcpa.c:32-59 | the public key ends with the first 32 bytes of the hash |
| KpkeLaws.NoiseIsDrawn | mlkem/poly.c:492-517 | every nonce byte reaches the pseudo-random function as it is |
| KpkeLaws.SecretsAreDrawn | mlkem/indcpa.c:40-52 | s[i] is drawn from the second half of the hash with nonce i, e[i] with nonce K + i |
| KpkeLaws.NonceIsItsOwn | mlkem/indcpa.c:40-52 | changing the pseudo-random output for one nonce changes at most one polynomial of a whole key pair, s[n] or e[n - K] |
| KpkeLaws.EntryOrder | mlkem/matacc.c:37-41 | for key generation the column index is absorbed before the row index, for encryption after it |
| KpkeLaws.RowReads | mlkem/matacc.c:37-41 | row i for key generation depends on the streams whose second index byte is i and on no other |
| KpkeLaws.PublicKeyEquation | mlkem/indcpa.c:46-59 | polynomial i of every public key is row i of A times s, plus e[i], in the ring |
| KpkeLaws.SecretKeyEquation | mlkem/indcpa.c:40-58 | polynomial i of every secret key is the transform of s[i] |
| KpkeLaws.PublicKeyIsCanonical | mlkem/indcpa.c:46-56 | all coefficients of a public key are below 3329, so the equation fixes them |
| KpkeLaws.SecretKeyIsCanonical | mlkem/indcpa.c:40-58 | the same for the secret key |
| KpkeLaws.CipherEquation | mlkem/indcpa.c:91-106 | piece i of every ciphertext compresses row i of the transposed matrix times y, plus e1[i], in the ring |
| KpkeLaws.CipherTailEquation | mlkem/indcpa.c:108-121 | the rest compresses t . y + e2 plus the message polynomial |
| KpkeLaws.DecryptEquation | mlkem/indcpa.c:137-159 | decryption compresses v - s . u to one bit, for whatever polynomials the strings hold |
| KpkeLaws.DecodedFrom | mlkem/indcpa.c:137-159 | each u[i] and v is decompressed from its own bytes |
| KemLaws.DecapsulationKeyParts | mlkem/kem.c:26-35 | s, the public key, its hash and the second half of the coins, one after the other |
| KemLaws.EncapsulationHashes | mlkem/kem.c:75-94 | key and coins are the halves of the hash of the message followed by the hashed public key |
| KemLaws.SharedKeyReads | mlkem/kem.c:75-94 | the shared key depends on the public key only through its hash |
| KemLaws.KeyParts | mlkem/kem.c:137-162 | where decapsulation finds s, the public key, its hash and the rejection seed |
| KemLaws.DecapsulationAnswers | mlkem/kem.c:137-162 | which bytes are hashed for an accepted and for a rejected ciphertext |
| KeccakLaws.ParityIsOddness | fips202/keccakf1600.c:251-272 | the column parity of theta is the oddness of the number of set bits among all five of the column |
| KeccakLaws.ParityFlips | fips202/keccakf1600.c:251-272 | negating any bit of a column negates its parity and no other |
| KeccakLaws.ThetaFlips | fips202/keccakf1600.c:251-275 | negating one bit of the state changes eleven bits after theta, and exactly which |
| KeccakLaws.RhoMoves | fips202/keccakf1600.c:251-375 | where rho takes each bit |
| KeccakLaws.PiMoves | fips202/keccakf1600.c:251-375 | where pi takes each bit |
| KeccakLaws.ChiFlips | fips202/keccakf1600.c:251-375 | which bits after chi change with one bit before it, depending on two neighbours |
| KeccakLaws.RegisterRecurs | fips202/keccakf1600.c:223-249 | the bits behind the round constants satisfy the recurrence of x^8 + x^6 + x^5 + x^4 + 1 |
| KeccakLaws.RegisterStarts | fips202/keccakf1600.c:223-249 | and start with a one and seven zeros |
| KeccakLaws.ConstantBit | fips202/keccakf1600.c:223-249 | and stand at the places 2^j - 1 |
| KeccakLaws.RoundAt | fips202/keccakf1600.c:251-375 | one round, bit by bit, as one formula in the bits of the state before it |
| SpongeLaws.BitOfString | fips202/keccakf1600.c:99-121 | bytes enter the state least significant bit first |
| SpongeLaws.PermutationIsTrail | fips202/keccakf1600.c:871-887 | the permutation is 24 rounds with indices 0 to 23: the end of every trail of rounds |
| SpongeLaws.NothingAbsorbed | fips202/fips202.c:90-97 | absorbing starts from 1600 zeros |
| SpongeLaws.BlockAbsorbed | fips202/fips202.c:32-55 | a block is added to the first bits of the state and to no others, and the permutation follows |
| SpongeLaws.PadShape | fips202/fips202.c:142-154 | a one, zeros, a one, and no shorter padding of at least two bits fills the block |
| SpongeLaws.SqueezedBit | fips202/fips202.c:69-78 | bit j of output block q is bit j of the state after q more permutations |
| SpongeLaws.SpongeBit | fips202/fips202.c:282-313 | the same for the output on a whole message |
| AesLaws.DoubledByte | test/common/aes.c:438-467 | doubling in GF(2^8) shifts left, and adds 0x1b when a bit leaves |
| AesLaws.ProductOfSum | test/common/aes.c:438-467 | the product of GF(2^8) distributes over exclusive or |
| AesLaws.ProductOfDouble | test/common/aes.c:438-467 | and doubles with its first factor; with its unit this fixes it |
| AesLaws.ProductOfOne | test/common/aes.c:438-467 | 1 is the unit of the product |
| AesLaws.AffineAt | test/common/aes.c:69-241 | bit i of the affine map adds bits i, i + 4, i + 5, i + 6, i + 7 and one of 0x63 |
| AesLaws.SubstitutedByte | test/common/aes.c:69-241 | the S-box acts on every byte by itself |
| AesLaws.ShiftedByte | test/common/aes.c:417-432 | row r moves left by r columns, for each byte |
| AesLaws.MixedByte | test/common/aes.c:438-467 | each byte of a column becomes 2 a[r] + 3 a[r+1] + a[r+2] + a[r+3] with the product of GF(2^8) |
| AesLaws.CipherEndsTrail | test/common/aes.c:474-501 | the cipher is the end of every trail of rounds: a key first, full rounds, and a last one without mixed columns |
| AesLaws.RotatedByte | test/common/aes.c:343-346 | rotation and substitution of a schedule word, byte by byte |
| AesLaws.ConstantByte | test/common/aes.c:320-346 | the round constant is the table byte in the first byte only |
| AesLaws.FirstWords | test/common/aes.c:335-341 | the schedule starts with the key |
| AesLaws.ScheduledWord | test/common/aes.c:342-357 | every later word is the exclusive or of the word nk before and of the last one, transformed at the stated places |
| AesLaws.RoundKeyWord | test/common/aes.c:360-404 | a round key is four consecutive words |
| AesLaws.EncryptedBlock | test/common/aes.c:606-628 | block i of the output encrypts block i of the input in 10, 12 or 14 rounds |

## Left out

- Counter mode, and the allocation and release of AES contexts.
- The straight-line code of the AES S-box is one loop over a list of its gates.
- `hal/*`, linker scripts, `mk/*` and `scripts/*`: device input and output, and the build.
- The entry points that draw randomness themselves: they call the modelled `_derand` functions with random bytes.
- Rejection sampling may read forever: `Sample.Sampleable` and `Kpke.MatrixReady` assume that each stream holds 256 acceptable
  candidates, and termination of the sampling loop is proved under that assumption. How likely that is, is not part of the model.
- Security: no failure probability, no indistinguishability, no statement about running time.
- Kem.DecapsulateEncapsulate: the converse is false, as `Chance.KeysAgreeByChance` shows; `Kem.DecapsulateMisses` states what
  happens when the noise does not fit.
- In the methods of `Kem` and `Indcpa`, hash calls are applications of a function parameter; that the sponge code computes such functions is
  `Symmetric.StandardIsFips202` and the methods beside it.
- In decompression (`Codec.PolyDecompress`) the loop for 4-bit values handles eight coefficients at a time, the code two.
- The four unrolled macros of Keccak are one loop over tables transcribed from their lines, and the
  words of the state are sequences of bits, so shifts and xors are defined on bits instead of on `uint32_t`.
- The 16-bit conditional move (`Verify.CmovWord`) works on the 16-bit vector that represents the number.
- The permutation for other round counts than 24, which nothing requests, and its starting permutations.
- Big-endian and misaligned variants of the byte loads.
- SHA3-384: it has a rate but no function in this version.
- Buffers that the C code reads through const pointers are values here, so that an output overlapping such an input is not modelled
  beyond the cases the code uses.
- The remaining vector functions of mlkem/polyvec.c repeat a modelled polynomial function for each entry.
- `poly_tomont`: no modelled operation calls it.
