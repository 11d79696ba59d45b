# ossl-go, verified

A Dafny model of the Go code that surrounds the OpenSSL calls in `ossl/`, with
proofs of what that code is for. OpenSSL itself is a parameter: block modes, AEAD
cores, digests, tags, wrapping and signing are opaque functions with length and
inverse laws (the predicates called `Lawful`, `TakesByDigest` in `Capability`, and
`GoodSignature` in `OneShot`), and which of its calls fails is an explicit argument
(`refuses`, `reply`, `fails`), so every theorem holds for every pattern of failures.
What `OneShot.Lawful` assumes of signing is that a recipe which hashes works on the
hash of the message, that a key type which hashes by itself takes no named digest,
and that digests have the size they are reported to have. Where the source passes a
length or a count through a C integer, the truncation is part of the model.

The modules, from the arithmetic up:

- `ByteStrings`, `Arithmetic`, `BigEndian`, `Runs`: byte strings, C integers, base
  256, and runs of a state machine.
- `Der`, `EcdsaFormat`: DER written out from X.690, and the two ECDSA formats.
- `SignOptions`, `OneShot`, `Capability`: which options are accepted, what they make
  OpenSSL do, the one-shot calls on messages and digests, and the capability check.
- `Padding`, `BlockCipher`, `Slices`, `KeyWrap`: `Cipher`, on values and on the
  caller's slices, and `KeyWrap`.
- `Aead`: framing and call order of `SealErr` and `Open`.
- `CloseProtocol`, `ThreadBudget`, `Probe`: the three concurrency protocols, as
  interleaved steps of any number of threads.
- `CHeap`, `Params`, `Mac`: the parameter builder over an explicit C heap, and the
  MAC that retains one.
- `Accumulator`, `Digest`: what `Hash` and `MAC` share, and `Hash`.
- `Streams`, `SignerVerifier`: key references and the streaming signer and verifier.
- `Enumerate`, `SecureHeap`: name lists and the size test of the secure heap.

A class with the source's fields carries out each stateful operation, and its
methods' postconditions equate the new state and the result with functions
(`SealOutcome`, `WriteStream`, `Appended`, ...). What the source promises is then
proved of those functions.

## Where the code and its documentation or intent part

- `Err` on `Hash` and `MAC` reports the latest error; its comment says the first
  (`Accumulator.ErrIsTheFirstIff`, `Accumulator.NoOtherIff`). A `Sum` after
  a refused `Write` or `Reset` may succeed over something else than the successful
  writes (`Accumulator.SureExactlyWhenClean`).
- `SignDigest` does not name a digest to EdDSA, so a digest in the options is ignored
  there and makes `Sign` fail (`OneShot.DigestStandsForMessageIff`).
- The capability check asks neither whether the key type can sign, nor whether the
  digest suits it, nor whether the default digest is usable
  (`Capability.VerdictIsThatOfSigning`, `Capability.KemKeysPassTheCheck`).
- `WithCipherIVSize` accepts sizes below the cipher's own, and OpenSSL, which is given
  an address only, then reads behind the caller's slice: an 8-byte IV for CBC is one
  (`BlockCipher.IvSizeIsSafeIff`, `BlockCipher.EightByteCbcIvIsAccepted`).
- In a ciphertext-stealing mode with the default padding an unaligned text encrypts
  and does not decrypt (`BlockCipher.StealingIsOneWay`).
- `Encrypt` overwrites a plaintext that dst has capacity over
  (`Slices.PlaintextSurvivesIff`).
- Streams keep no signature format: with P1363 a stream signs and judges DER
  (`Streams.StreamedSignature`, `Streams.JudgedAlikeExactly`,
  `Streams.P1363StreamSignsDer`).
- Undeclared values of the padding and format enumerations are accepted and act as
  the default, and PKCS#1 v1.5 ignores PSS settings
  (`SignOptions.DropsExactlyWhenNotPlain`); salt lengths from 2^31 on are
  truncated, and some ask for automatic salt lengths (`SignOptions.SaltLengthsCollide`).
- ISO 7816-4 removal accepts more than padding produces (`Padding.IsoImage`), and
  X9.23 padding cannot be removed when its length byte wraps
  (`Padding.X923RoundTrip`).
- Inputs of 2^31 bytes and more are not processed whole
  (`BlockCipher.DecryptUndoesEncrypt`, `Aead.OpenUndoesSeal`,
  `Aead.AadAuthenticatedWholeIff`).
- With 512 names collected a repeated name already counts as overflow
  (`Enumerate.FullArrayTurnsAwayARepeat`).
- `InitSecureHeap` does not check that the size is a multiple of the minimum
  (`SecureHeap.AcceptedSizesDivide`).
- The decoder tolerates further elements inside the SEQUENCE
  (`EcdsaFormat.AcceptedReencodes`).

## Model

| member | source | states |
|---|---|---|
| `Der.LengthRoundTrip` | ossl/sign.go:405-409 | a definite length, short or long form (sections 8.1.3 and 10.1 of X.690), is read back whatever follows it |
| `Der.LengthUnique` | ossl/sign.go:375-378 | every accepted length is in its only, shortest form |
| `Der.ElementRoundTrip` | ossl/sign.go:405-409 | tag, length and content are read back, the rest of the input untouched |
| `Der.ElementUnique` | ossl/sign.go:375-378 | an accepted element is the encoding of its content followed by the rest |
| `Der.IntegerRoundTrip` | ossl/sign.go:401-405 | the content octets of a non-negative INTEGER are minimal (section 8.3 of X.690) and have its value, sign octet included |
| `Der.IntegerUnique` | ossl/sign.go:375-382 | minimal content octets determine and are determined by their value; it is negative exactly when the top bit is set |
| `Der.MarshalRoundTrip` | ossl/sign.go:361-363 | an ECDSA-Sig-Value reads back as the pair it was made from, with nothing left over |
| `Der.MarshalUnique` | ossl/sign.go:374-382 | an accepted string with nothing beyond two non-negative INTEGERs is the canonical encoding of that pair |
| `Der.MarshalWrittenOut` | ossl/sign.go:405-409 | the encoding octet by octet, for numbers of up to 126 bytes |
| `Der.EncodableLengths` | ossl/sign.go:405-409 | every length a Go slice can have has a DER length of at most nine octets |
| `BigEndian.WidthIff` | ossl/sign.go:385-388 | the byte-length test on a component is the test that it is below 256^coord |
| `BigEndian.ZerosThenMinBytes` | ossl/sign.go:401-404 | a byte string is leading zeros followed by the shortest form of its big-endian value |
| `EcdsaFormat.CoordinateLenIsExact` | ossl/sign.go:368-370 | (bits+7)/8 bytes hold every number below 2^bits, and one byte less does not |
| `EcdsaFormat.DerToP1363` | ossl/sign.go:373-393 | the two right-aligned copies into a zeroed buffer give the fixed-width form of both numbers; each malformed, trailing, negative or too wide input gets its own error |
| `EcdsaFormat.CanonicalRoundTrip` | ossl/sign.go:368-410 | on canonical DER the conversion succeeds exactly when both numbers are below 256^coord; the halves have their values and convert back to the same DER |
| `EcdsaFormat.RawRoundTrip` | ossl/sign.go:373-410 | fixed-width bytes survive the way to DER and back, leading zeros, zero halves and high bits included |
| `EcdsaFormat.RawAlwaysConverts` | ossl/sign.go:396-410 | every string of twice the coordinate length converts to DER |
| `EcdsaFormat.RawConversionIsInjective` | ossl/sign.go:396-410 | different fixed-width signatures have different DER forms |
| `EcdsaFormat.AcceptsExactly` | ossl/sign.go:373-389 | the accepted strings, described without a parser: a SEQUENCE that starts with the INTEGERs of two numbers that fit |
| `EcdsaFormat.RejectsExactly` | ossl/sign.go:373-399 | the inputs of each rejection, in the order of the checks: what does not parse, what is left over, a negative number, a number that is too wide, and the wrong length the other way |
| `EcdsaFormat.AcceptedReencodes` | ossl/sign.go:373-410 | an accepted string re-encodes to the canonical form of its pair, and to itself exactly when the SEQUENCE held nothing more |
| `EcdsaFormat.FormsDiffer` | ossl/sign.go:373-393 | the fixed-width form of a signature is never its DER form |
| `EcdsaFormat.ConversionIsAnother` | ossl/sign.go:521-528 | under P1363 the bytes handed to OpenSSL are never the bytes that were given |
| `EcdsaFormat.VerifierSeesSignersBytes` | ossl/sign.go:468-528 | in either format Verify hands OpenSSL the DER bytes that OpenSSL signed with |
| `OneShot.SignsExactly` | ossl/sign.go:418-473 | options that do not pass, a refused recipe or call, and otherwise the library's signature, converted exactly under P1363 |
| `OneShot.VerifiesExactly` | ossl/sign.go:489-550 | accepted is exactly what the library accepts with 1, of the DER form under P1363; empty, malformed and wrong signatures are all rejections |
| `OneShot.VerifyAcceptsWhatSignReturns` | ossl/sign.go:418-550 | for every key type, accepted option set and format, Verify under the same options accepts what Sign returned |
| `OneShot.SignsDigestsExactly` | ossl/sign_digest.go:103-158 | where the digest checks pass, the library's signature on the digest under the same settings, with the digest named to RSA and EC only |
| `OneShot.VerifiesDigestsExactly` | ossl/sign_digest.go:164-226 | the same for the verdict on a digest, in the source's order of errors |
| `OneShot.SignaturesInterchange` | ossl/sign_digest.go:79-83 | a signature made from the message or from its digest is accepted on both paths |
| `OneShot.DigestChecks` | ossl/sign_digest.go:44-71 | every outcome of the digest checks, for every digest length and whether or not the named digest can be fetched: refused options, no digest form, unknown digest, wrong length, accepted |
| `OneShot.DigestStandsForMessageIff` | ossl/sign_digest.go:73-226 | SignDigest and VerifyDigest on the digest agree with Sign and Verify on the message, errors and formats included, exactly when the options are refused anyway, or the key type has a digest form and, for EdDSA, no digest was named (or the prehash variant is not taken at all) |
| `OneShot.NamedDigestSplitsEddsa` | ossl/sign_digest.go:112-117 | Ed25519ph with a digest named: Sign fails, SignDigest does not |
| `OneShot.DigestNameIsDroppedIff` | ossl/sign_digest.go:21-40 | on the digest path the digest name is ignored exactly for EdDSA |
| `OneShot.NoSilentDropOnDigests` | ossl/sign_digest.go:103-131 | no other accepted option is dropped on the digest path: equal settings and output come from the same request |
| `SignOptions.KeyContext.Apply` | ossl/sign.go:334-358 | the settings reach OpenSSL in order, up to the first one it refuses, and success means all of them did |
| `SignOptions.KeyContext.ApplyRsa` | ossl/sign.go:140-172 | RSA settings: padding, then salt length, then MGF1, each only if the previous one was accepted; `SignOptions.ConfiguresWhatWasAsked` says which |
| `SignOptions.ConfiguresWhatWasAsked` | ossl/sign.go:140-358 | what the settings configure the key context to: PSS unless PKCS#1 v1.5 was asked for, salt length, MGF1 digest, EdDSA instance, context string, nonce type and deterministic variant, for every accepted request and key type |
| `SignOptions.DefaultsExactly` | ossl/sign.go:126-135 | nil options are PSS with the digest's salt length and DER; an unnamed digest is SHA2-384 from 192 bits of security, SHA2-256 below, and none where the key type hashes by itself |
| `SignOptions.OneShotOnlyExactly` | ossl/pkey.go:161-173 | which of OpenSSL's key type names, in any case, are refused streaming, and only those |
| `SignOptions.ErrorsNameTheOption` | ossl/sign.go:282-328 | every error names an option that is set and has no use for the key type, or is out of its limits |
| `SignOptions.NoSilentDrop` | ossl/sign.go:140-358 | two accepted plain option sets with the same effect on OpenSSL and the output are the same request, up to the MGF1 default |
| `SignOptions.DropsExactlyWhenNotPlain` | ossl/sign.go:140-172 | an accepted option set is indistinguishable from a different plain one exactly when it has an undeclared padding or format value, or PSS settings under PKCS#1 v1.5 |
| `SignOptions.SaltLengthsCollide` | ossl/sign.go:150-159 | a salt length arrives as it is exactly below 2^31, two arrive as the same number exactly when they agree modulo 2^32, and one is taken for each of the four reserved values exactly when its low 32 bits spell it |
| `SignOptions.AutomaticSaltIsReachable` | ossl/sign.go:36-39 | an accepted salt length asks for the automatic verification that the documentation rules out |
| `SignOptions.RejectsExactlyTheDropped` | ossl/sign.go:282-328 | within the limits an option set is rejected exactly when it sets a field the key type would ignore |
| `Capability.VerdictIsThatOfSigning` | ossl/capability.go:126-199 | for a key that exists signing is turned down exactly when the capability check reports an error, or the key type cannot sign, or the digest does not suit it, or the digest was left to a default that is not usable |
| `Capability.TurnsDownKeysExactly` | ossl/capability.go:141-170 | which key types and curves the check turns down, and with which error |
| `Capability.TurnsDownExactly` | ossl/capability.go:172-200 | the same for digests and options; the first broken rule decides |
| `Capability.KemKeysPassTheCheck` | ossl/capability.go:141-147 | a capability of an available key type without signatures passes, and signing with such a key fails |
| `Capability.DefaultDigestIsNotAskedAbout` | ossl/capability.go:178-180 | a capability without a digest passes although its default digest is missing |
| `Padding.GapIff` | ossl/cipher_sym.go:371-378 | the filler length is the only one of at most a block that reaches a block boundary |
| `Padding.Remove` | ossl/cipher_sym.go:389-427 | the backward scan and the OR fold compute the removal that the other rows characterise |
| `Padding.PaddedShape` | ossl/cipher_sym.go:361-382 | padding only appends, reaches a boundary, and zero padding appends the fewest zeros that do |
| `Padding.PadsExactly` | ossl/cipher_sym.go:371-380 | the padded form written out: 0x80 and zeros, or zeros and the length byte, up to the next boundary |
| `Padding.PadsWithZeros` | ossl/cipher_sym.go:365-370 | the zeros of zero padding, none for an aligned text |
| `Padding.IsoAcceptsExactly` | ossl/cipher_sym.go:396-407 | ISO 7816-4 removal accepts exactly text, 0x80 and zeros, with a unique text |
| `Padding.IsoImage` | ossl/cipher_sym.go:371-407 | what ISO 7816-4 removal accepts is a padded text exactly when it is aligned and loses at most one block |
| `Padding.X923RoundTrip` | ossl/cipher_sym.go:375-423 | X9.23 removal undoes padding exactly when the filler length fits its byte |
| `Padding.X923AcceptsExactly` | ossl/cipher_sym.go:408-423 | for blocks of up to 255 bytes X9.23 removal accepts exactly the padded texts |
| `Padding.X923FailsAt256` | ossl/cipher_sym.go:375-414 | a 256-byte block whose filler length wraps to zero is refused |
| `Padding.Pkcs7RoundTrip` | ossl/cipher_sym.go:299-309 | OpenSSL's own padding (section 6.3 of RFC 5652) is undone by its removal |
| `Padding.Pkcs7PadsExactly` | ossl/cipher_sym.go:299-309 | the padded form of section 6.3 of RFC 5652: n bytes of value n |
| `Padding.Pkcs7AcceptsExactly` | ossl/cipher_sym.go:299-309 | its removal accepts exactly the padded texts |
| `BlockCipher.New` | ossl/cipher_sym.go:109-157 | AEAD modes, other key sizes, IV sizes and paddings out of range are refused in the source's order; otherwise an open handle with the option's IV size or the cipher's own |
| `BlockCipher.Cipher.Encrypt` | ossl/cipher_sym.go:199-233 | errors in the source's order, otherwise dst followed by the transform of the padded text |
| `BlockCipher.Cipher.Decrypt` | ossl/cipher_sym.go:240-269 | one error for every failure after the IV check, otherwise dst followed by the text without its padding; `BlockCipher.DecryptsExactly` says which text |
| `BlockCipher.DecryptsExactly` | ossl/cipher_sym.go:240-427 | for every ciphertext that the mode takes, whoever made it: the result is the text whose padded form it deciphers to, and Verification if there is none, for each scheme |
| `BlockCipher.DecryptErrors` | ossl/cipher_sym.go:240-269 | closed, wrong IV size, and one error for everything else; every refused call is a failure |
| `BlockCipher.EncryptErrors` | ossl/cipher_sym.go:199-233 | the inputs of each error, in order; every refused call is a failure |
| `BlockCipher.EncryptsExactly` | ossl/cipher_sym.go:199-233 | the ciphertext is that of the whole padded text under the key and the IV that was read |
| `BlockCipher.WholeExactly` | ossl/cipher_sym.go:212-221 | which padding that text has under each scheme |
| `BlockCipher.Cipher.Run` | ossl/cipher_sym.go:273-341 | one Init/Update/Final cycle under the key and the bytes that OpenSSL reads at the IV's address yields the whole transform, or an error if any call is refused |
| `BlockCipher.Cipher.UpdateAndFinal` | ossl/cipher_sym.go:311-341 | Update and Final together write the whole output; the scratch index stays inside the buffer |
| `BlockCipher.Cipher.Close` | ossl/cipher_sym.go:344-358 | the handle is closed and holds neither cipher nor key |
| `BlockCipher.EncryptSucceedsIff` | ossl/cipher_sym.go:199-233 | up to 2^31 padded bytes encryption fails exactly for an IV of the wrong size, an unaligned unpadded text, or a length the mode does not take |
| `BlockCipher.DecryptUndoesEncrypt` | ossl/cipher_sym.go:199-341 | for every scheme, mode and length, and an IV that OpenSSL reads inside its slice, decryption gives the text back after any dst (with zero padding the text and its filler) exactly when the padded length fits a C int and is aligned |
| `BlockCipher.UnalignedOnlyWhenStealing` | ossl/cipher_sym.go:212-226 | it is not aligned exactly for an unaligned text in a ciphertext-stealing mode with PKCS#7, which OpenSSL ignores there |
| `BlockCipher.StealingIsOneWay` | ossl/cipher_sym.go:252-254 | such a text is encrypted without an error and its ciphertext refused |
| `BlockCipher.IvReadStaysInsideIff` | ossl/cipher_sym.go:281-291 | what OpenSSL reads is decided by the slice alone exactly when the slice is empty or at least as long as the mode's own IV |
| `BlockCipher.IvSizeIsSafeIff` | ossl/cipher_sym.go:99-102 | equal IVs of a configured size round-trip every text that fits, in every mode that reads a given number of bytes, exactly when the size is zero or at least that number |
| `BlockCipher.UnsafeSizesAccepted` | ossl/cipher_sym.go:134-146 | the option accepts the unsafe sizes, which are those between one and the mode's own; without it the size is safe |
| `BlockCipher.EightByteCbcIvIsAccepted` | ossl/cipher_sym.go:134-152 | an 8-byte IV for a CBC mode that reads 16 is accepted and loses a text |
| `Slices.Append` | ossl/cipher_sym.go:232-232 | appending writes in place where there is room and changes nothing else |
| `Slices.Encrypt` | ossl/cipher_sym.go:199-233 | on the caller's slices the result is what it is for values, and only the room behind dst changes |
| `Slices.PlaintextSurvivesIff` | ossl/cipher_sym.go:232-232 | the plaintext is unmodified, whatever the ciphertext, exactly when the ciphertext is not appended over it |
| `Slices.InPlaceOverwrites` | ossl/cipher_sym.go:232-232 | encrypting onto plaintext[:0] overwrites it exactly when its capacity has room for the ciphertext |
| `KeyWrap.New` | ossl/cipher_sym.go:456-488 | the KEK's length and the padding choice name the algorithm; any other length is refused |
| `KeyWrap.KeyWrap.Wrap` | ossl/cipher_sym.go:555-573 | the guards of both variants, in order, around the wrapping |
| `KeyWrap.KeyWrap.Unwrap` | ossl/cipher_sym.go:580-598 | every failure is the one verification error; `KeyWrap.UnwrapsExactly` says when there is one |
| `KeyWrap.UnwrapsExactly` | ossl/cipher_sym.go:580-598 | key material comes out exactly of what passes the length guards and the integrity check under the KEK, and is what the check gave; everything else is the verification error |
| `KeyWrap.WrapsExactly` | ossl/cipher_sym.go:555-573 | what comes out of Wrap is the wrapping of the whole key material under the KEK, and nothing where a call is refused |
| `KeyWrap.UnwrapUndoesWrap` | ossl/cipher_sym.go:555-598 | whatever Wrap produces passes the guards of Unwrap and unwraps to the key material exactly when the wrapped length fits a C int |
| `KeyWrap.GuardsAreExact` | ossl/cipher_sym.go:564-572 | the exact inputs of each guard; below 2^31 bytes they leave exactly what RFC 3394 or RFC 5649 is defined on, so OpenSSL never turns an input down |
| `Aead.New` | ossl/cipher.go:89-135 | other key sizes, modes that do not authenticate and sizes that are not permitted are refused in the source's order; otherwise an open handle with the chosen sizes |
| `Aead.CcmSizesFillTheirFields` | ossl/cipher.go:137-169 | the CCM size pairs are exactly those the fields of appendix A.2.1 of SP 800-38C can express |
| `Aead.CcmSizes` | ossl/cipher.go:152-160 | in bytes: nonces of 7 to 13, tags of 4 to 16 in steps of two |
| `Aead.OtherTagSizes` | ossl/cipher.go:162-168 | the other modes take any nonce but an empty one and the tag lengths of 96 to 128 bits that SP 800-38D has |
| `Aead.CompleteTraces` | ossl/cipher.go:221-272 | the call-order automaton completes on exactly the documented call sequences of each mode |
| `Aead.CyclesWrittenOut` | ossl/cipher.go:221-272 | those sequences, call by call, with the lengths they declare and transfer |
| `Aead.Aead.SealErr` | ossl/cipher.go:211-296 | every call is legal in its phase, and success made the complete cycle of the mode and then read the tag |
| `Aead.Aead.Open` | ossl/cipher.go:357-444 | every call is legal in its phase; dst is extended only after the complete cycle |
| `Aead.Aead.InitContext` | ossl/cipher.go:313-340 | CCM declares sizes before key and nonce, the other modes everything at once; nonce and key are never empty where their first byte is addressed |
| `Aead.Aead.FeedHeader` | ossl/cipher.go:229-255 | CCM declares the data length exactly once before the AAD; an empty AAD makes no call |
| `Aead.Aead.FeedData` | ossl/cipher.go:257-272 | CCM transfers its data exactly once even when empty; the output stays inside the buffer |
| `Aead.Aead.Close` | ossl/cipher.go:484-498 | the handle is closed and holds neither cipher nor key |
| `Aead.OpenUndoesSeal` | ossl/cipher.go:211-444 | for every admitted size pair the sealed text is as long as what OpenSSL was shown of the plaintext plus the tag and opens to it after any dst: to the whole plaintext exactly when its length fits a C int |
| `Aead.ReleasesOnlyAuthentic` | ossl/cipher.go:427-443 | whatever else is refused, output is produced only for input that verifies, and is that input's plaintext |
| `Aead.OpensExactlyTheAuthentic` | ossl/cipher.go:366-443 | without refusals every input that does not verify, or has no place in the mode, gets the one verification error |
| `Aead.AadAuthenticatedWholeIff` | ossl/cipher.go:392-404 | an accepted AAD is authenticated as far as OpenSSL was shown it, whole exactly when its length fits a C int |
| `Aead.SealSucceedsIff` | ossl/cipher.go:211-272 | without refusals sealing fails exactly for a wrong nonce size, a length that is negative as a C int, or a text longer than the CCM nonce leaves room for (appendix A.1 of SP 800-38C) |
| `Aead.SealErrors` | ossl/cipher.go:211-296 | every failure of SealErr with its error, for every pattern of refused calls |
| `Aead.OpenErrors` | ossl/cipher.go:357-444 | every failure of Open with its error, for every pattern of refused calls: from the first update on CCM rejects, the other modes reject at Final and report a refused update |
| `Aead.ShortNoncesHoldEveryLength` | ossl/cipher.go:137-169 | that limit is never met with CCM nonces of up to 11 bytes |
| `Aead.SealsWholeTextIffItFitsACInt` | ossl/cipher.go:257-295 | whatever the AAD, the output has the documented length exactly when the plaintext length fits a C int |
| `CloseProtocol.OperationsAreSafe` | ossl/cipher.go:211-219 | in every interleaving what an operation uses is live, the cipher is freed at most once, an operation that starts after a Close has returned reports ErrClosed, and one that reports it does so on a closed handle |
| `CloseProtocol.CompletesUntilClose` | ossl/cipher.go:211-219 | while nobody begins a Close the handle stays open and every operation that returns has done its work |
| `CloseProtocol.OperationRuns` | ossl/cipher.go:211-219 | whenever nobody writes an operation can run to its end, and does its work exactly on an open handle |
| `CloseProtocol.CloseRuns` | ossl/cipher_sym.go:344-358 | whenever nobody holds the lock a Close can run to its end: it releases everything the first time and nothing afterwards |
| `CloseProtocol.NeverStuck` | ossl/cipher_sym.go:343-358 | no interleaving of operations and closes deadlocks, even when readers may not overtake a waiting writer |
| `CloseProtocol.UnsafeWithoutTheLock` | ossl/cipher.go:484-498 | the same steps without the lock reach a freed cipher |
| `ThreadBudget.CheckedCosts` | ossl/kdf.go:244-275 | exactly the costs within the bounds pass, zero costs become the defaults, and every cost survives the C unsigned int |
| `ThreadBudget.Pbkdf2CountIsExact` | ossl/kdf.go:140-153 | the iteration count that OpenSSL runs is the one asked for |
| `ThreadBudget.MaxOfIsTheMaximum` | ossl/kdf.go:224-237 | the specification's maximum is an upper bound that is reached |
| `ThreadBudget.BudgetSuffices` | ossl/kdf.go:277-289 | in every interleaving budgets never drop, a deriving call keeps the budget for its lanes, and each budget is the maximum of its start and all granted requests |
| `ThreadBudget.CallRuns` | ossl/kdf.go:277-289 | whenever the lock is free a call can run until it derives with its lanes, and raises the budget exactly when it is short; a refused raise fails the call and leaves the budget |
| `ThreadBudget.FailsOnlyWhenRefused` | ossl/kdf.go:281-288 | no call fails for another reason |
| `ThreadBudget.KeepsItsRequest` | ossl/kdf.go:277-296 | in every interleaving a call is granted and derives with the lanes it asked for, in its own context |
| `ThreadBudget.OverwrittenWithoutTheLock` | ossl/kdf.go:233-237 | without the lock a smaller request overwrites a larger one in use |
| `Probe.AnswersAreDirectRuns` | ossl/capability.go:465-489 | in every interleaving each stored and returned answer is that of a direct run, and stays |
| `Probe.QuestionRuns` | ossl/capability.go:465-489 | whenever the lock is free a question can run to its answer; it is executed exactly if it is not in the memo, and is in it afterwards |
| `Probe.ExecutedAtMostOnce` | ossl/capability.go:465-489 | without concurrent duplicates a question is executed at most once |
| `Probe.DuplicateRunsTwice` | ossl/capability.go:473-480 | a concurrent duplicate does repeat the work |
| `CHeap.CStringOfCopy` | ossl/params.go:74-82 | a NUL-terminated copy reads back whole exactly when it holds no NUL |
| `Params.Params.Alloc` | ossl/params.go:62-72 | a fresh zeroed block of at least one byte joins the arena; no other block changes |
| `Params.Params.Utf8` | ossl/params.go:94-98 | the string is read back up to its first NUL, behind everything added before |
| `Params.Params.AddOctets` | ossl/params.go:102-106 | the bytes at the time of the call are read back, behind everything added before |
| `Params.Params.Int` | ossl/params.go:109-114 | the value is read back after truncation to a C int |
| `Params.Params.Uint` | ossl/params.go:117-122 | the value is read back modulo 2^32 |
| `Params.Params.SizeT` | ossl/params.go:125-130 | the value is read back modulo 2^64 |
| `Params.Params.OctetsOut` | ossl/params.go:135-140 | the output block is zeroed, owned by the arena and large enough |
| `Params.Params.OctetsNilData` | ossl/params.go:155-158 | only a size is announced, and only the key is allocated |
| `Params.Params.Terminated` | ossl/params.go:164-178 | the array has one terminator however often it is asked for, and walks to exactly what was added; after free it fails |
| `Params.Params.Free` | ossl/params.go:181-189 | every block is released exactly once, however often it is called |
| `Params.ReuseAfterAdding` | ossl/params.go:38-49 | whatever the slice holds after it was added does not reach the parameter |
| `Params.SeenAsWritten` | ossl/params.go:94-158 | OpenSSL sees exactly what was written if and only if no string holds a NUL and every number fits its C type |
| `Params.BuildReadFree` | ossl/params.go:50-189 | any sequence of adds, output parameters included, reads back in order through the heap, and freeing leaves the heap as it was |
| `Mac.New` | ossl/mac.go:37-76 | every failing exit leaves nothing allocated, not even the options; a MAC owns its options and both EVP objects |
| `Mac.MAC.Initialise` | ossl/mac.go:78-90 | the context is keyed with the retained key and all retained options |
| `Mac.MAC.Write` | ossl/mac.go:202-216 | the accumulator's write; key and options stay |
| `Mac.MAC.Sum` | ossl/mac.go:219-247 | the accumulator's sum under the retained key and options; the state survives; only the argument comes back exactly when the handle is closed, a call is refused, or the tag is longer than the size asked for, 64 bytes when none was |
| `Mac.SumsExactly` | ossl/mac.go:227-247 | the inputs of each error of a sum |
| `Mac.MAC.Reset` | ossl/mac.go:250-257 | the accumulator's reset; the context keeps the same key and options |
| `Mac.MAC.Close` | ossl/mac.go:281-300 | context, algorithm and every option block are released exactly once, however often it is called |
| `Accumulator.WriteAnswers` | ossl/digest.go:84-99 | every outcome of a Write: all bytes counted and kept, the closed error exactly on a closed handle, a latched error exactly for a refusal |
| `Accumulator.SumIsComplete` | ossl/digest.go:101-144 | a Sum that no call refused returns its argument and the digest of the successful writes since the last successful reset, whatever failed before that reset, and leaves the state unchanged; only writes and resets since then must not have been refused |
| `Accumulator.SureExactlyWhenClean` | ossl/digest.go:84-99 | the context is sure to hold those writes, whatever refused calls leave behind, exactly under that condition |
| `Accumulator.NilErrMeansEverySumWasComplete` | ossl/digest.go:84-144 | if Err is nil at the end of a run, every Sum in it was complete |
| `Accumulator.FailedSumStaysVisible` | ossl/digest.go:101-129 | every failing Sum returns only its argument and leaves Err non-nil for the rest of the run |
| `Accumulator.BareSumStaysVisible` | ossl/digest.go:101-129 | so does every Sum that returned only its argument, when no digest is empty |
| `Accumulator.ErrIsTheLatest` | ossl/digest.go:199-205 | after every run Err is the error of the last failing call, and nil exactly when there was none |
| `Accumulator.ErrIsTheFirstIff` | ossl/digest.go:199-205 | Err is the first latched error, as documented, at the end of a run and throughout it, exactly when no later call latched another; two failures of the same call are two errors |
| `Accumulator.NoOtherIff` | ossl/digest.go:84-129 | that is when only one call failed, or the handle was closed before the first failure |
| `Accumulator.LatestErrorWins` | ossl/digest.go:94-97 | after a refused Write any later failure replaces the first error, another refused Write included |
| `Digest.Hash.Write` | ossl/digest.go:84-99 | the accumulator's write |
| `Digest.Hash.Sum` | ossl/digest.go:112-144 | the accumulator's sum; the state survives; only the argument comes back exactly when the handle is closed, the function is extendable-output, or a call is refused |
| `Digest.SumsExactly` | ossl/digest.go:120-144 | the inputs of each error of a sum |
| `Digest.Hash.Reset` | ossl/digest.go:169-176 | the accumulator's reset |
| `Digest.Hash.Close` | ossl/digest.go:208-221 | context and algorithm are released exactly once, however often it is called |
| `Digest.NewHash` | ossl/digest.go:43-73 | every failing exit leaves nothing allocated; otherwise a fresh hash that owns context and algorithm |
| `Digest.OneShot` | ossl/digest.go:230-244 | a nil error comes with the whole digest, an error exactly when a call was refused or there is no fixed length, and no exit leaves anything allocated |
| `Digest.Chunked` | ossl/digest.go:84-144 | chunk boundaries do not matter |
| `Streams.ReferencesEqualHolders` | ossl/signer.go:59-142 | after every run nothing freed was touched, a key lives exactly while a handle or a stream on it is open with one reference for each, and each context lives exactly while its one stream is open |
| `Streams.OpensExactly` | ossl/signer.go:74-125 | which key, options and refused call each exit of streamInit takes, and the reference and context a stream that opens has taken |
| `Streams.NeverStreamsOneShotKeys` | ossl/signer.go:78-82 | in no run a stream is opened on an Ed25519, Ed448, ML-DSA or SLH-DSA key |
| `Streams.CallsAnswer` | ossl/signer.go:161-259 | what every call answers after any run: ErrClosed exactly once closed, the finalised error exactly once there is a result, and otherwise what the library says of the bytes written |
| `Streams.AllClosedLeavesNothing` | ossl/signer.go:261-293 | once everything is closed no reference and no context is left, whatever exits constructors took |
| `Streams.ClosedForGood` | ossl/signer.go:261-293 | a Close lets go of context and key, whatever runs later |
| `Streams.ClosingAllLeavesNothing` | ossl/signer.go:261-293 | a run that closes every handle and stream it opened leaves no reference and no context |
| `Streams.FailedOpenChangesNothing` | ossl/signer.go:89-125 | every failing exit of streamInit gives back what it took |
| `Streams.StreamedSignature` | ossl/signer.go:197-224 | at most one signature; it is the one-shot signature on the concatenation of the writes exactly when P1363 was not asked for |
| `Streams.StreamedVerdict` | ossl/signer.go:226-259 | at most one verdict; it is the one-shot verdict on the concatenation of the writes, under P1363 the one for the converted signature |
| `Streams.JudgedAlikeExactly` | ossl/sign.go:489-550 | whatever library takes the recipe, a stream can be relied on to judge as one-shot Verify does exactly when P1363 was not asked for |
| `Streams.P1363StreamSignsDer` | ossl/signer.go:127-134 | a run in which a signer asked for P1363 returns what one-shot Sign does not |
| `Streams.ChunksNeverMatter` | ossl/signer.go:161-195 | equal bytes under equal options give equal results, however they were split |
| `SignerVerifier.Key.Close` | ossl/pkey.go:150-159 | the handle's one reference is given back once |
| `SignerVerifier.StreamInit` | ossl/signer.go:74-125 | each exit changes references and contexts as the state machine says; `Streams.OpensExactly` says which exit is taken |
| `SignerVerifier.CallOpenssl` | ossl/signer.go:89-125 | the calls in order, with what each failing exit releases |
| `SignerVerifier.Configure` | ossl/signer.go:105-124 | init and settings; a refusal releases the reference, then the context |
| `SignerVerifier.NewStream` | ossl/signer.go:127-143 | a new open stream that owns the context and the reference, or the error |
| `SignerVerifier.Stream.Write` | ossl/signer.go:161-195 | the state machine's write; an empty write makes no call |
| `SignerVerifier.Stream.Sign` | ossl/signer.go:201-224 | finalised exactly by a successful signature |
| `SignerVerifier.Stream.Close` | ossl/signer.go:263-293 | context first, then reference, each once |
| `SignerVerifier.Stream.Verify` | ossl/signer.go:233-259 | every verdict finalises; an empty signature is rejected without a call |
| `Enumerate.NameList.Append` | ossl/enumerate.go:33-39 | NULL is ignored, a full array sets the flag before duplicates are looked for, a new name goes to the end |
| `Enumerate.Collect` | ossl/enumerate.go:91-106 | an overflow is an error, never a shorter list; otherwise the sorted contents |
| `Enumerate.CollectIsExact` | ossl/enumerate.go:91-106 | the list is strictly ascending and holds exactly the non-null names |
| `Enumerate.OverflowExactly` | ossl/enumerate.go:33-39 | there is an error exactly when a non-null name arrives after 512 different ones |
| `Enumerate.TooManyIsAlwaysAnError` | ossl/enumerate.go:96-99 | more than 512 different names are always an error |
| `Enumerate.FullArrayTurnsAwayARepeat` | ossl/enumerate.go:35-37 | 512 names and one repeat are an error too, unlike the message says |
| `Enumerate.AscendingIsUnique` | ossl/enumerate.go:104-105 | a strictly ascending list is determined by its set |
| `Enumerate.OrderLeavesNoTrace` | ossl/enumerate.go:89-106 | the order and the repetitions of the iteration do not show in the list |
| `Enumerate.ListFetchable` | ossl/enumerate.go:120-158 | strictly ascending, exactly the emitted names that can be fetched; an error exactly on overflow |
| `SecureHeap.AndWithPredecessor` | ossl/secure.go:50-53 | the mask is zero exactly for powers of two |
| `SecureHeap.AcceptsPowersOfTwo` | ossl/secure.go:47-53 | the tests pass exactly the pairs of positive powers of two |
| `SecureHeap.AcceptedSizesDivide` | ossl/secure.go:32-53 | for an accepted pair the documented divisibility holds exactly when minAlloc does not exceed size |
| `SecureHeap.MultipleIsNotChecked` | ossl/secure.go:32-53 | a pair that passes although size is no multiple of minAlloc |

## Left out

- Cryptography: AES, GCM, CCM, ECDSA, RSA, EdDSA, ML-DSA and the derivation functions are opaque; so are the EVP calls inside `KeyWrap`, whose guards alone are modelled.
- Go's `encoding/asn1` is written from X.690 instead; its bound of 2^31 on lengths is not modelled.
- A negative C int length is taken to be refused by OpenSSL.
- Ciphers without a key (a key length of zero) would make the source address the first byte of an empty slice; `BlockCipher.New` and `Aead.New` take it that every cipher has one.
- `Slices.Encrypt`: stands for the other calls that append to dst as well; elsewhere byte strings are values, and what a Go `append` reserves beyond its result is not modelled.
- `BlockCipher.EncryptSucceedsIff`: which lengths a mode takes (`accepts`) is OpenSSL's, such as at least 16 bytes for XTS.
- Cleansing of buffers, `runtime.KeepAlive`, garbage collection, constant time, and failure of C allocation.
- The OpenSSL error queue and the text of errors.
- Nil receivers of `Hash`, `MAC`, `Signer`, `Verifier`, `AEAD`, `Cipher` and `KeyWrap`.
- `Accumulator.ErrIsTheLatest`: an error is the call that failed and a number; its text is not modelled.
- `Capability.VerdictIsThatOfSigning`: for a key of the named type and curve; that a list of curves cannot be built counts as an unknown curve.
- `Probe.AnswersAreDirectRuns`: the provider set is fixed, as nothing in the source invalidates the memo.
- `Params.Params.Terminated`: the panic after `free` is the result `false`; adds after `c` are accepted as in the source and stay invisible to OpenSSL.
- `Params.SeenAsWritten`: a negative size has no reading as a size_t.
- `Mac.MAC.Sum`: the context that `EVP_MAC_CTX_dup` allocates and frees within the call is not part of the heap.
- `Streams.ReferencesEqualHolders`: counts the references this layer holds; those OpenSSL takes for itself only keep keys longer.
- `SumXOF` and `DigestXOF`, `SecureBuffer` allocation and use, `DeriveKDF`, `HKDF` and the output lengths of `deriveKDF`: one branch each around a call.
- `ListMACs`, `ListKDFs` (copies of `collect`), `ListCurves`, and the name parsers.
- The other capability kinds, `curveSupported` and the trials behind `probe`, which generate keys in OpenSSL.
- Key generation options, PEM, stores, providers, FIPS activation, KEM, key agreement, OAEP and configuration loading.
