# go-argon2id token format, in Dafny

This project models the password-hash token of `argon2id.go`, the one core
file of the go-argon2id package, and proves properties about that model.

- `Hash` derives a key from a secret and a random salt. It writes the
  parameters, the salt and the key into one token:
  `$argon2id$v=<ver>$m=<mem>,t=<iters>,p=<threads>$<salt>$<key>`.
- `DecodeIntoOptions` reads a token back into `Options`, key and salt.
- `Compare` re-derives the key for a candidate secret. It checks the length,
  then compares the two keys in constant time.

The model is pure, like the source. Each Go function is a Dafny function that
returns a `Result`. The library code the file calls is written out in its own
module:

- `Base64`: `base64.RawStdEncoding`. This is the standard alphabet of section 4
  of RFC 4648, without padding (section 3.2), with strict decoding
  (section 3.5).
- `Fmt`: `fmt`'s `%d` printing, and `Sscanf` with the two formats the file uses.
- `Strings`: `strings.Split`.
- `Subtle`: `subtle.ConstantTimeEq` and `subtle.ConstantTimeCompare`. The loop
  of `ConstantTimeCompare` is also a method, with an XOR-OR accumulator and no
  early exit.
- `GoTypes`: Go's `uint8` and `uint32`, and the narrowing conversions
  `uint32(...)`, `uint8(...)` and `int32(...)`.

Two inputs of the source become parameters:

- The Argon2id function `argon2.IDKey` is a parameter of type `Deriver`. The
  only fact known about it is that it returns exactly `keyLen` bytes.
- The salt that `crypto/rand` fills is the parameter `random`. It either holds
  the full buffer or an error.

The secret is a byte sequence. A token is a sequence of characters.

Two behaviours of the code are easy to miss, and the model keeps both:

- The code checks no bounds on the parameters. `DecodeIntoOptions` accepts
  zeros, and it narrows `p=` with `uint8(...)`, so `p=300` gives 44.
- Go's base64 decoder skips `\r` and `\n` anywhere in its input, even in strict
  mode, and so does the model.

## Model

| member | source | states |
|---|---|---|
| `GoTypes.ToUint32` | argon2id.go:122-126 | `uint32(v)` is the value in range that is congruent to v modulo 2^32, and it is v itself when v is already in range |
| `GoTypes.ToUint8` | argon2id.go:124 | `uint8(v)` is the value in range that is congruent to v modulo 2^8, and it is v itself when v is in range |
| `GoTypes.ToInt32` | argon2id.go:78 | `int32(v)` is the 32-bit two's-complement value that is congruent to v, and it is v when v fits |
| `Base64.Encode` | argon2id.go:62-63 | the encoding has Go's `EncodedLen` (no padding), and every character is in the standard alphabet |
| `Base64.Rfc4648Vectors` | argon2id.go:62-63 | the encoder gives the test vectors of section 10 of RFC 4648 without padding: "f" is "Zg", "fo" is "Zm8", "foo" is "Zm9v" and "foobar" is "Zm9vYmFy" |
| `Base64.DecodeQuantum` | argon2id.go:111 | a final group of 2 to 4 characters is accepted exactly when every character is in the alphabet and, for 2 or 3 characters, the bits past the last byte are zero; it gives one byte fewer than it has characters |
| `Base64.StripNewlines` | argon2id.go:111 | the decoder reads the input without `\r` and `\n`: none is left, every other character is kept as often as it occurs, and the input is unchanged when it has none |
| `Base64.StripNewlinesAppend` | argon2id.go:111 | removing line breaks works piece by piece, so the characters kept stay in their order |
| `Base64.DecodeEncode` | argon2id.go:111-119 | strict decoding of an encoding gives back the original bytes |
| `Base64.Decode` | argon2id.go:111-119 | every string strict decoding accepts is, once line breaks are removed, exactly the encoding of the bytes it returns, so each byte string has one accepted form |
| `Base64.DecodeExactly` | argon2id.go:111-119 | a string decodes to b exactly when, line breaks aside, it is the encoding of b; every other string is a `CorruptInputError` |
| `Base64.StrictExamples` | argon2id.go:111 | "AA" decodes to one zero byte; "AB" is rejected because it sets a bit past the last byte; a line break inside "AA" is skipped |
| `Fmt.FormatNat` | argon2id.go:65 | `%d` of a non-negative number is a non-empty string of digits with no leading zero |
| `Fmt.DigitsValueFormatNat` | argon2id.go:65 | the digits that `%d` prints have the value of the number printed |
| `Fmt.FormatDefaults` | argon2id.go:65 | version 19 prints as "19", and the default block prints as "m=65536,t=3,p=4" |
| `Fmt.FormatParams` | argon2id.go:65 | the printed parameter block holds only digits and the characters of `m=`, `,t=` and `,p=`, so never the separator `$` |
| `Fmt.DigitRun` | argon2id.go:100 | `%d` reads the longest run of digits, up to the first non-digit |
| `Fmt.DigitRunPrefix` | argon2id.go:100 | a digit run that a non-digit or the end of input follows is read whole |
| `Fmt.DigitRunUnique` | argon2id.go:100 | a run of digits that a non-digit or the end of input follows is the one `%d` reads |
| `Fmt.ScanLiteral` | argon2id.go:106 | literal text in a format matches exactly when the input starts with it, and the rest is left unread |
| `Fmt.ScanInt` | argon2id.go:100-106 | `%d` reads an optional sign and the longest run of digits after it: on success the text read is a signed decimal that no digit follows, the value is that decimal's value within Go's 64-bit `int` range, and the rest is the unread remainder of the input |
| `Fmt.ScanIntComplete` | argon2id.go:100-106 | whenever the input starts with a signed decimal that no digit follows, `%d` reads exactly that decimal and leaves the rest; it fails only when the value does not fit the 64-bit `int`, so "-1" gives -1, "+007" gives 7, and a missing digit is an error |
| `Fmt.ScanIntFormatNat` | argon2id.go:106 | `%d` scanning reads back what `%d` printed and stops where the digits end |
| `Fmt.ScanField` | argon2id.go:106 | a literal followed by `%d`: on success the input starts with the literal, and `%d` read the value from what follows, leaving the rest |
| `Fmt.ScanFieldComplete` | argon2id.go:106 | every literal-and-number field at the head of the input is read, to its value and the rest |
| `Fmt.ScanFieldFormatNat` | argon2id.go:106 | a printed literal-and-number field is read back, and the text after it is left unread |
| `Fmt.FieldReadFormatNat` | argon2id.go:65 | a printed literal-and-number field is a field that `%d` scanning reads, with the text after it left over |
| `Fmt.ScanVersion` | argon2id.go:100 | `Sscanf(s, "v=%d")` succeeds only on a `v=` field whose value is in range, and gives that value; the text after the number is ignored |
| `Fmt.ScanVersionComplete` | argon2id.go:100 | every version field that is there scans to its value, so the version fails to scan exactly when `s` does not start with `v=` and an in-range signed decimal |
| `Fmt.ScanParams` | argon2id.go:106 | `Sscanf(s, "m=%d,t=%d,p=%d")` succeeds only when s holds an `m=` field, then a `,t=` field, then a `,p=` field, each with an in-range value, and gives the three values in that order; the text after the last number is ignored |
| `Fmt.ScanParamsComplete` | argon2id.go:106 | every parameter block of that shape scans to its three values, so scanning fails exactly when no such block starts the input |
| `Fmt.ScanVersionFormatNat` | argon2id.go:100 | a printed version field scans back to its number |
| `Fmt.ScanParamsFormatParams` | argon2id.go:106 | a printed parameter block scans back to (m, t, p) |
| `Strings.Split` | argon2id.go:90 | the pieces are never empty as a list, none contains the separator, and joining them with it gives back the input |
| `Strings.SplitPrefix` | argon2id.go:90 | text without a separator in front of a string only extends the first piece |
| `Strings.SplitJoin` | argon2id.go:90 | splitting undoes joining when no piece contains the separator |
| `Subtle.ConstantTimeEq` | argon2id.go:78 | returns 1 when the two values are equal and 0 otherwise |
| `Subtle.XorZero` | argon2id.go:82 | `a ^ b`, computed bit by bit, is zero exactly when a and b are equal |
| `Subtle.OrZero` | argon2id.go:82 | the bitwise OR of p and q is zero exactly when both are zero |
| `Subtle.XorOrBelow` | argon2id.go:82 | XOR and OR on k-bit values stay within k bits, so the accumulator stays a byte |
| `Subtle.Accumulated` | argon2id.go:82 | the accumulator over any prefix is a byte |
| `Subtle.AccumulatedZero` | argon2id.go:82 | the OR of the byte-wise XORs over a prefix is zero exactly when the two prefixes are equal |
| `Subtle.ConstantTimeCompare` | argon2id.go:82 | returns 1 when the two byte strings are equal and 0 otherwise, including when the lengths differ |
| `Subtle.ConstantTimeCompareLoop` | argon2id.go:82 | the accumulating loop returns what `ConstantTimeCompare` returns, and it visits every index when the lengths agree (no early exit) |
| `Argon2id.Hash` | argon2id.go:46-68 | a `rand.Read` error comes back unchanged; otherwise the call succeeds and writes exactly `$argon2id$v=19$m=<mem>,t=<iters>,p=<threads>$<salt>$<key>`, with the chosen options (the defaults when none are passed) printed by `%d` and the salt and derived key in raw standard base64; that token decodes to those options, the salt and the key |
| `Argon2id.DecodeIntoOptions` | argon2id.go:89-128 | `ErrInvalidForm` exactly when there are not six `$`-separated segments or segment 1 is not "argon2id"; zero options, an empty key and salt and no error when the version does not scan; otherwise success exactly when the parameter block scans and both base64 fields decode, a scan error exactly when the parameter block does not scan, and a base64 error exactly when it scans but the salt or the key is not strict base64; on success m, t and p are narrowed to `uint32`/`uint8`, salt and key are the decoded bytes, and `SaltLength` and `KeyLength` are their lengths |
| `Argon2id.Compare` | argon2id.go:70-87 | a decode error comes back unchanged with no match; otherwise the result is `true` exactly when the key derived from the candidate, with the token's salt and options, equals the stored key |
| `Argon2id.Chosen` | argon2id.go:49-53 | `Hash` uses the first options passed, and `DefaultOptions` (3 passes, 64 MiB, 4 lanes, 16-byte salt, 32-byte key) when none are |
| `Argon2id.FormatToken` | argon2id.go:65 | the `Sprintf` of `Hash` splits on `$` into exactly six fields: an empty one, "argon2id", `v=` and the version, the parameter block, the salt's encoding and the key's encoding |
| `Argon2id.NoSeparator` | argon2id.go:62-65 | neither the version field, the parameter block nor a base64 field contains `$` |
| `Argon2id.DecodeFormatted` | argon2id.go:99-127 | a formatted token with any version number and any parameters in `int` range decodes to the salt, the key and the narrowed parameters, so the version number is never checked |
| `Argon2id.DecodeToken` | argon2id.go:121-127 | round trip: a token with the current version decodes to exactly the options, key and salt it was built from |
| `Argon2id.PrefixIgnored` | argon2id.go:90-97 | text without `$` in front of a token does not change what it decodes to |
| `Argon2id.DefaultToken` | argon2id_test.go:12 | with no options, `Hash` writes `$argon2id$v=19$m=65536,t=3,p=4$`, then 22 alphabet characters, `$`, and 43 alphabet characters |
| `Argon2id.HashDefault` | argon2id.go:49-65 | with no options, `Hash` formats version 19 with the default memory, passes and lanes, and the key derived with those parameters |
| `Argon2id.CompareHash` | argon2id_test.go:37-48 | a token that `Hash` made matches the secret it was made from |
| `Argon2id.CompareOtherSecret` | argon2id_test.go:51-58 | another secret matches such a token exactly when it derives the same key with that salt and those options |
| `Argon2id.MalformedVersionAccepted` | argon2id.go:99-103 | the token `$argon2id$$$$` decodes with no error to zero options and an empty key and salt; a derivation that returns the requested empty key then makes `Compare` report a match for every secret, while the real `argon2.IDKey` panics on zero rounds, so the running program panics instead |
| `Argon2id.DecodeIntoOptionsChecked` | argon2id.go:99-103 | the corrected decoder only accepts tokens whose six fields all parse; it returns the scan error when the version does not scan, and otherwise agrees with `DecodeIntoOptions` |
| `Argon2id.CheckedDecoding` | argon2id.go:99-103 | the corrected decoder rejects `$argon2id$$$$` and still reads back every token that `Hash` writes |

## Left out

- `argon2.IDKey` (argon2id.go:60, 76): the Argon2id computation of RFC 9106 is not part of this model. The parameter `derive` stands for it, and the model knows only its output length. The library's checks on its arguments are not modelled either. For example, it rejects zero rounds and zero lanes by panicking.
- `crypto/rand` (argon2id.go:55-58): the salt arrives as the parameter `random`. Hash's `requires` only says that a successful read fills the whole `SaltLength` buffer. The test that two hashes differ (argon2id_test.go:26-33) depends on randomness, so it cannot be stated.
- Argon2id.CompareOtherSecret: the test expects a wrong password not to match (argon2id_test.go:51-58). This depends on collision resistance of the derivation. The model can only prove that a wrong password matches exactly when it derives the same key.
- Timing: the model cannot state constant time. It states the structural fact instead: the comparison loop has no early exit and visits every byte.
- The length check at argon2id.go:78 is modelled, but it can never fail. The derivation always returns `KeyLength` bytes, and both sides go through the same `int32` narrowing.
- `fmt.Sscanf` skips spaces, tabs and a lone `\r` before a number; the model does not. Such a character where a digit is expected is a scan error in the model. A newline there is a scan error in both.
- Error values are reduced to their kinds. The model drops the offset inside base64's `CorruptInputError` and the text of `Sscanf`'s errors. As a result, the salt-before-key decoding order (argon2id.go:111-119) cannot be observed: both failures give the same value.
- Every error result drops the values Go returns beside the error: `Options{}`, a nil key and a nil salt (argon2id.go:92, 96, 108, 113 and 118). A `Failure` carries only the error kind. Callers of the model cannot read those zero values, though they are always the same.
- Go's nil slices are empty sequences. A nil `*Options` passed to `Hash` would panic on dereference; this is not modelled.
- Tokens are sequences of characters, while Go's strings are bytes. All the characters that are split on, scanned or decoded are ASCII, so the two readings agree.
- The `Argon2Hasher` interface, `NewArgon2Id` and the `var _` assertion (argon2id.go:18-22, 44, 130-132) carry no behaviour.

## Findings

| source | as written | input that shows it | evidently intended | confidence | as-written member | corrected member |
|---|---|---|---|---|---|---|
| argon2id.go:99-103 | a version field that does not scan returns zero `Options`, a nil key and salt, and a nil error; `Compare` then goes on to derive with zero iterations, zero memory, zero lanes and key length 0 | `$argon2id$$$$` | return the scan error, as the parameter block does at argon2id.go:106-109 | medium, not executed; the real derivation library panics on zero rounds instead of returning an empty key, so in the running program the call panics rather than matching | `Argon2id.MalformedVersionAccepted` | `Argon2id.DecodeIntoOptionsChecked` |

`Hash` and `Compare` keep the decoder as written, because that is how the
repository behaves. `Argon2id.CheckedDecoding` shows that the corrected decoder
gives up none of the round trip.
