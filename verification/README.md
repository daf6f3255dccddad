# 2fa-checker: the migration importer and the code routes, in Dafny

This project models the three API routes of the 2fa-checker web application
that hold logic of their own, and proves properties of the model.

- **The Google Authenticator migration importer** (`decode-migration`) takes an
  `otpauth-migration://offline?data=…` link and cuts out its `data=` segment.
  It reads the bytes behind that segment as a `MigrationPayload` message. The
  reader is a restricted Protocol Buffers reader: one key byte per field, one
  byte per length and per integer, unknown fields skipped, any other wire type
  ends the loop. Each account is then presented with display defaults, its
  secret in Base32 (section 6 of RFC 4648), the names of its algorithm and
  type, and an `otpauth://` URI.
- **The code route** (`generate-code`) checks that a secret was sent and matches
  `/^[A-Z2-7]+=*$/i`. It then returns the current code, a preview code and the
  whole seconds left in the current 30-second step.
- **The verification route** (`verify-2fa`) removes white space from the token
  and checks that six ASCII digits remain. It then reports the authenticator's
  verdict.

Modules follow the program's structure:

| file | module | what it holds |
|---|---|---|
| `js.dfy` | `Js` | The JavaScript semantics the handlers rely on: `undefined` as `None`, bytes, `Uint8Array` reads and `slice`, decimal rendering, JSON request bodies, truthiness, `String(v)`, and the `\s` class. |
| `base32.dfy` | `Base32` | `base32Encode` as the source's bit-accumulator method, plus a declarative reference encoding, a decoder and the RFC 4648 test vectors. |
| `wire.dfy` | `Wire` | The one-field step shared by both message loops (`Next`), the list of fields a buffer yields (`Fields`), and an encoder for such fields. |
| `migration.dfy` | `Migration` | `decodeOtpParameter` and `decodeGoogleMigrationData`, and a last-field-wins reference for each. |
| `decode_migration.dfy` | `DecodeMigration` | The URL gate, the presenter and the `POST` handler. |
| `authenticator.dfy` | `Authenticator` | The settings handed to the one-time-password library, and the shapes of its `generate` and `verify` calls. |
| `generate_code.dfy` | `GenerateCode` | The secret check, the step arithmetic and the `POST` handler. |
| `verify_2fa.dfy` | `VerifyTwoFactor` | Token normalisation, the six-digit check and the `POST` handler. |

Modelling choices:

- Bytes are `bv8`.
  - The Base32 accumulator's `value` and `bits` are `bv32`. That is exactly the 32-bit pattern JavaScript's `<<`, `|`, `>>>` and `&` work on.
  - Once `value` overflows, only its low 16 bits are used, and the model shows that.
- A byte read past the end of a buffer is `undefined`, which is `None` here.
  - Integer fields of the decoded records are `Option<byte>`.
  - A missing length byte makes the next offset `NaN`, which ends the loop. It is `next: None` in `Wire.Step`.
- Names and issuers stay as bytes while decoding. `TextDecoder` is applied to them in the presenter.
- Functions outside the repository are parameters of the handlers. These are `decodeURIComponent`, `atob`, `TextDecoder`, `encodeURIComponent`, and otplib's `authenticator.generate` and `authenticator.verify`.
  - A parameter returning `None` stands for a call that throws.
- `Date.now()` is the parameter `now`, in milliseconds.

The decoder's limits, as the code has them:

- An algorithm value other than 1 or 2 is presented as `SHA512`, not `SHA1`.
- The key byte is split as `>> 3` and `& 7` with no limit on the field number, so field numbers up to 31 are read.
- A length byte or integer byte is used as it stands, high bit included, so lengths up to 255 are read.

## Model

| member | source | states |
|---|---|---|
| Base32.EncodeAccumulating | src/app/api/decode-migration/route.ts:21-47 | The source's loop returns exactly `Base32.Encode(data)`. The loop shifts 8 bits in per byte, emits each complete 5-bit group, shifts the leftover bits to the top of a last group, and pads with `=` to a multiple of 8. |
| Base32.AbsorbAll | src/app/api/decode-migration/route.ts:27-35 | After the byte loop, fewer than 5 bits are pending. The output holds every complete group of the input, in order. The low bits of `value` are the pending bits. |
| Base32.FlushPending | src/app/api/decode-migration/route.ts:37-39 | Emitting the pending bits, shifted left, completes the ⌈8n/5⌉ alphabet letters of the encoding. |
| Base32.PadWithEquals | src/app/api/decode-migration/route.ts:41-44 | The padding loop appends fewer than 8 `=` and stops at the first multiple of 8. |
| Base32.Encode | src/app/api/decode-migration/route.ts:21-47 | The encoding has length 8·⌈n/5⌉. It contains only `A–Z`, `2–7` and `=`, and it is empty exactly when the input is empty. |
| Base32.PaddingByLeftover | src/app/api/decode-migration/route.ts:41-44 | The number of `=` signs is 0, 6, 4, 3 or 1 as the input length is 0, 1, 2, 3 or 4 modulo 5. |
| Base32.QuantumSplit | src/app/api/decode-migration/route.ts:27-39 | Each full 5-byte block gives 8 letters. A last block of 1 to 4 bytes gives 2, 4, 5 or 7 letters and is padded to 8. |
| Base32.DecodeEncode | src/app/api/decode-migration/route.ts:21-47 | Decoding the encoding returns the input bytes, so the encoder loses no information. |
| Base32.HelloVector | src/app/api/decode-migration/route.ts:21-47 | The bytes of "Hello" encode as `JBSWY3DP`. |
| Base32.Rfc4648Vectors | src/app/api/decode-migration/route.ts:21-47 | The Base32 test vectors of section 10 of RFC 4648 hold, "" through "foobar". |
| Wire.Next | src/app/api/decode-migration/route.ts:61-93 | One step of either loop stops exactly on a wire type other than 0 and 2. A step that goes on moves at least two bytes forward. |
| Wire.FieldsOfVarintBytes | src/app/api/decode-migration/route.ts:75-86 | A wire-type-0 key and the byte after it are read as one varint field whose value is that byte, and reading carries on right after those two bytes. |
| Wire.FieldsOfDelimitedBytes | src/app/api/decode-migration/route.ts:66-69 | A wire-type-2 key, a length byte n and n bytes are read as one delimited field whose payload is those n bytes, and reading carries on right after them. |
| Wire.Fields | src/app/api/decode-migration/route.ts:59-94 | From an offset at or past the end there are no fields. Otherwise there are at most half the remaining bytes, rounded up, since each field takes at least two bytes. |
| Wire.FieldsOfOverrun | src/app/api/decode-migration/route.ts:67-69 | A length that runs past the end yields the remaining bytes as the payload, and no field follows. |
| Wire.FieldsOfUnknownWireType | src/app/api/decode-migration/route.ts:90-92 | A key of any other wire type ends the field list, whatever follows it. |
| Wire.FieldsOfTrailingKey | src/app/api/decode-migration/route.ts:67-76 | A lone trailing varint key yields a field with an `undefined` value. A lone trailing delimited key yields an empty payload. |
| Wire.FieldsRoundTrip | src/app/api/decode-migration/route.ts:59-94 | Reading back the encoding of single-byte fields returns the same fields in the same order. |
| Wire.FieldsShift | src/app/api/decode-migration/route.ts:59-94 | Reading a buffer past any prefix gives the same fields as reading the buffer without that prefix, so reading does not depend on what came before. |
| Migration.DecodeOtpParameter | src/app/api/decode-migration/route.ts:99-153 | The decoded secret, name and issuer are each no longer than the buffer. |
| Migration.DecodeGoogleMigrationData | src/app/api/decode-migration/route.ts:50-97 | A buffer of n bytes yields at most ⌈n/2⌉ accounts. |
| Migration.DecodeOtpMatchesFields | src/app/api/decode-migration/route.ts:99-153 | The account loop equals the reference. The reference starts from the defaults, and for each of the seven fields takes the value of the last field that carries it. |
| Migration.DecodeMigrationMatchesFields | src/app/api/decode-migration/route.ts:50-97 | The export loop equals the reference. Accounts are the decoded field-1 payloads in buffer order, and each metadata value comes from its last field. |
| Migration.LatestIsLast | src/app/api/decode-migration/route.ts:119-138 | When a field is repeated, the last occurrence wins. |
| Migration.OtpDefaultsWhenAbsent | src/app/api/decode-migration/route.ts:100-108 | A field the buffer never carries keeps its default: secret, name and issuer empty, algorithm 1, digits 6, type 2, counter 0. |
| Migration.MigrationDefaultsWhenAbsent | src/app/api/decode-migration/route.ts:51-57 | Without field-1 entries there are no accounts. Without their fields, version is 1, batch size 1, batch index 0 and batch id 0. |
| Migration.NoAccountPayloads | src/app/api/decode-migration/route.ts:66-74 | Accounts come only from field-1, wire-type-2 entries. |
| Migration.OtpSkipsUnknownVarint | src/app/api/decode-migration/route.ts:141-142 | An unrecognised varint field inside an account is skipped with its value byte. The decoded account is as if the field were absent. |
| Migration.OtpSkipsUnknownDelimited | src/app/api/decode-migration/route.ts:143-145 | An unrecognised length-delimited field inside an account is skipped with its whole payload. |
| Migration.OtpStopsAtUnknownWireType | src/app/api/decode-migration/route.ts:146-148 | Any other wire type ends the account. Everything after it is ignored and everything before it is kept. |
| Migration.OtpTrailingVarintKey | src/app/api/decode-migration/route.ts:131-138 | A trailing algorithm, digits, type or counter key with no value byte sets that field to `undefined`. |
| Migration.OtpOverrunningPayload | src/app/api/decode-migration/route.ts:119-130 | A secret, name or issuer whose length overruns the buffer takes the remaining bytes. |
| Migration.MigrationSkipsUnknownVarint | src/app/api/decode-migration/route.ts:83-86 | An unrecognised top-level varint field is skipped with its value byte. |
| Migration.MigrationSkipsUnknownDelimited | src/app/api/decode-migration/route.ts:87-89 | An unrecognised top-level length-delimited field is skipped with its payload. |
| Migration.MigrationStopsAtUnknownWireType | src/app/api/decode-migration/route.ts:90-92 | Any other wire type ends the export. The accounts and metadata read before it are kept. |
| Migration.MigrationTrailingAccountKey | src/app/api/decode-migration/route.ts:66-74 | A trailing `0x0A` adds one all-default account. |
| Migration.MigrationTrailingVarintKey | src/app/api/decode-migration/route.ts:75-82 | A trailing version, batch size, batch index or batch id key with no value byte sets that field to `undefined`. |
| Migration.MigrationOverrunningAccount | src/app/api/decode-migration/route.ts:66-74 | An account whose length overruns the buffer is decoded from the remaining bytes and is the last account. |
| Migration.DecodeOtpAfter | src/app/api/decode-migration/route.ts:110-150 | Decoding encoded fields followed by any bytes applies those fields first and then the fields of the rest. |
| Migration.DecodeMigrationAfter | src/app/api/decode-migration/route.ts:59-94 | The same for the export loop. |
| Migration.OtpRoundTrip | src/app/api/decode-migration/route.ts:99-153 | An account with every integer field defined and whose payloads are under 256 bytes decodes from its encoding unchanged. |
| Migration.AccountsRoundTrip | src/app/api/decode-migration/route.ts:66-74 | Accounts that each have every integer field defined and encode in under 256 bytes decode back to the same accounts, in the same order. |
| Migration.MigrationRoundTrip | src/app/api/decode-migration/route.ts:50-97 | An export with every metadata field defined, whose accounts each have every integer field defined and encode in under 256 bytes, decodes from its encoding unchanged. |
| DecodeMigration.Present | src/app/api/decode-migration/route.ts:191-207 | The shown name and issuer are the decoded text when it is non-empty, and exactly `Conta sem nome` / `Provedor desconhecido` when it is empty, so they are never empty. The shown secret is the Base32 encoding of the secret bytes, and the digits are passed on unchanged. The URI is `otpauth://totp/`, the encoded issuer, `:`, the encoded name, then `?secret=` with the shown secret, `&issuer=` with the encoded issuer, `&algorithm=SHA1&digits=` with the digits text, and `&period=30`. |
| DecodeMigration.OtpauthUri | src/app/api/decode-migration/route.ts:197 | Every URI starts with `otpauth://totp/` and ends with `&period=30`, whatever the account. |
| DecodeMigration.PresentEnumNames | src/app/api/decode-migration/route.ts:204-206 | The algorithm is shown as SHA1 exactly for 1, SHA256 exactly for 2, and SHA512 for anything else. The type is shown as HOTP exactly for 1, and TOTP otherwise. |
| DecodeMigration.PresentedSecretDecodes | src/app/api/decode-migration/route.ts:192 | The shown Base32 secret decodes back to the secret bytes. |
| DecodeMigration.UriIgnoresAlgorithmTypeCounter | src/app/api/decode-migration/route.ts:197 | Two accounts with the same secret, name, issuer and digits get the same URI, whatever their algorithm, type and counter. The URI's shape is stated by `DecodeMigration.Present`. |
| DecodeMigration.UriDigitsReadBack | src/app/api/decode-migration/route.ts:197 | The `digits=` text is the decimal numeral of the digits value, or `undefined` when the value is absent. |
| DecodeMigration.FindFrom | src/app/api/decode-migration/route.ts:175 | The search returns the first occurrence of the separator at or after the start, or none when there is none. |
| DecodeMigration.DataSegment | src/app/api/decode-migration/route.ts:175 | For a URL with the migration prefix, `split('data=')[1]` is the text after the prefix's `data=` up to the next `data=` or the end. |
| DecodeMigration.UrlGate | src/app/api/decode-migration/route.ts:159-181 | The gate passes only a non-empty segment. Its rejections are all 400 answers, never the processing failure. |
| DecodeMigration.UrlGateAccepts | src/app/api/decode-migration/route.ts:159-181 | A URL passes exactly when it is a string with the prefix, longer than it, and not immediately followed by another `data=`. What passes is the data segment. A missing, non-string or empty URL gets the "URL required" rejection. |
| DecodeMigration.GateOfSegment | src/app/api/decode-migration/route.ts:167-181 | The prefix followed by a non-empty segment without `data=` passes with that segment. |
| DecodeMigration.Respond | src/app/api/decode-migration/route.ts:191-220 | The response lists one presented account per decoded account, in order. Its count is that number, and its metadata are the decoded version and batch fields. |
| DecodeMigration.Post | src/app/api/decode-migration/route.ts:155-228 | A body that does not parse, or is `null`, is answered with the 500 failure. |
| DecodeMigration.PostOutcome | src/app/api/decode-migration/route.ts:155-228 | The status is 400 exactly when the gate rejects, and 200 exactly when the gate, `decodeURIComponent` and `atob` all succeed. Otherwise it is 500. A 200 shows the decoded export. |
| DecodeMigration.ImportShowsExport | src/app/api/decode-migration/route.ts:184-220 | A link whose segment decodes to an encoded export shows exactly that export: its accounts, in order, and its metadata. |
| DecodeMigration.HelloAccountExample | src/app/api/decode-migration/route.ts:191-207 | An account with secret "Hello" and the default settings is shown as `JBSWY3DP`, SHA1, six digits and TOTP. |
| GenerateCode.MatchSecretFormat | src/app/api/generate-code/route.ts:21-26 | The matcher accepts exactly the strings of one or more letters `A–Z`, `a–z` or `2–7` followed only by `=` signs. |
| GenerateCode.NoLeadingLetter | src/app/api/generate-code/route.ts:21 | A string that does not start with a letter is refused, including the empty string. |
| GenerateCode.Misplaced | src/app/api/generate-code/route.ts:21 | A non-letter at or before a non-`=` character makes the string fail. |
| GenerateCode.PaddingBeforeLetter | src/app/api/generate-code/route.ts:21 | An `=` before a letter is refused. |
| GenerateCode.ExportedSecretsPass | src/app/api/generate-code/route.ts:21 | Every Base32 secret the importer shows for a non-empty secret passes the check. |
| GenerateCode.TrueLooksLikeAKey | src/app/api/generate-code/route.ts:21 | A JSON `true` secret passes the check as the text "true". |
| GenerateCode.TimeRemaining | src/app/api/generate-code/route.ts:40-42 | The remaining time lies in 1..30000 ms. `now` plus it is the next multiple of 30000 after `now`. |
| GenerateCode.NextBoundary | src/app/api/generate-code/route.ts:42-46 | No step boundary lies strictly between `now` and `nextTime`. |
| GenerateCode.SecondsRemaining | src/app/api/generate-code/route.ts:43 | The seconds value is at most 30. It is 30 exactly at the start of a step and 0 exactly in the last second of a step. |
| GenerateCode.SecretFormat | src/app/api/generate-code/route.ts:21 | A string that passes is non-empty, starts with a letter, and holds only letters and `=`. |
| GenerateCode.Respond | src/app/api/generate-code/route.ts:7-73 | For any preview instant: the status is 200, 400 or 500, and 500 exactly when the body is not an object. A falsy secret gives the "secret required" 400, a malformed one the "bad format" 400, and a generation failure the "invalid secret" 400. Codes come back exactly when the secret is truthy and well formed and both generations succeed. They carry the two generated codes, the whole seconds left, `timestamp = now` and `valid = true`. |
| GenerateCode.PostAsWritten | src/app/api/generate-code/route.ts:7-73 | As written, the preview code always equals the current code. |
| GenerateCode.PostOutcome | src/app/api/generate-code/route.ts:7-73 | The status is 500 exactly when the body is unusable. A missing or falsy secret gives the "secret required" 400, checked before the format, and a malformed one gives the "bad format" 400. Codes come back exactly when both generations succeed, and a generation failure gives the "invalid secret" 400. |
| GenerateCode.CodesOfTwoSteps | src/app/api/generate-code/route.ts:37-56 | A success carries the code at `now` and, as the preview, the code at the start of the next step. It also carries the whole seconds left, `timestamp = now` and `valid = true`. |
| GenerateCode.PreviewExample | src/app/api/generate-code/route.ts:37-56 | With a generator that reports its time step, at time 0 the as-written preview is step 0 and the corrected one is step 1. |
| VerifyTwoFactor.IsSixDigits | src/app/api/verify-2fa/route.ts:22 | A token that passes the six-digit check contains no white space. |
| VerifyTwoFactor.StripWhitespace | src/app/api/verify-2fa/route.ts:21 | The cleaned token is no longer than the token and contains no white-space character. |
| VerifyTwoFactor.StripAppend | src/app/api/verify-2fa/route.ts:21 | Cleaning a concatenation cleans each part. |
| VerifyTwoFactor.StripKeeps | src/app/api/verify-2fa/route.ts:21 | Text without white space is left unchanged. |
| VerifyTwoFactor.StripDrops | src/app/api/verify-2fa/route.ts:21 | Text made only of white space disappears. |
| VerifyTwoFactor.StripIdempotent | src/app/api/verify-2fa/route.ts:21 | Cleaning twice is the same as cleaning once. |
| VerifyTwoFactor.GroupedCode | src/app/api/verify-2fa/route.ts:21-22 | A code typed in two groups separated by white space is checked as the two groups written together. |
| VerifyTwoFactor.NumericToken | src/app/api/verify-2fa/route.ts:21-22 | A token sent as a JSON number passes the six-digit check exactly when it lies in 100000..999999. |
| VerifyTwoFactor.Post | src/app/api/verify-2fa/route.ts:7-62 | `verified` holds exactly when the message is the success message, and then the status is 200. The status is 500 exactly when the message is the internal-error message. |
| VerifyTwoFactor.PostOutcome | src/app/api/verify-2fa/route.ts:7-62 | The status is 200, 400 or 500. 400 means a falsy token or secret, or a token that is not six digits once cleaned, and the message says which. 200 means the authenticator answered. `verified` holds exactly when the authenticator accepted the cleaned token, and every other answer carries `verified: false`. |
| VerifyTwoFactor.BadTokenNeverVerified | src/app/api/verify-2fa/route.ts:22-27 | A malformed token is answered with the 400 "six digits" message, whatever the authenticator would say. |
| VerifyTwoFactor.WhitespaceIgnored | src/app/api/verify-2fa/route.ts:21-52 | Two non-empty tokens that clean to the same text get the same answer. |
| Js.Truthy | src/app/api/verify-2fa/route.ts:13 | A truthy value is defined and not `null`. A string is truthy exactly when `String(v)` is non-empty. |
| Js.IsJsWhitespace | src/app/api/verify-2fa/route.ts:21 | Space, tab, newline and carriage return are white space, and no white-space character is an ASCII digit. |
| Js.DecimalRoundTrip | src/app/api/decode-migration/route.ts:197 | A number rendered in decimal, as `${digits}` does, reads back as the same number. |

## Left out

- The one-time-password algorithms (HOTP and TOTP) of otplib. `authenticator.generate` and `authenticator.verify` are parameters. The model fixes only the settings each route passes them and where their results go.
- `decodeURIComponent`, `atob`, `TextDecoder` and `encodeURIComponent` are parameters. They are foreign functions with no logic in this repository.
- `authenticator.options` is assigned on a shared library object. The model passes the settings with each call instead, and does not model two requests interleaving on that object.
- The clock: every `Date.now()` a request makes is one instant `now`. The clock `authenticator.verify` reads is part of its parameter.
- HTTP and JSON plumbing: `NextResponse.json` is a response datatype, and `console.error` is dropped. A JSON body is modelled as a parse failure, `null`, or an object whose fields are `null`, booleans, safe integers or strings.
- Js.ToJsString: JSON numbers are modelled only as safe integers, of magnitude at most 2^53 − 1, which JavaScript prints exactly in decimal. Larger numbers, which `JSON.parse` rounds and `toString` may print with an exponent, and numbers with fractions are not modelled. `GenerateCode.PostOutcome`, `GenerateCode.Respond`, `GenerateCode.TrueLooksLikeAKey` and `VerifyTwoFactor.NumericToken` are stated for the modelled values only.
- Arrays or objects as field values are not modelled, and neither are their `toString` forms.
- Characters are Dafny's Unicode scalar values, not JavaScript's UTF-16 code units.
  - The `\s` class is stated over code points.
  - Case-insensitive matching of the secret is stated for ASCII.
- `page.tsx`, the `generate-2fa` and `health` routes, and the Next.js configuration have no logic of their own worth modelling.

## Findings

| source | as written | input that shows it | evidently intended | confidence | as-written member | corrected member |
|---|---|---|---|---|---|---|
| src/app/api/generate-code/route.ts:46-47 | `nextTime` is computed but not passed on: `nextCode` is `authenticator.generate(secret)` at the same instant as `currentCode` | body `{"secret": "JBSWY3DP"}` at any instant: `nextCode` equals `currentCode` | the preview is the code of the step that starts at `nextTime` | high (not executed) | GenerateCode.PostAsWritten | GenerateCode.CodesOfTwoSteps |

`GenerateCode.PostAsWritten` models the handler as written. `GenerateCode.Post`,
which the other members use, generates the preview at `nextTime`.
`GenerateCode.PreviewExample` shows the two side by side with a concrete
generator.
