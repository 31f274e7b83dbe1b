# TestSSLServer core: protocol-version parsing and the SSL 2.0 probe

TestSSLServer connects to an SSL/TLS server and reports which protocol
versions and cipher suites it accepts. This project models two parts of it
in Dafny:

- **The protocol-version codec.** `ParseVersion` turns the text given to
  `-min` / `--min-version` and `-max` / `--max-version` into a 16-bit
  protocol-version identifier (major in the high byte: SSL 3.0 is 0x0300,
  TLS 1.x is SSL 3.(x+1), so TLS 1.2 is 0x0303), or -1. The text is trimmed
  and lower-cased; `0x` introduces a hexadecimal identifier; `ssl` names
  accept only 3, 30 and 3.0; `tls` names are `maj[.min]`, read with
  Int32.TryParse, with the +1 shift for TLS 1.x and the range checks on
  the major and minor numbers. `Process` then keeps a bound only inside
  [SSLv20, TLSv12].
- **The SSL 2.0 probe.** `SSL2.TestServer` writes the fixed 48-byte
  CLIENT-HELLO and parses the SERVER-HELLO: the record header must have
  its high bit set and a length of at least 11, the message type must be
  4, the three lengths must add up to the record length, and the
  cipher-spec list must be non-empty and a multiple of three bytes. The
  certificate and the list of 24-bit cipher specs are kept. Any failure,
  including a short read, gives null.

Files:

- `wrappers.dfy`: `Option` and `Result`.
- `text.dfy`: the .NET string operations the parser relies on: `Trim`,
  `ToLowerInvariant`, ordinal `StartsWith`, `IndexOf`, `Int32.TryParse`.
- `m.dfy`: the byte type, the big-endian decoders and the version
  constants of the helper class `M`.
- `io.dfy`: a `Stream` class. The peer's bytes are fixed in advance,
  and the class keeps a read position and the bytes written so far.
- `test_ssl_server.dfy`: the version codec and the `-min` / `-max` check.
- `ssl2.dfy`: the CLIENT-HELLO constant, the SERVER-HELLO parser as a
  function of the bytes received, an encoder that is its partner, and the
  `SSL2` class whose methods read the stream.

The parser is specified by a pure function `Version`. The method
`ParseVersion` keeps the source's digit-by-digit loop and is proved to
compute `Version`. Likewise `SSL2.Read` keeps the source's sequence of reads
into arrays and the cipher-spec loop. It is proved to leave the stream and
produce the object that `ParseServerHello` prescribes for the bytes the
server sent.

The hexadecimal loop rejects a digit only when the accumulator already
exceeds 0xFFF, so values up to 0xFFFF are accepted (`HexGuardExact`,
`HexRoundTrip`).

Int32.TryParse lets a sign through. The only negative minor that survives
the range check is -1 with major 1, so `tls1.-1` is SSL 3.0 (0x0300)
(`TlsExamples`, `TlsOneMinor`, `NegativeMinors`). The 32-bit wrap of `min++` is modelled (`Inc32`) but cannot
change the result: a wrapped minor is rejected just as the unwrapped one
would be (`TlsOneMinor`).

## Model

| member | source | states |
|---|---|---|
| TestSslServer.Version | ISA564_Project/Src/TestSSLServer.cs:217-291 | the identifier for a text: -1 or a 16-bit value |
| TestSslServer.Normalize | ISA564_Project/Src/TestSSLServer.cs:219 | the trimmed, lower-cased text: no capitals, no white space at either end, never longer than the input |
| TestSslServer.HexLiteral | ISA564_Project/Src/TestSSLServer.cs:220-241 | the text after `0x` is accepted exactly when it is one or more hex digits with a value of at most 0xFFFF; the result is then in [0, 0xFFFF] |
| TestSslServer.StripV | ISA564_Project/Src/TestSSLServer.cs:244-247 | the text after `ssl` or `tls`, trimmed, with an optional `v` removed and trimmed again: no white space at either end |
| TestSslServer.SslVersion | ISA564_Project/Src/TestSSLServer.cs:243-255 | SSL 3.0 exactly when the stripped text is `3`, `30` or `3.0`; -1 otherwise |
| TestSslServer.SslNames | ISA564_Project/Src/TestSSLServer.cs:243-255 | on normalized text starting with `ssl`: SSL 3.0 exactly for `3`, `30` and `3.0` after the optional `v`, and -1 for everything else |
| TestSslServer.VersionOfSslText | ISA564_Project/Src/TestSSLServer.cs:219-244 | normalized text starting with `ssl` is decided by the `ssl` branch alone |
| TestSslServer.SslExamples | ISA564_Project/Src/TestSSLServer.cs:219-255 | ` SSLv3 ` and `ssl 3.0` give SSL 3.0 (0x0300); `ssl2` gives -1 |
| TestSslServer.SplitVersion | ISA564_Project/Src/TestSSLServer.cs:261-268 | without a `.` the whole text is the major and the minor is `0`; with one, both parts together are shorter than the text |
| TestSslServer.Inc32 | ISA564_Project/Src/TestSSLServer.cs:280-282 | `min++` on a 32-bit int: one more below Int32.MaxValue, Int32.MinValue after it, always in the 32-bit range |
| TestSslServer.EncodeTls | ISA564_Project/Src/TestSSLServer.cs:280-288 | the identifier for a major and minor: -1 or an identifier of the `tls` family |
| TestSslServer.TlsOneMinor | ISA564_Project/Src/TestSSLServer.cs:280-288 | for major 1, the minor m gives 0x0301 + m when -1 <= m <= 253 and -1 otherwise; Int32.MaxValue, which wraps, is rejected like any other large minor |
| TestSslServer.NegativeMinors | ISA564_Project/Src/TestSSLServer.cs:280-288 | a negative minor survives the range check only as -1 with major 1 (SSL 3.0); `tls1.-2` and `tls2.-1` give -1 |
| TestSslServer.TlsVersion | ISA564_Project/Src/TestSSLServer.cs:256-289 | the `tls` branch gives -1 or an identifier of the `tls` family |
| TestSslServer.EncodeTlsOfDecoded | ISA564_Project/Src/TestSSLServer.cs:280-288 | every identifier of the `tls` family is the encoding of its own major and minor |
| TestSslServer.ParseVersion | ISA564_Project/Src/TestSSLServer.cs:217-291 | the loop over the hex digits computes exactly `Version(text)`, and the result is -1 or a 16-bit value |
| TestSslServer.VersionFamilies | ISA564_Project/Src/TestSSLServer.cs:220-290 | the branches by prefix: `0x` gives the hex literal's value, which is at most 0xFFFF or -1; `ssl` gives SSL 3.0 exactly for `3`, `30` and `3.0` after the optional `v`, and -1 otherwise; `tls` gives -1 or an identifier in [0x0300, 0xFFFF] other than 0x03FF; any other text gives -1 |
| TestSslServer.NamedVersionRange | ISA564_Project/Src/TestSSLServer.cs:243-290 | on normalized text: what the `ssl` branch, the `tls` branch and the fall-through can return |
| TestSslServer.NoNameForSsl2 | ISA564_Project/Src/TestSSLServer.cs:243-290 | only a hex literal can name SSL 2.0 (0x0200); no `ssl` or `tls` name can |
| TestSslServer.HexPrefixGrowth | ISA564_Project/Src/TestSSLServer.cs:226-239 | each prefix of the digits, shifted one digit to the left, is at most the value of the whole string |
| TestSslServer.HexGuardExact | ISA564_Project/Src/TestSSLServer.cs:235-238 | the `acc > 0xFFF` guard fires for some digit exactly when the whole value exceeds 0xFFFF, so the guard is a 16-bit range check |
| TestSslServer.HexLeadingZero | ISA564_Project/Src/TestSSLServer.cs:225-240 | a leading zero changes neither the value nor the verdict, so any number of leading zeros is accepted |
| TestSslServer.HexRoundTrip | ISA564_Project/Src/TestSSLServer.cs:220-241 | every value in [0, 0xFFFF], written as `0x` and four hex digits, parses back to itself |
| TestSslServer.Hex4Value | ISA564_Project/Src/TestSSLServer.cs:228-238 | four hex digits written for v are hex digits whose value is v |
| TestSslServer.HexValueOf4 | ISA564_Project/Src/TestSSLServer.cs:228-238 | the value of four hex digits, folded from the most significant one |
| TestSslServer.VersionOfHexText | ISA564_Project/Src/TestSSLServer.cs:219-241 | normalized text starting with `0x` is decided by the hex branch alone |
| TestSslServer.EncodeTlsDecodes | ISA564_Project/Src/TestSSLServer.cs:275-288 | an accepted `maj.min` encodes to an identifier in the `tls` family, and the major and minor can be read back from it (undoing the +1 shift of TLS 1.x) |
| TestSslServer.EncodeTlsInjective | ISA564_Project/Src/TestSSLServer.cs:275-288 | two accepted `maj.min` pairs with the same identifier are equal |
| TestSslServer.TlsVersionOfText | ISA564_Project/Src/TestSSLServer.cs:256-289 | the `tls` branch, given a decimal major, `.` and a signed decimal minor, computes the encoding of that major and minor |
| TestSslServer.VersionOfTlsText | ISA564_Project/Src/TestSSLServer.cs:219-257 | normalized text starting with `tls` is decided by the `tls` branch alone |
| TestSslServer.TlsRoundTrip | ISA564_Project/Src/TestSSLServer.cs:256-289 | every identifier of the `tls` family is produced by `tls<major>.<minor>` written in decimal |
| TestSslServer.SplitVersionAt | ISA564_Project/Src/TestSSLServer.cs:261-268 | `maj.min` is split at its first `.` into the major and minor texts |
| TestSslServer.StripVNoop | ISA564_Project/Src/TestSSLServer.cs:257-260 | text that starts with a digit and has no trailing white space is unchanged by the trim-and-`v` step |
| TestSslServer.FormatTlsNormal | ISA564_Project/Src/TestSSLServer.cs:219 | `tls`, digits, `.` and a signed number are unchanged by trimming and lower-casing |
| TestSslServer.TlsExamples | ISA564_Project/Src/TestSSLServer.cs:256-289 | `tls1.0`, `tls1.1`, `tls1.2` and `tls2.0` give 0x0301, 0x0302, 0x0303 and 0x0400; `tls1.-1` gives 0x0300 |
| TestSslServer.FormatTlsExamples | ISA564_Project/Src/TestSSLServer.cs:275-288 | the texts `tls1.0`, `tls1.1`, `tls1.2`, `tls2.0` and `tls1.-1` for those identifiers |
| TestSslServer.NormalizationExamples | ISA564_Project/Src/TestSSLServer.cs:219-289 | `0X1` and `0x1` both give 1; ` TLSv1 ` and `tlsv1` both give TLS 1.0 (0x0301), with the `v` and the minor optional |
| TestSslServer.NormalizeCanonical | ISA564_Project/Src/TestSSLServer.cs:219 | text without white space at its ends and without capitals is unchanged by trimming and lower-casing |
| TestSslServer.NormalizeIdempotent | ISA564_Project/Src/TestSSLServer.cs:219 | trimming and lower-casing twice is the same as once |
| TestSslServer.VersionIgnoresCaseAndPadding | ISA564_Project/Src/TestSSLServer.cs:219 | the result depends only on the trimmed, lower-cased text |
| TestSslServer.ParseVersionBound | ISA564_Project/Src/TestSSLServer.cs:96-101 | a `-min` / `-max` value is kept exactly when it lies in [SSLv20, TLSv12], and then it is the parsed identifier; -1 is always refused |
| TestSslServer.TlsInBounds | ISA564_Project/Src/TestSSLServer.cs:108-113 | among accepted `tls` names, the ones that pass the bound check are exactly major 1 with minor -1, 0, 1 or 2 |
| Text.TrimStartShape | ISA564_Project/Src/TestSSLServer.cs:219 | leading trimming removes a run of white space from the front and stops at the first other character |
| Text.TrimEndShape | ISA564_Project/Src/TestSSLServer.cs:219 | trailing trimming removes a run of white space from the back and stops at the last other character |
| Text.Trim | ISA564_Project/Src/TestSSLServer.cs:219 | a trimmed string is no longer than the original, and neither of its ends is white space |
| Text.ToLower | ISA564_Project/Src/TestSSLServer.cs:219 | the same length, no capital letter left, and every other character unchanged |
| Text.StartsWith | ISA564_Project/Src/TestSSLServer.cs:220 | the text is at least as long as the prefix and agrees with it position by position |
| Text.TrimNoop | ISA564_Project/Src/TestSSLServer.cs:219 | a string whose ends are not white space is its own trim |
| Text.IndexOf | ISA564_Project/Src/TestSSLServer.cs:261 | -1 exactly when the character does not occur; otherwise the position of its first occurrence |
| Text.DecimalText | ISA564_Project/Src/TestSSLServer.cs:270-271 | non-empty decimal digits whose value is the number |
| Text.TryParseInt32 | ISA564_Project/Src/TestSSLServer.cs:270-274 | a parsed number lies in the 32-bit signed range |
| Text.SignedDecimalText | ISA564_Project/Src/TestSSLServer.cs:270-271 | the text of a 32-bit number is digits with an optional `-`, ending in a digit, and TryParse reads the number back |
| M.Enc16be | Src/SSL2.cs:79 | two bytes that the 16-bit big-endian decoder reads back as the value |
| M.Enc24be | Src/SSL2.cs:109 | three bytes that the 24-bit big-endian decoder reads back as the value |
| M.Dec16be | Src/SSL2.cs:92-94 | a 16-bit big-endian value is in [0, 0xFFFF] |
| M.Dec24be | Src/SSL2.cs:109 | a 24-bit big-endian value is in [0, 0xFFFFFF] |
| IO.Stream.ReadFully | Src/SSL2.cs:78 | the read succeeds exactly when enough bytes are left, and then fills the buffer with the next bytes; a short read consumes everything |
| IO.Stream.Write | Src/SSL2.cs:122-123 | the bytes are appended to what the peer receives; nothing is read |
| Ssl2.ClientHello | Src/SSL2.cs:25-43 | the 48 bytes of the CLIENT-HELLO, byte for byte; the four lemmas below state its layout |
| Ssl2.ClientHelloRecord | Src/SSL2.cs:25-26 | the CLIENT-HELLO is 48 bytes, its header has the high bit set, and the header's length is the length of the rest |
| Ssl2.ClientHelloTypeAndVersion | Src/SSL2.cs:27-28 | message type 1 and version 0x0002 |
| Ssl2.ClientHelloLengths | Src/SSL2.cs:29-31 | 21 bytes of cipher specs (seven entries of three), no session id, a 16-byte challenge; with the 11 fixed bytes they fill the message exactly |
| Ssl2.ClientHelloBody | Src/SSL2.cs:32-42 | the cipher-spec bytes decode to the seven SSL 2.0 cipher kinds in order, and the challenge is sixteen 0x54 bytes |
| Ssl2.CipherSpecsRoundTrip | Src/SSL2.cs:107-110 | decoding an encoded cipher-spec list gives back the list, in order |
| Ssl2.DecodeCipherSpecs | Src/SSL2.cs:107-110 | a list of n bytes gives n / 3 cipher specs, each below 2^24 |
| Ssl2.ParsePrefix | Src/SSL2.cs:76-100 | the header checks consume at most the bytes available, and exactly 13 when they pass |
| Ssl2.ParseBody | Src/SSL2.cs:101-110 | the three reads after the prefix succeed exactly when the certificate, cipher-spec and connection-id lengths fit in what is left; they then consume exactly those bytes and give a certificate of certLen bytes and csLen / 3 cipher specs; otherwise they fail at end of stream having consumed everything |
| Ssl2.ParseServerHello | Src/SSL2.cs:74-111 | the parser never consumes more bytes than it was given |
| Ssl2.ServerHelloRejections | Src/SSL2.cs:78-106 | each rejection and its error: a short read, high bit clear ("not a SSLv2 record"), a length below 11, a type other than 4, lengths that do not add up, an empty cipher-spec list or one whose length is not a multiple of three ("not a SSLv2 server hello"), a record cut short |
| Ssl2.ServerHelloAccepted | Src/SSL2.cs:74-111 | an accepted response has the high bit and type 4 and consumes exactly 2 + (header & 0x7FFF) = 13 + the three lengths bytes; its certificate is the certLen bytes after the 13-byte prefix; it has csLen / 3 >= 1 cipher specs, entry k being the 24-bit value at offset 13 + certLen + 3k |
| Ssl2.ServerHelloIgnoresTrailing | Src/SSL2.cs:74-111 | bytes after the record do not change the result or the bytes consumed |
| Ssl2.ServerHelloPrefix | Src/SSL2.cs:79-94 | the 13 fixed bytes of a SERVER-HELLO carry the record length, type 4 and the three lengths at offsets 7, 9 and 11 |
| Ssl2.ServerHelloFields | Src/SSL2.cs:79-106 | an encoded SERVER-HELLO carries its lengths at the offsets the parser reads, followed by the certificate and the cipher specs |
| Ssl2.ServerHelloRoundTrip | Src/SSL2.cs:74-111 | a SERVER-HELLO built from a certificate, one or more cipher specs and a connection id parses back to that certificate and those cipher specs, consuming exactly its own length, whatever follows |
| Ssl2.LegacyOnlyServer | Src/SSL2.cs:119-128 | a server offering two SSL 2.0 cipher specs with a 5-byte certificate is reported with exactly those specs, in order, and that certificate |
| Ssl2.SSL2.constructor | Src/SSL2.cs:71-72 | stores the two arrays, which satisfy the invariant `Valid` |
| Ssl2.SSL2.CipherSuites | Src/SSL2.cs:50-54 | the stored cipher specs: at least one, each below 2^24 |
| Ssl2.SSL2.Certificate | Src/SSL2.cs:65-69 | the stored certificate; 11 fixed bytes, the certificate and three bytes per stored cipher spec fit in one record (below 0x8000) |
| Ssl2.SSL2.ReadPrefix | Src/SSL2.cs:76-100 | the two header reads and their checks give what `ParsePrefix` prescribes, and advance the stream by the bytes it says are consumed |
| Ssl2.SSL2.ReadBody | Src/SSL2.cs:101-110 | the certificate, cipher-spec and connection-id reads give what `ParseBody` prescribes; a short read is an end-of-stream failure |
| Ssl2.SSL2.DecodeCipherSpecArray | Src/SSL2.cs:107-110 | the loop fills a new array, one third the length of the bytes, with the decoded cipher specs, each below 2^24 |
| Ssl2.SSL2.Read | Src/SSL2.cs:74-111 | the constructor consumes exactly the bytes `ParseServerHello` says and fails exactly when it fails, with the same error; on success it builds fresh arrays holding that certificate and those cipher specs |
| Ssl2.SSL2.TestServer | Src/SSL2.cs:119-128 | writes exactly the 48-byte CLIENT-HELLO and nothing else, then returns null exactly when parsing the reply fails, and otherwise an object holding the parsed certificate and cipher specs |

## Left out

- `Main`, `Usage`, the rest of `Process`'s option handling, the
  `FullTest` enumeration of cipher suites for SSL 3.0 and TLS, the `-v`
  branch (ISA564_Project/Src/TestSSLServer.cs:70-78), which launches
  Heartbleed.py through `hb` and poodle-poc.py through `poodle`, and the
  `Report`/`JSON` output: they are not part of this model.
- Usage() prints help and exits the process. `ParseVersionBound` returns
  None in its place.
- Class `M` is outside this model; its helpers are modelled as
  follows: Dec16be and Dec24be as unsigned big-endian reads, the constants
  as SSLv20 = 0x0200, SSLv30 = 0x0300 and TLSv12 = 0x0303, and ReadFully
  as throwing on a short read.
- Sockets, timeouts and write failures. The peer's reply is a sequence
  fixed in advance, so it cannot depend on the bytes written. A failing
  Write, which TestServer would also turn into null, is not modelled.
- IO.Stream.ReadFully: after a short read the contents of the partly
  filled buffer are not stated, because the constructor discards them.
- Text.LowerChar: ToLowerInvariant is modelled on ASCII letters only. No
  other character lowers to a character the parser compares against, so
  the results for the prefixes and names it tests are the same.
- Text.StartsWith: modelled as an ordinal comparison. The culture-sensitive
  comparison of `String.StartsWith(string)` is not modelled.
- Text.TryParseInt32: the culture's sign symbols and the trailing NUL
  characters that .NET number parsing ignores are not modelled. Only
  `+`, `-` and ASCII digits are accepted. The inputs are already trimmed,
  so leading and trailing white space cannot occur.
- Ssl2.SSL2.Certificate: X.509 decoding of the certificate bytes is not
  modelled. The certificate is kept as raw bytes.
