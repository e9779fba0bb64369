# jkurwa private-key engine and certificate model in Dafny

A model of two files of jkurwa, a JavaScript implementation of the Ukrainian
DSTU 4145-2002 elliptic-curve signature scheme over GF(2^m):

- `lib/models/Priv.js` (module `Priv`, file `priv.dfy`): rebuilding the curve and
  the one or two private keys from a decoded key store (`ks_parse`, `attr_parse`,
  `from_asn1`), the signing retry loop (`help_sign`, `sign`), the public key
  (`pub`), the Diffie-Hellman shared secret (`derive`), the key-wrapping KDF input
  (`sharedKey`, `gost_salt`) and `detect_format`.
- `lib/models/Certificate.js` (module `Certificates`, file `certificate.dfy`):
  the flattened issuer and subject names (`parse_dn`), the extension dictionary
  (`parse_ext`) with its derived `ipn` dictionary of tax identifiers
  (`parse_ipn`, the OID table), `setup`, the raw-byte cache (`to_asn1`, the
  constructor's `_raw` move) and `from_asn1`.

Supporting modules: `Wrappers` (Option, Result), `Bytes` (the byte readers
BIG_BE / BIG_LE and the hexadecimal encoding `derive` performs) and `Assoc`
(`Collect`, the dictionary a `for` loop builds by `ret[key] = value`, where a
later key overwrites an earlier one).

Collaborators that are not in these two files are parameters of the model:
the curve arithmetic of `lib/curve.js` (`Priv.CurveOps`: base point, point
multiplication and negation, the field product, `truncate`, point decoding),
the ASN.1 codecs (`decode`/`encode` functions, the DER of SharedInfo),
`util.BIG_INVERT`, `util.is_hex`, `util.strFromUtf8`, `util.add_zero`, and the
caller's `kdf`. The operations of a `jk.Curve` are a function of its
parameters, so the signing, `pub` and `derive` members take the operations of
the key's own curve. The random draws of `p_curve.rand()` are a finite sequence
given to `Priv.Sign`.

Notes on behaviour:
- `ks_parse` rejects no basis label: anything other than `trinominal` (spelled
  so) is read as a pentanomial; there is no unsupported-basis error.
- `sign` does not ensure `r < order` nor `s >= 1`; only `r != 0` and `s < order`.
- The `DSTU_4145_KEY_BITS` scalar goes through `BIG_INVERT`, whose meaning is
  not visible, so no modular-inverse property is claimed.

A quirk of the name decoder is recorded as the lemma
`Certificates.LongFormUtf8Misread`: a 128-byte UTF8String in long form
(`0C 81 80 ...`) passes the tag-and-length test, because the length byte 0x81
equals the number of bytes after it, and is decoded as text that begins with
the stray length byte 0x80.

## Model

| member | source | states |
|---|---|---|
| `Priv.KsParse` | lib/models/Priv.js:32-37 | one exponent exactly when the label is `trinominal`; otherwise k1, k2, k3 in that order; every label is accepted |
| `Priv.EndiannessFidelity` | lib/models/Priv.js:58-83 | the primary layout (a, b, base little-endian, order big-endian) denotes the same curve as the all-big-endian attribute layout with b and base reversed |
| `Priv.AttrHash` | lib/models/Priv.js:41-46 | the attribute loop yields the last-write-wins dictionary of `id -> value[0].value`, skipping attributes without id, or the error thrown by an id-carrying attribute with no value |
| `Priv.AttrMapKeys` | lib/models/Priv.js:41-46 | an id is in the dictionary exactly when some attribute carries it |
| `Priv.AttrMapLastWins` | lib/models/Priv.js:41-46 | the value under an id is the first value of the last attribute with that id |
| `Priv.NoSecondKeyWithoutAttributes` | lib/models/Priv.js:47-53 | without DSTU_4145_KEY_BITS or without DSTU_4145_CURVE there is no second key and no error |
| `Priv.SecondKeyFromLastAttributes` | lib/models/Priv.js:55-67 | otherwise the second key is BIG_INVERT of the last key bits on the big-endian reading of the last curve block |
| `Priv.AttrParse` | lib/models/Priv.js:39-68 | attr_parse's result is the dictionary step followed by the key step |
| `Priv.FromAsn1` | lib/models/Priv.js:70-90 | format `privkeys`; one or two keys; the first is the primary scalar (little-endian) on the primary curve; a second exactly when attr_parse returns one, and it is that key; decoder and attribute errors propagate |
| `Priv.DetectFormat` | lib/models/Priv.js:26-31 | `hex` exactly when is_hex accepts the input, otherwise the unknown-format error |
| `Priv.HelpSign` | lib/models/Priv.js:94-115 | rejects exactly when x(e·G) is zero or the truncated r is zero; otherwise r is that nonzero value and s is d·r + e reduced modulo the order, so s < order |
| `Priv.Sign` | lib/models/Priv.js:116-132 | the result is help_sign's pair for the first accepted draw, all earlier draws rejected, with hash the little-endian value of the buffer; hence r != 0 and s < order |
| `Priv.PubKey` | lib/models/Priv.js:133-135 | the public key is -(d·G) on the private key's own curve |
| `Priv.PeerPoint` | lib/models/Priv.js:144-148 | a Pub object contributes its point; an `{x, y}` pair or a compressed integer is decoded by the key's curve |
| `Priv.Cofactor` | lib/models/Priv.js:149 | the curve's cofactor, 4 when it has none |
| `Priv.Derive` | lib/models/Priv.js:142-157 | the output's big-endian value is the shared x-coordinate, it has ceil(n/2) bytes for n hex digits, and its first byte is zero only when x is |
| `Bytes.EncodeX` | lib/models/Priv.js:151-155 | padding the hex form to even length and decoding it pairwise gives the shortest big-endian encoding of x |
| `Priv.GostSalt` | lib/models/Priv.js:13-23 | GOST 28147 CFB key wrap with null parameters, the UKM verbatim or absent, suppPubInfo 00 00 01 00 |
| `Priv.SuppPubInfoIsKeyLength` | lib/models/Priv.js:20 | suppPubInfo is the 32-bit big-endian key length 256 that section 8.2 of RFC 3278 asks for |
| `Priv.CopyInto` | lib/models/Priv.js:179-181 | Buffer.copy places the source at the offset and leaves every other byte unchanged |
| `Priv.KekInput` | lib/models/Priv.js:173-181 | the buffer is as long as Z, the four counter bytes and the salt together, and holds Z, then 00 00 00 01, then the salt |
| `Priv.SharedKey` | lib/models/Priv.js:169-184 | the KDF is applied to exactly the concatenation of Z, 00 00 00 01 and DER(SharedInfo) |
| `Certificates.IpnNames` | lib/models/Certificate.js:9-20 | the table maps the `...4 1 1` OID to DRFO and the `...4 2 1` OID to EDRPOU; any other OID is keyed by its arcs joined with commas, as JavaScript prints the arc array the decoder returns |
| `Certificates.Latin1` | lib/models/Certificate.js:56 | character i of the string has code byte i |
| `Certificates.ParseIpn` | lib/models/Certificate.js:49-59 | a decoder failure is an error; otherwise the loop yields the last-write-wins dictionary name -> text of the first value |
| `Certificates.IpnLastWins` | lib/models/Certificate.js:54-57 | the text under a name has, at each position, the byte of the first value of the last part with that name |
| `Certificates.IpnKeys` | lib/models/Certificate.js:54-57 | a name is present exactly when some part resolves to it |
| `Certificates.ParseExt` | lib/models/Certificate.js:60-71 | the loop yields extnID -> extnValue, last occurrence winning, plus `ipn` when subjectDirectoryAttributes is present |
| `Certificates.ExtLastWins` | lib/models/Certificate.js:63-66 | each extension id keeps the value of its last occurrence |
| `Certificates.IpnEntryIff` | lib/models/Certificate.js:67-69 | `ipn` holds derived identifiers exactly when a subjectDirectoryAttributes extension exists |
| `Certificates.IpnFromLastSubjectDirectoryAttributes` | lib/models/Certificate.js:67-69 | the `ipn` entry is parse_ipn of the last subjectDirectoryAttributes value, and its decoding error propagates |
| `Certificates.ParseDn` | lib/models/Certificate.js:72-86 | the nested loops yield the last-write-wins dictionary over the attributes in outer-then-inner order |
| `Certificates.DnKeys` | lib/models/Certificate.js:75-84 | a type is present exactly when some attribute in some RDN has it |
| `Certificates.DnLastWins` | lib/models/Certificate.js:75-84 | the stored value is that of the attribute of that type that comes last in nested order, text when its bytes are 0C, len-2, ... and raw bytes otherwise |
| `Certificates.ShortUtf8Decoded` | lib/models/Certificate.js:78-79 | a short-form UTF8String is decoded as the text of its content bytes |
| `Certificates.LongFormUtf8Misread` | lib/models/Certificate.js:78-79 | a 128-byte long-form UTF8String is decoded with the stray length byte 0x80 in front |
| `Certificates.PublicKeyBytes` | lib/models/Certificate.js:35 | the key bytes are subjectPublicKey with its first two bytes dropped (empty when shorter) |
| `Certificates.SetupValue` | lib/models/Certificate.js:33-48 | format x509, the public key from the trimmed bytes, validity copied from notBefore and notAfter, the extension and name dictionaries; fails exactly when parse_ext does |
| `Certificates.SetupOf` | lib/models/Certificate.js:33-48 | running the parse_ext and parse_dn loops yields exactly that setup object, or its error |
| `Certificates.Certificate.constructor` | lib/models/Certificate.js:96-98 | the certificate's `_raw` is the input's former `_raw`, and the input is left without one |
| `Certificates.Certificate.ToAsn1` | lib/models/Certificate.js:87-93 | the cached bytes verbatim whenever present, else the DER encoding of the decoded structure |
| `Certificates.NewCertificate` | lib/models/Certificate.js:29-101 | setup runs first and fails exactly when parse_ext does, with its error; on success the certificate holds the input's fields and their setup object, and `_raw` is moved from the input |
| `Certificates.FromAsn1` | lib/models/Certificate.js:104-109 | a decoder failure is an error; otherwise the certificate is built from the decoded structure with its setup object and fails exactly when parse_ext does; the result caches the input, so re-encoding it returns exactly the input bytes |

## Left out

- The curve arithmetic of `lib/curve.js` (`jk.Curve`, `jk.Field`, point `mul`/`negate`, `truncate`, `rand`, `point()`, `pkey`): lib/curve.js is not part of this model; these are function parameters with no axioms, taken as a function of the curve parameters, so no cryptographic property (signature verification, key-agreement symmetry, the sign of the public key) is stated.
- The big-integer library and util.js (`BIG_INVERT`, `add_zero`, `is_hex`, `strFromUtf8`): not part of this model; they are parameters. `BIG_BE` and `BIG_LE` are modelled as byte-string-to-integer readers in the stated byte order.
- The ASN.1 and DER codecs (`asn1.js`, `rfc3280.js`, `keystore.js`, `dstszi2010.js`): decoding and encoding are parameters; a failed decode is the `DecodeError` result. An IPN OID missing from the table is taken to come back from asn1.js `objid` as its list of arcs, which JavaScript turns into the comma-joined key `1,2,804,...`; asn1.js is not part of this model, so that key form is modelled from its documented behaviour.
- The caller's `kdf` and the randomness of `p_curve.rand()`: the KDF is a parameter; the draws are a finite sequence.
- Priv.Sign: the model takes a finite sequence of draws and returns None once every draw has been rejected.
- Priv.HelpSign: requires a positive order; what jsbn does when reducing modulo zero is not modelled.
- Priv.AttrHash: a JavaScript TypeError from `value[0]` on an attribute with an id and no values is modelled as the `MalformedAttribute` error.
- Priv.KeyFromAttributes: a DSTU_4145_KEY_BITS value that is not a bit string, or a DSTU_4145_CURVE value that is not a curve block, is the `MalformedAttribute` error; in the source it throws or yields an unspecified value.
- Priv.KsParse: the basis descriptor is typed so that a single exponent comes with the label `trinominal` and three exponents with any other label, which is what the decoder produces; mismatched shapes are not modelled.
- Certificates.ParseExt: the dictionary values are tagged (raw extension value or derived identifiers); an extension whose own id is `ipn` is overwritten by the derived entry, as in the source.
- Certificates.SetupOf: a certificate without an extensions block is not modelled; the source dereferences it unconditionally.
- Concurrency and I/O: none in these files.
