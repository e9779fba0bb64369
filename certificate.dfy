/**
 * The X.509 certificate model of lib/models/Certificate.js (certificates as
 * profiled in RFC 3280): the flattened issuer and subject names, the extension
 * dictionary with its derived `ipn` entry of Ukrainian tax identifiers, and the
 * raw-byte cache behind `to_asn1`.
 *
 * The ASN.1 codecs (rfc3280.js, asn1.js), util.strFromUtf8 and util.add_zero
 * are outside this model; they enter through a `Codec` of function values.
 */
module Certificates {
  import opened Wrappers
  import opened Bytes
  import opened Assoc

  datatype Error = DecodeError

  // ---------------------------------------------------------------------------
  // Tax identifiers (subjectDirectoryAttributes, section 4.2.1.9 of RFC 3280)
  // ---------------------------------------------------------------------------

  const DrfoOid := "1 2 804 2 1 1 1 11 1 4 1 1"
  const EdrpouOid := "1 2 804 2 1 1 1 11 1 4 2 1"

  /** The OID table: individual (DRFO) and organisation (EDRPOU) tax identifiers. */
  const OidTable: map<string, string> := map[DrfoOid := "DRFO", EdrpouOid := "EDRPOU"]

  /**
   * The property key an OID of the table's form (arcs separated by spaces)
   * becomes when the decoder returns it as its array of arcs: JavaScript joins
   * an array used as a key with commas.
   */
  function ArcListKey(oid: string): (key: string)
    ensures |key| == |oid|
    ensures forall i :: 0 <= i < |oid| ==> key[i] == (if oid[i] == ' ' then ',' else oid[i])
  {
    seq(|oid|, i requires 0 <= i < |oid| => if oid[i] == ' ' then ',' else oid[i])
  }

  /** The key an identifier is stored under: its name from the table, else the OID's arc list. */
  function IpnName(oid: string): string
  {
    if oid in OidTable then OidTable[oid] else ArcListKey(oid)
  }

  lemma IpnNames(oid: string)
    ensures IpnName(DrfoOid) == "DRFO" && IpnName(EdrpouOid) == "EDRPOU"
    ensures oid != DrfoOid && oid != EdrpouOid ==> IpnName(oid) == ArcListKey(oid)
    ensures oid != DrfoOid && oid != EdrpouOid ==> ' ' !in IpnName(oid)
  {
  }

  /** An IPN_ID element as IPN.decode yields it: an OID and its SET OF octet strings. */
  datatype IpnPart = IpnPart(oid: string, val: seq<seq<byte>>)

  /** String.fromCharCode.apply(null, bytes): character i has code bytes[i]. */
  function Latin1(bs: seq<byte>): (s: string)
    ensures |s| == |bs|
    ensures forall i :: 0 <= i < |bs| ==> s[i] as int == bs[i]
  {
    seq(|bs|, i requires 0 <= i < |bs| => bs[i] as char)
  }

  /** Only the first value of the set is read; an empty set reads as no arguments, "". */
  function IpnText(part: IpnPart): string
  {
    Latin1(if |part.val| == 0 then [] else part.val[0])
  }

  function IpnEntries(parts: seq<IpnPart>): (es: seq<Option<(string, string)>>)
    ensures |es| == |parts|
    ensures forall i :: 0 <= i < |parts| ==> es[i] == Some((IpnName(parts[i].oid), IpnText(parts[i])))
  {
    seq(|parts|, i requires 0 <= i < |parts| => Some((IpnName(parts[i].oid), IpnText(parts[i]))))
  }

  /** The dictionary parse_ipn's loop builds from the decoded parts. */
  function IpnMap(parts: seq<IpnPart>): map<string, string>
  {
    Collect(IpnEntries(parts))
  }

  /** parse_ipn: decode the extension value, then fill the dictionary part by part. */
  method ParseIpn(data: seq<byte>, decodeIpn: seq<byte> -> Option<seq<IpnPart>>)
    returns (r: Result<map<string, string>, Error>)
    ensures decodeIpn(data).None? ==> r == Failure(DecodeError)
    ensures decodeIpn(data).Some? ==> r == Success(IpnMap(decodeIpn(data).value))
  {
    var decoded := decodeIpn(data);
    if decoded.None? {
      return Failure(DecodeError);
    }
    var asnIb := decoded.value;
    var ret: map<string, string> := map[];
    var i := 0;
    while i < |asnIb|
      invariant 0 <= i <= |asnIb|
      invariant ret == Collect(IpnEntries(asnIb)[..i])
    {
      var part := asnIb[i];
      var text := Latin1(if |part.val| == 0 then [] else part.val[0]);
      ret := ret[IpnName(part.oid) := text];
      CollectPrefix(IpnEntries(asnIb), i);
      i := i + 1;
    }
    assert IpnEntries(asnIb)[..i] == IpnEntries(asnIb);
    return Success(ret);
  }

  /**
   * The identifier stored under a name is the text of the LAST part with that
   * name: character k has code byte k of that part's first value.
   */
  lemma IpnLastWins(parts: seq<IpnPart>, i: nat)
    requires i < |parts| && |parts[i].val| > 0
    requires forall j :: i < j < |parts| ==> IpnName(parts[j].oid) != IpnName(parts[i].oid)
    ensures IpnName(parts[i].oid) in IpnMap(parts)
    ensures |IpnMap(parts)[IpnName(parts[i].oid)]| == |parts[i].val[0]|
    ensures forall k :: 0 <= k < |parts[i].val[0]| ==>
      IpnMap(parts)[IpnName(parts[i].oid)][k] as int == parts[i].val[0][k]
  {
    CollectLastWins(IpnEntries(parts), IpnName(parts[i].oid), i);
  }

  /** A name is present exactly when some part resolves to it. */
  lemma IpnKeys(parts: seq<IpnPart>, name: string)
    ensures name in IpnMap(parts) <==> exists i :: 0 <= i < |parts| && IpnName(parts[i].oid) == name
  {
    var es := IpnEntries(parts);
    CollectKeys(es, name);
    assert forall i :: 0 <= i < |parts| ==> (Sets(es[i], name) <==> IpnName(parts[i].oid) == name);
  }

  // ---------------------------------------------------------------------------
  // Extensions
  // ---------------------------------------------------------------------------

  datatype Extension = Extension(extnID: string, extnValue: seq<byte>)

  /** A value of the extension dictionary: an extension's raw value, or the derived identifiers. */
  datatype ExtValue = RawExt(bytes: seq<byte>) | IpnExt(ids: map<string, string>)

  const SubjectDirectoryAttributes := "subjectDirectoryAttributes"
  const IpnKey := "ipn"

  function ExtEntries(exts: seq<Extension>): (es: seq<Option<(string, seq<byte>)>>)
    ensures |es| == |exts|
    ensures forall i :: 0 <= i < |exts| ==> es[i] == Some((exts[i].extnID, exts[i].extnValue))
  {
    seq(|exts|, i requires 0 <= i < |exts| => Some((exts[i].extnID, exts[i].extnValue)))
  }

  /** The extension values parse_ext's loop leaves, keyed by extnID. */
  function RawExtensions(exts: seq<Extension>): map<string, seq<byte>>
  {
    Collect(ExtEntries(exts))
  }

  function Tagged(raw: map<string, seq<byte>>): map<string, ExtValue>
  {
    map k | k in raw :: RawExt(raw[k])
  }

  /** parse_ext's result: the raw values, plus `ipn` when subjectDirectoryAttributes is present. */
  function ExtensionMap(exts: seq<Extension>, decodeIpn: seq<byte> -> Option<seq<IpnPart>>)
    : Result<map<string, ExtValue>, Error>
  {
    var raw := RawExtensions(exts);
    if SubjectDirectoryAttributes !in raw then Success(Tagged(raw))
    else
      match decodeIpn(raw[SubjectDirectoryAttributes])
      case None => Failure(DecodeError)
      case Some(parts) => Success(Tagged(raw)[IpnKey := IpnExt(IpnMap(parts))])
  }

  method ParseExt(exts: seq<Extension>, decodeIpn: seq<byte> -> Option<seq<IpnPart>>)
    returns (r: Result<map<string, ExtValue>, Error>)
    ensures r == ExtensionMap(exts, decodeIpn)
  {
    var raw: map<string, seq<byte>> := map[];
    var i := 0;
    while i < |exts|
      invariant 0 <= i <= |exts|
      invariant raw == Collect(ExtEntries(exts)[..i])
    {
      var part := exts[i];
      raw := raw[part.extnID := part.extnValue];
      CollectSnoc(ExtEntries(exts)[..i], ExtEntries(exts)[i]);
      assert ExtEntries(exts)[..i + 1] == ExtEntries(exts)[..i] + [ExtEntries(exts)[i]];
      i := i + 1;
    }
    assert ExtEntries(exts)[..i] == ExtEntries(exts);
    var ret := Tagged(raw);
    if SubjectDirectoryAttributes in raw {
      var ipn := ParseIpn(raw[SubjectDirectoryAttributes], decodeIpn);
      if ipn.Failure? {
        return Failure(ipn.error);
      }
      ret := ret[IpnKey := IpnExt(ipn.value)];
    }
    return Success(ret);
  }

  /** An extension id keeps the value of its LAST occurrence (unless it is the derived `ipn` key). */
  lemma ExtLastWins(exts: seq<Extension>, decodeIpn: seq<byte> -> Option<seq<IpnPart>>, i: nat)
    requires ExtensionMap(exts, decodeIpn).Success?
    requires i < |exts| && exts[i].extnID != IpnKey
    requires forall j :: i < j < |exts| ==> exts[j].extnID != exts[i].extnID
    ensures exts[i].extnID in ExtensionMap(exts, decodeIpn).value
    ensures ExtensionMap(exts, decodeIpn).value[exts[i].extnID] == RawExt(exts[i].extnValue)
  {
    CollectLastWins(ExtEntries(exts), exts[i].extnID, i);
  }

  /**
   * The dictionary holds derived identifiers under `ipn` exactly when a
   * subjectDirectoryAttributes extension exists; they are parse_ipn of the
   * value of the last such extension.
   */
  lemma IpnEntryIff(exts: seq<Extension>, decodeIpn: seq<byte> -> Option<seq<IpnPart>>)
    requires ExtensionMap(exts, decodeIpn).Success?
    ensures ((IpnKey in ExtensionMap(exts, decodeIpn).value
              && ExtensionMap(exts, decodeIpn).value[IpnKey].IpnExt?)
             <==> exists i :: 0 <= i < |exts| && exts[i].extnID == SubjectDirectoryAttributes)
    ensures (forall i :: 0 <= i < |exts| ==> exts[i].extnID != IpnKey) ==>
      (IpnKey in ExtensionMap(exts, decodeIpn).value <==>
       exists i :: 0 <= i < |exts| && exts[i].extnID == SubjectDirectoryAttributes)
  {
    var es := ExtEntries(exts);
    CollectKeys(es, SubjectDirectoryAttributes);
    CollectKeys(es, IpnKey);
    assert forall i :: 0 <= i < |exts| ==> (Sets(es[i], SubjectDirectoryAttributes) <==> exts[i].extnID == SubjectDirectoryAttributes);
    assert forall i :: 0 <= i < |exts| ==> (Sets(es[i], IpnKey) <==> exts[i].extnID == IpnKey);
  }

  lemma IpnFromLastSubjectDirectoryAttributes(exts: seq<Extension>,
                                              decodeIpn: seq<byte> -> Option<seq<IpnPart>>, i: nat)
    requires i < |exts| && exts[i].extnID == SubjectDirectoryAttributes
    requires forall j :: i < j < |exts| ==> exts[j].extnID != SubjectDirectoryAttributes
    ensures decodeIpn(exts[i].extnValue).None? ==> ExtensionMap(exts, decodeIpn) == Failure(DecodeError)
    ensures decodeIpn(exts[i].extnValue).Some? ==>
      && ExtensionMap(exts, decodeIpn).Success?
      && IpnKey in ExtensionMap(exts, decodeIpn).value
      && ExtensionMap(exts, decodeIpn).value[IpnKey] == IpnExt(IpnMap(decodeIpn(exts[i].extnValue).value))
  {
    CollectLastWins(ExtEntries(exts), SubjectDirectoryAttributes, i);
  }

  // ---------------------------------------------------------------------------
  // Distinguished names (sections 4.1.2.4 and 4.1.2.6 of RFC 3280)
  // ---------------------------------------------------------------------------

  datatype AttributeTypeValue = AttributeTypeValue(attrType: string, value: seq<byte>)

  /** A name's value: decoded text, or the raw DER bytes. */
  datatype DnValue = Text(text: string) | RawValue(raw: seq<byte>)

  /**
   * The source's UTF8String test: tag byte 0x0C (universal tag 12 of X.690)
   * followed by a length byte equal to the number of bytes after it.
   */
  predicate LooksUtf8(v: seq<byte>)
  {
    |v| >= 2 && v[0] == 0x0C && v[1] == |v| - 2
  }

  function DnValueOf(v: seq<byte>, utf8: seq<byte> -> string): DnValue
  {
    if LooksUtf8(v) then Text(utf8(v[2..])) else RawValue(v)
  }

  function RowEntries(row: seq<AttributeTypeValue>, utf8: seq<byte> -> string)
    : (es: seq<Option<(string, DnValue)>>)
    ensures |es| == |row|
    ensures forall j :: 0 <= j < |row| ==> es[j] == Some((row[j].attrType, DnValueOf(row[j].value, utf8)))
  {
    seq(|row|, j requires 0 <= j < |row| => Some((row[j].attrType, DnValueOf(row[j].value, utf8))))
  }

  /** The assignments parse_dn performs, outer index first, then inner. */
  function DnEntries(rdns: seq<seq<AttributeTypeValue>>, utf8: seq<byte> -> string)
    : seq<Option<(string, DnValue)>>
  {
    if rdns == [] then []
    else DnEntries(rdns[..|rdns| - 1], utf8) + RowEntries(rdns[|rdns| - 1], utf8)
  }

  function DnMap(rdns: seq<seq<AttributeTypeValue>>, utf8: seq<byte> -> string): map<string, DnValue>
  {
    Collect(DnEntries(rdns, utf8))
  }

  /** parse_dn: the nested i/j loops over the relative distinguished names. */
  method ParseDn(rdns: seq<seq<AttributeTypeValue>>, utf8: seq<byte> -> string)
    returns (ret: map<string, DnValue>)
    ensures ret == DnMap(rdns, utf8)
  {
    ret := map[];
    var i := 0;
    while i < |rdns|
      invariant 0 <= i <= |rdns|
      invariant ret == Collect(DnEntries(rdns[..i], utf8))
    {
      var row := rdns[i];
      var j := 0;
      assert DnEntries(rdns[..i], utf8) + RowEntries(row, utf8)[..0] == DnEntries(rdns[..i], utf8);
      while j < |row|
        invariant 0 <= j <= |row|
        invariant ret == Collect(DnEntries(rdns[..i], utf8) + RowEntries(row, utf8)[..j])
      {
        var part := row[j];
        if LooksUtf8(part.value) {
          ret := ret[part.attrType := Text(utf8(part.value[2..]))];
        } else {
          ret := ret[part.attrType := RawValue(part.value)];
        }
        CollectStep(DnEntries(rdns[..i], utf8), RowEntries(row, utf8), j);
        j := j + 1;
      }
      assert RowEntries(row, utf8)[..j] == RowEntries(row, utf8);
      DnEntriesStep(rdns, i, utf8);
      i := i + 1;
    }
    assert rdns[..i] == rdns;
  }

  lemma DnEntriesStep(rdns: seq<seq<AttributeTypeValue>>, i: nat, utf8: seq<byte> -> string)
    requires i < |rdns|
    ensures DnEntries(rdns[..i + 1], utf8) == DnEntries(rdns[..i], utf8) + RowEntries(rdns[i], utf8)
  {
    assert rdns[..i + 1][..i] == rdns[..i];
  }

  /** Some attribute of the RDN has type `t`. */
  predicate RowHasType(row: seq<AttributeTypeValue>, t: string)
  {
    exists j :: 0 <= j < |row| && row[j].attrType == t
  }

  /** A type is in the dictionary of one RDN exactly when one of its attributes has it. */
  lemma RowKeys(row: seq<AttributeTypeValue>, utf8: seq<byte> -> string, t: string)
    ensures t in Collect(RowEntries(row, utf8)) <==> RowHasType(row, t)
  {
    var es := RowEntries(row, utf8);
    CollectKeys(es, t);
    assert forall j :: 0 <= j < |row| ==> (Sets(es[j], t) <==> row[j].attrType == t);
  }

  /** Some attribute, in some RDN of the name, has type `t`. */
  predicate NameHasType(rdns: seq<seq<AttributeTypeValue>>, t: string)
  {
    exists i, j :: 0 <= i < |rdns| && 0 <= j < |rdns[i]| && rdns[i][j].attrType == t
  }

  /** An attribute of type `t` sits in the leading RDNs or in the last one. */
  lemma NameHasTypeSplit(rdns: seq<seq<AttributeTypeValue>>, t: string)
    requires rdns != []
    ensures NameHasType(rdns, t)
        <==> NameHasType(rdns[..|rdns| - 1], t) || RowHasType(rdns[|rdns| - 1], t)
  {
    var n := |rdns|;
    var init: seq<seq<AttributeTypeValue>> := rdns[..n - 1];
    if exists i, j :: 0 <= i < n && 0 <= j < |rdns[i]| && rdns[i][j].attrType == t {
      var i, j :| 0 <= i < n && 0 <= j < |rdns[i]| && rdns[i][j].attrType == t;
      if i < n - 1 {
        assert init[i][j].attrType == t;
      }
    }
    if exists i, j :: 0 <= i < n - 1 && 0 <= j < |init[i]| && init[i][j].attrType == t {
      var i, j :| 0 <= i < n - 1 && 0 <= j < |init[i]| && init[i][j].attrType == t;
      assert rdns[i][j].attrType == t;
    }
  }

  /** A type is in the name exactly when some attribute, in any RDN, has it. */
  lemma {:induction false} DnKeys(rdns: seq<seq<AttributeTypeValue>>, utf8: seq<byte> -> string, t: string)
    ensures t in DnMap(rdns, utf8) <==>
      exists i, j :: 0 <= i < |rdns| && 0 <= j < |rdns[i]| && rdns[i][j].attrType == t
  {
    if rdns != [] {
      var n := |rdns|;
      var init, last := rdns[..n - 1], rdns[n - 1];
      DnKeys(init, utf8, t);
      CollectAppend(DnEntries(init, utf8), RowEntries(last, utf8));
      RowKeys(last, utf8, t);
      NameHasTypeSplit(rdns, t);
    }
  }

  /**
   * The value stored for a type is that of the attribute with that type which
   * comes LAST in nested order (outer index, then inner index).
   */
  lemma {:induction false} DnLastWins(rdns: seq<seq<AttributeTypeValue>>, utf8: seq<byte> -> string,
                                      i: nat, j: nat)
    requires i < |rdns| && j < |rdns[i]|
    requires forall j2 :: j < j2 < |rdns[i]| ==> rdns[i][j2].attrType != rdns[i][j].attrType
    requires forall i2, j2 :: i < i2 < |rdns| && 0 <= j2 < |rdns[i2]| ==>
      rdns[i2][j2].attrType != rdns[i][j].attrType
    ensures rdns[i][j].attrType in DnMap(rdns, utf8)
    ensures DnMap(rdns, utf8)[rdns[i][j].attrType] == DnValueOf(rdns[i][j].value, utf8)
  {
    var n := |rdns|;
    var t := rdns[i][j].attrType;
    var init, last := rdns[..n - 1], rdns[n - 1];
    var row := RowEntries(last, utf8);
    CollectAppend(DnEntries(init, utf8), row);
    if i == n - 1 {
      CollectLastWins(row, t, j);
    } else {
      CollectKeys(row, t);
      assert forall j2 :: 0 <= j2 < |last| ==> !Sets(row[j2], t);
      DnLastWins(init, utf8, i, j);
    }
  }

  /**
   * The heuristic misreads a 128-byte UTF8String in long form (0C 81 80 ...):
   * the length byte 0x81 equals the remaining length, so the value is decoded
   * as text that starts with the stray length byte 0x80.
   */
  lemma LongFormUtf8Misread(content: seq<byte>, utf8: seq<byte> -> string)
    requires |content| == 128
    ensures DnValueOf([0x0C, 0x81, 0x80] + content, utf8) == Text(utf8([0x80] + content))
  {
    var v := [0x0C, 0x81, 0x80] + content;
    assert v[2..] == [0x80] + content;
  }

  /** A short-form UTF8String is always decoded as text of its content bytes. */
  lemma ShortUtf8Decoded(content: seq<byte>, utf8: seq<byte> -> string)
    requires |content| < 128
    ensures DnValueOf([0x0C, |content|] + content, utf8) == Text(utf8(content))
  {
    var v := [0x0C, |content|] + content;
    assert v[2..] == content;
  }

  // ---------------------------------------------------------------------------
  // The certificate
  // ---------------------------------------------------------------------------

  /** The tbsCertificate fields the model reads. */
  datatype Tbs = Tbs(
    subjectPublicKey: seq<byte>,
    notBefore: int,
    notAfter: int,
    extensions: seq<Extension>,
    issuer: seq<seq<AttributeTypeValue>>,
    subject: seq<seq<AttributeTypeValue>>)

  datatype CertFields = CertFields(tbsCertificate: Tbs)

  /** The collaborators Certificate.js calls. */
  datatype Codec = Codec(
    decode: seq<byte> -> Option<CertFields>,          // rfc3280.Certificate.decode
    encode: CertFields -> seq<byte>,                  // rfc3280.Certificate.encode
    decodeIpn: seq<byte> -> Option<seq<IpnPart>>,     // IPN.decode
    utf8: seq<byte> -> string,                        // util.strFromUtf8
    pubkeyValue: seq<byte> -> nat)                    // new Big(util.add_zero(pub, true))

  datatype Validity = Validity(from: int, to: int)

  /** The object literal `setup` returns (without its to_asn1 method). */
  datatype Setup = Setup(
    format: string,
    pubkey: nat,
    valid: Validity,
    extension: map<string, ExtValue>,
    issuer: map<string, DnValue>,
    subject: map<string, DnValue>)

  /** `data.slice(2)`: the key bytes after the two leading encoding bytes. */
  function PublicKeyBytes(spk: seq<byte>): (pub: seq<byte>)
    ensures |spk| >= 2 ==> |pub| == |spk| - 2 && spk == spk[..2] + pub
    ensures |spk| < 2 ==> pub == []
  {
    if |spk| >= 2 then spk[2..] else []
  }

  /**
   * The object `setup` builds: format x509, the public key from the trimmed
   * key bytes, the validity copied, the extension and name dictionaries;
   * it fails exactly when parse_ext does.
   */
  function SetupValue(cert: CertFields, codec: Codec): (r: Result<Setup, Error>)
    ensures r.Failure? <==> ExtensionMap(cert.tbsCertificate.extensions, codec.decodeIpn).Failure?
    ensures r.Success? ==>
      var tbs := cert.tbsCertificate;
      && r.value.format == "x509"
      && r.value.pubkey == codec.pubkeyValue(PublicKeyBytes(tbs.subjectPublicKey))
      && r.value.valid == Validity(tbs.notBefore, tbs.notAfter)
      && r.value.extension == ExtensionMap(tbs.extensions, codec.decodeIpn).value
      && r.value.issuer == DnMap(tbs.issuer, codec.utf8)
      && r.value.subject == DnMap(tbs.subject, codec.utf8)
  {
    var tbs := cert.tbsCertificate;
    match ExtensionMap(tbs.extensions, codec.decodeIpn)
    case Failure(e) => Failure(e)
    case Success(extension) =>
      Success(Setup("x509", codec.pubkeyValue(PublicKeyBytes(tbs.subjectPublicKey)),
                    Validity(tbs.notBefore, tbs.notAfter), extension,
                    DnMap(tbs.issuer, codec.utf8), DnMap(tbs.subject, codec.utf8)))
  }

  /** setup, running the parse_ext and parse_dn loops. */
  method SetupOf(cert: CertFields, codec: Codec) returns (r: Result<Setup, Error>)
    ensures r == SetupValue(cert, codec)
  {
    var tbs := cert.tbsCertificate;
    var pub := PublicKeyBytes(tbs.subjectPublicKey);
    var extension := ParseExt(tbs.extensions, codec.decodeIpn);
    if extension.Failure? {
      return Failure(extension.error);
    }
    var issuer := ParseDn(tbs.issuer, codec.utf8);
    var subject := ParseDn(tbs.subject, codec.utf8);
    r := Success(Setup("x509", codec.pubkeyValue(pub), Validity(tbs.notBefore, tbs.notAfter),
                       extension.value, issuer, subject));
  }

  /** The decoded certificate `cert`; from_asn1 sets its `_raw`. */
  class DecodedCertificate {
    const fields: CertFields
    var raw: Option<seq<byte>>

    constructor (fields: CertFields, raw: Option<seq<byte>>)
      ensures this.fields == fields && this.raw == raw
    {
      this.fields := fields;
      this.raw := raw;
    }
  }

  class Certificate {
    const setup: Setup
    /** The decoded structure to_asn1 re-encodes when there is no cache. */
    const source: CertFields
    var raw: Option<seq<byte>>

    /** The constructor's tail: `ob._raw = cert._raw; delete cert._raw`. */
    constructor (cert: DecodedCertificate, setup: Setup)
      modifies cert
      ensures this.setup == setup && source == cert.fields
      ensures raw == old(cert.raw) && cert.raw == None
    {
      this.setup := setup;
      source := cert.fields;
      raw := cert.raw;
      new;
      cert.raw := None;
    }

    /** to_asn1: the cached bytes verbatim, else a fresh DER encoding of the source. */
    function ToAsn1(encode: CertFields -> seq<byte>): (der: seq<byte>)
      reads this
      ensures raw.Some? ==> der == raw.value
      ensures raw.None? ==> der == encode(source)
    {
      if raw.Some? then raw.value else encode(source)
    }
  }

  /** `new Certificate(cert)`: setup first; only when it succeeds is `_raw` moved. */
  method NewCertificate(cert: DecodedCertificate, codec: Codec) returns (r: Result<Certificate, Error>)
    modifies cert
    ensures r.Failure? ==> cert.raw == old(cert.raw)
    ensures r.Failure? <==> SetupValue(cert.fields, codec).Failure?
    ensures r.Failure? ==> r == Failure(SetupValue(cert.fields, codec).error)
    ensures r.Success? ==> fresh(r.value) && r.value.source == cert.fields
    ensures r.Success? ==> r.value.setup == SetupValue(cert.fields, codec).value
    ensures r.Success? ==> r.value.raw == old(cert.raw) && cert.raw == None
  {
    var setup := SetupOf(cert.fields, codec);
    if setup.Failure? {
      return Failure(setup.error);
    }
    var c := new Certificate(cert, setup.value);
    r := Success(c);
  }

  /**
   * from_asn1: decode, remember the input as `_raw`, build the certificate.
   * Re-encoding the result gives back exactly the input bytes.
   */
  method FromAsn1(data: seq<byte>, codec: Codec) returns (r: Result<Certificate, Error>)
    ensures codec.decode(data).None? ==> r == Failure(DecodeError)
    ensures codec.decode(data).Some? ==>
      (r.Success? <==> ExtensionMap(codec.decode(data).value.tbsCertificate.extensions, codec.decodeIpn).Success?)
    ensures codec.decode(data).Some? && r.Failure? ==>
      r == Failure(SetupValue(codec.decode(data).value, codec).error)
    ensures r.Success? ==>
      && codec.decode(data).Some?
      && r.value.source == codec.decode(data).value
      && r.value.setup == SetupValue(codec.decode(data).value, codec).value
    ensures r.Success? ==> r.value.raw == Some(data) && r.value.ToAsn1(codec.encode) == data
  {
    var decoded := codec.decode(data);
    if decoded.None? {
      return Failure(DecodeError);
    }
    var cert := new DecodedCertificate(decoded.value, Some(data));
    r := NewCertificate(cert, codec);
  }
}
