/**
 * The DSTU 4145-2002 private-key engine of lib/models/Priv.js: rebuilding curve
 * parameters and keys from the two key-store layouts, the signing retry loop,
 * the Diffie-Hellman shared secret and the key-wrapping KDF input.
 *
 * The curve arithmetic of lib/curve.js, the ASN.1 codecs and util.BIG_INVERT
 * are outside this model; they enter as function-typed parameters.
 */
module Priv {
  import opened Wrappers
  import opened Bytes
  import opened Assoc

  datatype Error =
    | DecodeError          // the ASN.1 decoder rejected its input
    | MalformedAttribute   // an attribute the code dereferences does not have the expected shape
    | UnknownFormat        // detect_format: "Unknown privkey format"

  // ---------------------------------------------------------------------------
  // Curve parameters
  // ---------------------------------------------------------------------------

  datatype BasisValue = Trinomial(k: nat) | Pentanomial(k1: nat, k2: nat, k3: nat)

  /** The decoded basis CHOICE: its label and its value. */
  datatype BasisChoice = BasisChoice(kind: string, value: BasisValue)

  /** The decoder labels a single exponent "trinominal" and nothing else. */
  type Basis = b: BasisChoice | b.kind == "trinominal" <==> b.value.Trinomial?
    witness BasisChoice("trinominal", Trinomial(0))

  /** ks_parse: the reduction-polynomial exponents. No label is rejected. */
  function KsParse(ks: Basis): (exps: seq<nat>)
    ensures |exps| == 1 <==> ks.kind == "trinominal"
    ensures ks.kind == "trinominal" ==> exps == [ks.value.k]
    ensures ks.kind != "trinominal" ==> exps == [ks.value.k1, ks.value.k2, ks.value.k3]
  {
    if ks.kind == "trinominal" then [ks.value.k]
    else [ks.value.k1, ks.value.k2, ks.value.k3]
  }

  /** A DSTU 4145 curve block as the key-store decoder yields it; integers are raw bytes. */
  datatype CurveBlock = CurveBlock(
    paramM: nat,
    ks: Basis,
    paramA: byte,
    paramB: seq<byte>,
    order: seq<byte>,
    bp: seq<byte>)

  /** The parameter object given to `new jk.Curve(...)`. */
  datatype Curve = Curve(
    m: nat,
    ks: seq<nat>,
    a: nat,
    b: nat,
    order: nat,
    base: nat,
    kofactor: Option<nat>)

  /** The curve of the attribute-embedded key: every integer read big-endian. */
  function CurveFromAttribute(blk: CurveBlock): (c: Curve)
  {
    Curve(blk.paramM, KsParse(blk.ks), BigBE([blk.paramA]), BigBE(blk.paramB),
          BigBE(blk.order), BigBE(blk.bp), None)
  }

  /** The curve of the primary key: a, b and the base point little-endian, the order big-endian. */
  function CurveFromPrimary(blk: CurveBlock): (c: Curve)
  {
    Curve(blk.paramM, KsParse(blk.ks), BigLE([blk.paramA]), BigLE(blk.paramB),
          BigBE(blk.order), BigLE(blk.bp), None)
  }

  /**
   * The two layouts differ only in byte order: a primary block denotes the same
   * curve as the attribute block holding `b` and the base point reversed, and
   * the same order bytes.
   */
  lemma EndiannessFidelity(blk: CurveBlock)
    ensures CurveFromPrimary(blk)
         == CurveFromAttribute(blk.(paramB := Reverse(blk.paramB), bp := Reverse(blk.bp)))
  {
    OneByteEitherOrder(blk.paramA);
    LittleIsReversedBig(blk.paramB);
    LittleIsReversedBig(blk.bp);
  }

  // ---------------------------------------------------------------------------
  // Keys
  // ---------------------------------------------------------------------------

  /** The object `curve.pkey(d, 'bignum')` returns: a scalar bound to its curve. */
  datatype PrivKey = PrivKey(curve: Curve, d: nat)

  /** One value of an attribute, as the key-store decoder types it by the attribute's id. */
  datatype AttrValue =
    | KeyBits(data: seq<byte>)      // DSTU_4145_KEY_BITS: a BIT STRING
    | CurveParams(dstu: CurveBlock) // DSTU_4145_CURVE
    | OtherValue(raw: seq<byte>)

  /** An element of an attribute's SET OF values: `{value: ...}`. */
  datatype AttrItem = AttrItem(value: AttrValue)

  datatype Attribute = Attribute(id: Option<string>, value: seq<AttrItem>)

  const KeyBitsId := "DSTU_4145_KEY_BITS"
  const CurveId := "DSTU_4145_CURVE"

  /** `aob.value[0]` throws on an attribute that has an id and no value. */
  predicate AttrMalformed(a: Attribute)
  {
    a.id.Some? && |a.value| == 0
  }

  /** The assignment one iteration of attr_parse's loop performs, if any. */
  function AttrEntry(a: Attribute): Option<(string, AttrValue)>
  {
    if a.id.None? || |a.value| == 0 then None else Some((a.id.value, a.value[0].value))
  }

  function AttrEntries(attrs: seq<Attribute>): (es: seq<Option<(string, AttrValue)>>)
    ensures |es| == |attrs|
    ensures forall i :: 0 <= i < |attrs| ==> es[i] == AttrEntry(attrs[i])
  {
    seq(|attrs|, i requires 0 <= i < |attrs| => AttrEntry(attrs[i]))
  }

  /** The `ahash` dictionary attr_parse builds, or the error its loop throws. */
  function AttrMap(attrs: seq<Attribute>): Result<map<string, AttrValue>, Error>
  {
    if exists i :: 0 <= i < |attrs| && AttrMalformed(attrs[i]) then Failure(MalformedAttribute)
    else Success(Collect(AttrEntries(attrs)))
  }

  /** attr_parse's for-loop over the attribute list. */
  method AttrHash(attrs: seq<Attribute>) returns (r: Result<map<string, AttrValue>, Error>)
    ensures r == AttrMap(attrs)
  {
    var ahash: map<string, AttrValue> := map[];
    var i := 0;
    while i < |attrs|
      invariant 0 <= i <= |attrs|
      invariant forall j :: 0 <= j < i ==> !AttrMalformed(attrs[j])
      invariant ahash == Collect(AttrEntries(attrs)[..i])
    {
      var aob := attrs[i];
      if aob.id.Some? {
        if |aob.value| == 0 {
          return Failure(MalformedAttribute);
        }
        ahash := ahash[aob.id.value := aob.value[0].value];
      }
      CollectSnoc(AttrEntries(attrs)[..i], AttrEntry(aob));
      assert AttrEntries(attrs)[..i + 1] == AttrEntries(attrs)[..i] + [AttrEntry(aob)];
      i := i + 1;
    }
    assert AttrEntries(attrs)[..i] == AttrEntries(attrs);
    return Success(ahash);
  }

  /**
   * The second half of attr_parse: no key unless both DSTU_4145_KEY_BITS and
   * DSTU_4145_CURVE are present; otherwise the curve read big-endian and the
   * scalar `invert(bits)` (util.BIG_INVERT, whose meaning is not modelled).
   */
  function KeyFromAttributes(ahash: map<string, AttrValue>, invert: seq<byte> -> nat)
    : Result<Option<PrivKey>, Error>
  {
    if KeyBitsId !in ahash then Success(None)
    else if CurveId !in ahash then Success(None)
    else
      match (ahash[KeyBitsId], ahash[CurveId])
      case (KeyBits(bits), CurveParams(dstu)) =>
        Success(Some(PrivKey(CurveFromAttribute(dstu), invert(bits))))
      case _ => Failure(MalformedAttribute)
  }

  /** What attr_parse returns for an attribute list. */
  function AttrKey(attrs: seq<Attribute>, invert: seq<byte> -> nat): Result<Option<PrivKey>, Error>
  {
    match AttrMap(attrs)
    case Failure(e) => Failure(e)
    case Success(ahash) => KeyFromAttributes(ahash, invert)
  }

  method AttrParse(attrs: seq<Attribute>, invert: seq<byte> -> nat) returns (r: Result<Option<PrivKey>, Error>)
    ensures r == AttrKey(attrs, invert)
  {
    var ahash := AttrHash(attrs);
    if ahash.Failure? {
      return Failure(ahash.error);
    }
    r := KeyFromAttributes(ahash.value, invert);
  }

  /** An id is in attr_parse's dictionary exactly when some attribute carries it. */
  lemma AttrMapKeys(attrs: seq<Attribute>, id: string)
    requires AttrMap(attrs).Success?
    ensures id in AttrMap(attrs).value <==> exists i :: 0 <= i < |attrs| && attrs[i].id == Some(id)
  {
    var es := AttrEntries(attrs);
    CollectKeys(es, id);
    assert forall i :: 0 <= i < |attrs| ==> (Sets(es[i], id) <==> attrs[i].id == Some(id));
  }

  /** The value under an id is the first value of the LAST attribute with that id. */
  lemma AttrMapLastWins(attrs: seq<Attribute>, id: string, i: nat)
    requires AttrMap(attrs).Success?
    requires i < |attrs| && attrs[i].id == Some(id)
    requires forall j :: i < j < |attrs| ==> attrs[j].id != Some(id)
    ensures |attrs[i].value| > 0
    ensures id in AttrMap(attrs).value && AttrMap(attrs).value[id] == attrs[i].value[0].value
  {
    var es := AttrEntries(attrs);
    assert !AttrMalformed(attrs[i]);
    CollectLastWins(es, id, i);
  }

  /** A list lacking either attribute yields no second key, and no error. */
  lemma NoSecondKeyWithoutAttributes(attrs: seq<Attribute>, invert: seq<byte> -> nat)
    requires AttrMap(attrs).Success?
    requires (forall i :: 0 <= i < |attrs| ==> attrs[i].id != Some(KeyBitsId))
          || (forall i :: 0 <= i < |attrs| ==> attrs[i].id != Some(CurveId))
    ensures AttrKey(attrs, invert) == Success(None)
  {
    AttrMapKeys(attrs, KeyBitsId);
    AttrMapKeys(attrs, CurveId);
  }

  /**
   * When the last DSTU_4145_KEY_BITS attribute holds bits `bits` and the last
   * DSTU_4145_CURVE attribute holds curve block `dstu`, the second key is
   * `invert(bits)` on the big-endian reading of `dstu`.
   */
  lemma SecondKeyFromLastAttributes(attrs: seq<Attribute>, invert: seq<byte> -> nat,
                                    i: nat, j: nat, bits: seq<byte>, dstu: CurveBlock)
    requires AttrMap(attrs).Success?
    requires i < |attrs| && attrs[i].id == Some(KeyBitsId)
    requires forall k :: i < k < |attrs| ==> attrs[k].id != Some(KeyBitsId)
    requires j < |attrs| && attrs[j].id == Some(CurveId)
    requires forall k :: j < k < |attrs| ==> attrs[k].id != Some(CurveId)
    requires |attrs[i].value| > 0 && attrs[i].value[0].value == KeyBits(bits)
    requires |attrs[j].value| > 0 && attrs[j].value[0].value == CurveParams(dstu)
    ensures AttrKey(attrs, invert) == Success(Some(PrivKey(CurveFromAttribute(dstu), invert(bits))))
  {
    AttrMapLastWins(attrs, KeyBitsId, i);
    AttrMapLastWins(attrs, CurveId, j);
  }

  /** The decoded private-key structure (DstuPrivkey): attributes, primary curve, scalar bytes. */
  datatype PrivkeyFields = PrivkeyFields(attr: seq<Attribute>, priv0: CurveBlock, paramD: seq<byte>)

  datatype KeySet = KeySet(keys: seq<PrivKey>, format: string)

  /** from_asn1: the primary key first, then the attribute key when there is one. */
  method FromAsn1(data: seq<byte>, decode: seq<byte> -> Option<PrivkeyFields>, invert: seq<byte> -> nat)
    returns (r: Result<KeySet, Error>)
    ensures decode(data).None? ==> r == Failure(DecodeError)
    ensures decode(data).Some? ==> (r.Failure? <==> AttrKey(decode(data).value.attr, invert).Failure?)
    ensures decode(data).Some? && AttrKey(decode(data).value.attr, invert).Failure? ==>
      r == Failure(AttrKey(decode(data).value.attr, invert).error)
    ensures r.Success? ==> decode(data).Some?
    ensures r.Success? ==>
      var f := decode(data).value;
      && r.value.format == "privkeys"
      && 1 <= |r.value.keys| <= 2
      && r.value.keys[0] == PrivKey(CurveFromPrimary(f.priv0), BigLE(f.paramD))
      && (|r.value.keys| == 2 <==> AttrKey(f.attr, invert).value.Some?)
      && (|r.value.keys| == 2 ==> AttrKey(f.attr, invert) == Success(Some(r.value.keys[1])))
  {
    var decoded := decode(data);
    if decoded.None? {
      return Failure(DecodeError);
    }
    var priv := decoded.value;
    var key1 := AttrParse(priv.attr, invert);
    if key1.Failure? {
      return Failure(key1.error);
    }
    var curve := CurveFromPrimary(priv.priv0);
    var key0 := PrivKey(curve, BigLE(priv.paramD));
    var keys := if key1.value.Some? then [key0, key1.value.value] else [key0];
    r := Success(KeySet(keys, "privkeys"));
  }

  /** detect_format: only input util.is_hex accepts is recognised, as "hex". */
  function DetectFormat(inp: string, isHex: string -> bool): (r: Result<string, Error>)
    ensures r.Success? <==> isHex(inp)
    ensures r.Success? ==> r.value == "hex"
    ensures r.Failure? ==> r.error == UnknownFormat
  {
    if isHex(inp) then Success("hex") else Failure(UnknownFormat)
  }

  // ---------------------------------------------------------------------------
  // Curve arithmetic (lib/curve.js, not part of this model)
  // ---------------------------------------------------------------------------

  datatype Point = Point(x: nat, y: nat)

  /** What p_curve.point accepts: an `{x, y}` pair or the compressed integer. */
  datatype PointSource = Coordinates(x: nat, y: nat) | Compressed(value: nat)

  /**
   * The operations of a jk.Curve that Priv.js calls. A jk.Curve is built from
   * its parameters, so the operations are a function of `Curve`: callers pass
   * `arith` and every operation is taken on the key's own curve.
   */
  datatype CurveOps = CurveOps(
    base: Point,                        // p_curve.base
    mul: (Point, nat) -> Point,         // point.mul(k)
    negate: Point -> Point,             // point.negate()
    fieldMul: (nat, nat) -> nat,        // new jk.Field(modulus, h, true).mul(x)
    truncate: nat -> nat,               // p_curve.truncate
    decodePoint: PointSource -> Point)  // p_curve.point(...)

  // ---------------------------------------------------------------------------
  // Signing
  // ---------------------------------------------------------------------------

  datatype SignPair = SignPair(s: nat, r: nat)

  datatype Signature = Signature(s: nat, r: nat, hash: nat)

  /**
   * help_sign: rejects the draw `randE` when x(e·G) is zero or the truncated
   * r is zero; otherwise r is nonzero and s is d·r + e reduced modulo the order.
   * s = 0 is not rejected.
   */
  function HelpSign(key: PrivKey, arith: Curve -> CurveOps, hashV: nat, randE: nat): (sig: Option<SignPair>)
    requires key.curve.order > 0
    ensures var ops := arith(key.curve); var x := ops.mul(ops.base, randE).x;
      sig.None? <==> x == 0 || ops.truncate(ops.fieldMul(hashV, x)) == 0
    ensures sig.Some? ==>
      var ops := arith(key.curve);
      && sig.value.r == ops.truncate(ops.fieldMul(hashV, ops.mul(ops.base, randE).x))
      && sig.value.r != 0
      && sig.value.s < key.curve.order
      && sig.value.s == (key.d * sig.value.r + randE) % key.curve.order
  {
    var ops := arith(key.curve);
    var x := ops.mul(ops.base, randE).x;
    if x == 0 then None
    else
      var r := ops.truncate(ops.fieldMul(hashV, x));
      if r == 0 then None
      else
        var s := ((key.d * r) % key.curve.order + randE) % key.curve.order;
        ModOfSum(key.d * r, randE, key.curve.order);
        Some(SignPair(s, r))
  }

  /** Reducing one summand first does not change the residue of a sum. */
  lemma ModOfSum(a: nat, b: nat, n: nat)
    requires n > 0
    ensures (a % n + b) % n == (a + b) % n
  {
    var t := a % n + b;
    assert a == (a / n) * n + a % n;
    assert t == (t / n) * n + t % n;
    assert a + b == (a / n + t / n) * n + t % n;
    ModUnique(a + b, n, a / n + t / n, t % n);
  }

  /** Euclidean division has one quotient and one remainder. */
  lemma ModUnique(x: int, n: int, k: int, r: int)
    requires n > 0 && 0 <= r < n && x == k * n + r
    ensures x % n == r
  {
    var q, m := x / n, x % n;
    assert x == q * n + m;
    assert (k - q) * n == m - r;
    SmallMultiple(k - q, n);
  }

  lemma SmallMultiple(d: int, n: int)
    requires n > 0 && -n < d * n < n
    ensures d == 0
  {
  }

  /**
   * sign: draws ephemeral scalars (the stream `draws` stands for successive
   * p_curve.rand() results) until help_sign accepts one. The result is the
   * first accepted draw's pair with the little-endian hash; None only when the
   * stream runs out, which the source's unbounded loop never does.
   */
  method Sign(key: PrivKey, arith: Curve -> CurveOps, hashBuf: seq<byte>, draws: seq<nat>)
    returns (sig: Option<Signature>)
    requires key.curve.order > 0
    ensures sig.None? <==> forall i :: 0 <= i < |draws| ==> HelpSign(key, arith, BigLE(hashBuf), draws[i]).None?
    ensures sig.Some? ==>
      (exists i :: 0 <= i < |draws|
        && (forall j :: 0 <= j < i ==> HelpSign(key, arith, BigLE(hashBuf), draws[j]).None?)
        && HelpSign(key, arith, BigLE(hashBuf), draws[i]) == Some(SignPair(sig.value.s, sig.value.r)))
    ensures sig.Some? ==>
      sig.value.hash == BigLE(hashBuf) && sig.value.r != 0 && sig.value.s < key.curve.order
  {
    var hashV := BigLE(hashBuf);
    var i := 0;
    while i < |draws|
      invariant 0 <= i <= |draws|
      invariant forall j :: 0 <= j < i ==> HelpSign(key, arith, hashV, draws[j]).None?
    {
      var randE := draws[i];
      var ret := HelpSign(key, arith, hashV, randE);
      if ret.Some? {
        return Some(Signature(ret.value.s, ret.value.r, hashV));
      }
      i := i + 1;
    }
    return None;
  }

  // ---------------------------------------------------------------------------
  // Public key and key agreement
  // ---------------------------------------------------------------------------

  datatype Pub = Pub(curve: Curve, point: Point)

  /** pub: the point -(d·G) on the key's own curve. */
  function PubKey(key: PrivKey, arith: Curve -> CurveOps): (p: Pub)
    ensures p.curve == key.curve
    ensures var ops := arith(key.curve); p.point == ops.negate(ops.mul(ops.base, key.d))
  {
    var ops := arith(key.curve);
    Pub(key.curve, ops.negate(ops.mul(ops.base, key.d)))
  }

  /** The peer key `derive` accepts: a Pub object, or anything p_curve.point decodes. */
  datatype PeerKey = PubPeer(pub: Pub) | EncodedPeer(encoded: PointSource)

  function PeerPoint(ops: CurveOps, peer: PeerKey): (q: Point)
    ensures peer.PubPeer? ==> q == peer.pub.point
    ensures peer.EncodedPeer? ==> q == ops.decodePoint(peer.encoded)
  {
    match peer
    case PubPeer(pub) => pub.point
    case EncodedPeer(v) => ops.decodePoint(v)
  }

  /** The cofactor `derive` multiplies by: the curve's own, else 4. */
  function Cofactor(c: Curve): (ko: nat)
    ensures c.kofactor.None? ==> ko == 4
    ensures c.kofactor.Some? ==> ko == c.kofactor.value
  {
    if c.kofactor.Some? then c.kofactor.value else 4
  }

  /** The x-coordinate of the shared point Q·(d·cofactor). */
  function SharedX(key: PrivKey, arith: Curve -> CurveOps, peer: PeerKey): nat
  {
    var ops := arith(key.curve);
    ops.mul(PeerPoint(ops, peer), key.d * Cofactor(key.curve)).x
  }

  /**
   * derive: the shared x-coordinate as the bytes of its even-length hex form:
   * ceil(n/2) bytes for n hex digits, big-endian value x, no leading zero byte.
   */
  function Derive(key: PrivKey, arith: Curve -> CurveOps, peer: PeerKey): (zz: seq<byte>)
    ensures BigBE(zz) == SharedX(key, arith, peer)
    ensures |zz| == (|HexDigits(SharedX(key, arith, peer))| + 1) / 2
    ensures zz[0] == 0 <==> SharedX(key, arith, peer) == 0
  {
    EncodeX(SharedX(key, arith, peer))
  }

  // ---------------------------------------------------------------------------
  // Key-wrapping KDF input
  // ---------------------------------------------------------------------------

  datatype AlgorithmIdentifier = AlgorithmIdentifier(algorithm: string, parameters: Option<seq<byte>>)

  /** ECC-CMS-SharedInfo, section 8.2 of RFC 3278. */
  datatype SharedInfo = SharedInfo(keyInfo: AlgorithmIdentifier, entityInfo: Option<seq<byte>>, suppPubInfo: seq<byte>)

  const SuppPubInfo: seq<byte> := [0, 0, 1, 0]

  /**
   * gost_salt's record: GOST 28147 CFB key wrap with null parameters, the UKM
   * verbatim (absent when none is given) and suppPubInfo 00 00 01 00.
   */
  function GostSalt(ukm: Option<seq<byte>>): (info: SharedInfo)
    ensures info.keyInfo == AlgorithmIdentifier("Gost28147-cfb-wrap", None)
    ensures info.entityInfo == ukm
    ensures info.suppPubInfo == SuppPubInfo
  {
    SharedInfo(AlgorithmIdentifier("Gost28147-cfb-wrap", None), ukm, SuppPubInfo)
  }

  /** suppPubInfo is the 32-bit big-endian key length in bits that RFC 3278 asks for: 256. */
  lemma SuppPubInfoIsKeyLength()
    ensures |SuppPubInfo| == 4 && BigBE(SuppPubInfo) == 256
  {
    assert BigBE([0]) == 0 by { assert [0][..0] == []; }
    assert BigBE([0, 0]) == 0 by { assert [0, 0][..1] == [0]; }
    assert BigBE([0, 0, 1]) == 1 by { assert [0, 0, 1][..2] == [0, 0]; }
    assert SuppPubInfo[..3] == [0, 0, 1];
  }

  const Counter: seq<byte> := [0, 0, 0, 1]

  /** Buffer.copy: `src` lands at `offset`, every other byte keeps its value. */
  method CopyInto(src: seq<byte>, dst: array<byte>, offset: nat)
    requires offset + |src| <= dst.Length
    modifies dst
    ensures dst[offset..offset + |src|] == src
    ensures forall k :: 0 <= k < dst.Length && !(offset <= k < offset + |src|) ==> dst[k] == old(dst[k])
  {
    var i := 0;
    while i < |src|
      invariant 0 <= i <= |src|
      invariant forall k :: 0 <= k < i ==> dst[offset + k] == src[k]
      invariant forall k :: 0 <= k < dst.Length && !(offset <= k < offset + i) ==> dst[k] == old(dst[k])
    {
      dst[offset + i] := src[i];
      i := i + 1;
    }
  }

  /** sharedKey's kek_input: Z, then the counter 00 00 00 01, then the salt. */
  method KekInput(zz: seq<byte>, salt: seq<byte>) returns (kek: seq<byte>)
    ensures |kek| == |zz| + 4 + |salt|
    ensures kek[..|zz|] == zz
    ensures kek[|zz|..|zz| + 4] == Counter
    ensures kek[|zz| + 4..] == salt
  {
    var buf := new byte[|zz| + |Counter| + |salt|];
    CopyInto(zz, buf, 0);
    CopyInto(Counter, buf, |zz|);
    CopyInto(salt, buf, |zz| + |Counter|);
    kek := buf[..];
  }

  /** sharedKey: the caller's KDF applied to Z || 00 00 00 01 || DER(SharedInfo). */
  method SharedKey(key: PrivKey, arith: Curve -> CurveOps, peer: PeerKey, ukm: Option<seq<byte>>,
                   kdf: seq<byte> -> seq<byte>, der: SharedInfo -> seq<byte>)
    returns (out: seq<byte>)
    ensures out == kdf(Derive(key, arith, peer) + Counter + der(GostSalt(ukm)))
  {
    var zz := Derive(key, arith, peer);
    var salt := der(GostSalt(ukm));
    var kek := KekInput(zz, salt);
    assert kek == zz + Counter + salt;
    out := kdf(kek);
  }
}
