/**
 * Byte strings and the integers they denote: the byte-order readers BIG_BE and
 * BIG_LE of util.js, and the hexadecimal round trip `derive` performs
 * (BigInteger.toString(16), padding to an even length, new Buffer(str, 'hex')).
 */
module Bytes {

  type byte = x: int | 0 <= x < 256

  type nibble = x: int | 0 <= x < 16

  /** Value of `bs` read big-endian (util.BIG_BE): the last byte is least significant. */
  function BigBE(bs: seq<byte>): nat
  {
    if bs == [] then 0 else BigBE(bs[..|bs| - 1]) * 256 + bs[|bs| - 1]
  }

  /** Value of `bs` read little-endian (util.BIG_LE): the first byte is least significant. */
  function BigLE(bs: seq<byte>): nat
  {
    if bs == [] then 0 else bs[0] + 256 * BigLE(bs[1..])
  }

  function Reverse<T>(s: seq<T>): (r: seq<T>)
    ensures |r| == |s|
    ensures forall i :: 0 <= i < |s| ==> r[i] == s[|s| - 1 - i]
  {
    if s == [] then [] else Reverse(s[1..]) + [s[0]]
  }

  /** Reading little-endian is reading the reversed bytes big-endian. */
  lemma {:induction false} LittleIsReversedBig(bs: seq<byte>)
    ensures BigLE(bs) == BigBE(Reverse(bs))
  {
    if bs != [] {
      LittleIsReversedBig(bs[1..]);
      var r := Reverse(bs);
      assert r[..|r| - 1] == Reverse(bs[1..]);
    }
  }

  /** A single byte has the same value in either byte order. */
  lemma OneByteEitherOrder(b: byte)
    ensures BigLE([b]) == BigBE([b]) == b
  {
    assert [b][1..] == [];
    assert [b][..0] == [];
  }

  /**
   * The hexadecimal digits of `x`, most significant first and without leading
   * zeros, as BigInteger.toString(16) writes them ("0" for zero).
   */
  function HexDigits(x: nat): (ds: seq<nibble>)
    ensures |ds| >= 1
    ensures ds == [0] <==> x == 0
    ensures x > 0 ==> ds[0] != 0
    decreases x
  {
    if x < 16 then [x] else HexDigits(x / 16) + [x % 16]
  }

  /** Value of a digit string read as a base-16 numeral. */
  function HexValue(ds: seq<nibble>): nat
  {
    if ds == [] then 0 else HexValue(ds[..|ds| - 1]) * 16 + ds[|ds| - 1]
  }

  lemma {:induction false} HexDigitsValue(x: nat)
    ensures HexValue(HexDigits(x)) == x
    decreases x
  {
    if x >= 16 {
      HexDigitsValue(x / 16);
      var ds := HexDigits(x);
      assert ds[..|ds| - 1] == HexDigits(x / 16);
    }
  }

  /** `derive`: one leading '0' is added exactly when the digit string has odd length. */
  function EvenHex(ds: seq<nibble>): (r: seq<nibble>)
  {
    if |ds| % 2 == 1 then [0] + ds else ds
  }

  lemma {:induction false} LeadingZeroDigit(ds: seq<nibble>)
    ensures HexValue([0] + ds) == HexValue(ds)
  {
    if ds != [] {
      LeadingZeroDigit(ds[..|ds| - 1]);
      assert ([0] + ds)[..|ds|] == [0] + ds[..|ds| - 1];
    }
  }

  /** new Buffer(str, 'hex') on an even-length digit string: each digit pair becomes one byte. */
  function HexBytes(ds: seq<nibble>): (bs: seq<byte>)
    requires |ds| % 2 == 0
    ensures |bs| == |ds| / 2
  {
    if ds == [] then [] else HexBytes(ds[..|ds| - 2]) + [ds[|ds| - 2] as int * 16 + ds[|ds| - 1]]
  }

  lemma {:induction false} HexBytesValue(ds: seq<nibble>)
    requires |ds| % 2 == 0
    ensures BigBE(HexBytes(ds)) == HexValue(ds)
  {
    if ds != [] {
      var n := |ds|;
      var init := ds[..n - 2];
      HexBytesValue(init);
      var bs := HexBytes(ds);
      assert bs[..|bs| - 1] == HexBytes(init);
      assert ds[..n - 1][..n - 2] == init;
      calc {
        HexValue(ds);
        HexValue(ds[..n - 1]) * 16 + ds[n - 1];
        (HexValue(init) * 16 + ds[n - 2]) * 16 + ds[n - 1];
        HexValue(init) * 256 + (ds[n - 2] as int * 16 + ds[n - 1]);
        BigBE(bs);
      }
    }
  }

  lemma {:induction false} HexBytesFirst(ds: seq<nibble>)
    requires |ds| % 2 == 0 && |ds| >= 2
    ensures HexBytes(ds)[0] == ds[0] as int * 16 + ds[1]
  {
    if |ds| > 2 {
      var init := ds[..|ds| - 2];
      HexBytesFirst(init);
    }
  }

  /**
   * The bytes `derive` returns for the x-coordinate `x`: the even-length
   * hexadecimal form of `x` decoded pairwise. It is the shortest big-endian
   * encoding of `x`: its value is `x`, it has ceil(n/2) bytes for n hex digits,
   * and its first byte is zero only when `x` is.
   */
  function EncodeX(x: nat): (bs: seq<byte>)
    ensures |bs| == (|HexDigits(x)| + 1) / 2
    ensures BigBE(bs) == x
    ensures bs[0] == 0 <==> x == 0
  {
    var ds := HexDigits(x);
    var even := EvenHex(ds);
    HexDigitsValue(x);
    LeadingZeroDigit(ds);
    HexBytesValue(even);
    assert |even| >= 2 ==> HexBytes(even)[0] == even[0] as int * 16 + even[1] by {
      if |even| >= 2 { HexBytesFirst(even); }
    }
    HexBytes(even)
  }
}
