/** The hex codec of the share link: `bytesToHex` and `hexToBytes` (app.js:311-326). */
module Hex {
  import opened Wrappers

  /** One element of a `Uint8Array`. */
  type Byte = b: int | 0 <= b < 256

  /** The lower-case digit `Number.prototype.toString(16)` writes for `n`. */
  function HexDigit(n: int): (c: char)
    requires 0 <= n < 16
    ensures IsHexChar(c) && HexValue(c) == n
    ensures '0' <= c <= '9' || 'a' <= c <= 'f'
  {
    if n < 10 then (48 + n) as char else (87 + n) as char
  }

  /** A character matched by the class `[0-9a-f]` under the flag `i`. */
  predicate IsHexChar(c: char) {
    ('0' <= c <= '9') || ('a' <= c <= 'f') || ('A' <= c <= 'F')
  }

  /** The value `parseInt(_, 16)` gives one hex digit of either case. */
  function HexValue(c: char): (n: int)
    requires IsHexChar(c)
    ensures 0 <= n < 16
  {
    if '0' <= c <= '9' then c as int - 48
    else if 'a' <= c <= 'f' then c as int - 87
    else c as int - 55
  }

  /** Lower-cases a hex digit; every other character is left alone. */
  function LowerHex(c: char): char {
    if 'A' <= c <= 'F' then (c as int + 32) as char else c
  }

  /** The comparison form of a hex string: every hex digit keeps its value and comes out as `[0-9a-f]`,
      and nothing but an upper-case digit is changed. */
  function ToLowerHex(s: string): (r: string)
    ensures |r| == |s|
    ensures forall k :: 0 <= k < |s| && IsHexChar(s[k]) ==>
      IsHexChar(r[k]) && HexValue(r[k]) == HexValue(s[k]) && ('0' <= r[k] <= '9' || 'a' <= r[k] <= 'f')
    ensures forall k :: 0 <= k < |s| && !('A' <= s[k] <= 'F') ==> r[k] == s[k]
  {
    seq(|s|, k requires 0 <= k < |s| => LowerHex(s[k]))
  }

  /** `n.toString(16)`: base-16 digits without leading zeros. */
  function ToRadix16(n: nat): string
    decreases n
  {
    if n < 16 then [HexDigit(n)] else ToRadix16(n / 16) + [HexDigit(n % 16)]
  }

  /** `s.padStart(len, c)`. */
  function PadStart(s: string, len: nat, c: char): string {
    if |s| >= len then s else seq(len - |s|, _ => c) + s
  }

  /** `bytes[i].toString(16).padStart(2, "0")`. */
  function ByteToHex(b: Byte): string {
    PadStart(ToRadix16(b), 2, '0')
  }

  /** The two characters written for one byte are its high and low nibble. */
  lemma ByteToHexNibbles(b: Byte)
    ensures ByteToHex(b) == [HexDigit(b / 16), HexDigit(b % 16)]
  {
    if b >= 16 {
      assert ToRadix16(b / 16) == [HexDigit(b / 16)];
    }
  }

  /** The string `bytesToHex` accumulates, one byte at a time. */
  function EncodeHex(bytes: seq<Byte>): string
    decreases |bytes|
  {
    if |bytes| == 0 then "" else EncodeHex(bytes[..|bytes| - 1]) + ByteToHex(bytes[|bytes| - 1])
  }

  /** The test `!hex || hex.length % 2 !== 0 || !/^[0-9a-f]+$/i.test(hex)`, negated. */
  predicate WellFormedHex(hex: string) {
    |hex| != 0 && |hex| % 2 == 0 && forall k :: 0 <= k < |hex| ==> IsHexChar(hex[k])
  }

  /** The byte `parseInt(hex.slice(2 * i, 2 * i + 2), 16)` yields. */
  function PairValue(hex: string, i: nat): Byte
    requires 2 * i + 1 < |hex| && IsHexChar(hex[2 * i]) && IsHexChar(hex[2 * i + 1])
  {
    16 * HexValue(hex[2 * i]) + HexValue(hex[2 * i + 1])
  }

  /** The array `hexToBytes` returns, or `None` for its `null`. */
  function DecodeHex(hex: string): Option<seq<Byte>> {
    if !WellFormedHex(hex) then None
    else Some(seq(|hex| / 2, i requires 0 <= i < |hex| / 2 => PairValue(hex, i)))
  }

  /** `bytesToHex` writes exactly two lower-case hex digits per byte: the high and the low nibble. */
  lemma {:induction false} EncodeHexShape(bytes: seq<Byte>)
    ensures |EncodeHex(bytes)| == 2 * |bytes|
    ensures forall k :: 0 <= k < |bytes| ==>
      EncodeHex(bytes)[2 * k] == HexDigit(bytes[k] / 16) && EncodeHex(bytes)[2 * k + 1] == HexDigit(bytes[k] % 16)
    decreases |bytes|
  {
    if |bytes| > 0 {
      var init := bytes[..|bytes| - 1];
      EncodeHexShape(init);
      ByteToHexNibbles(bytes[|bytes| - 1]);
      forall k | 0 <= k < |bytes|
        ensures EncodeHex(bytes)[2 * k] == HexDigit(bytes[k] / 16)
        ensures EncodeHex(bytes)[2 * k + 1] == HexDigit(bytes[k] % 16)
      {
        if k < |init| {
          assert bytes[k] == init[k];
        }
      }
    }
  }

  /** Every character `bytesToHex` writes is a lower-case hex digit. */
  lemma EncodeHexIsLowerHex(bytes: seq<Byte>)
    ensures forall k :: 0 <= k < |EncodeHex(bytes)| ==>
      '0' <= EncodeHex(bytes)[k] <= '9' || 'a' <= EncodeHex(bytes)[k] <= 'f'
  {
    EncodeHexShape(bytes);
    var h := EncodeHex(bytes);
    forall k | 0 <= k < |h| ensures '0' <= h[k] <= '9' || 'a' <= h[k] <= 'f' {
      if k % 2 == 0 {
        assert h[2 * (k / 2)] == HexDigit(bytes[k / 2] / 16);
      } else {
        assert h[2 * (k / 2) + 1] == HexDigit(bytes[k / 2] % 16);
      }
    }
  }

  lemma {:induction false} EncodeHexWellFormed(bytes: seq<Byte>)
    requires |bytes| > 0
    ensures WellFormedHex(EncodeHex(bytes))
  {
    var h := EncodeHex(bytes);
    EncodeHexLength(bytes);
    EncodeHexIsLowerHex(bytes);
    assert forall k :: 0 <= k < |h| ==> IsHexChar(h[k]);
  }

  lemma {:induction false} EncodeHexLength(bytes: seq<Byte>)
    ensures |EncodeHex(bytes)| == 2 * |bytes|
    decreases |bytes|
  {
    if |bytes| > 0 {
      EncodeHexLength(bytes[..|bytes| - 1]);
      ByteToHexNibbles(bytes[|bytes| - 1]);
    }
  }

  /** `hexToBytes(bytesToHex(b))` gives `b` back for every non-empty `b`. */
  lemma RoundTrip(bytes: seq<Byte>)
    requires |bytes| > 0
    ensures DecodeHex(EncodeHex(bytes)) == Some(bytes)
  {
    var h := EncodeHex(bytes);
    EncodeHexShape(bytes);
    EncodeHexWellFormed(bytes);
    var d := DecodeHex(h).value;
    assert |d| == |bytes|;
    forall i | 0 <= i < |bytes| ensures d[i] == bytes[i] {
      var b := bytes[i];
      assert h[2 * i] == HexDigit(b / 16) && h[2 * i + 1] == HexDigit(b % 16);
      assert d[i] == PairValue(h, i);
    }
    assert d == bytes;
  }

  lemma DigitOfValue(c: char)
    requires IsHexChar(c)
    ensures HexDigit(HexValue(c)) == LowerHex(c)
  {
  }

  /** The other direction: re-encoding what `hexToBytes` accepted yields the input, lower-cased. */
  lemma DecodeThenEncode(hex: string)
    requires DecodeHex(hex).Some?
    ensures EncodeHex(DecodeHex(hex).value) == ToLowerHex(hex)
  {
    var bytes := DecodeHex(hex).value;
    EncodeHexShape(bytes);
    var e, l := EncodeHex(bytes), ToLowerHex(hex);
    forall i | 0 <= i < |bytes|
      ensures e[2 * i] == l[2 * i] && e[2 * i + 1] == l[2 * i + 1]
    {
      var hi, lo := HexValue(hex[2 * i]), HexValue(hex[2 * i + 1]);
      assert bytes[i] == 16 * hi + lo;
      assert bytes[i] / 16 == hi && bytes[i] % 16 == lo;
      DigitOfValue(hex[2 * i]);
      DigitOfValue(hex[2 * i + 1]);
    }
    forall k | 0 <= k < |hex| ensures e[k] == l[k] {
      var i := k / 2;
      assert k == 2 * i || k == 2 * i + 1;
    }
  }

  /** `hexToBytes` returns null exactly for the empty string, an odd length or a non-hex character. */
  lemma DecodeHexRejects(hex: string)
    ensures DecodeHex(hex).None? <==>
      (|hex| == 0 || |hex| % 2 == 1 || exists k :: 0 <= k < |hex| && !IsHexChar(hex[k]))
    ensures DecodeHex(hex).Some? ==> |DecodeHex(hex).value| == |hex| / 2
  {
  }

  /** `bytesToHex`: appends two digits per byte to a growing string. */
  method BytesToHex(bytes: seq<Byte>) returns (hex: string)
    ensures hex == EncodeHex(bytes)
  {
    hex := "";
    var i := 0;
    while i < |bytes|
      invariant 0 <= i <= |bytes|
      invariant hex == EncodeHex(bytes[..i])
    {
      assert bytes[..i + 1][..i] == bytes[..i];
      hex := hex + ByteToHex(bytes[i]);
      i := i + 1;
    }
    assert bytes[..i] == bytes;
  }

  /** `hexToBytes`: validates, then fills a fresh byte array pair by pair. */
  method HexToBytes(hex: string) returns (r: Option<seq<Byte>>)
    ensures r == DecodeHex(hex)
  {
    if !WellFormedHex(hex) {
      return None;
    }
    var bytes := new Byte[|hex| / 2];
    var i := 0;
    while i < bytes.Length
      invariant 0 <= i <= bytes.Length
      invariant forall k :: 0 <= k < i ==> bytes[k] == PairValue(hex, k)
    {
      bytes[i] := 16 * HexValue(hex[2 * i]) + HexValue(hex[2 * i + 1]);
      i := i + 1;
    }
    assert bytes[..] == DecodeHex(hex).value;
    r := Some(bytes[..]);
  }
}
