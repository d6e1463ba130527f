/** `cellKey` (app.js:511-513): the string `${cx},${cy},${cz}` the source's spatial-hash Map is
    keyed by. The rest of the model keys the hash by `Cell` directly; the lemmas here show that
    the string key tells cells apart exactly as the triple does, so both Maps group boids alike. */
module CellKeys {
  import opened Grid

  function DigitChar(d: int): (c: char)
    requires 0 <= d < 10
    ensures '0' <= c <= '9' && c as int - 48 == d
  {
    (48 + d) as char
  }

  /** Template interpolation of a non-negative integer: decimal digits, no leading zeros. */
  function NatToString(n: nat): (s: string)
    ensures |s| > 0
    ensures forall k :: 0 <= k < |s| ==> '0' <= s[k] <= '9'
    decreases n
  {
    if n < 10 then [DigitChar(n)] else NatToString(n / 10) + [DigitChar(n % 10)]
  }

  /** Template interpolation of an integer: a minus sign before the digits of a negative one. */
  function IntToString(i: int): (s: string)
    ensures |s| > 0 && s[0] == '-' <==> i < 0
    ensures CommaFree(s)
  {
    if i < 0 then "-" + NatToString(-i) else NatToString(i)
  }

  predicate CommaFree(s: string) {
    forall k :: 0 <= k < |s| ==> s[k] != ','
  }

  predicate AllDigits(s: string) {
    forall k :: 0 <= k < |s| ==> '0' <= s[k] <= '9'
  }

  /** The value a string of decimal digits denotes. */
  function ParseNat(s: string): int
    requires AllDigits(s)
    decreases |s|
  {
    if |s| == 0 then 0 else 10 * ParseNat(s[..|s| - 1]) + (s[|s| - 1] as int - 48)
  }

  function ParseInt(s: string): int
    requires |s| > 0
    requires AllDigits(s) || (s[0] == '-' && AllDigits(s[1..]))
  {
    if s[0] == '-' then -ParseNat(s[1..]) else ParseNat(s)
  }

  /** Reading the digits back gives the number written. */
  lemma {:induction false} NatStringRoundTrip(n: nat)
    ensures ParseNat(NatToString(n)) == n
    decreases n
  {
    if n >= 10 {
      var s := NatToString(n);
      assert s[..|s| - 1] == NatToString(n / 10);
      NatStringRoundTrip(n / 10);
    }
  }

  lemma IntStringRoundTrip(i: int)
    ensures AllDigits(IntToString(i)) || AllDigits(IntToString(i)[1..])
    ensures ParseInt(IntToString(i)) == i
  {
    var s := IntToString(i);
    if i < 0 {
      assert s[1..] == NatToString(-i);
      NatStringRoundTrip(-i);
    } else {
      NatStringRoundTrip(i);
    }
  }

  /** `cellKey(c.x, c.y, c.z)`. */
  function KeyString(c: Cell): string {
    IntToString(c.x) + "," + IntToString(c.y) + "," + IntToString(c.z)
  }

  /** The position of the first comma, or the length when there is none. */
  function FirstComma(s: string): (r: nat)
    ensures r <= |s|
    ensures r < |s| ==> s[r] == ','
    ensures forall k :: 0 <= k < r ==> s[k] != ','
    decreases |s|
  {
    if |s| == 0 then 0 else if s[0] == ',' then 0 else 1 + FirstComma(s[1..])
  }

  lemma {:induction false} FirstCommaAfter(a: string, b: string)
    requires CommaFree(a)
    ensures FirstComma(a + [','] + b) == |a|
    decreases |a|
  {
    var s := a + [','] + b;
    if |a| > 0 {
      assert s[0] == a[0];
      assert s[1..] == a[1..] + [','] + b;
      FirstCommaAfter(a[1..], b);
    } else {
      assert s[0] == ',';
    }
  }

  /** A comma-free head is recovered from the string it starts. */
  lemma SplitAtComma(a: string, b: string, c: string, d: string)
    requires CommaFree(a) && CommaFree(c)
    requires a + [','] + b == c + [','] + d
    ensures a == c && b == d
  {
    var s := a + [','] + b;
    FirstCommaAfter(a, b);
    FirstCommaAfter(c, d);
    assert a == s[..|a|];
    assert c == s[..|c|];
    assert b == s[|a| + 1..];
    assert d == (c + [','] + d)[|c| + 1..];
  }

  /** Two cells share a key exactly when they are the same cell. */
  lemma KeyInjective(c: Cell, d: Cell)
    ensures KeyString(c) == KeyString(d) <==> c == d
  {
    if KeyString(c) == KeyString(d) {
      var cx, cy, cz := IntToString(c.x), IntToString(c.y), IntToString(c.z);
      var dx, dy, dz := IntToString(d.x), IntToString(d.y), IntToString(d.z);
      assert KeyString(c) == cx + [','] + (cy + [','] + cz);
      assert KeyString(d) == dx + [','] + (dy + [','] + dz);
      SplitAtComma(cx, cy + [','] + cz, dx, dy + [','] + dz);
      SplitAtComma(cy, cz, dy, dz);
      IntStringRoundTrip(c.x);
      IntStringRoundTrip(d.x);
      IntStringRoundTrip(c.y);
      IntStringRoundTrip(d.y);
      IntStringRoundTrip(c.z);
      IntStringRoundTrip(d.z);
    }
  }
}
