/** Bytes and little-endian integers, as every file and envelope of the server uses them. */
module Bytes {
  type Byte = x: int | 0 <= x < 256
  type Data = seq<Byte>

  function Pow256(n: nat): (r: nat)
    ensures r > 0
  {
    if n == 0 then 1 else 256 * Pow256(n - 1)
  }

  /** The `n` low bytes of `v`, least significant first. */
  function Encode(v: nat, n: nat): (d: Data)
    ensures |d| == n
  {
    if n == 0 then [] else [v % 256] + Encode(v / 256, n - 1)
  }

  /** Byte `i` of an integer is its digit for 256 to the power `i`. */
  lemma {:induction false} EncodeByte(v: nat, n: nat, i: nat)
    requires i < n
    ensures Encode(v, n)[i] == v / Pow256(i) % 256
  {
    if i > 0 {
      EncodeByte(v / 256, n - 1, i - 1);
      DivideTwice(v, Pow256(i - 1));
    }
  }

  lemma DivideTwice(v: nat, b: nat)
    requires b > 0
    ensures v / 256 / b == v / (256 * b)
  {
    var q, s, t := v / 256 / b, v / 256 % b, v % 256;
    assert v == 256 * (b * q + s) + t;
    var d := 256 * b;
    assert v == d * q + (256 * s + t) by { assert 256 * (b * q) == d * q; }
    QuotientUnique(v, d, q, 256 * s + t);
  }

  lemma QuotientUnique(v: nat, d: nat, q: nat, rest: nat)
    requires rest < d && v == d * q + rest
    ensures v / d == q && v % d == rest
  {
    var p := v / d;
    assert v == d * p + v % d;
    NextMultiple(d, p, q);
    NextMultiple(d, q, p);
  }

  lemma {:induction false} NextMultiple(d: nat, p: nat, q: nat)
    ensures p < q ==> d * p + d <= d * q
    decreases q
  {
    if p < q {
      NextMultiple(d, p, q - 1);
      assert d * q == d * (q - 1) + d;
    }
  }

  function Decode(d: Data): nat {
    if d == [] then 0 else d[0] + 256 * Decode(d[1..])
  }

  lemma {:induction false} DecodeEncode(v: nat, n: nat)
    requires v < Pow256(n)
    ensures Decode(Encode(v, n)) == v
  {
    if n > 0 {
      DecodeEncode(v / 256, n - 1);
      assert Encode(v, n)[1..] == Encode(v / 256, n - 1);
    }
  }

  lemma {:induction false} EncodeDecode(d: Data)
    ensures Decode(d) < Pow256(|d|) && Encode(Decode(d), |d|) == d
  {
    if d != [] {
      EncodeDecode(d[1..]);
      assert d == [d[0]] + d[1..];
    }
  }

  lemma U32Range()
    ensures Pow256(4) == 0x1_0000_0000
  {
    assert Pow256(1) == 256 && Pow256(2) == 65536 && Pow256(3) == 16777216;
  }
}
