/**
 The corpus file: streams of tokens, each framed by its length. Tokens are 32-bit and lengths are
 unsigned 32-bit, all little-endian.
 */
module CorpusFile {
  import opened Bytes

  type TokenId = x: int | -0x8000_0000 <= x < 0x8000_0000
  type Stream = seq<TokenId>

  /** The longest frame a loader accepts. */
  const LONGEST_FRAME := 0x400_0000

  function Unsigned(t: TokenId): nat {
    if t < 0 then t + 0x1_0000_0000 else t
  }

  function Signed(v: nat): TokenId
    requires v < 0x1_0000_0000
  {
    if v >= 0x8000_0000 then v - 0x1_0000_0000 else v
  }

  function TokenBytes(s: Stream): (d: Data)
    ensures |d| == 4 * |s|
  {
    if s == [] then [] else Encode(Unsigned(s[0]), 4) + TokenBytes(s[1..])
  }

  function ReadTokens(d: Data, n: nat): (s: Stream)
    requires |d| >= 4 * n
    ensures |s| == n
  {
    if n == 0 then []
    else
      assert Decode(d[..4]) < 0x1_0000_0000 by { WordRange(d[..4]); }
      [Signed(Decode(d[..4]))] + ReadTokens(d[4..], n - 1)
  }

  lemma WordRange(d: Data)
    requires |d| == 4
    ensures Decode(d) < 0x1_0000_0000
  {
    EncodeDecode(d);
    U32Range();
  }

  /** Tokens read back from their bytes, whatever follows them. */
  lemma {:induction false} ReadTokensBack(s: Stream, rest: Data)
    ensures ReadTokens(TokenBytes(s) + rest, |s|) == s
    decreases |s|
  {
    hide Encode, Decode, Pow256;
    if s != [] {
      var d := TokenBytes(s) + rest;
      assert d[..4] == Encode(Unsigned(s[0]), 4);
      assert d[4..] == TokenBytes(s[1..]) + rest;
      U32Range();
      DecodeEncode(Unsigned(s[0]), 4);
      ReadTokensBack(s[1..], rest);
    }
  }

  function Frame(s: Stream): Data {
    Encode(|s|, 4) + TokenBytes(s)
  }

  function EncodeAll(ss: seq<Stream>): Data {
    if ss == [] then [] else Frame(ss[0]) + EncodeAll(ss[1..])
  }

  lemma Associative(x: Data, y: Data, z: Data)
    ensures x + (y + z) == (x + y) + z
  {
  }

  lemma {:induction false} EncodeAllConcat(a: seq<Stream>, b: seq<Stream>)
    ensures EncodeAll(a + b) == EncodeAll(a) + EncodeAll(b)
  {
    hide Frame;
    if a == [] {
      assert a + b == b;
    } else {
      EncodeAllConcat(a[1..], b);
      assert (a + b)[1..] == a[1..] + b && (a + b)[0] == a[0];
      Associative(Frame(a[0]), EncodeAll(a[1..]), EncodeAll(b));
    }
  }

  /** What the loader reads: frames until one is missing, empty, too long or cut off. */
  function Load(d: Data): seq<Stream>
    decreases |d|
  {
    if |d| < 4 then []
    else
      var n := Decode(d[..4]);
      if n == 0 || n > LONGEST_FRAME || |d| < 4 + 4 * n then []
      else [ReadTokens(d[4..], n)] + Load(d[4 + 4 * n..])
  }

  ghost predicate Storable(ss: seq<Stream>) {
    forall i | 0 <= i < |ss| :: 0 < |ss[i]| < 0x1_0000_0000
  }

  ghost predicate Loadable(ss: seq<Stream>) {
    forall i | 0 <= i < |ss| :: |ss[i]| <= LONGEST_FRAME
  }

  /** One whole frame at the front is read and passed over; an overlong one stops the loader. */
  lemma LoadFrame(s: Stream, rest: Data)
    requires 0 < |s| < 0x1_0000_0000
    ensures Load(Frame(s) + rest) == if |s| <= LONGEST_FRAME then [s] + Load(rest) else []
  {
    hide Encode, Decode, Pow256;
    var d := Frame(s) + rest;
    assert d[..4] == Encode(|s|, 4);
    U32Range();
    DecodeEncode(|s|, 4);
    assert d[4..] == TokenBytes(s) + rest;
    ReadTokensBack(s, rest);
    assert d[4 + 4 * |s|..] == rest;
  }

  /** Loading a file gives the written streams back exactly when none of them is longer than a loadable frame. */
  lemma {:induction false} LoadsBackExactly(ss: seq<Stream>)
    requires Storable(ss)
    ensures Load(EncodeAll(ss)) == ss <==> Loadable(ss)
    ensures Load(EncodeAll(ss)) <= ss
  {
    hide Encode, Decode, TokenBytes, ReadTokens, Frame;
    if ss != [] {
      LoadsBackExactly(ss[1..]);
      LoadFrame(ss[0], EncodeAll(ss[1..]));
      assert ss == [ss[0]] + ss[1..];
      if |ss[0]| <= LONGEST_FRAME {
        assert Load(EncodeAll(ss)) == ss <==> Load(EncodeAll(ss[1..])) == ss[1..];
        assert Loadable(ss) <==> Loadable(ss[1..]) by {
          assert forall i | 0 < i < |ss| :: ss[i] == ss[1..][i - 1];
        }
      }
    }
  }

  /** A stream of 2^26 tokens is written and loaded; one token more, and it is written and then lost. */
  lemma LongStreamLost()
    ensures var ss := [seq(0x400_0001, (i: nat) => 0)];
            Storable(ss) && Load(EncodeAll(ss)) == [] != ss
    ensures var ss := [seq(0x400_0000, (i: nat) => 0)];
            Storable(ss) && Load(EncodeAll(ss)) == ss
  {
    hide TokenBytes, ReadTokens, Load, Frame;
    OneStream(seq(0x400_0001, (i: nat) => 0));
    OneStream(seq(0x400_0000, (i: nat) => 0));
  }

  lemma OneStream(s: Stream)
    requires 0 < |s| < 0x1_0000_0000
    ensures Load(EncodeAll([s])) == if |s| <= LONGEST_FRAME then [s] else []
  {
    hide Frame;
    LoadFrame(s, []);
    var ss, none: seq<Stream> := [s], [];
    assert ss[1..] == none && EncodeAll(none) == [] && EncodeAll(ss) == Frame(s) + [];
    assert Load([]) == [];
  }

  /** What the loader reads of any file is what its beginning encodes. */
  lemma {:induction false} LoadsOnlyFrames(d: Data)
    ensures EncodeAll(Load(d)) <= d && Storable(Load(d)) && Loadable(Load(d))
    decreases |d|
  {
    hide Frame, Decode, ReadTokens;
    var all := Load(d);
    if all != [] {
      var rest := FrontFrame(d);
      LoadsOnlyFrames(rest);
      PrefixAfter(Frame(all[0]), EncodeAll(all[1..]), rest);
      assert forall i | 0 < i < |all| :: all[i] == all[1..][i - 1];
    }
  }

  /** What was loaded first is a whole frame at the front, and the rest was loaded from what follows it. */
  lemma FrontFrame(d: Data) returns (rest: Data)
    requires Load(d) != []
    ensures var all := Load(d);
            && 0 < |all[0]| <= LONGEST_FRAME && d == Frame(all[0]) + rest && all[1..] == Load(rest) && |rest| < |d|
  {
    hide TokenBytes, ReadTokens, Encode, Decode, Pow256;
    var n := Decode(d[..4]);
    rest := d[4 + 4 * n..];
    EncodeDecode(d[..4]);
    TokensRead(d[4..], n);
    assert d[4..][..4 * n] == d[4..4 + 4 * n];
    assert d == d[..4] + d[4..4 + 4 * n] + rest;
  }

  lemma PrefixAfter(a: Data, b: Data, c: Data)
    requires b <= c
    ensures a + b <= a + c
  {
  }

  lemma {:induction false} TokensRead(d: Data, n: nat)
    requires |d| >= 4 * n
    ensures TokenBytes(ReadTokens(d, n)) == d[..4 * n]
  {
    hide Encode, Decode, Pow256;
    if n > 0 {
      var w := d[..4];
      EncodeDecode(w);
      WordRange(w);
      TokensRead(d[4..], n - 1);
      assert Unsigned(Signed(Decode(w))) == Decode(w);
      assert ReadTokens(d, n)[1..] == ReadTokens(d[4..], n - 1);
      assert d[..4 * n] == w + d[4..][..4 * (n - 1)];
    }
  }

  /** A frame cut off anywhere is not read at all. */
  lemma LoadCutFrame(s: Stream, d: Data, n: nat)
    requires 0 < |s| < 0x1_0000_0000 && n < |Frame(s)| && d == Frame(s)[..n]
    ensures Load(d) == []
  {
    if n >= 4 {
      assert d[..4] == Encode(|s|, 4);
      U32Range();
      DecodeEncode(|s|, 4);
    }
  }

  /** Loading a file cut off at any byte yields a prefix of the streams written to it. */
  lemma {:induction false} TruncationLoadsPrefix(ss: seq<Stream>, n: nat)
    requires Storable(ss) && n <= |EncodeAll(ss)|
    ensures Load(EncodeAll(ss)[..n]) <= ss
    decreases |ss|
  {
    hide Encode, Decode, TokenBytes, ReadTokens, Frame;
    if ss != [] {
      var f := Frame(ss[0]);
      var d := EncodeAll(ss)[..n];
      if n < |f| {
        assert d == f[..n];
        LoadCutFrame(ss[0], d, n);
      } else {
        var rest := EncodeAll(ss[1..])[..n - |f|];
        assert d == f + rest;
        LoadFrame(ss[0], rest);
        TruncationLoadsPrefix(ss[1..], n - |f|);
        assert ss == [ss[0]] + ss[1..];
      }
    }
  }
}
