/** Byte strings: the order RocksDB sorts by, big-endian integers, hexadecimal text. */
module Bytes {

  type byte = x: int | 0 <= x < 256

  /** A Go string is a sequence of bytes. */
  type text = seq<byte>

  datatype Option<+T> = None | Some(value: T)

  /** An ASCII literal as Go stores it. */
  function Lit(s: string): text {
    seq(|s|, i requires 0 <= i < |s| => (s[i] as int) % 256)
  }

  // ---------------------------------------------------------------- order

  /** Byte-lexicographic order, the order of bytes.Compare and of RocksDB's default comparator. */
  predicate LexLess(a: seq<byte>, b: seq<byte>) {
    if b == [] then false
    else if a == [] then true
    else a[0] < b[0] || (a[0] == b[0] && LexLess(a[1..], b[1..]))
  }

  lemma {:induction false} LexTransitive(a: seq<byte>, b: seq<byte>, c: seq<byte>)
    requires LexLess(a, b) && LexLess(b, c)
    ensures LexLess(a, c)
  {
    if a != [] && a[0] == b[0] == c[0] {
      LexTransitive(a[1..], b[1..], c[1..]);
    }
  }

  /** Exactly one of a < b, a == b, b < a. */
  lemma {:induction false} LexTrichotomy(a: seq<byte>, b: seq<byte>)
    ensures a == b ==> !LexLess(a, b) && !LexLess(b, a)
    ensures a != b ==> LexLess(a, b) != LexLess(b, a)
  {
    if a != [] && b != [] {
      LexTrichotomy(a[1..], b[1..]);
      assert a == [a[0]] + a[1..] && b == [b[0]] + b[1..];
    }
  }

  /** A common prefix does not matter. */
  lemma {:induction false} LexCommonPrefix(p: seq<byte>, a: seq<byte>, b: seq<byte>)
    ensures LexLess(p + a, p + b) <==> LexLess(a, b)
  {
    if p == [] {
      assert p + a == a && p + b == b;
    } else {
      assert (p + a)[1..] == p[1..] + a && (p + b)[1..] == p[1..] + b;
      LexCommonPrefix(p[1..], a, b);
    }
  }

  /** Two heads of one length decide, unless they are equal. */
  lemma {:induction false} LexHeads(a: seq<byte>, x: seq<byte>, b: seq<byte>, y: seq<byte>)
    requires |a| == |b|
    ensures LexLess(a + x, b + y) <==> LexLess(a, b) || (a == b && LexLess(x, y))
  {
    if a == [] {
      assert a + x == x && b + y == y;
    } else {
      assert (a + x)[1..] == a[1..] + x && (b + y)[1..] == b[1..] + y;
      assert a == [a[0]] + a[1..] && b == [b[0]] + b[1..];
      LexHeads(a[1..], x, b[1..], y);
    }
  }

  /** The keys that start with p are an interval whose lower end is p itself. */
  lemma {:induction false} LexPrefixInterval(p: seq<byte>, b: seq<byte>, c: seq<byte>)
    requires p <= c
    ensures !LexLess(c, p)
    ensures !LexLess(b, p) && LexLess(b, c) ==> p <= b
  {
    if p != [] {
      assert p[0] == c[0] && p[1..] <= c[1..];
      if b == [] {
        LexPrefixInterval(p[1..], [], c[1..]);
      } else {
        LexPrefixInterval(p[1..], b[1..], c[1..]);
        assert b == [b[0]] + b[1..] && p == [p[0]] + p[1..];
      }
    }
  }

  // ----------------------------------------------------------- big endian

  function Pow256(w: nat): nat {
    if w == 0 then 1 else 256 * Pow256(w - 1)
  }

  lemma PowersOf256()
    ensures Pow256(2) == 0x1_0000
    ensures Pow256(4) == 0x1_0000_0000
    ensures Pow256(8) == 0x1_0000_0000_0000_0000
  {
    assert Pow256(3) == 256 * Pow256(2);
    assert Pow256(5) == 256 * Pow256(4) && Pow256(6) == 256 * Pow256(5) && Pow256(7) == 256 * Pow256(6);
  }

  /** The low w bytes of n, most significant first. */
  function BigEndian(n: nat, w: nat): (s: seq<byte>)
    ensures |s| == w
  {
    if w == 0 then [] else BigEndian(n / 256, w - 1) + [n % 256]
  }

  function FromBigEndian(s: seq<byte>): nat {
    if s == [] then 0 else 256 * FromBigEndian(s[..|s| - 1]) + s[|s| - 1]
  }

  lemma {:induction false} BigEndianValue(n: nat, w: nat)
    requires n < Pow256(w)
    ensures FromBigEndian(BigEndian(n, w)) == n
  {
    if w > 0 {
      BigEndianValue(n / 256, w - 1);
      assert BigEndian(n, w)[..w - 1] == BigEndian(n / 256, w - 1);
    }
  }

  /** Byte order on equal widths is numeric order. */
  lemma {:induction false} ValueOrder(a: seq<byte>, b: seq<byte>)
    requires |a| == |b|
    ensures LexLess(a, b) <==> FromBigEndian(a) < FromBigEndian(b)
    ensures a == b <==> FromBigEndian(a) == FromBigEndian(b)
  {
    if a != [] {
      var m := |a| - 1;
      ValueOrder(a[..m], b[..m]);
      LexHeads(a[..m], [a[m]], b[..m], [b[m]]);
      assert a == a[..m] + [a[m]] && b == b[..m] + [b[m]];
    }
  }

  lemma BigEndianOrder(m: nat, n: nat, w: nat)
    requires m < Pow256(w) && n < Pow256(w)
    ensures LexLess(BigEndian(m, w), BigEndian(n, w)) <==> m < n
    ensures BigEndian(m, w) == BigEndian(n, w) <==> m == n
  {
    BigEndianValue(m, w);
    BigEndianValue(n, w);
    ValueOrder(BigEndian(m, w), BigEndian(n, w));
  }

  // ------------------------------------------------------------------ hex

  function HexDigit(n: int): byte
    requires 0 <= n < 16
  {
    if n < 10 then 48 + n else 87 + n  // '0'..'9', 'a'..'f'
  }

  function FromHexChar(c: byte): Option<int> {
    if 48 <= c <= 57 then Some(c - 48)
    else if 97 <= c <= 102 then Some(c - 87)
    else if 65 <= c <= 70 then Some(c - 55)
    else None
  }

  function HexPair(b: byte): (t: text)
    ensures |t| == 2
  {
    [HexDigit(b / 16), HexDigit(b % 16)]
  }

  function EncodeHex(s: seq<byte>): (t: text)
    ensures |t| == 2 * |s|
  {
    if s == [] then [] else HexPair(s[0]) + EncodeHex(s[1..])
  }

  /** What hex.DecodeString returns: the bytes of the longest well-formed run of digit
      pairs, and whether that run was the whole string. Callers here ignore `ok`. */
  datatype Decoded = Decoded(bytes: seq<byte>, ok: bool)

  function DecodeHex(t: text): (d: Decoded)
    ensures 2 * |d.bytes| <= |t|
    ensures d.ok ==> 2 * |d.bytes| == |t|
  {
    if t == [] then Decoded([], true)
    else if |t| == 1 then Decoded([], false)
    else match (FromHexChar(t[0]), FromHexChar(t[1]))
      case (Some(hi), Some(lo)) =>
        var rest := DecodeHex(t[2..]);
        Decoded([16 * hi + lo] + rest.bytes, rest.ok)
      case _ => Decoded([], false)
  }

  /** Decoding reads the text pair by pair. */
  lemma {:induction false} DecodeAt(t: text, i: nat)
    requires i < |DecodeHex(t).bytes|
    ensures FromHexChar(t[2 * i]).Some? && FromHexChar(t[2 * i + 1]).Some?
    ensures DecodeHex(t).bytes[i] == 16 * FromHexChar(t[2 * i]).value + FromHexChar(t[2 * i + 1]).value
  {
    hide FromHexChar;
    if i > 0 {
      DecodeAt(t[2..], i - 1);
      assert t[2..][2 * (i - 1)] == t[2 * i] && t[2..][2 * (i - 1) + 1] == t[2 * i + 1];
    }
  }

  /** It stops at the end, or before the first pair that is not two hex digits. */
  lemma {:induction false} DecodeStops(t: text)
    ensures var n := 2 * |DecodeHex(t).bytes|;
            && (DecodeHex(t).ok <==> n == |t|)
            && (n + 1 < |t| ==> FromHexChar(t[n]) == None || FromHexChar(t[n + 1]) == None)
  {
    hide FromHexChar;
    if |t| >= 2 && FromHexChar(t[0]).Some? && FromHexChar(t[1]).Some? {
      DecodeStops(t[2..]);
      var n := 2 * |DecodeHex(t[2..]).bytes|;
      assert n + 1 < |t[2..]| ==> t[2..][n] == t[n + 2] && t[2..][n + 1] == t[n + 3];
    }
  }

  lemma HexDigits(n: int)
    requires 0 <= n < 16
    ensures HexDigit(n) == Lit("0123456789abcdef")[n] && FromHexChar(HexDigit(n)) == Some(n)
  {
  }

  lemma DecodePair(b: byte, t: text)
    ensures var d := DecodeHex(HexPair(b) + t);
            d == Decoded([b] + DecodeHex(t).bytes, DecodeHex(t).ok)
  {
    var e := HexPair(b) + t;
    assert FromHexChar(e[0]) == Some(b / 16) && FromHexChar(e[1]) == Some(b % 16);
    assert e[2..] == t;
  }

  /** Decoding text that begins with an encoding yields the encoded bytes, then the rest. */
  lemma {:induction false} DecodeAfterEncode(s: seq<byte>, t: text)
    ensures DecodeHex(EncodeHex(s) + t) == Decoded(s + DecodeHex(t).bytes, DecodeHex(t).ok)
  {
    if s == [] {
      assert EncodeHex(s) + t == t && s + DecodeHex(t).bytes == DecodeHex(t).bytes;
    } else {
      var tail := EncodeHex(s[1..]);
      assert EncodeHex(s) + t == HexPair(s[0]) + (tail + t);
      assert s + DecodeHex(t).bytes == [s[0]] + (s[1..] + DecodeHex(t).bytes);
      DecodePair(s[0], tail + t);
      DecodeAfterEncode(s[1..], t);
    }
  }

  lemma {:induction false} HexRoundTrip(s: seq<byte>)
    ensures DecodeHex(EncodeHex(s)) == Decoded(s, true)
  {
    DecodeAfterEncode(s, []);
    assert EncodeHex(s) + [] == EncodeHex(s);
  }
}
