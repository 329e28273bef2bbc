/** The standard base64 encoding of section 4 of RFC 4648 (standard alphabet, padding required),
    as Go's encoding/base64 StdEncoding implements EncodeToString and DecodeString. */
module Base64 {
  import opened Wrappers
  import opened Go

  /** A 6-bit group: the value one symbol of the alphabet stands for. */
  type Sextet = x: int | 0 <= x < 64

  /** The padding character '='. */
  const Pad: byte := '=' as int
  /** Carriage return and line feed, which the decoder skips wherever they occur. */
  const CR: byte := 13
  const LF: byte := 10

  /** The 64 bytes of the standard alphabet (Table 1 of RFC 4648). */
  predicate IsSymbol(c: byte) {
    || 'A' as int <= c <= 'Z' as int
    || 'a' as int <= c <= 'z' as int
    || '0' as int <= c <= '9' as int
    || c == '+' as int
    || c == '/' as int
  }

  /** The symbol that encodes a 6-bit value. */
  function Symbol(v: Sextet): (c: byte)
    ensures IsSymbol(c)
  {
    if v < 26 then 'A' as int + v
    else if v < 52 then 'a' as int + (v - 26)
    else if v < 62 then '0' as int + (v - 52)
    else if v == 62 then '+' as int
    else '/' as int
  }

  /** The 6-bit value a symbol stands for: the inverse of Symbol. */
  function Value(c: byte): (v: Sextet)
    requires IsSymbol(c)
    ensures Symbol(v) == c
  {
    if 'A' as int <= c <= 'Z' as int then c - 'A' as int
    else if 'a' as int <= c <= 'z' as int then c - 'a' as int + 26
    else if '0' as int <= c <= '9' as int then c - '0' as int + 52
    else if c == '+' as int then 62
    else 63
  }

  lemma ValueOfSymbol(v: Sextet)
    ensures Value(Symbol(v)) == v
  {
  }

  // ---------------------------------------------------------------------------
  // Encoding (EncodeToString)
  // ---------------------------------------------------------------------------

  /** The four symbols for three bytes: their 24 bits cut into four 6-bit groups, most significant first. */
  function EncodeQuantum(x: byte, y: byte, z: byte): (r: seq<byte>)
    ensures |r| == 4 && forall i :: 0 <= i < 4 ==> IsSymbol(r[i])
  {
    [Symbol(x / 4), Symbol(x % 4 * 16 + y / 16), Symbol(y % 16 * 4 + z / 64), Symbol(z % 64)]
  }

  /** The final group for one or two leftover bytes: the symbols for their bits, the missing low
      bits taken as zero, then "==" after one byte or "=" after two. */
  function EncodeTail(t: seq<byte>): (r: seq<byte>)
    requires 1 <= |t| <= 2
    ensures |r| == 4 && IsSymbol(r[0]) && IsSymbol(r[1]) && r[3] == Pad
    ensures |t| == 1 ==> r[2] == Pad
    ensures |t| == 2 ==> IsSymbol(r[2])
  {
    if |t| == 1 then [Symbol(t[0] / 4), Symbol(t[0] % 4 * 16), Pad, Pad]
    else [Symbol(t[0] / 4), Symbol(t[0] % 4 * 16 + t[1] / 16), Symbol(t[1] % 16 * 4), Pad]
  }

  /** EncodeToString: every three bytes become four symbols, and one or two bytes left at the end
      become a padded final group. */
  function Encode(b: seq<byte>): (r: seq<byte>)
    ensures |r| == 4 * ((|b| + 2) / 3)
    ensures forall i :: 0 <= i < |r| ==> IsSymbol(r[i]) || (|r| - 2 <= i && r[i] == Pad)
    decreases |b|
  {
    if |b| == 0 then []
    else if |b| < 3 then EncodeTail(b)
    else EncodeQuantum(b[0], b[1], b[2]) + Encode(b[3..])
  }

  // ---------------------------------------------------------------------------
  // Decoding (DecodeString)
  // ---------------------------------------------------------------------------

  /** The three bytes whose 24 bits are the four 6-bit groups a, b, c, d in that order. */
  function Assemble(a: Sextet, b: Sextet, c: Sextet, d: Sextet): (r: seq<byte>)
    ensures |r| == 3
  {
    [a * 4 + b / 16, b % 16 * 16 + c / 4, c % 4 * 64 + d]
  }

  /** The three assembled bytes, read as one 24-bit number, are the four groups read as one. */
  lemma AssembleValue(a: Sextet, b: Sextet, c: Sextet, d: Sextet)
    ensures var r := Assemble(a, b, c, d);
      r[0] as int * 65536 + r[1] as int * 256 + r[2] as int == a * 262144 + b * 4096 + c * 64 + d
  {
  }

  /** The bytes one group of four characters carries, or None when the group is malformed.
      Padding is accepted only in the final group: "xx==" carries one byte and "xxx=" two.
      The low bits of the symbol before the padding are dropped without being checked. */
  function DecodeQuantum(q: seq<byte>, last: bool): (r: Option<seq<byte>>)
    requires |q| == 4
    ensures r.Some? ==> 1 <= |r.value| <= 3 && (!last ==> |r.value| == 3)
    ensures r.Some? ==> forall i :: 0 <= i < 4 ==> IsSymbol(q[i]) || q[i] == Pad
    ensures r.Some? && |r.value| == 3 ==> forall i :: 0 <= i < 4 ==> IsSymbol(q[i])
  {
    if IsSymbol(q[0]) && IsSymbol(q[1]) && IsSymbol(q[2]) && IsSymbol(q[3]) then
      Some(Assemble(Value(q[0]), Value(q[1]), Value(q[2]), Value(q[3])))
    else if last && IsSymbol(q[0]) && IsSymbol(q[1]) && IsSymbol(q[2]) && q[3] == Pad then
      Some(Assemble(Value(q[0]), Value(q[1]), Value(q[2]), 0)[..2])
    else if last && IsSymbol(q[0]) && IsSymbol(q[1]) && q[2] == Pad && q[3] == Pad then
      Some(Assemble(Value(q[0]), Value(q[1]), 0, 0)[..1])
    else None
  }

  /** Decoding of input that holds no line breaks: a sequence of four-character groups, of which
      only the last may be padded. */
  function DecodeQuanta(s: seq<byte>): (r: Option<seq<byte>>)
    ensures r.Some? ==> forall i :: 0 <= i < |s| ==> IsSymbol(s[i]) || s[i] == Pad
    decreases |s|
  {
    if |s| == 0 then Some([])
    else if |s| < 4 then None
    else
      match DecodeQuantum(s[..4], |s| == 4)
      case None => None
      case Some(q) =>
        match DecodeQuanta(s[4..])
        case None => None
        case Some(rest) => Some(q + rest)
  }

  /** The input with every carriage return and line feed removed. */
  function StripNewlines(s: seq<byte>): (r: seq<byte>)
    ensures forall c :: c in r <==> c in s && c != CR && c != LF
    ensures (forall i :: 0 <= i < |s| ==> s[i] != CR && s[i] != LF) ==> r == s
    decreases |s|
  {
    if |s| == 0 then []
    else if s[0] == CR || s[0] == LF then StripNewlines(s[1..])
    else [s[0]] + StripNewlines(s[1..])
  }

  lemma {:induction false} StripConcat(x: seq<byte>, y: seq<byte>)
    ensures StripNewlines(x + y) == StripNewlines(x) + StripNewlines(y)
    decreases |x|
  {
    if |x| == 0 {
      assert x + y == y;
    } else {
      assert (x + y)[0] == x[0] && (x + y)[1..] == x[1..] + y;
      StripConcat(x[1..], y);
    }
  }

  /** DecodeString: line breaks anywhere are skipped, then the rest must be padded groups of four. */
  function Decode(s: seq<byte>): (r: Option<seq<byte>>)
    ensures r.Some? ==> forall c :: c in s ==> IsSymbol(c) || c == Pad || c == CR || c == LF
  {
    DecodeQuanta(StripNewlines(s))
  }

  // ---------------------------------------------------------------------------
  // Properties
  // ---------------------------------------------------------------------------

  /** Cutting three bytes into four 6-bit groups and assembling the groups again are inverse. */
  lemma QuantumBits(x: int, y: int, z: int)
    requires 0 <= x < 256 && 0 <= y < 256 && 0 <= z < 256
    ensures x / 4 * 4 + (x % 4 * 16 + y / 16) / 16 == x
    ensures (x % 4 * 16 + y / 16) % 16 * 16 + (y % 16 * 4 + z / 64) / 4 == y
    ensures (y % 16 * 4 + z / 64) % 4 * 64 + z % 64 == z
  {
  }

  lemma SextetBits(a: int, b: int, c: int, d: int)
    requires 0 <= a < 64 && 0 <= b < 64 && 0 <= c < 64 && 0 <= d < 64
    ensures (a * 4 + b / 16) / 4 == a
    ensures (a * 4 + b / 16) % 4 * 16 + (b % 16 * 16 + c / 4) / 16 == b
    ensures (b % 16 * 16 + c / 4) % 16 * 4 + (c % 4 * 64 + d) / 64 == c
    ensures (c % 4 * 64 + d) % 64 == d
  {
  }

  lemma QuantumRoundTrip(x: byte, y: byte, z: byte, last: bool)
    ensures DecodeQuantum(EncodeQuantum(x, y, z), last) == Some([x, y, z])
  {
    var a, b, c, d := x / 4, x % 4 * 16 + y / 16, y % 16 * 4 + z / 64, z % 64;
    var q := EncodeQuantum(x, y, z);
    ValueOfSymbol(a);
    ValueOfSymbol(b);
    ValueOfSymbol(c);
    ValueOfSymbol(d);
    assert Value(q[0]) == a && Value(q[1]) == b && Value(q[2]) == c && Value(q[3]) == d;
    QuantumBits(x, y, z);
    assert DecodeQuantum(q, last) == Some(Assemble(a, b, c, d));
  }

  lemma TailRoundTrip(t: seq<byte>)
    requires 1 <= |t| <= 2
    ensures DecodeQuantum(EncodeTail(t), true) == Some(t)
  {
    var q := EncodeTail(t);
    if |t| == 1 {
      var a, b := t[0] / 4, t[0] % 4 * 16;
      ValueOfSymbol(a);
      ValueOfSymbol(b);
      assert Value(q[0]) == a && Value(q[1]) == b;
      QuantumBits(t[0], 0, 0);
      assert DecodeQuantum(q, true) == Some(Assemble(a, b, 0, 0)[..1]);
      assert Assemble(a, b, 0, 0)[..1] == [t[0]] == t;
    } else {
      var a, b, c := t[0] / 4, t[0] % 4 * 16 + t[1] / 16, t[1] % 16 * 4;
      ValueOfSymbol(a);
      ValueOfSymbol(b);
      ValueOfSymbol(c);
      assert Value(q[0]) == a && Value(q[1]) == b && Value(q[2]) == c;
      QuantumBits(t[0], t[1], 0);
      assert DecodeQuantum(q, true) == Some(Assemble(a, b, c, 0)[..2]);
      assert Assemble(a, b, c, 0)[..2] == [t[0], t[1]] == t;
    }
  }

  /** Decoding a group followed by more input: the group's bytes followed by the rest's. */
  lemma DecodeQuantaCons(q: seq<byte>, rest: seq<byte>)
    requires |q| == 4
    ensures DecodeQuanta(q + rest) ==
      match DecodeQuantum(q, |rest| == 0)
      case None => None
      case Some(d) => (match DecodeQuanta(rest) case None => None case Some(e) => Some(d + e))
  {
    var s := q + rest;
    assert s[..4] == q && s[4..] == rest;
  }

  lemma EncodeCons(b: seq<byte>)
    requires |b| >= 3
    ensures Encode(b) == EncodeQuantum(b[0], b[1], b[2]) + Encode(b[3..])
  {
  }

  lemma TailDecodes(b: seq<byte>)
    requires 1 <= |b| <= 2
    ensures DecodeQuanta(Encode(b)) == Some(b)
  {
    var e: seq<byte> := [];
    TailRoundTrip(b);
    DecodeQuantaCons(EncodeTail(b), e);
    assert EncodeTail(b) + e == Encode(b);
    assert b + e == b;
  }

  /** Input of exactly one group decodes as a final group. */
  lemma DecodeQuantaSingle(s: seq<byte>)
    requires |s| == 4
    ensures DecodeQuanta(s) == DecodeQuantum(s, true)
  {
    assert s[..4] == s;
    var e: seq<byte> := [];
    assert DecodeQuanta(s[4..]) == Some(e);
    if DecodeQuantum(s, true).Some? {
      var d := DecodeQuantum(s, true).value;
      assert d + e == d;
    }
  }

  /** A malformed group, or a malformed rest after it, makes the whole input malformed. */
  lemma DecodeQuantaConsNone(q: seq<byte>, rest: seq<byte>)
    requires |q| == 4 && (DecodeQuantum(q, |rest| == 0).None? || DecodeQuanta(rest).None?)
    ensures DecodeQuanta(q + rest).None?
  {
    var s := q + rest;
    assert s[..4] == q && s[4..] == rest;
  }

  lemma GroupBeforeUndecodable(q: seq<byte>, e: seq<byte>, t: seq<byte>)
    requires |q| == 4 && DecodeQuanta(e + t).None?
    ensures DecodeQuanta(q + e + t).None?
  {
    DecodeQuantaConsNone(q, e + t);
    assert q + e + t == q + (e + t);
  }

  /** Input of complete four-character groups in which every character is a symbol, except that
      the last one or two may be padding, and a pad in the second-to-last place is followed by
      another: the shape RFC 4648 requires of padded base64. */
  predicate WellPadded(t: seq<byte>) {
    && |t| % 4 == 0
    && forall i :: 0 <= i < |t| ==>
         IsSymbol(t[i]) || (t[i] == Pad && |t| - 2 <= i && (i == |t| - 2 ==> t[|t| - 1] == Pad))
  }

  /** A single group decodes exactly when it is well padded, or, when it is not the last group,
      exactly when it holds only symbols. */
  lemma DecodeQuantumWellPadded(q: seq<byte>, last: bool)
    requires |q| == 4
    ensures DecodeQuantum(q, last).Some? <==>
      if last then WellPadded(q) else forall i :: 0 <= i < 4 ==> IsSymbol(q[i])
  {
    if last && WellPadded(q) {
      assert IsSymbol(q[0]) && IsSymbol(q[1]);
    }
  }

  lemma WellPaddedCons(q: seq<byte>, rest: seq<byte>)
    requires |q| == 4
    ensures WellPadded(q + rest) <==>
      && (if rest == [] then WellPadded(q) else forall i :: 0 <= i < 4 ==> IsSymbol(q[i]))
      && WellPadded(rest)
  {
    var t := q + rest;
    if WellPadded(t) && rest != [] {
      assert |rest| >= 4;
      forall i | 0 <= i < 4 ensures IsSymbol(q[i]) {
        assert t[i] == q[i];
      }
      forall j | 0 <= j < |rest| ensures
        IsSymbol(rest[j]) || (rest[j] == Pad && |rest| - 2 <= j && (j == |rest| - 2 ==> rest[|rest| - 1] == Pad))
      {
        assert t[4 + j] == rest[j] && t[|t| - 1] == rest[|rest| - 1];
      }
    }
    if rest != [] && (forall i :: 0 <= i < 4 ==> IsSymbol(q[i])) && WellPadded(rest) {
      forall i | 0 <= i < |t| ensures
        IsSymbol(t[i]) || (t[i] == Pad && |t| - 2 <= i && (i == |t| - 2 ==> t[|t| - 1] == Pad))
      {
        if i < 4 {
          assert t[i] == q[i];
        } else {
          assert t[i] == rest[i - 4] && t[|t| - 1] == rest[|rest| - 1];
        }
      }
    }
    if rest == [] {
      assert t == q;
    }
  }

  /** The groups decode exactly when they are well padded. */
  lemma {:induction false} DecodeQuantaWellPadded(t: seq<byte>)
    ensures DecodeQuanta(t).Some? <==> WellPadded(t)
    decreases |t|
  {
    if |t| == 0 {
    } else if |t| < 4 {
      assert !WellPadded(t);
    } else {
      var q, rest := t[..4], t[4..];
      assert t == q + rest;
      DecodeQuantaCons(q, rest);
      DecodeQuantumWellPadded(q, |rest| == 0);
      DecodeQuantaWellPadded(rest);
      WellPaddedCons(q, rest);
    }
  }

  /** DecodeString accepts its input exactly when, with line breaks removed, it is well padded:
      a wrong symbol, an incomplete group, padding too early or a padded group followed by
      another are all rejected. */
  lemma DecodeIffWellPadded(s: seq<byte>)
    ensures Decode(s).Some? <==> WellPadded(StripNewlines(s))
  {
    DecodeQuantaWellPadded(StripNewlines(s));
  }

  /** Inputs with wrong padding: an incomplete group, padding in the first two places, a symbol
      after a pad, and a padded group followed by another group. */
  lemma BadPaddingRejected(a: seq<byte>, b: seq<byte>, c: seq<byte>, d: seq<byte>, e: seq<byte>)
    requires a == [81, 81] && b == [81, 81, 61] && c == [81, 61, 61, 61] && d == [81, 81, 61, 81]
    requires e == [81, 81, 61, 61, 81, 81, 61, 61]
    ensures Decode(a) == None && Decode(b) == None && Decode(c) == None && Decode(d) == None
    ensures Decode(e) == None
  {
    DecodeIffWellPadded(a);
    DecodeIffWellPadded(b);
    DecodeIffWellPadded(c);
    assert c[1] == Pad && !IsSymbol(c[1]);
    DecodeIffWellPadded(d);
    assert d[2] == Pad && !IsSymbol(d[2]);
    DecodeIffWellPadded(e);
    assert e[2] == Pad && !IsSymbol(e[2]);
  }

  /** Decoding the encoding of any bytes gives those bytes back, line breaks aside. */
  lemma {:induction false} DecodeQuantaOfEncode(b: seq<byte>)
    ensures DecodeQuanta(Encode(b)) == Some(b)
    decreases |b|
  {
    if 1 <= |b| <= 2 {
      TailDecodes(b);
    } else if |b| >= 3 {
      var q, rest := EncodeQuantum(b[0], b[1], b[2]), Encode(b[3..]);
      QuantumRoundTrip(b[0], b[1], b[2], |rest| == 0);
      DecodeQuantaOfEncode(b[3..]);
      DecodeQuantaCons(q, rest);
      EncodeCons(b);
      assert b == [b[0], b[1], b[2]] + b[3..];
    }
  }

  /** For every byte sequence b, DecodeString(EncodeToString(b)) yields b. */
  lemma RoundTrip(b: seq<byte>)
    ensures Decode(Encode(b)) == Some(b)
  {
    var s := Encode(b);
    assert forall i :: 0 <= i < |s| ==> s[i] != CR && s[i] != LF;
    assert StripNewlines(s) == s;
    DecodeQuantaOfEncode(b);
  }

  /** The encoding is injective: different byte sequences never share an encoding. */
  lemma EncodeInjective(b1: seq<byte>, b2: seq<byte>)
    requires Encode(b1) == Encode(b2)
    ensures b1 == b2
  {
    RoundTrip(b1);
    RoundTrip(b2);
  }

  lemma GroupCount(n: nat)
    ensures (4 * ((n + 2) / 3)) % 4 == 0
    ensures n > 0 ==> 4 * ((n + 2) / 3) > n
  {
    var k := (n + 2) / 3;
    assert 3 * k >= n;
  }

  /** An encoding is never shorter than its input, and longer whenever the input is non-empty. */
  lemma EncodeLonger(b: seq<byte>)
    ensures |Encode(b)| % 4 == 0
    ensures |b| > 0 ==> |Encode(b)| > |b|
  {
    GroupCount(|b|);
  }

  /** Encoding input cut after a multiple of three bytes is encoding the whole. */
  lemma {:induction false} EncodeAppendAligned(b1: seq<byte>, b2: seq<byte>)
    requires |b1| % 3 == 0
    ensures Encode(b1 + b2) == Encode(b1) + Encode(b2)
    decreases |b1|
  {
    if |b1| > 0 {
      var b := b1 + b2;
      assert |b1| >= 3 && |b1[3..]| % 3 == 0;
      assert b[0] == b1[0] && b[1] == b1[1] && b[2] == b1[2];
      assert b[3..] == b1[3..] + b2;
      EncodeAppendAligned(b1[3..], b2);
      EncodeCons(b);
      EncodeCons(b1);
    } else {
      assert b1 + b2 == b2;
    }
  }

  /** Encoded input whose final group is padded cannot be followed by more groups. */
  lemma {:induction false} PaddedPrefixUndecodable(b1: seq<byte>, t: seq<byte>)
    requires |b1| % 3 != 0 && |t| > 0
    ensures DecodeQuanta(Encode(b1) + t) == None
    decreases |b1|
  {
    if |b1| >= 3 {
      var c := b1[3..];
      assert |c| % 3 != 0;
      PaddedPrefixUndecodable(c, t);
      EncodeCons(b1);
      GroupBeforeUndecodable(EncodeQuantum(b1[0], b1[1], b1[2]), Encode(c), t);
    } else {
      PaddedTailUndecodable(b1, t);
    }
  }

  lemma PaddedTailUndecodable(b1: seq<byte>, t: seq<byte>)
    requires 1 <= |b1| <= 2 && |t| > 0
    ensures DecodeQuanta(Encode(b1) + t) == None
  {
    var q := EncodeTail(b1);
    assert Encode(b1) == q;
    PaddedGroupNotLast(q);
    DecodeQuantaConsNone(q, t);
  }

  /** A padded group is malformed anywhere but at the end. */
  lemma PaddedGroupNotLast(q: seq<byte>)
    requires |q| == 4 && q[3] == Pad
    ensures DecodeQuantum(q, false) == None
  {
  }

  /** Two pieces encoded separately, the first not a multiple of three bytes long, do not decode
      as one stream, and differ from the encoding of the two pieces joined. */
  lemma SplitEncodingUndecodable(b1: seq<byte>, b2: seq<byte>)
    requires |b1| % 3 != 0 && |b2| > 0
    ensures Decode(Encode(b1) + Encode(b2)) == None
    ensures Encode(b1) + Encode(b2) != Encode(b1 + b2)
  {
    var s := Encode(b1) + Encode(b2);
    assert forall i :: 0 <= i < |s| ==> s[i] != CR && s[i] != LF by {
      forall i | 0 <= i < |s| ensures s[i] != CR && s[i] != LF {
        if i < |Encode(b1)| {
          assert s[i] == Encode(b1)[i];
        } else {
          assert s[i] == Encode(b2)[i - |Encode(b1)|];
        }
      }
    }
    PaddedPrefixUndecodable(b1, Encode(b2));
    RoundTrip(b1 + b2);
  }

  /** True when the symbol before the padding has zero low bits, as an encoder always writes it. */
  predicate PadBitsZero(s: seq<byte>) {
    |s| >= 4 ==>
      && (s[|s| - 2] == Pad && IsSymbol(s[|s| - 3]) ==> Value(s[|s| - 3]) % 16 == 0)
      && (s[|s| - 1] == Pad && IsSymbol(s[|s| - 2]) ==> Value(s[|s| - 2]) % 4 == 0)
  }

  lemma {:induction false} EncodePadBitsZero(b: seq<byte>)
    ensures PadBitsZero(Encode(b))
    decreases |b|
  {
    if |b| == 1 {
      ValueOfSymbol(b[0] % 4 * 16);
    } else if |b| == 2 {
      ValueOfSymbol(b[1] % 16 * 4);
    } else if |b| >= 3 {
      EncodePadBitsZero(b[3..]);
      var s, t := Encode(b), Encode(b[3..]);
      if |t| > 0 {
        assert s[|s| - 3..] == t[|t| - 3..];
      }
    }
  }

  lemma ReencodeFull(a: Sextet, b: Sextet, c: Sextet, e: Sextet)
    ensures Encode(Assemble(a, b, c, e)) == [Symbol(a), Symbol(b), Symbol(c), Symbol(e)]
  {
    var d := Assemble(a, b, c, e);
    SextetBits(a, b, c, e);
    assert d[0] / 4 == a;
    assert d[0] % 4 * 16 + d[1] / 16 == b;
    assert d[1] % 16 * 4 + d[2] / 64 == c;
    assert d[2] % 64 == e;
    EncodeCons(d);
    assert Encode(d[3..]) == [];
  }

  lemma TwoBits(a: int, b: int, c: int)
    requires 0 <= a < 64 && 0 <= b < 64 && 0 <= c < 64 && c % 4 == 0
    ensures (a * 4 + b / 16) / 4 == a
    ensures (a * 4 + b / 16) % 4 * 16 + (b % 16 * 16 + c / 4) / 16 == b
    ensures (b % 16 * 16 + c / 4) % 16 * 4 == c
  {
  }

  lemma ReencodeTwo(a: Sextet, b: Sextet, c: Sextet)
    requires c % 4 == 0
    ensures Encode(Assemble(a, b, c, 0)[..2]) == [Symbol(a), Symbol(b), Symbol(c), Pad]
  {
    var d := Assemble(a, b, c, 0)[..2];
    var x, y := a * 4 + b / 16, b % 16 * 16 + c / 4;
    assert d == [x, y];
    TwoBits(a, b, c);
    assert Encode(d) == EncodeTail(d);
  }

  lemma ReencodeOne(a: Sextet, b: Sextet)
    requires b % 16 == 0
    ensures Encode(Assemble(a, b, 0, 0)[..1]) == [Symbol(a), Symbol(b), Pad, Pad]
  {
    var d := Assemble(a, b, 0, 0)[..1];
    var x := a * 4 + b / 16;
    assert d == [x];
    assert x / 4 == a && x % 4 * 16 == b;
    assert Encode(d) == EncodeTail(d);
  }

  /** A final group whose dropped bits are zero is re-encoded exactly. */
  lemma EncodeDecodedQuantum(q: seq<byte>, last: bool)
    requires |q| == 4 && DecodeQuantum(q, last).Some? && PadBitsZero(q)
    ensures Encode(DecodeQuantum(q, last).value) == q
  {
    if IsSymbol(q[2]) && IsSymbol(q[3]) {
      ReencodeFull(Value(q[0]), Value(q[1]), Value(q[2]), Value(q[3]));
    } else if IsSymbol(q[2]) {
      assert q[3] == Pad;
      ReencodeTwo(Value(q[0]), Value(q[1]), Value(q[2]));
    } else {
      assert q[2] == Pad && q[3] == Pad;
      ReencodeOne(Value(q[0]), Value(q[1]));
    }
  }

  lemma PadBitsZeroSuffix(s: seq<byte>)
    requires |s| > 4 && PadBitsZero(s)
    ensures PadBitsZero(s[4..])
  {
    var r := s[4..];
    if |r| >= 4 {
      assert r[|r| - 3] == s[|s| - 3] && r[|r| - 2] == s[|s| - 2] && r[|r| - 1] == s[|s| - 1];
    }
  }

  /** A single final group with zero bits before its padding re-encodes to itself. */
  lemma CanonicalSingle(s: seq<byte>)
    requires |s| == 4 && DecodeQuanta(s).Some? && PadBitsZero(s)
    ensures Encode(DecodeQuanta(s).value) == s
  {
    DecodeQuantaSingle(s);
    EncodeDecodedQuantum(s, true);
  }

  /** An unpadded group in front of a canonical rest re-encodes with it. */
  lemma CanonicalCons(s: seq<byte>)
    requires |s| > 4 && DecodeQuanta(s).Some? && PadBitsZero(s)
    requires Encode(DecodeQuanta(s[4..]).value) == s[4..]
    ensures Encode(DecodeQuanta(s).value) == s
  {
    var q, rest := s[..4], s[4..];
    DecodeQuantaCons(q, rest);
    assert s == q + rest;
    var dq := DecodeQuantum(q, false).value;
    assert PadBitsZero(q);
    EncodeDecodedQuantum(q, false);
    EncodeAppendAligned(dq, DecodeQuanta(rest).value);
  }

  /** A decodable input is exactly the encoding of what it decodes to if and only if the bits
      dropped before its padding are zero: the decoder accepts non-canonical encodings too. */
  lemma {:induction false} CanonicalIff(s: seq<byte>)
    requires DecodeQuanta(s).Some?
    ensures Encode(DecodeQuanta(s).value) == s <==> PadBitsZero(s)
    decreases |s|
  {
    var d := DecodeQuanta(s).value;
    if Encode(d) == s {
      EncodePadBitsZero(d);
    }
    if PadBitsZero(s) && |s| == 4 {
      CanonicalSingle(s);
    } else if PadBitsZero(s) && |s| > 4 {
      DecodeQuantaCons(s[..4], s[4..]);
      assert s == s[..4] + s[4..];
      PadBitsZeroSuffix(s);
      CanonicalIff(s[4..]);
      CanonicalCons(s);
    }
  }

  /** DecodeString's input is exactly the encoding of what it decodes to if and only if it holds
      no line break and the bits dropped before its padding are zero. */
  lemma CanonicalDecode(s: seq<byte>)
    requires Decode(s).Some?
    ensures Encode(Decode(s).value) == s <==>
      (forall i :: 0 <= i < |s| ==> s[i] != CR && s[i] != LF) && PadBitsZero(s)
  {
    if forall i :: 0 <= i < |s| ==> s[i] != CR && s[i] != LF {
      assert StripNewlines(s) == s;
      CanonicalIff(s);
    } else {
      var i :| 0 <= i < |s| && (s[i] == CR || s[i] == LF);
      var e := Encode(Decode(s).value);
      assert i >= |e| || e[i] != s[i];
    }
  }

  /** A carriage return or line feed anywhere in the input does not change what it decodes to. */
  lemma DecodeIgnoresLineBreak(x: seq<byte>, y: seq<byte>, c: byte)
    requires c == CR || c == LF
    ensures Decode(x + [c] + y) == Decode(x + y)
  {
    assert StripNewlines([c]) == [] by {
      assert [c][1..] == [];
    }
    StripConcat(x + [c], y);
    StripConcat(x, [c]);
    StripConcat(x, y);
    assert StripNewlines(x) + [] == StripNewlines(x);
  }

  /** "QQ==" is the encoding of "A". */
  lemma EncodeOfA()
    ensures Encode(Ascii("A")) == Ascii("QQ==")
  {
    assert Ascii("A") == [65] && Ascii("QQ==") == [81, 81, 61, 61];
    assert Encode([65]) == EncodeTail([65]);
  }

  /** Go's decoder accepts inputs that are not canonical encodings: "QR==" (non-zero bits
      before the padding) and "QQ==" followed by a line break decode to "A" as well, though
      the encoding of "A" is "QQ==". */
  lemma NonCanonicalAccepted()
    ensures Decode(Ascii("QR==")) == Some(Ascii("A"))
    ensures Decode(Ascii("QQ==") + [LF]) == Some(Ascii("A"))
  {
    assert Ascii("A") == [65] && Ascii("QR==") == [81, 82, 61, 61] && Ascii("QQ==") == [81, 81, 61, 61];
    DecodeNonZeroPadBits([65], [81, 82, 61, 61]);
    DecodeWithLineBreak([65], [81, 81, 61, 61]);
  }

  lemma DecodeNonZeroPadBits(a: seq<byte>, qr: seq<byte>)
    requires a == [65] && qr == [81, 82, 61, 61]
    ensures Decode(qr) == Some(a)
  {
    assert StripNewlines(qr) == qr;
    DecodeQuantaSingle(qr);
    assert Value(81) == 16 && Value(82) == 17;
    assert Assemble(16, 17, 0, 0)[..1] == a;
  }

  lemma DecodeWithLineBreak(a: seq<byte>, qq: seq<byte>)
    requires a == [65] && qq == [81, 81, 61, 61]
    ensures Decode(qq + [LF]) == Some(a)
  {
    EncodeOfA();
    assert Encode(a) == qq;
    RoundTrip(a);
    DecodeIgnoresLineBreak(qq, [], LF);
    assert qq + [LF] + [] == qq + [LF] && qq + [] == qq;
  }
}
