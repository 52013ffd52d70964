/** Base64 as `base64.b64encode(...).decode('ascii')` writes it: the standard
    alphabet and `=` padding of section 4 of RFC 4648, no line breaks. The
    decoder is the strict reading of section 3.5 of RFC 4648 (only alphabet
    characters, padding only at the end, zero pad bits); it is the partner
    against which the encoder is proved. */
module Base64 {
  import opened Results
  import opened Text

  type sextet = x: int | 0 <= x < 64

  /** The 64 characters of the standard alphabet (Table 1 of RFC 4648). */
  predicate InAlphabet(c: char)
  {
    'A' <= c <= 'Z' || 'a' <= c <= 'z' || '0' <= c <= '9' || c == '+' || c == '/'
  }

  /** The value of an alphabet character; `None` for anything else, `=` included. */
  function ValueOf(c: char): (r: Option<sextet>)
    ensures r.Some? <==> InAlphabet(c)
  {
    if 'A' <= c <= 'Z' then Some(c as int - 'A' as int)
    else if 'a' <= c <= 'z' then Some(c as int - 'a' as int + 26)
    else if '0' <= c <= '9' then Some(c as int - '0' as int + 52)
    else if c == '+' then Some(62)
    else if c == '/' then Some(63)
    else None
  }

  /** The character that encodes a 6-bit value. */
  function CharOf(v: sextet): (c: char)
    ensures InAlphabet(c) && ValueOf(c) == Some(v)
  {
    if v < 26 then ('A' as int + v) as char
    else if v < 52 then ('a' as int + (v - 26)) as char
    else if v < 62 then ('0' as int + (v - 52)) as char
    else if v == 62 then '+'
    else '/'
  }

  /** Three bytes, 24 bits, as four characters. */
  function EncodeTriple(a: byte, b: byte, c: byte): seq<char>
  {
    [CharOf(a / 4), CharOf((a % 4) * 16 + b / 16), CharOf((b % 16) * 4 + c / 64), CharOf(c % 64)]
  }

  /** The number of `=` characters that end the encoding of `n` bytes. */
  function PadLength(n: nat): nat
  {
    (3 - n % 3) % 3
  }

  /** base64.b64encode: every three bytes become four characters; a final one
      or two bytes become two or three characters followed by `=` padding. */
  function Encode(s: seq<byte>): (r: seq<char>)
    ensures |r| == 4 * ((|s| + 2) / 3)
    decreases |s|
  {
    if |s| == 0 then []
    else if |s| == 1 then [CharOf(s[0] / 4), CharOf((s[0] % 4) * 16), '=', '=']
    else if |s| == 2 then [CharOf(s[0] / 4), CharOf((s[0] % 4) * 16 + s[1] / 16), CharOf((s[1] % 16) * 4), '=']
    else
      assert (|s| + 2) / 3 == (|s[3..]| + 2) / 3 + 1;
      EncodeTriple(s[0], s[1], s[2]) + Encode(s[3..])
  }

  /** The encoding uses only the alphabet and `=`, and `=` only as the last
      `PadLength` characters. */
  lemma {:induction false} EncodeShape(s: seq<byte>)
    ensures forall i :: 0 <= i < |Encode(s)| ==>
      (Encode(s)[i] == '=' <==> |Encode(s)| - PadLength(|s|) <= i) && (InAlphabet(Encode(s)[i]) || Encode(s)[i] == '=')
    decreases |s|
  {
    if |s| >= 3 {
      EncodeShape(s[3..]);
      var r, e, rest := Encode(s), EncodeTriple(s[0], s[1], s[2]), Encode(s[3..]);
      assert r == e + rest;
      assert PadLength(|s|) == PadLength(|s| - 3);
      forall i | 0 <= i < |r|
        ensures (r[i] == '=' <==> |r| - PadLength(|s|) <= i) && (InAlphabet(r[i]) || r[i] == '=')
      {
        if i >= 4 {
          assert r[i] == rest[i - 4];
          assert |r| == |rest| + 4;
          assert (rest[i - 4] == '=' <==> |rest| - PadLength(|s| - 3) <= i - 4);
        } else {
          assert r[i] == e[i] && InAlphabet(e[i]);
          assert PadLength(|s|) <= 2;
        }
      }
    }
  }

  /** Four 6-bit values, 24 bits, as three bytes. */
  function Unpack(w: sextet, x: sextet, y: sextet, z: sextet): (r: seq<byte>)
    ensures |r| == 3
  {
    var w, x, y, z := w as int, x as int, y as int, z as int;
    [w * 4 + x / 16, (x % 16) * 16 + y / 4, (y % 4) * 64 + z]
  }

  /** Four alphabet characters as three bytes. */
  function DecodeQuad(q: seq<char>): (r: Option<seq<byte>>)
    requires |q| == 4
    ensures r.Some? ==> |r.value| == 3
  {
    match (ValueOf(q[0]), ValueOf(q[1]), ValueOf(q[2]), ValueOf(q[3]))
    case (Some(w), Some(x), Some(y), Some(z)) => Some(Unpack(w, x, y, z))
    case _ => None
  }

  /** The last group of four: no padding, `xy==` (one byte) or `xyz=` (two
      bytes); the bits the padding leaves over must be zero. */
  function DecodeLast(q: seq<char>): (r: Option<seq<byte>>)
    requires |q| == 4
    ensures r.Some? ==> 1 <= |r.value| <= 3
  {
    if q[2] == '=' && q[3] == '=' then
      match (ValueOf(q[0]), ValueOf(q[1]))
      case (Some(w), Some(x)) => if x % 16 == 0 then Some(Unpack(w, x, 0, 0)[..1]) else None
      case _ => None
    else if q[3] == '=' then
      match (ValueOf(q[0]), ValueOf(q[1]), ValueOf(q[2]))
      case (Some(w), Some(x), Some(y)) =>
        if y % 4 == 0 then Some(Unpack(w, x, y, 0)[..2]) else None
      case _ => None
    else DecodeQuad(q)
  }

  /** The strict decoder: `None` for any text the encoder cannot produce. */
  function Decode(t: seq<char>): (r: Option<seq<byte>>)
    decreases |t|
  {
    if |t| == 0 then Some([])
    else if |t| < 4 then None
    else if |t| == 4 then DecodeLast(t)
    else
      match DecodeQuad(t[..4])
      case None => None
      case Some(head) =>
        match Decode(t[4..])
        case None => None
        case Some(tail) => Some(head + tail)
  }

  /** Unpacking the four 6-bit groups of three bytes gives back the bytes. */
  lemma UnpackPack(a: byte, b: byte, c: byte)
    ensures Unpack(a / 4, (a % 4) * 16 + b / 16, (b % 16) * 4 + c / 64, c % 64) == [a, b, c]
  {
  }

  lemma UnpackPackOne(a: byte)
    ensures Unpack(a / 4, (a % 4) * 16, 0, 0) == [a, 0, 0]
  {
  }

  lemma UnpackPackTwo(a: byte, b: byte)
    ensures Unpack(a / 4, (a % 4) * 16 + b / 16, (b % 16) * 4, 0) == [a, b, 0]
  {
  }

  /** Four alphabet characters decode to the unpacking of their values. */
  lemma DecodeQuadOf(w: sextet, x: sextet, y: sextet, z: sextet)
    ensures DecodeQuad([CharOf(w), CharOf(x), CharOf(y), CharOf(z)]) == Some(Unpack(w, x, y, z))
  {
  }

  /** `xy==` decodes to one byte when the pad bits of `x` are zero. */
  lemma DecodeLastOne(w: sextet, x: sextet)
    requires x % 16 == 0
    ensures DecodeLast([CharOf(w), CharOf(x), '=', '=']) == Some(Unpack(w, x, 0, 0)[..1])
  {
  }

  /** `xyz=` decodes to two bytes when the pad bits of `y` are zero. */
  lemma DecodeLastTwo(w: sextet, x: sextet, y: sextet)
    requires y % 4 == 0
    ensures DecodeLast([CharOf(w), CharOf(x), CharOf(y), '=']) == Some(Unpack(w, x, y, 0)[..2])
  {
  }

  lemma TripleRoundTrip(a: byte, b: byte, c: byte)
    ensures DecodeQuad(EncodeTriple(a, b, c)) == Some([a, b, c])
  {
    DecodeQuadOf(a / 4, (a % 4) * 16 + b / 16, (b % 16) * 4 + c / 64, c % 64);
    UnpackPack(a, b, c);
  }

  /** The last group when one byte is left over: `xy==`. */
  lemma LastSingle(a: byte)
    ensures DecodeLast([CharOf(a / 4), CharOf((a % 4) * 16), '=', '=']) == Some([a])
  {
    var x := (a % 4) * 16;
    assert x % 16 == 0;
    DecodeLastOne(a / 4, x);
    UnpackPackOne(a);
    assert [a, 0, 0][..1] == [a];
  }

  /** The last group when two bytes are left over: `xyz=`. */
  lemma LastPair(a: byte, b: byte)
    ensures DecodeLast([CharOf(a / 4), CharOf((a % 4) * 16 + b / 16), CharOf((b % 16) * 4), '=']) == Some([a, b])
  {
    var y := (b % 16) * 4;
    assert y % 4 == 0;
    DecodeLastTwo(a / 4, (a % 4) * 16 + b / 16, y);
    UnpackPackTwo(a, b);
    assert [a, b, 0][..2] == [a, b];
  }

  /** Text of exactly one group is decoded as the last group. */
  lemma DecodeOneGroup(t: seq<char>)
    requires |t| == 4
    ensures Decode(t) == DecodeLast(t)
  {
  }

  lemma DecodeEncodeByte(a: byte)
    ensures Decode(Encode([a])) == Some([a])
  {
    var t := [CharOf(a / 4), CharOf((a % 4) * 16), '=', '='];
    assert Encode([a]) == t;
    DecodeOneGroup(t);
    LastSingle(a);
  }

  lemma DecodeEncodePair(a: byte, b: byte)
    ensures Decode(Encode([a, b])) == Some([a, b])
  {
    var t := [CharOf(a / 4), CharOf((a % 4) * 16 + b / 16), CharOf((b % 16) * 4), '='];
    assert Encode([a, b]) == t;
    DecodeOneGroup(t);
    LastPair(a, b);
  }

  lemma DecodeEncodeOne(s: seq<byte>)
    requires |s| == 1
    ensures Decode(Encode(s)) == Some(s)
  {
    assert [s[0]] == s;
    DecodeEncodeByte(s[0]);
  }

  lemma DecodeEncodeTwo(s: seq<byte>)
    requires |s| == 2
    ensures Decode(Encode(s)) == Some(s)
  {
    assert [s[0], s[1]] == s;
    DecodeEncodePair(s[0], s[1]);
  }

  /** A full group in front of the rest of the text. */
  lemma DecodeFullGroup(a: byte, b: byte, c: byte, rest: seq<char>, tail: seq<byte>)
    requires Decode(rest) == Some(tail)
    ensures Decode(EncodeTriple(a, b, c) + rest) == Some([a, b, c] + tail)
  {
    TripleRoundTrip(a, b, c);
    var t := EncodeTriple(a, b, c) + rest;
    if |rest| == 0 {
      assert t == EncodeTriple(a, b, c);
      assert DecodeLast(t) == DecodeQuad(t);
      assert [a, b, c] + tail == [a, b, c];
    } else {
      assert |rest| >= 4;
      assert t[..4] == EncodeTriple(a, b, c);
      assert t[4..] == rest;
    }
  }

  /** Decoding an encoding gives back the bytes (the round trip of vmess.py:19). */
  lemma {:induction false} DecodeEncode(s: seq<byte>)
    ensures Decode(Encode(s)) == Some(s)
    decreases |s|
  {
    if |s| == 1 {
      DecodeEncodeOne(s);
    } else if |s| == 2 {
      DecodeEncodeTwo(s);
    } else if |s| >= 3 {
      DecodeEncode(s[3..]);
      DecodeFullGroup(s[0], s[1], s[2], Encode(s[3..]), s[3..]);
      EncodeGroup(s);
      FirstThree(s);
    }
  }

  /** The encoding of three or more bytes begins with a full group. */
  lemma EncodeGroup(s: seq<byte>)
    requires |s| >= 3
    ensures Encode(s) == EncodeTriple(s[0], s[1], s[2]) + Encode(s[3..])
  {
  }

  lemma FirstThree<T>(s: seq<T>)
    requires |s| >= 3
    ensures [s[0], s[1], s[2]] + s[3..] == s
  {
  }
}
