/** Python's `json.dumps` applied to a flat dict of strings, with its default
    settings: `ensure_ascii=True`, item separator `", "`, key separator `": "`,
    keys in insertion order. Strings are escaped as the standard library's
    `py_encode_basestring_ascii` does. The reader is a JSON string and object
    parser in the sense of sections 4 and 7 of RFC 8259, restricted to the
    separators `dumps` writes; it is the partner the writer is proved against. */
module Json {
  import opened Results
  import opened Text

  /** The characters `ensure_ascii` leaves alone (the class `[ -~]`), except
      that `"` and `\` are escaped all the same. */
  predicate Printable(c: char) { ' ' <= c <= '~' }

  predicate AllPrintable(s: string)
  {
    forall i :: 0 <= i < |s| ==> Printable(s[i])
  }

  lemma PrintableConcat(a: string, b: string)
    requires AllPrintable(a) && AllPrintable(b)
    ensures AllPrintable(a + b)
  {
    forall i | 0 <= i < |a + b| ensures Printable((a + b)[i]) {
      if i >= |a| { assert (a + b)[i] == b[i - |a|]; }
    }
  }

  // ---------------------------------------------------------------------------
  // \uXXXX escapes

  /** A lower-case hexadecimal digit, as `'{0:04x}'.format(n)` writes it. */
  function HexDigit(d: nat): (c: char)
    requires d < 16
    ensures Printable(c) && HexValue(c) == Some(d)
  {
    if d < 10 then ('0' as int + d) as char else ('a' as int + (d - 10)) as char
  }

  /** The value of a hexadecimal digit of either case. */
  function HexValue(c: char): (r: Option<nat>)
    ensures r.Some? ==> r.value < 16
  {
    if '0' <= c <= '9' then Some(c as int - '0' as int)
    else if 'a' <= c <= 'f' then Some(c as int - 'a' as int + 10)
    else if 'A' <= c <= 'F' then Some(c as int - 'A' as int + 10)
    else None
  }

  /** `'{0:04x}'.format(n)` for a 16-bit code unit. */
  function Hex4(n: nat): (r: string)
    requires n < 0x10000
    ensures |r| == 4 && AllPrintable(r)
  {
    [HexDigit(n / 16 / 16 / 16), HexDigit(n / 16 / 16 % 16), HexDigit(n / 16 % 16), HexDigit(n % 16)]
  }

  /** The 16-bit code unit four hexadecimal digits denote. */
  function ParseHex4(s: string): (r: Option<nat>)
    requires |s| == 4
    ensures r.Some? ==> r.value < 0x10000
  {
    match (HexValue(s[0]), HexValue(s[1]), HexValue(s[2]), HexValue(s[3]))
    case (Some(a), Some(b), Some(c), Some(d)) => Some(a * 4096 + b * 256 + c * 16 + d)
    case _ => None
  }

  lemma Hex4RoundTrip(n: nat)
    requires n < 0x10000
    ensures ParseHex4(Hex4(n)) == Some(n)
  {
    var q1 := n / 16;
    var q2 := q1 / 16;
    var q3 := q2 / 16;
    assert n == q1 * 16 + n % 16;
    assert q1 == q2 * 16 + q1 % 16;
    assert q2 == q3 * 16 + q2 % 16;
    assert q3 < 16;
  }

  /** `\uXXXX` for one UTF-16 code unit. */
  function UnicodeEscape(n: nat): (r: string)
    requires n < 0x10000
    ensures |r| == 6 && AllPrintable(r)
  {
    "\\u" + Hex4(n)
  }

  // ---------------------------------------------------------------------------
  // The writer

  /** The two-character escapes of `ESCAPE_DCT`: backslash, quote, backspace,
      form feed, newline, carriage return and tab, each as `\` and a letter. */
  function ShortEscape(c: char): (r: Option<char>)
    ensures r.Some? ==> Printable(r.value) && r.value != 'u'
  {
    if c == '\\' then Some('\\')
    else if c == '"' then Some('"')
    else if c as int == 8 then Some('b')
    else if c as int == 12 then Some('f')
    else if c == '\n' then Some('n')
    else if c == '\r' then Some('r')
    else if c == '\t' then Some('t')
    else None
  }

  /** The character a two-character escape stands for (section 7 of RFC 8259;
      `\/` is accepted though `dumps` never writes it). */
  function ShortUnescape(x: char): (r: Option<char>)
  {
    if x == '"' then Some('"')
    else if x == '\\' then Some('\\')
    else if x == '/' then Some('/')
    else if x == 'b' then Some(8 as char)
    else if x == 'f' then Some(12 as char)
    else if x == 'n' then Some('\n')
    else if x == 'r' then Some('\r')
    else if x == 't' then Some('\t')
    else None
  }

  /** The replacement `py_encode_basestring_ascii` makes for one character:
      a two-character escape from the table above; `\u00XX` for the other
      control characters; the character itself when it is in `[ -~]`;
      otherwise `\uXXXX`, or a UTF-16 surrogate pair of such escapes above U+FFFF. */
  function EscapeChar(c: char): (r: string)
    ensures 1 <= |r| && AllPrintable(r)
  {
    var n := c as int;
    if ShortEscape(c).Some? then ['\\', ShortEscape(c).value]
    else if Printable(c) then [c]
    else if n < 0x10000 then UnicodeEscape(n)
    else
      // n - 0x10000 has 20 bits: the high ten go to the first code unit,
      // the low ten to the second (`(n >> 10) & 0x3ff` and `n & 0x3ff`).
      var m := n - 0x10000;
      PrintableConcat(UnicodeEscape(0xD800 + m / 1024), UnicodeEscape(0xDC00 + m % 1024));
      UnicodeEscape(0xD800 + m / 1024) + UnicodeEscape(0xDC00 + m % 1024)
  }

  /** The body of the quoted string `json.dumps` writes for `s`. */
  function Escape(s: string): (r: string)
    ensures |r| >= |s|
    decreases |s|
  {
    if |s| == 0 then "" else EscapeChar(s[0]) + Escape(s[1..])
  }

  /** One `"key": "value"` member. */
  function Member(p: (string, string)): (r: string)
    ensures |r| >= 6 && r[0] == '"' && r[|r| - 1] == '"'
  {
    "\"" + Escape(p.0) + "\": \"" + Escape(p.1) + "\""
  }

  /** The members, separated by `", "`. */
  function Members(ps: seq<(string, string)>): (r: string)
    ensures |ps| > 0 ==> |r| >= 6 && r[0] == '"' && r[|r| - 1] == '"'
    decreases |ps|
  {
    if |ps| == 0 then ""
    else if |ps| == 1 then Member(ps[0])
    else Member(ps[0]) + ", " + Members(ps[1..])
  }

  /** `json.dumps(d)` for a dict `d` of strings whose items, in insertion
      order, are `ps`. */
  function Dumps(ps: seq<(string, string)>): (r: string)
    ensures |r| >= 2 && r[0] == '{' && r[|r| - 1] == '}'
    ensures |ps| > 0 ==> r[1] == '"'
  {
    "{" + Members(ps) + "}"
  }

  /** The escaped body of a string uses only `[ -~]`. */
  lemma {:induction false} EscapePrintable(s: string)
    ensures AllPrintable(Escape(s))
    decreases |s|
  {
    if |s| > 0 {
      EscapePrintable(s[1..]);
      PrintableConcat(EscapeChar(s[0]), Escape(s[1..]));
    }
  }

  /** One member is printable ASCII. */
  lemma MemberPrintable(p: (string, string))
    ensures AllPrintable(Member(p))
  {
    var k, v := Escape(p.0), Escape(p.1);
    EscapePrintable(p.0);
    EscapePrintable(p.1);
    PrintableConcat("\"", k);
    PrintableConcat("\"" + k, "\": \"");
    PrintableConcat("\"" + k + "\": \"", v);
    PrintableConcat("\"" + k + "\": \"" + v, "\"");
  }

  lemma {:induction false} MembersPrintable(ps: seq<(string, string)>)
    ensures AllPrintable(Members(ps))
    decreases |ps|
  {
    if |ps| > 0 {
      MemberPrintable(ps[0]);
      if |ps| > 1 {
        MembersPrintable(ps[1..]);
        PrintableConcat(Member(ps[0]), ", ");
        PrintableConcat(Member(ps[0]) + ", ", Members(ps[1..]));
      }
    }
  }

  /** The text `json.dumps` writes is printable ASCII whatever the strings
      hold, so the `.encode('ascii')` that follows it cannot fail. */
  lemma DumpsAscii(ps: seq<(string, string)>)
    ensures AllPrintable(Dumps(ps)) && IsAscii(Dumps(ps))
  {
    MembersPrintable(ps);
    PrintableConcat("{", Members(ps));
    PrintableConcat("{" + Members(ps), "}");
  }

  // ---------------------------------------------------------------------------
  // The reader

  /** One step of reading a string body: the closing quote, or one character. */
  datatype ReadStep = Closed(rest: string) | Unit(c: char, rest: string)

  /** After `\u`: one code unit, or a surrogate pair standing for one character. */
  function ReadUnicode(t: string): (r: Option<ReadStep>)
    ensures r.Some? ==> r.value.Unit? && |r.value.rest| < |t|
  {
    if |t| < 4 then None
    else
      match ParseHex4(t[..4])
      case None => None
      case Some(n) =>
        if 0xD800 <= n < 0xDC00 then
          if 10 <= |t| && t[4] == '\\' && t[5] == 'u' then
            match ParseHex4(t[6..10])
            case None => None
            case Some(m) =>
              if 0xDC00 <= m < 0xE000
              then Some(Unit((0x10000 + (n - 0xD800) * 1024 + (m - 0xDC00)) as char, t[10..]))
              else None
          else None
        else if 0xDC00 <= n < 0xE000 then None
        else Some(Unit(n as char, t[4..]))
  }

  /** After a backslash: the escape it begins (section 7 of RFC 8259). */
  function ReadEscape(t: string): (r: Option<ReadStep>)
    ensures r.Some? ==> r.value.Unit? && |r.value.rest| < |t|
  {
    if |t| == 0 then None
    else if t[0] == 'u' then ReadUnicode(t[1..])
    else
      match ShortUnescape(t[0])
      case None => None
      case Some(c) => Some(Unit(c, t[1..]))
  }

  /** One step inside a string: unescaped control characters are refused. */
  function ReadUnit(t: string): (r: Option<ReadStep>)
    ensures r.Some? ==> |r.value.rest| < |t|
  {
    if |t| == 0 then None
    else if t[0] == '"' then Some(Closed(t[1..]))
    else if t[0] == '\\' then ReadEscape(t[1..])
    else if (t[0] as int) < 0x20 then None
    else Some(Unit(t[0], t[1..]))
  }

  /** Reads a string body up to its closing quote; gives the string and what follows. */
  function ReadString(t: string): (r: Option<(string, string)>)
    ensures r.Some? ==> |r.value.1| < |t|
    decreases |t|
  {
    match ReadUnit(t)
    case None => None
    case Some(Closed(rest)) => Some(("", rest))
    case Some(Unit(c, rest)) =>
      match ReadString(rest)
      case None => None
      case Some((s, after)) => Some(([c] + s, after))
  }

  /** Reads `"key": "value"`; gives the pair and what follows. */
  function ParseMember(t: string): (r: Option<((string, string), string)>)
    ensures r.Some? ==> |r.value.1| < |t|
  {
    if |t| == 0 || t[0] != '"' then None
    else
      match ReadString(t[1..])
      case None => None
      case Some((k, r1)) =>
        if |r1| < 3 || r1[..3] != ": \"" then None
        else
          match ReadString(r1[3..])
          case None => None
          case Some((v, r2)) => Some(((k, v), r2))
  }

  /** Reads members separated by `", "` up to the closing brace. */
  function ParseMembers(t: string): (r: Option<seq<(string, string)>>)
    decreases |t|
  {
    match ParseMember(t)
    case None => None
    case Some((p, rest)) =>
      if rest == "}" then Some([p])
      else if |rest| < 2 || rest[..2] != ", " then None
      else
        match ParseMembers(rest[2..])
        case None => None
        case Some(ps) => Some([p] + ps)
  }

  /** Reads an object in the layout `json.dumps` writes. */
  function ParseObject(t: string): (r: Option<seq<(string, string)>>)
  {
    if t == "{}" then Some([])
    else if |t| == 0 || t[0] != '{' then None
    else ParseMembers(t[1..])
  }

  // ---------------------------------------------------------------------------
  // Round trips

  /** The surrogate pair written for a character above U+FFFF reads back as it. */
  lemma SurrogatePair(c: char)
    requires 0x10000 <= c as int
    ensures
      var m := c as int - 0x10000;
      var hi, lo := 0xD800 + m / 1024, 0xDC00 + m % 1024;
      0xD800 <= hi < 0xDC00 && 0xDC00 <= lo < 0xE000 &&
      0x10000 + (hi - 0xD800) * 1024 + (lo - 0xDC00) == c as int
  {
  }

  lemma ReadShortEscape(c: char, t: string)
    requires ShortEscape(c).Some?
    ensures ReadUnit(EscapeChar(c) + t) == Some(Unit(c, t))
  {
    var x := ShortEscape(c).value;
    var u := ['\\', x] + t;
    assert EscapeChar(c) + t == u;
    assert u[1..] == [x] + t;
    assert ([x] + t)[1..] == t;
  }

  lemma ReadPlainChar(c: char, t: string)
    requires ShortEscape(c).None? && Printable(c)
    ensures ReadUnit(EscapeChar(c) + t) == Some(Unit(c, t))
  {
    assert EscapeChar(c) + t == [c] + t;
    assert ([c] + t)[1..] == t;
  }

  /** `\uXXXX` followed by `t` reads as the code unit and `t`. */
  lemma ReadCodeUnit(n: nat, t: string)
    requires n < 0x10000
    ensures var u := UnicodeEscape(n) + t;
      u[0] == '\\' && u[1..][0] == 'u' && u[2..][..4] == Hex4(n) && u[2..][4..] == t
  {
  }

  lemma ReadBmpChar(c: char, t: string)
    requires ShortEscape(c).None? && !Printable(c) && c as int < 0x10000
    ensures ReadUnit(EscapeChar(c) + t) == Some(Unit(c, t))
  {
    var n := c as int;
    Hex4RoundTrip(n);
    ReadCodeUnit(n, t);
    assert EscapeChar(c) == UnicodeEscape(n);
    var u := UnicodeEscape(n) + t;
    assert ReadUnit(u) == ReadEscape(u[1..]);
    assert ReadEscape(u[1..]) == ReadUnicode(u[2..]);
  }

  /** A high and a low surrogate escape, read after the first `\u`, give one character. */
  lemma ReadSurrogates(hi: nat, lo: nat, t: string)
    requires 0xD800 <= hi < 0xDC00 && 0xDC00 <= lo < 0xE000
    ensures
      var n := 0x10000 + (hi - 0xD800) * 1024 + (lo - 0xDC00);
      (n < 0xD800 || 0xE000 <= n < 0x110000) &&
      ReadUnicode(Hex4(hi) + UnicodeEscape(lo) + t) == Some(Unit(n as char, t))
  {
    Hex4RoundTrip(hi);
    Hex4RoundTrip(lo);
    var w := Hex4(hi) + UnicodeEscape(lo) + t;
    assert w[..4] == Hex4(hi);
    assert w[4] == '\\' && w[5] == 'u';
    assert w[6..10] == Hex4(lo);
    assert w[10..] == t;
  }

  lemma ReadSurrogateEscapes(hi: nat, lo: nat, t: string)
    requires 0xD800 <= hi < 0xDC00 && 0xDC00 <= lo < 0xE000
    ensures
      var n := 0x10000 + (hi - 0xD800) * 1024 + (lo - 0xDC00);
      (n < 0xD800 || 0xE000 <= n < 0x110000) &&
      ReadUnit(UnicodeEscape(hi) + UnicodeEscape(lo) + t) == Some(Unit(n as char, t))
  {
    ReadSurrogates(hi, lo, t);
    var u := UnicodeEscape(hi) + UnicodeEscape(lo) + t;
    assert u[1..] == ['u'] + (Hex4(hi) + UnicodeEscape(lo) + t);
  }

  lemma EscapeAstral(c: char)
    requires 0x10000 <= c as int
    ensures var m := c as int - 0x10000;
      EscapeChar(c) == UnicodeEscape(0xD800 + m / 1024) + UnicodeEscape(0xDC00 + m % 1024)
  {
  }

  lemma ReadAstralChar(c: char, t: string)
    requires 0x10000 <= c as int
    ensures ReadUnit(EscapeChar(c) + t) == Some(Unit(c, t))
  {
    var m := c as int - 0x10000;
    var hi, lo := 0xD800 + m / 1024, 0xDC00 + m % 1024;
    SurrogatePair(c);
    var n := 0x10000 + (hi - 0xD800) * 1024 + (lo - 0xDC00);
    assert n as char == c;
    EscapeAstral(c);
    assert EscapeChar(c) + t == UnicodeEscape(hi) + UnicodeEscape(lo) + t;
    ReadSurrogateEscapes(hi, lo, t);
  }

  /** Reading the escape of one character gives the character back. */
  lemma ReadEscapeChar(c: char, t: string)
    ensures ReadUnit(EscapeChar(c) + t) == Some(Unit(c, t))
  {
    if ShortEscape(c).Some? {
      ReadShortEscape(c, t);
    } else if Printable(c) {
      ReadPlainChar(c, t);
    } else if c as int < 0x10000 {
      ReadBmpChar(c, t);
    } else {
      ReadAstralChar(c, t);
    }
  }

  /** Reading an escaped string body and its closing quote gives the string back. */
  lemma ReadEscaped(s: string, t: string)
    ensures ReadString(Escape(s) + "\"" + t) == Some((s, t))
  {
    var r := "\"" + t;
    assert Escape(s) + "\"" + t == Escape(s) + r;
    assert r[1..] == t;
    ReadEscapedBefore(s, r);
  }

  /** Reading an escaped string body followed by any text that starts with a quote. */
  lemma {:induction false} ReadEscapedBefore(s: string, r: string)
    requires |r| > 0 && r[0] == '"'
    ensures ReadString(Escape(s) + r) == Some((s, r[1..]))
    decreases |s|
  {
    if |s| == 0 {
      assert Escape(s) + r == r;
    } else {
      var rest := Escape(s[1..]) + r;
      EscapeCons(s, r);
      ReadEscapeChar(s[0], rest);
      ReadEscapedBefore(s[1..], r);
      ReadStringCons(s[0], rest, Escape(s) + r, s[1..], r[1..]);
      ConsTail(s);
    }
  }

  /** The escape of a non-empty string begins with the escape of its first character. */
  lemma EscapeCons(s: string, r: string)
    requires |s| > 0
    ensures Escape(s) + r == EscapeChar(s[0]) + (Escape(s[1..]) + r)
  {
    Regroup(Escape(s), EscapeChar(s[0]), Escape(s[1..]), r);
  }

  lemma Regroup(x: string, a: string, b: string, r: string)
    requires x == a + b
    ensures x + r == a + (b + r)
  {
  }

  /** One character read, then the rest of the string. */
  lemma ReadStringCons(c: char, rest: string, u: string, s: string, t: string)
    requires ReadUnit(u) == Some(Unit(c, rest)) && ReadString(rest) == Some((s, t))
    ensures ReadString(u) == Some(([c] + s, t))
  {
  }

  lemma ParseMemberOf(p: (string, string), t: string)
    ensures ParseMember(Member(p) + t) == Some((p, t))
  {
    var a, b := Escape(p.0), Escape(p.1);
    var r2 := b + "\"" + t;
    var r1 := ": \"" + r2;
    MemberText(a, b, t);
    var u := Member(p) + t;
    assert u[1..] == a + "\"" + r1;
    ReadEscaped(p.0, r1);
    assert r1[..3] == ": \"";
    assert r1[3..] == r2;
    ReadEscaped(p.1, t);
  }

  /** The text of a member, regrouped the way the reader consumes it. */
  lemma MemberText(a: string, b: string, t: string)
    ensures "\"" + a + "\": \"" + b + "\"" + t == "\"" + (a + "\"" + (": \"" + (b + "\"" + t)))
  {
    assert "\": \"" == "\"" + ": \"";
  }

  lemma MembersCons(ps: seq<(string, string)>)
    requires |ps| >= 2
    ensures Members(ps) + "}" == Member(ps[0]) + (", " + (Members(ps[1..]) + "}"))
  {
    var a, b := Member(ps[0]), Members(ps[1..]);
    assert Members(ps) == a + ", " + b;
    Associate(a, ", ", b, "}");
  }

  lemma Associate(a: string, b: string, c: string, d: string)
    ensures a + b + c + d == a + (b + (c + d))
  {
  }

  /** One member followed by `", "` and further members. */
  lemma ParseMembersCons(t: string, p: (string, string), tail: string, qs: seq<(string, string)>)
    requires ParseMember(t) == Some((p, ", " + tail))
    requires ParseMembers(tail) == Some(qs)
    ensures ParseMembers(t) == Some([p] + qs)
  {
    var rest := ", " + tail;
    assert rest != "}";
    assert rest[..2] == ", " && rest[2..] == tail;
  }

  lemma {:induction false} ParseMembersOf(ps: seq<(string, string)>)
    requires |ps| >= 1
    ensures ParseMembers(Members(ps) + "}") == Some(ps)
    decreases |ps|
  {
    if |ps| == 1 {
      ParseLastMember(ps);
    } else {
      ParseMembersOf(ps[1..]);
      ParseMembersStep(ps);
    }
  }

  /** A single member followed by the closing brace. */
  lemma ParseLastMember(ps: seq<(string, string)>)
    requires |ps| == 1
    ensures ParseMembers(Members(ps) + "}") == Some(ps)
  {
    assert Members(ps) == Member(ps[0]);
    ParseMemberOf(ps[0], "}");
    assert [ps[0]] == ps;
  }

  /** The first member, then the members after it. */
  lemma ParseMembersStep(ps: seq<(string, string)>)
    requires |ps| >= 2
    requires ParseMembers(Members(ps[1..]) + "}") == Some(ps[1..])
    ensures ParseMembers(Members(ps) + "}") == Some(ps)
  {
    var tail := Members(ps[1..]) + "}";
    MembersCons(ps);
    ParseMemberOf(ps[0], ", " + tail);
    ParseMembersCons(Member(ps[0]) + (", " + tail), ps[0], tail, ps[1..]);
    ConsTail(ps);
  }

  /** The text inside the braces of a non-empty object. */
  lemma Enclosed(m: string, body: string)
    requires body == m + "}" && |m| > 0
    ensures ("{" + m + "}")[1..] == body && ("{" + m + "}")[0] == '{' && "{" + m + "}" != "{}"
  {
  }

  /** Parsing what `json.dumps` wrote gives back the items, in order. */
  lemma DumpsRoundTrip(ps: seq<(string, string)>)
    ensures ParseObject(Dumps(ps)) == Some(ps)
  {
    if |ps| == 0 {
      assert Dumps(ps) == "{}";
    } else {
      ParseMembersOf(ps);
      var body := Members(ps) + "}";
      assert Members(ps)[0] == '"';
      Enclosed(Members(ps), body);
    }
  }
}
