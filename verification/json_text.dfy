/**
 * The part of `json.dumps` / `json.loads` that a flat object of strings,
 * floats and `None` needs: `ensure_ascii` string escaping, compact
 * separators `,` and `:`, and a reader that takes the text back apart.
 */
module JsonText {
  import opened Wrappers
  import opened Digits
  import opened Floats

  datatype Json = JNull | JString(str: string) | JNumber(num: Float)

  type Member = (string, Json)

  // ---------------------------------------------------------------------
  // Hexadecimal, lower case, as in `'\\u{0:04x}'.format(n)`.

  predicate IsHexDigit(c: char) {
    IsDigit(c) || 'a' <= c <= 'f' || 'A' <= c <= 'F'
  }

  function HexValue(c: char): (d: nat)
    requires IsHexDigit(c)
    ensures d < 16
  {
    if IsDigit(c) then DigitValue(c)
    else if 'a' <= c <= 'f' then c as int - 'a' as int + 10
    else c as int - 'A' as int + 10
  }

  function HexChar(d: nat): (c: char)
    requires d < 16
    ensures IsHexDigit(c) && HexValue(c) == d
  {
    if d < 10 then DigitChar(d) else ('a' as int + d - 10) as char
  }

  predicate AllHex(s: string) {
    forall i :: 0 <= i < |s| ==> IsHexDigit(s[i])
  }

  function HexDigitsValue(s: string): nat
    requires AllHex(s)
  {
    if s == [] then 0 else 16 * HexDigitsValue(s[..|s| - 1]) + HexValue(s[|s| - 1])
  }

  function Pow16(n: nat): (r: nat)
    ensures r >= 1
  {
    if n == 0 then 1 else 16 * Pow16(n - 1)
  }

  /** `w` lower-case hexadecimal digits of `n`, zero-padded. */
  function HexDigits(n: nat, w: nat): (s: string)
    requires n < Pow16(w)
    ensures |s| == w && AllHex(s) && HexDigitsValue(s) == n
    ensures forall i :: 0 <= i < |s| ==> ' ' < s[i] <= '~'
  {
    if w == 0 then ""
    else
      var p := HexDigits(n / 16, w - 1);
      var s := p + [HexChar(n % 16)];
      assert s[..|p|] == p;
      s
  }

  lemma {:induction false} HexDigitsValueBound(s: string)
    requires AllHex(s)
    ensures HexDigitsValue(s) < Pow16(|s|)
  {
    if s != [] {
      HexDigitsValueBound(s[..|s| - 1]);
    }
  }

  function ParseHex4(s: string): (r: Option<(nat, string)>)
    ensures r.Some? ==> r.value.0 < 0x10000 && |r.value.1| + 4 == |s|
  {
    if |s| >= 4 && AllHex(s[..4]) then
      HexDigitsValueBound(s[..4]);
      assert Pow16(4) == 0x10000;
      Some((HexDigitsValue(s[..4]), s[4..]))
    else None
  }

  lemma ParseHex4Of(n: nat, rest: string)
    requires n < 0x10000
    ensures ParseHex4(HexDigits(n, 4) + rest) == Some((n, rest))
  {
    assert Pow16(4) == 0x10000;
    var s := HexDigits(n, 4) + rest;
    assert s[..4] == HexDigits(n, 4);
    assert s[4..] == rest;
  }

  // ---------------------------------------------------------------------
  // Strings.

  /** `\uXXXX` for a UTF-16 code unit. */
  function UnitEscape(u: nat): (s: string)
    requires u < 0x10000
    ensures |s| == 6 && s[0] == '\\' && s[1] == 'u'
  {
    assert Pow16(4) == 0x10000;
    "\\u" + HexDigits(u, 4)
  }

  /** The characters `json` writes as a backslash and one letter. */
  predicate ShortEscaped(c: char) {
    c == '\\' || c == '"' || c == 8 as char || c == 12 as char || c == '\n' || c == '\r' || c == '\t'
  }

  /** How `ensure_ascii` writes one character inside a JSON string. */
  function EscapeChar(c: char): (s: string)
    ensures |s| >= 1
    ensures s[0] == '\\' || (s == [c] && ' ' <= c <= '~' && c != '"' && c != '\\')
  {
    if c == '\\' then "\\\\"
    else if c == '"' then "\\\""
    else if c == 8 as char then "\\b"
    else if c == 12 as char then "\\f"
    else if c == '\n' then "\\n"
    else if c == '\r' then "\\r"
    else if c == '\t' then "\\t"
    else if ' ' <= c <= '~' then [c]
    else if c as int < 0x10000 then UnitEscape(c as int)
    else SurrogatePair(c)
  }

  /** A character beyond the BMP, written as the `\u` escapes of its UTF-16 surrogate pair. */
  function SurrogatePair(c: char): (s: string)
    requires c as int >= 0x10000
    ensures |s| == 12 && s[0] == '\\'
  {
    var n := c as int - 0x10000;
    UnitEscape(0xD800 + n / 0x400) + UnitEscape(0xDC00 + n % 0x400)
  }

  function Escape(s: string): string {
    if s == [] then "" else EscapeChar(s[0]) + Escape(s[1..])
  }

  function Quote(s: string): string {
    "\"" + Escape(s) + "\""
  }

  /** Reads a `\uXXXX` escape; a high surrogate must be followed by a low one. */
  function ParseUnicodeEscape(s: string): (r: Option<(char, string)>)
    ensures r.Some? ==> |r.value.1| < |s|
  {
    var hi :- ParseHex4(s);
    if 0xD800 <= hi.0 < 0xDC00 then
      var r1 :- if |hi.1| >= 2 && hi.1[0] == '\\' && hi.1[1] == 'u' then Some(hi.1[2..]) else None;
      var lo :- ParseHex4(r1);
      if 0xDC00 <= lo.0 < 0xE000 then
        Some(((0x10000 + (hi.0 - 0xD800) * 0x400 + (lo.0 - 0xDC00)) as char, lo.1))
      else None
    else if 0xDC00 <= hi.0 < 0xE000 then None
    else Some((hi.0 as char, hi.1))
  }

  /** Reads the escape that follows a backslash. */
  function ParseEscape(s: string): (r: Option<(char, string)>)
    ensures r.Some? ==> |r.value.1| < |s|
  {
    if s == [] then None
    else if s[0] == '"' then Some(('"', s[1..]))
    else if s[0] == '\\' then Some(('\\', s[1..]))
    else if s[0] == '/' then Some(('/', s[1..]))
    else if s[0] == 'b' then Some((8 as char, s[1..]))
    else if s[0] == 'f' then Some((12 as char, s[1..]))
    else if s[0] == 'n' then Some(('\n', s[1..]))
    else if s[0] == 'r' then Some(('\r', s[1..]))
    else if s[0] == 't' then Some(('\t', s[1..]))
    else if s[0] == 'u' then ParseUnicodeEscape(s[1..])
    else None
  }

  /** Reads string contents up to and including the closing quote. */
  function ParseStringBody(s: string): (r: Option<(string, string)>)
    ensures r.Some? ==> |r.value.1| < |s|
    decreases |s|
  {
    if s == [] then None
    else if s[0] == '"' then Some(([], s[1..]))
    else if s[0] == '\\' then
      var e :- ParseEscape(s[1..]);
      var t :- ParseStringBody(e.1);
      Some(([e.0] + t.0, t.1))
    else
      var t :- ParseStringBody(s[1..]);
      Some(([s[0]] + t.0, t.1))
  }

  function ParseString(s: string): (r: Option<(string, string)>)
    ensures r.Some? ==> |r.value.1| < |s|
  {
    if s != [] && s[0] == '"' then ParseStringBody(s[1..]) else None
  }

  /** What reading one escaped character and then `tail` gives. */
  function Cons(c: char, r: Option<(string, string)>): Option<(string, string)> {
    match r
    case None => None
    case Some(t) => Some(([c] + t.0, t.1))
  }

  lemma ParseUnitEscapeOf(u: nat, tail: string)
    requires u < 0x10000
    ensures UnitEscape(u) + tail == "\\u" + (HexDigits(u, 4) + tail)
    ensures ParseHex4(HexDigits(u, 4) + tail) == Some((u, tail))
  {
    ParseHex4Of(u, tail);
  }

  lemma ParseBmpEscape(c: char, tail: string)
    requires c as int < 0x10000
    ensures ParseEscape((UnitEscape(c as int) + tail)[1..]) == Some((c, tail))
  {
    ParseUnitEscapeOf(c as int, tail);
    var s := UnitEscape(c as int) + tail;
    assert s[1..] == "u" + (HexDigits(c as int, 4) + tail);
    assert s[1..][1..] == HexDigits(c as int, 4) + tail;
  }

  lemma ParseAstralEscape(c: char, tail: string)
    requires c as int >= 0x10000
    ensures ParseEscape((SurrogatePair(c) + tail)[1..]) == Some((c, tail))
  {
    var n := c as int - 0x10000;
    var hi, lo := 0xD800 + n / 0x400, 0xDC00 + n % 0x400;
    var t2 := UnitEscape(lo) + tail;
    var s := UnitEscape(hi) + t2;
    assert SurrogatePair(c) + tail == s;
    ParseUnitEscapeOf(hi, t2);
    assert s[1..] == "u" + (HexDigits(hi, 4) + t2);
    assert s[1..][1..] == HexDigits(hi, 4) + t2;
    ParseSurrogatePair(c, tail);
  }

  /** The two halves of a surrogate pair read back as the character they encode. */
  lemma ParseSurrogatePair(c: char, tail: string)
    requires c as int >= 0x10000
    ensures var n := c as int - 0x10000;
            ParseUnicodeEscape(HexDigits(0xD800 + n / 0x400, 4) + (UnitEscape(0xDC00 + n % 0x400) + tail))
            == Some((c, tail))
  {
    var n := c as int - 0x10000;
    SurrogateSplit(n);
    ParseSurrogateHalves(0xD800 + n / 0x400, 0xDC00 + n % 0x400, tail);
  }

  lemma SurrogateSplit(n: int)
    requires 0 <= n < 0x100000
    ensures 0 <= n / 0x400 < 0x400 && 0 <= n % 0x400 < 0x400
    ensures n / 0x400 * 0x400 + n % 0x400 == n
  {
  }

  lemma ParseSurrogateHalves(hi: int, lo: int, tail: string)
    requires 0xD800 <= hi < 0xDC00 && 0xDC00 <= lo < 0xE000
    ensures ParseUnicodeEscape(HexDigits(hi, 4) + (UnitEscape(lo) + tail))
            == Some(((0x10000 + (hi - 0xD800) * 0x400 + (lo - 0xDC00)) as char, tail))
  {
    var t2 := UnitEscape(lo) + tail;
    ParseUnitEscapeOf(hi, t2);
    ParseUnitEscapeOf(lo, tail);
    assert t2[2..] == HexDigits(lo, 4) + tail;
  }

  /** Reading back one escaped character, whatever follows it. */
  lemma ParseEscapeCharOf(c: char, tail: string)
    ensures ParseStringBody(EscapeChar(c) + tail) == Cons(c, ParseStringBody(tail))
  {
    var e := EscapeChar(c);
    if e == [c] {
      ParsePlainChar(c, tail);
    } else {
      EscapedReadsBack(c, tail);
      ParseBackslash(e, c, tail);
    }
  }

  lemma ParsePlainChar(c: char, tail: string)
    requires c != '"' && c != '\\'
    ensures ParseStringBody([c] + tail) == Cons(c, ParseStringBody(tail))
  {
    assert ([c] + tail)[1..] == tail;
  }

  lemma ParseBackslash(e: string, c: char, tail: string)
    requires |e| >= 1 && e[0] == '\\'
    requires ParseEscape((e + tail)[1..]) == Some((c, tail))
    ensures ParseStringBody(e + tail) == Cons(c, ParseStringBody(tail))
  {
  }

  /** What follows the backslash of an escaped character reads back as that character. */
  lemma EscapedReadsBack(c: char, tail: string)
    requires EscapeChar(c) != [c]
    ensures ParseEscape((EscapeChar(c) + tail)[1..]) == Some((c, tail))
  {
    if ShortEscaped(c) {
      ParseShortEscape(c, tail);
    } else if c as int < 0x10000 {
      ParseBmpEscape(c, tail);
    } else {
      ParseAstralEscape(c, tail);
    }
  }

  lemma ParseShortEscape(c: char, tail: string)
    requires ShortEscaped(c)
    ensures ParseEscape((EscapeChar(c) + tail)[1..]) == Some((c, tail))
  {
    var s := EscapeChar(c) + tail;
    assert s[1..] == [EscapeChar(c)[1]] + tail;
  }

  lemma {:induction false} ParseEscapeOf(t: string, rest: string)
    ensures ParseStringBody(Escape(t) + "\"" + rest) == Some((t, rest))
  {
    if t == [] {
      assert Escape(t) + "\"" + rest == "\"" + rest;
    } else {
      var tail := Escape(t[1..]) + "\"" + rest;
      assert Escape(t) + "\"" + rest == EscapeChar(t[0]) + tail;
      ParseEscapeCharOf(t[0], tail);
      ParseEscapeOf(t[1..], rest);
      assert [t[0]] + t[1..] == t;
    }
  }

  /** A quoted string reads back as the string, whatever follows it. */
  lemma ParseQuoteOf(t: string, rest: string)
    ensures ParseString(Quote(t) + rest) == Some((t, rest))
  {
    var s := Quote(t) + rest;
    assert s[1..] == Escape(t) + "\"" + rest;
    ParseEscapeOf(t, rest);
  }

  // ---------------------------------------------------------------------
  // Values and flat objects, with `separators=(",", ":")`.

  function ValueText(v: Json): string {
    match v
    case JNull => "null"
    case JString(t) => Quote(t)
    case JNumber(f) => Repr(f)
  }

  function MemberText(m: Member): string {
    Quote(m.0) + ":" + ValueText(m.1)
  }

  function MembersText(ms: seq<Member>): string {
    if |ms| == 0 then ""
    else if |ms| == 1 then MemberText(ms[0])
    else MemberText(ms[0]) + "," + MembersText(ms[1..])
  }

  /** `json.dumps(obj, separators=(",", ":"))` for a flat object. */
  function Dumps(ms: seq<Member>): string {
    "{" + MembersText(ms) + "}"
  }

  function ParseValue(s: string): (r: Option<(Json, string)>)
    ensures r.Some? ==> |r.value.1| < |s|
  {
    if s != [] && s[0] == '"' then
      var t :- ParseString(s);
      Some((JString(t.0), t.1))
    else if |s| >= 4 && s[..4] == "null" then Some((JNull, s[4..]))
    else
      var f :- ParseRepr(s);
      Some((JNumber(f.0), f.1))
  }

  /** Reads `"key":value` members up to and including the closing brace. */
  function ParseMembers(s: string): (r: Option<(seq<Member>, string)>)
    ensures r.Some? ==> |r.value.1| < |s|
    decreases |s|
  {
    var k :- ParseString(s);
    var r1 :- if k.1 != [] && k.1[0] == ':' then Some(k.1[1..]) else None;
    var v :- ParseValue(r1);
    if v.1 != [] && v.1[0] == ',' then
      var more :- ParseMembers(v.1[1..]);
      Some(([(k.0, v.0)] + more.0, more.1))
    else if v.1 != [] && v.1[0] == '}' then Some(([(k.0, v.0)], v.1[1..]))
    else None
  }

  /** `json.loads` for a flat object: the members in the order written. */
  function ParseObject(s: string): Option<seq<Member>> {
    if s == "{}" then Some([])
    else if s != [] && s[0] == '{' then
      var ms :- ParseMembers(s[1..]);
      if ms.1 == [] then Some(ms.0) else None
    else None
  }

  /** What may follow a value: a comma or the closing brace. */
  predicate AfterValue(rest: string) {
    rest != [] && (rest[0] == ',' || rest[0] == '}')
  }

  lemma ParseValueOf(v: Json, rest: string)
    requires AfterValue(rest)
    ensures ParseValue(ValueText(v) + rest) == Some((v, rest))
  {
    match v
    case JNull => ParseNullOf(rest);
    case JString(t) => ParseStringValueOf(t, rest);
    case JNumber(f) => ParseNumberOf(f, rest);
  }

  lemma ParseNullOf(rest: string)
    ensures ParseValue("null" + rest) == Some((JNull, rest))
  {
    var s := "null" + rest;
    assert s[0] != '"';
    assert s[..4] == "null" && s[4..] == rest;
  }

  lemma ParseStringValueOf(t: string, rest: string)
    ensures ParseValue(Quote(t) + rest) == Some((JString(t), rest))
  {
    var s := Quote(t) + rest;
    assert s[0] == '"';
    ParseQuoteOf(t, rest);
  }

  lemma ParseNumberOf(f: Float, rest: string)
    requires AfterValue(rest)
    ensures ParseValue(Repr(f) + rest) == Some((JNumber(f), rest))
  {
    var s := Repr(f) + rest;
    var m := IntStr(f.mantissa);
    assert s == m + ("e" + IntStr(f.exponent) + rest);
    assert s[0] == m[0];
    assert m[0] == '-' || IsDigit(m[0]);
    ParseValueNumber(s);
    ParseReprOf(f, rest);
  }

  /** Text that starts with neither a quote nor `n` is read as a number. */
  lemma ParseValueNumber(s: string)
    requires s != [] && s[0] != '"' && s[0] != 'n'
    ensures ParseValue(s) == match ParseRepr(s) case None => None case Some(p) => Some((JNumber(p.0), p.1))
  {
    if |s| >= 4 {
      assert s[..4][0] != 'n';
    }
  }

  /** One member read back, then whatever the text after it gives. */
  lemma ParseMemberStep(m: Member, tail: string)
    requires AfterValue(tail)
    ensures ParseMembers(Quote(m.0) + (":" + (ValueText(m.1) + tail)))
         == if tail[0] == ',' then
              match ParseMembers(tail[1..])
              case None => None
              case Some(more) => Some(([m] + more.0, more.1))
            else Some(([m], tail[1..]))
  {
    var r1 := ValueText(m.1) + tail;
    ParseQuoteOf(m.0, ":" + r1);
    assert (":" + r1)[1..] == r1;
    ParseValueOf(m.1, tail);
  }

  /** The text after the first member: the closing brace, or a comma and the rest. */
  function MembersTail(ms: seq<Member>, rest: string): string
    requires |ms| >= 1
  {
    if |ms| == 1 then "}" + rest else "," + (MembersText(ms[1..]) + "}" + rest)
  }

  lemma MembersTextSplit(ms: seq<Member>, rest: string)
    requires |ms| >= 1
    ensures MembersText(ms) + "}" + rest
         == Quote(ms[0].0) + (":" + (ValueText(ms[0].1) + MembersTail(ms, rest)))
  {
    var q, vt := Quote(ms[0].0), ValueText(ms[0].1);
    var t := MembersTail(ms, rest);
    if |ms| == 1 {
      assert t == "}" + rest;
      assert MembersText(ms) == q + ":" + vt;
      Associate(q, ":", vt, "}", rest);
    } else {
      MembersTextSplitMany(ms, rest);
    }
  }

  lemma MembersTextSplitMany(ms: seq<Member>, rest: string)
    requires |ms| >= 2
    ensures MembersText(ms) + "}" + rest
         == Quote(ms[0].0) + (":" + (ValueText(ms[0].1) + MembersTail(ms, rest)))
  {
    var q, vt, mt := Quote(ms[0].0), ValueText(ms[0].1), MembersText(ms[1..]);
    assert MembersText(ms) == q + ":" + vt + "," + mt;
    assert MembersTail(ms, rest) == "," + (mt + "}" + rest);
    Regroup(q, ":", vt, ",", mt, "}", rest);
  }

  lemma Regroup(a: string, b: string, c: string, d: string, e: string, f: string, g: string)
    ensures a + b + c + d + e + f + g == a + (b + (c + (d + (e + f + g))))
  {
  }

  lemma Associate(a: string, b: string, c: string, d: string, e: string)
    ensures a + b + c + d + e == a + (b + (c + (d + e)))
  {
  }

  /** The last member of an object, followed by its closing brace. */
  lemma ParseMemberLast(m: Member, rest: string)
    ensures ParseMembers(Quote(m.0) + (":" + (ValueText(m.1) + ("}" + rest)))) == Some(([m], rest))
  {
    var tail := "}" + rest;
    ParseMemberStep(m, tail);
    assert tail[1..] == rest;
  }

  /** A member followed by a comma and the members after it. */
  lemma ParseMemberMore(m: Member, more: string, ms: seq<Member>, rest: string)
    requires ParseMembers(more) == Some((ms, rest))
    ensures ParseMembers(Quote(m.0) + (":" + (ValueText(m.1) + ("," + more)))) == Some(([m] + ms, rest))
  {
    var tail := "," + more;
    ParseMemberStep(m, tail);
    assert tail[1..] == more;
  }

  lemma {:induction false} ParseMembersOf(ms: seq<Member>, rest: string)
    requires |ms| >= 1
    ensures ParseMembers(MembersText(ms) + "}" + rest) == Some((ms, rest))
  {
    if |ms| == 1 {
      ParseMembersOne(ms, rest);
    } else {
      ParseMembersOf(ms[1..], rest);
      ParseMembersCons(ms, rest);
    }
  }

  lemma ParseMembersOne(ms: seq<Member>, rest: string)
    requires |ms| == 1
    ensures ParseMembers(MembersText(ms) + "}" + rest) == Some((ms, rest))
  {
    MembersTextSplit(ms, rest);
    ParseMemberLast(ms[0], rest);
    assert [ms[0]] == ms;
  }

  lemma ParseMembersCons(ms: seq<Member>, rest: string)
    requires |ms| >= 2
    requires ParseMembers(MembersText(ms[1..]) + "}" + rest) == Some((ms[1..], rest))
    ensures ParseMembers(MembersText(ms) + "}" + rest) == Some((ms, rest))
  {
    MembersTextSplitMany(ms, rest);
    ParseMemberMore(ms[0], MembersText(ms[1..]) + "}" + rest, ms[1..], rest);
    assert [ms[0]] + ms[1..] == ms;
  }

  /** `json.loads(json.dumps(obj)) == obj`, members and their order included. */
  lemma ParseDumps(ms: seq<Member>)
    ensures ParseObject(Dumps(ms)) == Some(ms)
  {
    if |ms| >= 1 {
      var mt := MembersText(ms);
      MembersTextSplit(ms, "");
      assert |mt| >= 1;
      var s := Dumps(ms);
      assert s == "{" + (mt + "}" + "");
      assert s[1..] == mt + "}" + "";
      assert |s| >= 3;
      ParseMembersOf(ms, "");
    }
  }

  // ---------------------------------------------------------------------
  // What the text looks like: printable ASCII only (`ensure_ascii`), and
  // no space that does not come from a key or a string value (the compact
  // separators).

  /** Every character lies between `lo` and `~`. */
  predicate Within(s: string, lo: char) {
    forall i :: 0 <= i < |s| ==> lo <= s[i] <= '~'
  }

  predicate Printable(s: string) {
    Within(s, ' ')
  }

  function Spaces(s: string): nat {
    if s == [] then 0 else (if s[0] == ' ' then 1 else 0) + Spaces(s[1..])
  }

  /** The spaces inside the keys and string values of an object. */
  function MemberSpaces(ms: seq<Member>): nat {
    if ms == [] then 0
    else Spaces(ms[0].0) + (if ms[0].1.JString? then Spaces(ms[0].1.str) else 0) + MemberSpaces(ms[1..])
  }

  lemma {:induction false} SpacesConcat(a: string, b: string)
    ensures Spaces(a + b) == Spaces(a) + Spaces(b)
  {
    if a == [] {
      assert a + b == b;
    } else {
      assert (a + b)[0] == a[0];
      assert (a + b)[1..] == a[1..] + b;
      SpacesConcat(a[1..], b);
    }
  }

  lemma {:induction false} NoSpaces(s: string)
    requires Within(s, '!')
    ensures Spaces(s) == 0
  {
    if s != [] {
      NoSpaces(s[1..]);
    }
  }

  lemma WithinConcat(a: string, b: string, lo: char)
    requires Within(a, lo) && Within(b, lo)
    ensures Within(a + b, lo)
  {
    forall i | 0 <= i < |a + b| ensures lo <= (a + b)[i] <= '~' {
      if i >= |a| {
        assert (a + b)[i] == b[i - |a|];
      }
    }
  }

  lemma UnitEscapeText(u: nat)
    requires u < 0x10000
    ensures Within(UnitEscape(u), '!')
  {
    assert Pow16(4) == 0x10000;
    WithinConcat("\\u", HexDigits(u, 4), '!');
  }

  lemma EscapeCharText(c: char)
    ensures Printable(EscapeChar(c))
    ensures Spaces(EscapeChar(c)) == if c == ' ' then 1 else 0
  {
    var e := EscapeChar(c);
    if ShortEscaped(c) || c < ' ' || c > '~' {
      EscapedWithin(c);
      NoSpaces(e);
    } else {
      assert e == [c];
    }
  }

  /** An escaped character is written with visible characters only. */
  lemma EscapedWithin(c: char)
    requires ShortEscaped(c) || c < ' ' || c > '~'
    ensures Within(EscapeChar(c), '!')
  {
    if ShortEscaped(c) {
    } else if c as int < 0x10000 {
      UnitEscapeText(c as int);
    } else {
      AstralWithin(c);
    }
  }

  lemma AstralWithin(c: char)
    requires c as int >= 0x10000
    ensures Within(SurrogatePair(c), '!')
  {
    var n := c as int - 0x10000;
    var hi, lo := UnitEscape(0xD800 + n / 0x400), UnitEscape(0xDC00 + n % 0x400);
    UnitEscapeText(0xD800 + n / 0x400);
    UnitEscapeText(0xDC00 + n % 0x400);
    WithinConcat(hi, lo, '!');
  }

  lemma {:induction false} EscapeText(t: string)
    ensures Printable(Escape(t)) && Spaces(Escape(t)) == Spaces(t)
  {
    if t != [] {
      EscapeCharText(t[0]);
      EscapeText(t[1..]);
      WithinConcat(EscapeChar(t[0]), Escape(t[1..]), ' ');
      SpacesConcat(EscapeChar(t[0]), Escape(t[1..]));
    }
  }

  lemma QuoteText(t: string)
    ensures Printable(Quote(t)) && Spaces(Quote(t)) == Spaces(t)
  {
    EscapeText(t);
    WithinConcat("\"", Escape(t), ' ');
    WithinConcat("\"" + Escape(t), "\"", ' ');
    SpacesConcat("\"", Escape(t));
    SpacesConcat("\"" + Escape(t), "\"");
  }

  lemma ReprText(f: Float)
    ensures Printable(Repr(f)) && Spaces(Repr(f)) == 0
  {
    var m, e := IntStr(f.mantissa), IntStr(f.exponent);
    assert Within(m, '!') && Within(e, '!');
    WithinConcat(m, "e", '!');
    WithinConcat(m + "e", e, '!');
    NoSpaces(Repr(f));
  }

  lemma ValueTextText(v: Json)
    ensures Printable(ValueText(v))
    ensures Spaces(ValueText(v)) == if v.JString? then Spaces(v.str) else 0
  {
    match v
    case JNull => NoSpaces("null");
    case JString(t) => QuoteText(t);
    case JNumber(f) => ReprText(f);
  }

  lemma MemberTextText(m: Member)
    ensures Printable(MemberText(m))
    ensures Spaces(MemberText(m)) == Spaces(m.0) + if m.1.JString? then Spaces(m.1.str) else 0
  {
    QuoteText(m.0);
    ValueTextText(m.1);
    WithinConcat(Quote(m.0), ":", ' ');
    WithinConcat(Quote(m.0) + ":", ValueText(m.1), ' ');
    SpacesConcat(Quote(m.0), ":");
    SpacesConcat(Quote(m.0) + ":", ValueText(m.1));
  }

  lemma {:induction false} MembersTextText(ms: seq<Member>)
    ensures Printable(MembersText(ms)) && Spaces(MembersText(ms)) == MemberSpaces(ms)
  {
    if |ms| == 1 {
      MemberTextText(ms[0]);
      assert ms[1..] == [];
    } else if |ms| > 1 {
      var head := MemberText(ms[0]) + ",";
      MemberTextText(ms[0]);
      MembersTextText(ms[1..]);
      WithinConcat(MemberText(ms[0]), ",", ' ');
      WithinConcat(head, MembersText(ms[1..]), ' ');
      SpacesConcat(MemberText(ms[0]), ",");
      SpacesConcat(head, MembersText(ms[1..]));
    }
  }

  /**
   * The output is printable ASCII, and every space in it is a space of
   * some key or string value: the separators are bare `,` and `:`.
   */
  lemma DumpsText(ms: seq<Member>)
    ensures Printable(Dumps(ms))
    ensures Spaces(Dumps(ms)) == MemberSpaces(ms)
  {
    MembersTextText(ms);
    WithinConcat("{", MembersText(ms), ' ');
    WithinConcat("{" + MembersText(ms), "}", ' ');
    SpacesConcat("{", MembersText(ms));
    SpacesConcat("{" + MembersText(ms), "}");
  }
}
