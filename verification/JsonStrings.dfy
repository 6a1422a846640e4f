/**
 Strings between their quotes as section 7 of RFC 8259 has them, by code point: what the emitter writes is one, for the
 very text, and what the parser makes of one differs in `\u` escapes alone.
 */
module JsonStrings {
  import opened JsonText
  import opened Options

  function Front(c: char, s: Option<string>): Option<string> {
    if s.Some? then Some([c] + s.value) else None
  }

  // The two-character escapes.
  function Simple(c: char): Option<char> {
    match c
    case '"' => Some(0x22 as char)
    case '\\' => Some(0x5C as char)
    case '/' => Some(0x2F as char)
    case 'b' => Some(0x08 as char)
    case 'f' => Some(0x0C as char)
    case 'n' => Some(0x0A as char)
    case 'r' => Some(0x0D as char)
    case 't' => Some(0x09 as char)
    case _ => None
  }

  predicate FourHexAt(s: string, i: nat) {
    i + 4 <= |s| && IsHex(s[i]) && IsHex(s[i + 1]) && IsHex(s[i + 2]) && IsHex(s[i + 3])
  }

  // The text of a string; `u` reads the four digits of a `\u` escape. None: not a string.
  function Strict(s: string, u: string -> char): Option<string>
    decreases |s|
  {
    if s == "" then Some("")
    else if s[0] as int < 0x20 || s[0] == '"' then None
    else if s[0] != '\\' then Front(s[0], Strict(s[1..], u))
    else if |s| == 1 then None
    else if s[1] == 'u' then if FourHexAt(s, 2) then Front(u(s[2..6]), Strict(s[6..], u)) else None
    else
      match Simple(s[1])
      case None => None
      case Some(c) => Front(c, Strict(s[2..], u))
  }

  function HexValue(c: char): nat
    requires IsHex(c)
  {
    (if '0' <= c <= '9' then c as int - '0' as int
     else if 'a' <= c <= 'f' then c as int - 'a' as int + 10 else c as int - 'A' as int + 10)
  }

  // The character with that number; surrogates, which come in pairs, are not told apart here.
  function CodePoint(h: string): char {
    if |h| == 4 && FourHexAt(h, 0) then
      var n := 4096 * HexValue(h[0]) + 256 * HexValue(h[1]) + 16 * HexValue(h[2]) + HexValue(h[3]);
      if n < 0xD800 then n as char else '?'
    else '?'
  }

  // The parser's reading of a `\u` escape.
  const PLACEHOLDER: string -> char := h => '?'

  lemma HexDigitIs(n: nat)
    requires n < 16
    ensures IsHex(HexDigit(n)) && HexValue(HexDigit(n)) == n
  {
  }

  lemma StrictOne(c: char, r: string)
    ensures Strict(EscapedChar(c) + r, CodePoint) == Front(c, Strict(r, CodePoint))
  {
    var e := EscapedChar(c);
    var t := e + r;
    if |e| == 1 {
      assert t[1..] == r;
    } else if |e| == 2 {
      assert t[1] == e[1] && t[2..] == r;
    } else {
      HexDigitIs(c as int / 16);
      HexDigitIs(c as int % 16);
      assert t[2..6] == ['0', '0', e[4], e[5]] && t[6..] == r;
      assert CodePoint(t[2..6]) == c;
    }
  }

  /** Every text survives the emitter and a strict reader: quotes, backslashes and control characters are escaped, each
      as itself, and nothing is left raw that may not be. */
  lemma {:induction false} StrictOfEscaped(s: string)
    ensures Strict(Escaped(s), CodePoint) == Some(s)
    ensures forall c :: c in Escaped(s) ==> c as int >= 0x20
  {
    if s != "" {
      StrictOfEscaped(s[1..]);
      StrictOne(s[0], Escaped(s[1..]));
      NoControl(s[0]);
      hide Strict, EscapedChar;
      assert s == [s[0]] + s[1..];
    }
  }

  lemma NoControl(c: char)
    ensures forall x :: x in EscapedChar(c) ==> x as int >= 0x20
  {
    if |EscapedChar(c)| == 6 {
      HexDigitIs(c as int / 16);
      HexDigitIs(c as int % 16);
    }
  }

  /** The parser reads every string right, up to `\u` escapes, for which it has a placeholder. */
  lemma {:induction false} DecodesStrings(s: string)
    requires Strict(s, PLACEHOLDER).Some?
    ensures Decode(s) == Strict(s, PLACEHOLDER).value
    decreases |s|
  {
    if s != "" {
      if s[0] != '\\' {
        DecodesStrings(s[1..]);
      } else if s[1] == 'u' {
        FourHexRun(s[2..]);
        assert s[1..][1..] == s[2..];
        DecodesStrings(s[6..]);
      } else {
        DecodesStrings(s[2..]);
      }
      DecodeStep(s);
    }
  }

  lemma FourHexRun(t: string)
    requires FourHexAt(t, 0)
    ensures HexRun(t, 4) == 4
  {
    assert t[1..][1..] == t[2..] && t[2..][1..] == t[3..] && t[3..][1..] == t[4..];
    assert HexRun(t[3..], 1) == 1 && HexRun(t[2..], 2) == 2 && HexRun(t[1..], 3) == 3;
  }

  /** White space is that of section 2 of RFC 8259. */
  lemma WhiteSpaceIs(c: char)
    ensures IsWs(c) <==> c as int in {0x20, 0x09, 0x0A, 0x0D}
  {
  }
}
