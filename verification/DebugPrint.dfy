/** The escaping printer for byte strings, and a decoder for what it prints. */
module DebugPrint {
  import opened Memory
  import opened Wrappers

  function HexDigit(n: nat): char
    requires n < 16
  {
    if n < 10 then ('0' as int + n) as char else ('a' as int + n - 10) as char
  }

  /** What the printer writes for one byte. */
  function Escape(b: byte): string {
    if b == 10 then "\\n"
    else if b == 13 then "\\r"
    else if b == 9 then "\\t"
    else if b == 92 || b == 34 then ['\\', b as char]
    else if b == 0 then "\\0"
    else if 0x20 <= b < 0x7f then [b as char]
    else ['\\', 'x', HexDigit(b / 16), HexDigit(b % 16)]
  }

  const HEX: string := "0123456789abcdef"

  /** The escapes by value: six bytes have letters of their own, the other printable ones stand for themselves, and
      the rest are written in two hexadecimal digits. */
  lemma EscapeByValue(b: byte)
    ensures Escape(9) == ['\\', 't'] && Escape(10) == ['\\', 'n'] && Escape(13) == ['\\', 'r']
    ensures Escape(0) == ['\\', '0'] && Escape(34) == ['\\', '"'] && Escape(92) == ['\\', '\\']
    ensures 32 <= b <= 126 && b != 34 && b != 92 ==> Escape(b) == [b as char]
    ensures !(32 <= b <= 126) && b !in {0, 9, 10, 13} ==>
              Escape(b) == ['\\', 'x', HEX[b / 16], HEX[b % 16]] && b == 16 * (b / 16) + b % 16
  {
    HexByValue(b / 16);
    HexByValue(b % 16);
  }

  lemma HexByValue(n: nat)
    requires n < 16
    ensures |HEX| == 16 && HexDigit(n) == HEX[n]
  {
  }

  function Escaped(s: seq<byte>): string {
    if s == [] then [] else Escape(s[0]) + Escaped(s[1..])
  }

  lemma {:induction false} EscapedAppend(s: seq<byte>, b: byte)
    ensures Escaped(s + [b]) == Escaped(s) + Escape(b)
  {
    if s == [] {
      assert s + [b] == [b];
    } else {
      assert (s + [b])[1..] == s[1..] + [b];
      EscapedAppend(s[1..], b);
    }
  }

  /** The printer: byte after byte to the formatter. */
  method Format(s: seq<byte>) returns (out: string)
    ensures out == Escaped(s)
  {
    out := "";
    for i := 0 to |s|
      invariant out == Escaped(s[..i])
    {
      var b := s[i];
      EscapedAppend(s[..i], b);
      assert s[..i + 1] == s[..i] + [b];
      if b == 10 {
        out := out + "\\n";
      } else if b == 13 {
        out := out + "\\r";
      } else if b == 9 {
        out := out + "\\t";
      } else if b == 92 || b == 34 {
        out := out + ['\\', b as char];
      } else if b == 0 {
        out := out + "\\0";
      } else if 0x20 <= b < 0x7f {
        out := out + [b as char];
      } else {
        out := out + ['\\', 'x', HexDigit(b / 16), HexDigit(b % 16)];
      }
    }
    assert s[..|s|] == s;
  }

  // ---- Decoding ----

  function HexValue(c: char): Option<nat> {
    if '0' <= c <= '9' then Some(c as int - '0' as int)
    else if 'a' <= c <= 'f' then Some(c as int - 'a' as int + 10)
    else None
  }

  /** The byte at the start of a text, and how many characters it takes. */
  function FirstByte(t: string): Option<(byte, nat)>
    requires t != []
  {
    if t[0] != '\\' then (if t[0] as int < 256 then Some((t[0] as int, 1)) else None)
    else if |t| < 2 then None
    else if t[1] == 'n' then Some((10, 2))
    else if t[1] == 'r' then Some((13, 2))
    else if t[1] == 't' then Some((9, 2))
    else if t[1] == '0' then Some((0, 2))
    else if t[1] == '\\' then Some((92, 2))
    else if t[1] == '"' then Some((34, 2))
    else if t[1] == 'x' && |t| >= 4 && HexValue(t[2]).Some? && HexValue(t[3]).Some? then
      Some((HexValue(t[2]).value * 16 + HexValue(t[3]).value, 4))
    else None
  }

  function Decode(t: string): Option<seq<byte>> {
    if t == [] then Some([])
    else
      var first := FirstByte(t);
      if first.None? || first.value.1 > |t| || first.value.1 == 0 then None
      else
        var rest := Decode(t[first.value.1..]);
        if rest.Some? then Some([first.value.0] + rest.value) else None
  }

  lemma FirstByteOfEscape(b: byte, rest: string)
    ensures FirstByte(Escape(b) + rest) == Some((b, |Escape(b)|))
  {
    assert b == b / 16 * 16 + b % 16;
    assert HexValue(HexDigit(b / 16)) == Some(b / 16) && HexValue(HexDigit(b % 16)) == Some(b % 16);
  }

  /** The decoder recovers every byte string from its printed form. */
  lemma {:induction false} DecodeEscaped(s: seq<byte>)
    ensures Decode(Escaped(s)) == Some(s)
  {
    if s != [] {
      FirstByteOfEscape(s[0], Escaped(s[1..]));
      DecodeEscaped(s[1..]);
      assert Escaped(s)[|Escape(s[0])|..] == Escaped(s[1..]);
      assert s == [s[0]] + s[1..];
    }
  }

  /** Distinct byte strings never print alike. */
  lemma PrintedApart(s: seq<byte>, t: seq<byte>)
    ensures Escaped(s) == Escaped(t) <==> s == t
  {
    DecodeEscaped(s);
    DecodeEscaped(t);
  }

  /** Everything printed is printable ASCII. */
  lemma {:induction false} EscapedIsPrintable(s: seq<byte>)
    ensures forall i :: 0 <= i < |Escaped(s)| ==> 0x20 <= Escaped(s)[i] as int < 0x7f
  {
    if s != [] {
      EscapedIsPrintable(s[1..]);
    }
  }
}
