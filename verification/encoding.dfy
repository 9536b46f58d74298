/** Text as bytes: the UTF-8 encoding of a string, and the reading of bytes
    in the Windows-1254 (Turkish) code page. Together they describe how the
    match service's winner announcements came to be spelled as they are. */
module Encoding {
  import opened Types

  newtype byte = b: int | 0 <= b < 256

  /** The UTF-8 bytes of one character: one byte below 0x80, then two,
      three or four bytes of leading marker and six-bit continuations. */
  function Utf8Char(c: char): (bs: seq<byte>)
    ensures 1 <= |bs| <= 4
    ensures |bs| == 1 <==> (c as int) < 0x80
    ensures |bs| == 1 ==> bs[0] as int == c as int
  {
    var n := c as int;
    if n < 0x80 then [n as byte]
    else if n < 0x800 then [(0xC0 + n / 0x40) as byte, (0x80 + n % 0x40) as byte]
    else if n < 0x1_0000 then
      [(0xE0 + n / 0x1000) as byte, (0x80 + n / 0x40 % 0x40) as byte, (0x80 + n % 0x40) as byte]
    else
      [(0xF0 + n / 0x4_0000) as byte, (0x80 + n / 0x1000 % 0x40) as byte,
       (0x80 + n / 0x40 % 0x40) as byte, (0x80 + n % 0x40) as byte]
  }

  function Utf8Encode(s: string): (bs: seq<byte>)
    ensures |bs| >= |s|
  {
    if |s| == 0 then [] else Utf8Char(s[0]) + Utf8Encode(s[1..])
  }

  /** The Windows-1254 character of a byte, if the code page has one: ASCII
      below 0x80, a table of typographic signs from 0x80 to 0x9F (seven of
      its bytes unassigned), and from 0xA0 Latin-1 except six Turkish
      letters. */
  function Cp1254(b: byte): (r: Option<char>)
    ensures b < 0x80 ==> r == Some((b as int) as char)
    ensures b >= 0xA0 ==> r.Some?
  {
    if b < 0x80 then Some((b as int) as char)
    else if b >= 0xA0 then
      Some(match b
        case 0xD0 => '\U{11E}'
        case 0xDD => '\U{130}'
        case 0xDE => '\U{15E}'
        case 0xF0 => '\U{11F}'
        case 0xFD => '\U{131}'
        case 0xFE => '\U{15F}'
        case _ => (b as int) as char)
    else
      match b
      case 0x80 => Some('\U{20AC}')
      case 0x82 => Some('\U{201A}')
      case 0x83 => Some('\U{192}')
      case 0x84 => Some('\U{201E}')
      case 0x85 => Some('\U{2026}')
      case 0x86 => Some('\U{2020}')
      case 0x87 => Some('\U{2021}')
      case 0x88 => Some('\U{2C6}')
      case 0x89 => Some('\U{2030}')
      case 0x8A => Some('\U{160}')
      case 0x8B => Some('\U{2039}')
      case 0x8C => Some('\U{152}')
      case 0x91 => Some('\U{2018}')
      case 0x92 => Some('\U{2019}')
      case 0x93 => Some('\U{201C}')
      case 0x94 => Some('\U{201D}')
      case 0x95 => Some('\U{2022}')
      case 0x96 => Some('\U{2013}')
      case 0x97 => Some('\U{2014}')
      case 0x98 => Some('\U{2DC}')
      case 0x99 => Some('\U{2122}')
      case 0x9A => Some('\U{161}')
      case 0x9B => Some('\U{203A}')
      case 0x9C => Some('\U{153}')
      case 0x9F => Some('\U{178}')
      case _ => None
  }

  /** Bytes read as Windows-1254 text; a byte the code page does not assign
      is lost. */
  function Cp1254Decode(bs: seq<byte>): (s: string)
    ensures |s| <= |bs|
  {
    if |bs| == 0 then ""
    else
      var first := match Cp1254(bs[0]) case Some(c) => [c] case None => [];
      first + Cp1254Decode(bs[1..])
  }

  lemma {:induction false} Utf8EncodeAppend(a: string, b: string)
    ensures Utf8Encode(a + b) == Utf8Encode(a) + Utf8Encode(b)
  {
    if |a| > 0 {
      assert (a + b)[1..] == a[1..] + b;
      Utf8EncodeAppend(a[1..], b);
    } else {
      assert a + b == b;
    }
  }

  lemma {:induction false} Cp1254DecodeAppend(a: seq<byte>, b: seq<byte>)
    ensures Cp1254Decode(a + b) == Cp1254Decode(a) + Cp1254Decode(b)
  {
    if |a| > 0 {
      assert (a + b)[1..] == a[1..] + b;
      Cp1254DecodeAppend(a[1..], b);
    } else {
      assert a + b == b;
    }
  }

  /** The text a string becomes when its UTF-8 bytes are read back as
      Windows-1254. */
  function MisDecode(s: string): string
  {
    Cp1254Decode(Utf8Encode(s))
  }

  lemma MisDecodeAppend(a: string, b: string)
    ensures MisDecode(a + b) == MisDecode(a) + MisDecode(b)
  {
    Utf8EncodeAppend(a, b);
    Cp1254DecodeAppend(Utf8Encode(a), Utf8Encode(b));
  }

  /** U+1F3C6 TROPHY is F0 9F 8F 86, read as g-breve, Y-diaeresis and a
      dagger; 0x8F has no character. */
  lemma TrophyMisDecoded()
    ensures MisDecode("\U{1F3C6}") == "\U{11F}\U{178}\U{2020}"
  {
    var bs: seq<byte> := [0xF0, 0x9F, 0x8F, 0x86];
    assert Utf8Char('\U{1F3C6}') == bs;
    assert Utf8Encode("\U{1F3C6}") == bs;
    assert Cp1254Decode(bs[3..]) == "\U{2020}";
    assert Cp1254Decode(bs[2..]) == "\U{2020}";
    assert Cp1254Decode(bs[1..]) == "\U{178}\U{2020}";
  }

  /** U+1F916 ROBOT FACE is F0 9F A4 96, read as g-breve, Y-diaeresis, a
      currency sign and an en dash. */
  lemma RobotMisDecoded()
    ensures MisDecode("\U{1F916}") == "\U{11F}\U{178}\U{A4}\U{2013}"
  {
    var bs: seq<byte> := [0xF0, 0x9F, 0xA4, 0x96];
    assert Utf8Char('\U{1F916}') == bs;
    assert Utf8Encode("\U{1F916}") == bs;
    assert Cp1254Decode(bs[3..]) == "\U{2013}";
    assert Cp1254Decode(bs[2..]) == "\U{A4}\U{2013}";
    assert Cp1254Decode(bs[1..]) == "\U{178}\U{A4}\U{2013}";
  }

  /** U+00E9 (e acute) is C3 A9, read as A-tilde and a copyright sign. */
  lemma EAcuteMisDecoded()
    ensures MisDecode("\U{E9}") == "\U{C3}\U{A9}"
  {
    var bs: seq<byte> := [0xC3, 0xA9];
    assert Utf8Char('\U{E9}') == bs;
    assert Utf8Encode("\U{E9}") == bs;
    assert Cp1254Decode(bs[1..]) == "\U{A9}";
  }

  /** A sign, ASCII words, an e acute and more ASCII words: only the sign
      and the e acute change. */
  lemma MisDecodeSentence(sign: string, words: string, tail: string)
    requires IsAscii(words) && IsAscii(tail)
    ensures MisDecode(sign + words + "\U{E9}" + tail)
      == MisDecode(sign) + words + "\U{C3}\U{A9}" + tail
  {
    AsciiSurvives(words);
    AsciiSurvives(tail);
    EAcuteMisDecoded();
    MisDecodeAppend(sign + words + "\U{E9}", tail);
    MisDecodeAppend(sign + words, "\U{E9}");
    MisDecodeAppend(sign, words);
  }

  predicate IsAscii(s: string)
  {
    forall i :: 0 <= i < |s| ==> (s[i] as int) < 0x80
  }

  /** ASCII text survives the trip through UTF-8 and Windows-1254 unchanged. */
  lemma {:induction false} AsciiSurvives(s: string)
    requires IsAscii(s)
    ensures MisDecode(s) == s
  {
    if |s| > 0 {
      var c := s[0];
      assert (c as int) < 0x80;
      AsciiSurvives(s[1..]);
      Cp1254DecodeAppend(Utf8Char(c), Utf8Encode(s[1..]));
      assert Cp1254Decode(Utf8Char(c)) == [c];
      assert s == [c] + s[1..];
    }
  }
}
