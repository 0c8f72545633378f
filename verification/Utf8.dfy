/** The size of a text in bytes: UTF-8 by RFC 3629, an unpaired surrogate standing for the replacement character. */
module Utf8 {
  import opened Texts
  import opened Canonical
  import opened Jsonc

  type CodePoint = c: nat | c < 0x11_0000

  /** The code points of a text. */
  function CodePoints(t: Text): seq<CodePoint> {
    if t == [] then []
    else if IsLead(t[0]) && |t| > 1 && IsTrail(t[1]) then
      [0x1_0000 + (t[0] - 0xd800) * 0x400 + (t[1] - 0xdc00)] + CodePoints(t[2..])
    else if IsLead(t[0]) || IsTrail(t[0]) then [0xfffd] + CodePoints(t[1..])
    else [t[0]] + CodePoints(t[1..])
  }

  /** The bytes of a code point: as few as hold its bits, six of them in each byte after the first. */
  function Encode(c: CodePoint): seq<int> {
    if c < 0x80 then [c]
    else if c < 0x800 then [0xc0 + c / 0x40, 0x80 + c % 0x40]
    else if c < 0x1_0000 then [0xe0 + c / 0x1000, 0x80 + c / 0x40 % 0x40, 0x80 + c % 0x40]
    else [0xf0 + c / 0x4_0000, 0x80 + c / 0x1000 % 0x40, 0x80 + c / 0x40 % 0x40, 0x80 + c % 0x40]
  }

  /** The number that the bytes after the marks spell. */
  function Decode(bytes: seq<int>): int {
    match |bytes|
    case 1 => bytes[0]
    case 2 => (bytes[0] - 0xc0) * 0x40 + (bytes[1] - 0x80)
    case 3 => ((bytes[0] - 0xe0) * 0x40 + (bytes[1] - 0x80)) * 0x40 + (bytes[2] - 0x80)
    case 4 => (((bytes[0] - 0xf0) * 0x40 + (bytes[1] - 0x80)) * 0x40 + (bytes[2] - 0x80)) * 0x40 + (bytes[3] - 0x80)
    case _ => -1
  }

  lemma EncodingIsDecodable(c: CodePoint)
    ensures Decode(Encode(c)) == c && forall i | 0 <= i < |Encode(c)| :: 0 <= Encode(c)[i] < 0x100
  {
    assert c / 0x1000 == c / 0x40 / 0x40 && c / 0x4_0000 == c / 0x1000 / 0x40;
  }

  function EncodeAll(cs: seq<CodePoint>): seq<int> {
    if cs == [] then [] else Encode(cs[0]) + EncodeAll(cs[1..])
  }

  /** The size that is compared with the limit is the number of bytes of the text. */
  lemma {:induction false} SizeIsBytes(t: Text)
    ensures Utf8Length(t) == |EncodeAll(CodePoints(t))|
  {
    if t != [] {
      var first, rest := CodePoints(t)[0], CodePoints(t)[1..];
      if IsLead(t[0]) && |t| > 1 && IsTrail(t[1]) {
        assert rest == CodePoints(t[2..]);
        SizeIsBytes(t[2..]);
      } else {
        assert rest == CodePoints(t[1..]);
        SizeIsBytes(t[1..]);
      }
    }
  }
}
