/** `encodeURIComponent` as used to build the default avatar URL: every
    character outside the unreserved set becomes the %XX escapes of its
    UTF-8 bytes, with upper-case hexadecimal digits. */
module UriEncoding {

  /** The characters `encodeURIComponent` leaves unescaped. */
  predicate Unreserved(c: char) {
    ('A' <= c <= 'Z') || ('a' <= c <= 'z') || ('0' <= c <= '9') || c in "-_.!~*'()"
  }

  /** A character that may appear in an encoded component. */
  predicate EncodedChar(c: char) {
    Unreserved(c) || c == '%'
  }

  /** An encoded character never ends a query parameter or starts a fragment. */
  lemma EncodedCharIsNotDelimiter(c: char)
    requires EncodedChar(c)
    ensures c != '&' && c != '#' && c != '=' && c != '?'
  {
  }

  const HexDigits: string := "0123456789ABCDEF"

  /** The UTF-8 bytes of one Unicode scalar value. */
  function Utf8(c: char): (bytes: seq<int>)
    ensures 1 <= |bytes| <= 4
    ensures forall k :: 0 <= k < |bytes| ==> 0 <= bytes[k] < 0x100
    ensures |bytes| == 1 <==> (c as int) < 0x80
  {
    var cp := c as int;
    if cp < 0x80 then [cp]
    else if cp < 0x800 then [0xC0 + cp / 0x40, 0x80 + cp % 0x40]
    else if cp < 0x1_0000 then [0xE0 + cp / 0x1000, 0x80 + (cp / 0x40) % 0x40, 0x80 + cp % 0x40]
    else [0xF0 + cp / 0x4_0000, 0x80 + (cp / 0x1000) % 0x40, 0x80 + (cp / 0x40) % 0x40, 0x80 + cp % 0x40]
  }

  /** The escapes `%XX` of a run of bytes. */
  function Escape(bytes: seq<int>): (r: string)
    requires forall k :: 0 <= k < |bytes| ==> 0 <= bytes[k] < 0x100
    ensures |r| == 3 * |bytes|
    ensures forall c :: c in r ==> EncodedChar(c)
  {
    if bytes == [] then []
    else ['%', HexDigits[bytes[0] / 16], HexDigits[bytes[0] % 16]] + Escape(bytes[1..])
  }

  function EncodeChar(c: char): (r: string)
    ensures Unreserved(c) ==> r == [c]
    ensures forall d :: d in r ==> EncodedChar(d)
  {
    if Unreserved(c) then [c] else Escape(Utf8(c))
  }

  /** `encodeURIComponent(s)`: the result holds only unreserved characters and
      '%' (so no '&', '#', '?', '/', '=' or space), and a string made only of
      unreserved characters is returned as it is. */
  function EncodeUriComponent(s: string): (r: string)
    ensures forall c :: c in r ==> EncodedChar(c)
    ensures (forall c :: c in s ==> Unreserved(c)) ==> r == s
  {
    if s == [] then []
    else EncodeChar(s[0]) + EncodeUriComponent(s[1..])
  }
}
