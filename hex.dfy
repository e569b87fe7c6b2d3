/** The last step of `sha256`: the digest bytes as a lowercase hexadecimal string,
    `bytes.map(b => b.toString(16).padStart(2, '0')).join('')`. */
module Hex {
  import opened Text
  import opened Verdicts

  newtype Byte = x: int | 0 <= x < 256

  /** `s.padStart(len, c)` with a one-character pad. */
  function PadStart(s: string, len: nat, c: char): (r: string)
    ensures |r| == if |s| >= len then |s| else len
    decreases len - |s|
  {
    if |s| >= len then s else PadStart([c] + s, len, c)
  }

  /** The padded string ends with `s` and is padded with `c` only. */
  lemma {:induction false} PadStartShape(s: string, len: nat, c: char)
    ensures var r := PadStart(s, len, c);
      && r[|r| - |s|..] == s
      && forall i :: 0 <= i < |r| - |s| ==> r[i] == c
    decreases len - |s|
  {
    if |s| < len {
      PadStartShape([c] + s, len, c);
      var r := PadStart(s, len, c);
      assert r[|r| - |s| - 1..] == [c] + s;
      assert r[|r| - |s|..] == ([c] + s)[1..];
    }
  }

  lemma NibbleBounds(n: nat)
    requires n < 256
    ensures n / 16 < 16 && n % 16 < 16
    ensures n < 16 ==> n / 16 == 0 && n % 16 == n
    ensures n == (n / 16) * 16 + n % 16
  {
  }

  /** One byte as `b.toString(16).padStart(2, '0')`: exactly its two hex digits, high nibble first. */
  function HexByte(b: Byte): (r: string)
    ensures r == [DigitChar(b as nat / 16), DigitChar(b as nat % 16)]
  {
    var n := b as nat;
    NibbleBounds(n);
    var digits := NumberToString(n, 16);
    if n < 16 then
      assert digits == [DigitChar(n)];
      assert PadStart(digits, 2, '0') == PadStart(['0'] + digits, 2, '0');
      PadStart(digits, 2, '0')
    else
      assert NumberToString(n / 16, 16) == [DigitChar(n / 16)];
      assert digits == [DigitChar(n / 16), DigitChar(n % 16)];
      PadStart(digits, 2, '0')
  }

  predicate IsLowerHexDigit(c: char)
  {
    '0' <= c <= '9' || 'a' <= c <= 'f'
  }

  ghost predicate AllLowerHex(s: string)
  {
    forall i :: 0 <= i < |s| ==> IsLowerHexDigit(s[i])
  }

  lemma HexByteShape(b: Byte)
    ensures |HexByte(b)| == 2 && AllLowerHex(HexByte(b))
  {
    NibbleBounds(b as nat);
  }

  /** The digest as hex: the per-byte strings joined without separator. */
  function HexString(bytes: seq<Byte>): (r: string)
    ensures |r| == 2 * |bytes|
    ensures AllLowerHex(r)
  {
    if bytes == [] then []
    else
      HexByteShape(bytes[0]);
      HexByte(bytes[0]) + HexString(bytes[1..])
  }

  /** Reads a hex string back into bytes; `None` for odd length or a character that is no lowercase hex digit. */
  function ParseHex(s: string): Option<seq<Byte>>
  {
    if s == [] then Some([])
    else if |s| == 1 || !IsLowerHexDigit(s[0]) || !IsLowerHexDigit(s[1]) then None
    else match ParseHex(s[2..])
      case None => None
      case Some(rest) => Some([(DigitValue(s[0]) * 16 + DigitValue(s[1])) as Byte] + rest)
  }

  /** Decoding the hex string recovers the digest bytes. */
  lemma {:induction false} ParseHexString(bytes: seq<Byte>)
    ensures ParseHex(HexString(bytes)) == Some(bytes)
  {
    if bytes != [] {
      var b := bytes[0];
      NibbleBounds(b as nat);
      var s := HexString(bytes);
      assert s[..2] == HexByte(b);
      assert s[2..] == HexString(bytes[1..]);
      ParseHexString(bytes[1..]);
      assert IsLowerHexDigit(s[0]) && IsLowerHexDigit(s[1]);
      assert (DigitValue(s[0]) * 16 + DigitValue(s[1])) as Byte == b;
      assert ParseHex(s) == Some([b] + bytes[1..]);
      assert [b] + bytes[1..] == bytes;
    }
  }

  /** The encoding is the only lowercase spelling of its bytes: whatever parses is exactly the encoding. */
  lemma {:induction false} HexStringOfParse(s: string, bytes: seq<Byte>)
    requires ParseHex(s) == Some(bytes)
    ensures HexString(bytes) == s
  {
    if s != [] {
      var rest :| ParseHex(s[2..]) == Some(rest);
      HexStringOfParse(s[2..], rest);
      var b := bytes[0];
      assert bytes == [b] + rest;
      assert b as int == DigitValue(s[0]) * 16 + DigitValue(s[1]);
      assert DigitChar(b as nat / 16) == s[0];
      assert DigitChar(b as nat % 16) == s[1];
      assert HexString(bytes) == HexByte(b) + HexString(rest);
      assert s == s[..2] + s[2..];
    }
  }
}
