/** The hex helpers that carry OpenTimestamps files through the proof records
    (index-local.js, `hexToBytes` and `bytesToHex`). `hexToBytes` never fails:
    it walks the string's UTF-16 code units two at a time, reads each pair
    with JavaScript's `parseInt(pair, 16)` and stores the result in a
    `Uint8Array`, so a malformed pair becomes a number anyway and an odd
    trailing code unit is dropped. */
module Hex {
  import opened Wrappers

  type byte = x: int | 0 <= x < 256

  // ---------------------------------------------------------------------------
  // bytesToHex
  // ---------------------------------------------------------------------------

  const LowerDigits: string := "0123456789abcdef"

  /** The lowercase hexadecimal digit for `d`. */
  function HexDigit(d: int): char
    requires 0 <= d < 16
  {
    LowerDigits[d]
  }

  /** `b.toString(16).padStart(2, '0')`. */
  function ByteToHex(b: byte): (r: string)
    ensures |r| == 2
  {
    [HexDigit(b / 16), HexDigit(b % 16)]
  }

  /** `Array.from(bytes).map(...).join('')`. */
  function BytesToHex(bytes: seq<byte>): (r: string)
    ensures |r| == 2 * |bytes|
  {
    if bytes == [] then "" else ByteToHex(bytes[0]) + BytesToHex(bytes[1..])
  }

  predicate IsLowerHex(s: string)
  {
    forall i :: 0 <= i < |s| ==> s[i] in LowerDigits
  }

  // ---------------------------------------------------------------------------
  // parseInt(s, 16) and the Uint8Array store
  // ---------------------------------------------------------------------------

  /** The characters ECMAScript's `parseInt` skips before the number: white
      space and line terminators. */
  predicate IsJsWhiteSpace(c: char)
  {
    || c == '\t' || c == '\n' || c == '\U{0B}' || c == '\U{0C}' || c == '\r' || c == ' '
    || c == '\U{A0}' || c == '\U{1680}' || ('\U{2000}' <= c <= '\U{200A}')
    || c == '\U{2028}' || c == '\U{2029}' || c == '\U{202F}' || c == '\U{205F}'
    || c == '\U{3000}' || c == '\U{FEFF}'
  }

  /** The value of a hexadecimal digit of either case. */
  function HexValue(c: char): (r: Option<int>)
    ensures r.Some? ==> 0 <= r.value < 16
  {
    if '0' <= c <= '9' then Some(c as int - '0' as int)
    else if 'a' <= c <= 'f' then Some(c as int - 'a' as int + 10)
    else if 'A' <= c <= 'F' then Some(c as int - 'A' as int + 10)
    else None
  }

  function TrimStart(s: string): (r: string)
    ensures |r| <= |s|
    ensures r == [] || !IsJsWhiteSpace(r[0])
  {
    if s != [] && IsJsWhiteSpace(s[0]) then TrimStart(s[1..]) else s
  }

  /** The values of the longest prefix of `s` made of hexadecimal digits. */
  function DigitPrefix(s: string): (ds: seq<int>)
    ensures |ds| <= |s|
    ensures forall i :: 0 <= i < |ds| ==> 0 <= ds[i] < 16
  {
    if s != [] && HexValue(s[0]).Some? then [HexValue(s[0]).value] + DigitPrefix(s[1..]) else []
  }

  /** The number the digits `ds` spell, most significant first. */
  function DigitsValue(ds: seq<int>): int
  {
    if ds == [] then 0 else DigitsValue(ds[..|ds| - 1]) * 16 + ds[|ds| - 1]
  }

  /** `parseInt(s, 16)`; `None` is `NaN`. Leading white space is skipped, one
      sign is read, a "0x" or "0X" prefix is dropped, and the longest run of
      hexadecimal digits that follows is the number. */
  function ParseInt16(s: string): Option<int>
  {
    var t := TrimStart(s);
    var negative := t != [] && t[0] == '-';
    var u := if t != [] && (t[0] == '-' || t[0] == '+') then t[1..] else t;
    var w := if |u| >= 2 && u[0] == '0' && (u[1] == 'x' || u[1] == 'X') then u[2..] else u;
    var ds := DigitPrefix(w);
    if ds == [] then None
    else if negative then Some(-DigitsValue(ds))
    else Some(DigitsValue(ds))
  }

  /** Storing a number into a `Uint8Array`: `NaN` becomes 0, anything else is
      taken modulo 256. */
  function ToUint8(v: Option<int>): (r: byte)
    ensures v.Some? && 0 <= v.value < 256 ==> r == v.value
    ensures v.Some? ==> (r - v.value) % 256 == 0
  {
    if v.None? then 0 else v.value % 256
  }

  // ---------------------------------------------------------------------------
  // JavaScript strings are UTF-16 code units
  // ---------------------------------------------------------------------------

  /** A UTF-16 code unit: what `hex.length` counts and `hex.substr` cuts. */
  type CodeUnit = u: int | 0 <= u < 0x1_0000

  predicate IsSurrogate(u: CodeUnit)
  {
    0xD800 <= u < 0xE000
  }

  /** The code units of one code point: itself below U+10000, otherwise a
      high and a low surrogate. */
  function UnitsOf(c: char): (r: seq<CodeUnit>)
    ensures c as int < 0x1_0000 ==> r == [c as int]
    ensures c as int >= 0x1_0000 ==> |r| == 2 && IsSurrogate(r[0]) && IsSurrogate(r[1])
  {
    if c as int < 0x1_0000 then [c as int]
    else
      var v := c as int - 0x1_0000;
      [0xD800 + v / 0x400, 0xDC00 + v % 0x400]
  }

  /** The JavaScript string holding the characters of `s`. */
  function Utf16(s: string): (r: seq<CodeUnit>)
    ensures |r| >= |s|
  {
    if s == [] then [] else UnitsOf(s[0]) + Utf16(s[1..])
  }

  /** All characters of `s` lie in the Basic Multilingual Plane. */
  predicate InBmp(s: string)
  {
    forall i :: 0 <= i < |s| ==> s[i] as int < 0x1_0000
  }

  /** The text `parseInt` reads from a run of code units: the units before the
      first surrogate, as characters. A surrogate is neither white space, nor
      a sign, nor `x`, nor a digit, so parsing always stops there. */
  function CharPrefix(us: seq<CodeUnit>): (r: string)
    ensures |r| <= |us|
  {
    if us == [] || IsSurrogate(us[0]) then [] else [us[0] as char] + CharPrefix(us[1..])
  }

  /** `parseInt(s, 16)` of the JavaScript string with code units `us`. */
  function ParseUnits(us: seq<CodeUnit>): Option<int>
  {
    ParseInt16(CharPrefix(us))
  }

  /** `s.substr(start, len)`: at most `len` units from `start` on. */
  function Substr(us: seq<CodeUnit>, start: nat, len: nat): (r: seq<CodeUnit>)
    requires start <= |us|
    ensures |r| <= len && start + |r| <= |us| && r == us[start..start + |r|]
    ensures |r| == len || start + |r| == |us|
  {
    if start + len <= |us| then us[start..start + len] else us[start..]
  }

  /** Byte `k` of `hexToBytes`: `parseInt(hex.substr(2 * k, 2), 16)` stored
      into the typed array. */
  function PairByte(us: seq<CodeUnit>, k: nat): byte
    requires 2 * k <= |us|
  {
    ToUint8(ParseUnits(Substr(us, 2 * k, 2)))
  }

  /** `hexToBytes` on the code units `us`, by definition: `us.length / 2`
      bytes (the typed array truncates the length), byte `k` read from units
      `2k` and `2k + 1`. */
  function DecodeUnits(us: seq<CodeUnit>): (r: seq<byte>)
    ensures |r| == |us| / 2
  {
    seq(|us| / 2, k requires 0 <= k < |us| / 2 => PairByte(us, k))
  }

  /** `hexToBytes(hex)` as a value. */
  function DecodeHex(hex: string): seq<byte>
  {
    DecodeUnits(Utf16(hex))
  }

  /** `hexToBytes(hex)`: the index loop over the string's code units, writing
      `parseInt(hex.substr(i, 2), 16)` at `i / 2`. For an odd length the last
      iteration reads a single unit and writes past the end of the typed
      array, which ignores it. */
  method HexToBytes(hex: string) returns (bytes: array<byte>)
    ensures bytes[..] == DecodeHex(hex)
  {
    var units := Utf16(hex);
    bytes := new byte[|units| / 2];
    var i := 0;
    while i < |units|
      invariant 0 <= i <= |units| + 1 && i % 2 == 0
      invariant forall k :: 0 <= k < i / 2 && k < bytes.Length ==> bytes[k] == PairByte(units, k)
    {
      var value := ToUint8(ParseUnits(Substr(units, i, 2)));
      if i / 2 < bytes.Length {
        assert value == PairByte(units, i / 2);
        bytes[i / 2] := value;
      }
      i := i + 2;
    }
  }

  /** Pairwise decoding of the characters themselves, which is what the code
      units say for a string in the Basic Multilingual Plane. */
  function DecodePairs(hex: string): (r: seq<byte>)
    ensures |r| == |hex| / 2
  {
    seq(|hex| / 2, k requires 0 <= k < |hex| / 2 => ToUint8(ParseInt16(hex[2 * k..2 * k + 2])))
  }

  /** A string in the Basic Multilingual Plane is one code unit per character. */
  lemma {:induction false} Utf16OfBmp(s: string)
    requires InBmp(s)
    ensures |Utf16(s)| == |s|
    ensures forall i :: 0 <= i < |s| ==> Utf16(s)[i] == s[i] as int
  {
    if s != [] {
      assert InBmp(s[1..]) by {
        forall i | 0 <= i < |s[1..]|
          ensures s[1..][i] as int < 0x1_0000
        {
          assert s[1..][i] == s[i + 1];
        }
      }
      Utf16OfBmp(s[1..]);
      forall i | 0 <= i < |s|
        ensures Utf16(s)[i] == s[i] as int
      {
        if i > 0 {
          assert Utf16(s)[i] == Utf16(s[1..])[i - 1];
        }
      }
    }
  }

  /** Two characters of the plane are read as themselves. */
  lemma CharPrefixOfPair(c0: char, c1: char)
    requires c0 as int < 0x1_0000 && c1 as int < 0x1_0000
    ensures CharPrefix([c0 as int, c1 as int]) == [c0, c1]
  {
    var us: seq<CodeUnit> := [c0 as int, c1 as int];
    assert us[1..] == [c1 as int] && us[1..][1..] == [];
  }

  /** For a string in the Basic Multilingual Plane, `hexToBytes` reads the
      characters pair by pair. */
  lemma DecodeBmp(hex: string)
    requires InBmp(hex)
    ensures DecodeHex(hex) == DecodePairs(hex)
  {
    var us := Utf16(hex);
    Utf16OfBmp(hex);
    forall k | 0 <= k < |hex| / 2
      ensures DecodeUnits(us)[k] == DecodePairs(hex)[k]
    {
      assert Substr(us, 2 * k, 2) == [hex[2 * k] as int, hex[2 * k + 1] as int];
      CharPrefixOfPair(hex[2 * k], hex[2 * k + 1]);
      assert hex[2 * k..2 * k + 2] == [hex[2 * k], hex[2 * k + 1]];
    }
  }

  /** Lower-case hex lies in the Basic Multilingual Plane. */
  lemma LowerHexInBmp(s: string)
    requires IsLowerHex(s)
    ensures InBmp(s)
  {
    forall i | 0 <= i < |s|
      ensures s[i] as int < 0x1_0000
    {
      assert s[i] in LowerDigits;
    }
  }

  // ---------------------------------------------------------------------------
  // Round trips
  // ---------------------------------------------------------------------------

  /** Every character `bytesToHex` produces is a lowercase hex digit. */
  lemma {:induction false} BytesToHexIsLowerHex(bytes: seq<byte>)
    ensures IsLowerHex(BytesToHex(bytes))
  {
    if bytes != [] {
      BytesToHexIsLowerHex(bytes[1..]);
      var r := BytesToHex(bytes);
      forall i | 0 <= i < |r|
        ensures r[i] in LowerDigits
      {
        if i >= 2 {
          assert r[i] == BytesToHex(bytes[1..])[i - 2];
        }
      }
    }
  }

  /** Pair `k` of `bytesToHex(bytes)` spells byte `k`. */
  lemma {:induction false} BytesToHexPair(bytes: seq<byte>, k: nat)
    requires k < |bytes|
    ensures BytesToHex(bytes)[2 * k..2 * k + 2] == ByteToHex(bytes[k])
  {
    if k > 0 {
      BytesToHexPair(bytes[1..], k - 1);
      assert BytesToHex(bytes)[2 * k..2 * k + 2] == BytesToHex(bytes[1..])[2 * (k - 1)..2 * (k - 1) + 2];
    }
  }

  /** `parseInt` reads two hexadecimal digits as their value. */
  lemma ParseHexPair(c0: char, c1: char)
    requires HexValue(c0).Some? && HexValue(c1).Some?
    ensures ParseInt16([c0, c1]) == Some(16 * HexValue(c0).value + HexValue(c1).value)
  {
    var s := [c0, c1];
    assert TrimStart(s) == s by {
      assert !IsJsWhiteSpace(c0);
    }
    assert c0 != '-' && c0 != '+' && c1 != 'x' && c1 != 'X';
    DigitPrefixPair(c0, c1);
    DigitsValuePair(HexValue(c0).value, HexValue(c1).value);
  }

  lemma DigitPrefixPair(c0: char, c1: char)
    requires HexValue(c0).Some? && HexValue(c1).Some?
    ensures DigitPrefix([c0, c1]) == [HexValue(c0).value, HexValue(c1).value]
  {
    var s := [c0, c1];
    assert s[1..] == [c1] && [c1][1..] == [];
  }

  lemma DigitsValuePair(a: int, b: int)
    ensures DigitsValue([a, b]) == 16 * a + b
  {
    assert [a, b][..1] == [a] && [a][..0] == [];
    assert DigitsValue([a]) == a;
  }

  lemma HexValueOfDigit(d: int)
    requires 0 <= d < 16
    ensures HexValue(HexDigit(d)) == Some(d)
  {
  }

  lemma DigitOfHexValue(c: char)
    requires c in LowerDigits
    ensures HexValue(c).Some? && HexDigit(HexValue(c).value) == c
  {
  }

  /** A byte is its high digit times 16 plus its low digit, and back. */
  lemma SplitByte(hi: int, lo: int)
    requires 0 <= hi < 16 && 0 <= lo < 16
    ensures 0 <= 16 * hi + lo < 256
    ensures (16 * hi + lo) / 16 == hi && (16 * hi + lo) % 16 == lo
  {
  }

  /** One byte survives `toString(16).padStart(2, '0')` and `parseInt(_, 16)`. */
  lemma ByteRoundTrip(b: byte)
    ensures ToUint8(ParseInt16(ByteToHex(b))) == b
  {
    ParseByte(b);
  }

  /** The two digits of a byte parse back to it. */
  lemma ParseByte(b: byte)
    ensures ParseInt16(ByteToHex(b)) == Some(b)
  {
    var hi, lo := b / 16, b % 16;
    assert 16 * hi + lo == b;
    HexValueOfDigit(hi);
    HexValueOfDigit(lo);
    ParseHexPair(HexDigit(hi), HexDigit(lo));
  }

  /** Two lowercase digits survive `parseInt(_, 16)` and `toString(16).padStart(2, '0')`. */
  lemma PairRoundTrip(c0: char, c1: char)
    requires c0 in LowerDigits && c1 in LowerDigits
    ensures ByteToHex(ToUint8(ParseInt16([c0, c1]))) == [c0, c1]
  {
    DigitOfHexValue(c0);
    DigitOfHexValue(c1);
    ParseHexPair(c0, c1);
    var a, b := HexValue(c0).value, HexValue(c1).value;
    SplitByte(a, b);
    var v: byte := 16 * a + b;
    assert ToUint8(ParseInt16([c0, c1])) == v;
    assert ByteToHex(v) == [HexDigit(a), HexDigit(b)];
  }

  /** `hexToBytes` reads its input pair by pair from the front. */
  lemma DecodePairsCons(hex: string)
    requires |hex| >= 2
    ensures DecodePairs(hex) == [ToUint8(ParseInt16(hex[..2]))] + DecodePairs(hex[2..])
  {
    var rest := hex[2..];
    forall k | 0 <= k < |rest| / 2
      ensures DecodePairs(rest)[k] == DecodePairs(hex)[k + 1]
    {
      assert rest[2 * k..2 * k + 2] == hex[2 * (k + 1)..2 * (k + 1) + 2];
    }
  }

  /** Decoding the encoding of a byte sequence gives it back. */
  lemma DecodeEncode(bytes: seq<byte>)
    ensures DecodeHex(BytesToHex(bytes)) == bytes
  {
    BytesToHexIsLowerHex(bytes);
    LowerHexInBmp(BytesToHex(bytes));
    DecodeBmp(BytesToHex(bytes));
    PairsDecodeEncode(bytes);
  }

  lemma {:induction false} PairsDecodeEncode(bytes: seq<byte>)
    ensures DecodePairs(BytesToHex(bytes)) == bytes
  {
    if bytes != [] {
      var h := BytesToHex(bytes);
      BytesToHexCons(bytes);
      DecodePairsCons(h);
      ByteRoundTrip(bytes[0]);
      PairsDecodeEncode(bytes[1..]);
    }
  }

  /** The first two characters of the encoding are the first byte's. */
  lemma BytesToHexCons(bytes: seq<byte>)
    requires bytes != []
    ensures BytesToHex(bytes)[..2] == ByteToHex(bytes[0])
    ensures BytesToHex(bytes)[2..] == BytesToHex(bytes[1..])
  {
  }

  /** Encoding the decoding of an even-length lowercase hex string gives it back. */
  lemma EncodeDecode(hex: string)
    requires IsLowerHex(hex) && |hex| % 2 == 0
    ensures BytesToHex(DecodeHex(hex)) == hex
  {
    LowerHexInBmp(hex);
    DecodeBmp(hex);
    PairsEncodeDecode(hex);
  }

  lemma {:induction false} PairsEncodeDecode(hex: string)
    requires IsLowerHex(hex) && |hex| % 2 == 0
    ensures BytesToHex(DecodePairs(hex)) == hex
  {
    if hex != [] {
      var rest := hex[2..];
      var b := ToUint8(ParseInt16(hex[..2]));
      DecodePairsCons(hex);
      LeadingPairRoundTrip(hex);
      LowerHexTail(hex);
      PairsEncodeDecode(rest);
      BytesToHexPrepend(b, DecodePairs(rest));
      assert hex == hex[..2] + rest;
    }
  }

  lemma LeadingPairRoundTrip(hex: string)
    requires IsLowerHex(hex) && |hex| >= 2
    ensures ByteToHex(ToUint8(ParseInt16(hex[..2]))) == hex[..2]
  {
    assert hex[0] in LowerDigits && hex[1] in LowerDigits;
    assert hex[..2] == [hex[0], hex[1]];
    PairRoundTrip(hex[0], hex[1]);
  }

  lemma LowerHexTail(hex: string)
    requires IsLowerHex(hex) && |hex| >= 2
    ensures IsLowerHex(hex[2..])
  {
    var rest := hex[2..];
    forall i | 0 <= i < |rest|
      ensures rest[i] in LowerDigits
    {
      assert rest[i] == hex[i + 2];
    }
  }

  lemma BytesToHexPrepend(b: byte, bytes: seq<byte>)
    ensures BytesToHex([b] + bytes) == ByteToHex(b) + BytesToHex(bytes)
  {
    assert ([b] + bytes)[1..] == bytes;
  }

  /** Two characters of the plane decode to the value of that pair. */
  lemma DecodeBmpPair(c0: char, c1: char)
    requires c0 as int < 0x1_0000 && c1 as int < 0x1_0000
    ensures DecodeHex([c0, c1]) == [ToUint8(ParseInt16([c0, c1]))]
  {
    var us := Utf16([c0, c1]);
    assert us == [c0 as int, c1 as int] by {
      assert [c0, c1][0] == c0 && [c0, c1][1..] == [c1] && [c1][0] == c1 && [c1][1..] == [];
      assert Utf16([c1]) == UnitsOf(c1) + Utf16([]);
      assert us == UnitsOf(c0) + Utf16([c1]);
    }
    CharPrefixOfPair(c0, c1);
    assert Substr(us, 0, 2) == us;
  }

  /** Text that starts with neither white space, a sign nor a digit is `NaN`. */
  lemma ParseNoDigit(s: string)
    requires s != [] && !IsJsWhiteSpace(s[0]) && s[0] != '-' && s[0] != '+'
    requires HexValue(s[0]).None?
    ensures ParseInt16(s) == None
  {
    assert TrimStart(s) == s;
  }

  /** One digit followed by a non-digit other than `x` is that digit's value. */
  lemma ParseLeadingDigit(s: string)
    requires s != [] && HexValue(s[0]).Some?
    requires |s| >= 2 ==> HexValue(s[1]).None? && s[1] != 'x' && s[1] != 'X'
    ensures ParseInt16(s) == Some(HexValue(s[0]).value)
  {
    assert !IsJsWhiteSpace(s[0]) && TrimStart(s) == s;
    assert DigitPrefix(s) == [HexValue(s[0]).value] by {
      assert DigitPrefix(s[1..]) == [];
    }
    var v := HexValue(s[0]).value;
    assert [v][..0] == [];
    assert DigitsValue([v]) == DigitsValue([]) * 16 + v;
  }

  /** A pair that does not start a number is stored as 0: no error is
      raised. */
  lemma NonHexPairIsZero(c0: char, c1: char)
    requires c0 as int < 0x1_0000 && c1 as int < 0x1_0000
    requires !IsJsWhiteSpace(c0) && c0 != '-' && c0 != '+' && HexValue(c0).None?
    ensures DecodeHex([c0, c1]) == [0]
  {
    DecodeBmpPair(c0, c1);
    ParseNoDigit([c0, c1]);
  }

  /** `parseInt` stops at the first non-digit, so a digit followed by
      something else (such as "1g") is stored as that digit. */
  lemma PartialPairKeepsPrefix(c0: char, c1: char)
    requires c0 as int < 0x1_0000 && c1 as int < 0x1_0000
    requires HexValue(c0).Some? && HexValue(c1).None? && c1 != 'x' && c1 != 'X'
    ensures DecodeHex([c0, c1]) == [HexValue(c0).value]
  {
    DecodeBmpPair(c0, c1);
    ParseLeadingDigit([c0, c1]);
  }

  /** A minus sign and one digit are read as a negative number, which the
      typed array stores modulo 256: "-f" is stored as 241. */
  lemma NegativePairWraps(c: char)
    requires HexValue(c).Some?
    ensures DecodeHex(['-', c]) == [(256 - HexValue(c).value) % 256]
  {
    var s := ['-', c];
    var v := HexValue(c).value;
    DecodeBmpPair('-', c);
    assert TrimStart(s) == s by {
      assert !IsJsWhiteSpace('-');
    }
    assert s[1..] == [c];
    ParseLeadingDigit([c]);
    assert DigitPrefix([c]) == [v] by {
      assert [c][1..] == [];
    }
    assert ParseInt16(s) == Some(-v);
  }

  /** An odd trailing code unit is dropped. */
  lemma OddTailDropped(us: seq<CodeUnit>)
    requires |us| % 2 == 1
    ensures DecodeUnits(us) == DecodeUnits(us[..|us| - 1])
  {
    var vs := us[..|us| - 1];
    forall k | 0 <= k < |us| / 2
      ensures DecodeUnits(us)[k] == DecodeUnits(vs)[k]
    {
      assert Substr(us, 2 * k, 2) == Substr(vs, 2 * k, 2);
    }
  }

  /** A run of code units that starts with a surrogate reads as `NaN`. */
  lemma SurrogateFirstIsNaN(us: seq<CodeUnit>)
    requires us != [] && IsSurrogate(us[0])
    ensures ParseUnits(us) == None
  {
    assert CharPrefix(us) == [];
  }

  /** Outside the Basic Multilingual Plane a character is two code units, so
      two such characters (two emoji, say) are four units: two pairs, each a
      high and a low surrogate, which `parseInt` reads as `NaN` and the typed
      array stores as 0. */
  lemma SurrogatePairsAreZero(c: char, d: char)
    requires c as int >= 0x1_0000 && d as int >= 0x1_0000
    ensures |Utf16([c, d])| == 4
    ensures DecodeHex([c, d]) == [0, 0]
  {
    var us := Utf16([c, d]);
    assert us == UnitsOf(c) + UnitsOf(d) by {
      assert [c, d][0] == c && [c, d][1..] == [d] && [d][0] == d && [d][1..] == [];
      assert Utf16([d]) == UnitsOf(d) + Utf16([]);
      assert us == UnitsOf(c) + Utf16([d]);
    }
    assert Substr(us, 0, 2) == UnitsOf(c);
    assert Substr(us, 2, 2) == UnitsOf(d);
    SurrogateFirstIsNaN(UnitsOf(c));
    SurrogateFirstIsNaN(UnitsOf(d));
  }

  /** A lone surrogate ends what `parseInt` reads: a digit before it counts,
      one after it does not. */
  lemma LoneSurrogateStopsParse()
    ensures DecodeUnits(['1' as int, 0xD800, 0xD800, '1' as int]) == [1, 0]
  {
    var us: seq<CodeUnit> := ['1' as int, 0xD800, 0xD800, '1' as int];
    var first := Substr(us, 0, 2);
    assert first == ['1' as int, 0xD800] && first[1..] == [0xD800];
    assert CharPrefix(first) == "1";
    ParseLeadingDigit("1");
    SurrogateFirstIsNaN(Substr(us, 2, 2));
  }
}
