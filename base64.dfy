/** The firmware's own base64 codec: the standard alphabet, '=' padding on
    encode, and a decoder that stops at the first character outside the alphabet. */
module Base64 {
  import opened Ints

  /** `is_base64`: an ASCII letter or digit, '+' or '/' — exactly the table's characters. */
  predicate IsBase64Char(c: char) {
    'A' <= c <= 'Z' || 'a' <= c <= 'z' || '0' <= c <= '9' || c == '+' || c == '/'
  }

  predicate AllBase64(s: string) {
    forall j :: 0 <= j < |s| ==> IsBase64Char(s[j])
  }

  /** Entry `x` of the encoding table `base64_chars`: A-Z, a-z, 0-9, '+', '/'. */
  function CharOf(x: nat): (c: char)
    requires x < 64
    ensures IsBase64Char(c)
  {
    if x < 26 then ('A' as int + x) as char
    else if x < 52 then ('a' as int + x - 26) as char
    else if x < 62 then ('0' as int + x - 52) as char
    else if x == 62 then '+' else '/'
  }

  /** `strchr(base64_chars, c) - base64_chars`, or 0 where `strchr` finds nothing.
      The NUL character finds the table's terminator, one past its end. */
  function Lookup(c: char): (x: nat)
    ensures x <= 64
    ensures IsBase64Char(c) ==> x < 64 && CharOf(x) == c
    ensures c == '\0' ==> x == 64
    ensures !IsBase64Char(c) && c != '\0' ==> x == 0
  {
    if 'A' <= c <= 'Z' then c as int - 'A' as int
    else if 'a' <= c <= 'z' then c as int - 'a' as int + 26
    else if '0' <= c <= '9' then c as int - '0' as int + 52
    else if c == '+' then 62
    else if c == '/' then 63
    else if c == '\0' then 64
    else 0
  }

  /** The table has no repeated character, so looking an entry up finds it again. */
  lemma LookupCharOf(x: nat)
    requires x < 64
    ensures Lookup(CharOf(x)) == x
  {
  }

  /** Each sextet looked up in the table (`base64_chars[char_array_4[j]]`). */
  function Chars(s: seq<nat>): (r: string)
    requires forall k :: 0 <= k < |s| ==> s[k] < 64
    ensures |r| == |s|
    ensures forall k :: 0 <= k < |s| ==> r[k] == CharOf(s[k]) && IsBase64Char(r[k])
  {
    if s == [] then [] else [CharOf(s[0])] + Chars(s[1..])
  }

  /** Each character's table index (`strchr` over `char_array_4`). */
  function Lookups(g: string): (r: seq<nat>)
    ensures |r| == |g|
    ensures forall k :: 0 <= k < |g| ==> r[k] == Lookup(g[k])
  {
    if g == [] then [] else [Lookup(g[0])] + Lookups(g[1..])
  }

  /** Looking up the characters of sextets gives the sextets back. */
  lemma LookupsChars(s: seq<nat>)
    requires forall k :: 0 <= k < |s| ==> s[k] < 64
    ensures Lookups(Chars(s)) == s
  {
    forall k | 0 <= k < |s|
      ensures Lookups(Chars(s))[k] == s[k]
    {
      LookupCharOf(s[k]);
    }
  }

  /** Three bytes split into four 6-bit values, big-endian (`char_array_4` from
      `char_array_3`): `(b0 & 0xfc) >> 2`, `((b0 & 0x03) << 4) + ((b1 & 0xf0) >> 4)`,
      `((b1 & 0x0f) << 2) + ((b2 & 0xc0) >> 6)` and `b2 & 0x3f`. */
  function Sextets(b0: byte, b1: byte, b2: byte): (s: seq<nat>)
    ensures |s| == 4 && forall k :: 0 <= k < 4 ==> s[k] < 64
  {
    [b0 / 4,
     (b0 % 4) * 16 + b1 / 16,
     (b1 % 16) * 4 + b2 / 64,
     b2 % 64]
  }

  /** Four table indices joined into three bytes (`char_array_3` from
      `char_array_4`): `(a0 << 2) + ((a1 & 0x30) >> 4)`,
      `((a1 & 0xf) << 4) + ((a2 & 0x3c) >> 2)` and `((a2 & 0x3) << 6) + a3`, each
      truncated to 8 bits by the assignment to `uint8_t`. */
  function Octets(a0: byte, a1: byte, a2: byte, a3: byte): (t: seq<byte>)
    ensures |t| == 3
  {
    [(a0 * 4 + (a1 / 16) % 4) % 256,
     ((a1 % 16) * 16 + (a2 / 4) % 16) % 256,
     ((a2 % 4) * 64 + a3) % 256]
  }

  /** Joining the sextets of three bytes gives the bytes back. */
  lemma OctetsOfSextets(b0: byte, b1: byte, b2: byte)
    ensures var s := Sextets(b0, b1, b2); Octets(s[0], s[1], s[2], s[3]) == [b0, b1, b2]
  {
    var a1, a2 := (b0 % 4) * 16 + b1 / 16, (b1 % 16) * 4 + b2 / 64;
    assert Sextets(b0, b1, b2) == [b0 / 4, a1, a2, b2 % 64];
    var t := Octets(b0 / 4, a1, a2, b2 % 64);
    assert t[0] == b0 by { Digits16(b0 % 4, b1 / 16); Join4(b0); }
    assert t[1] == b1 by { Digits16(b0 % 4, b1 / 16); Digits4(b1 % 16, b2 / 64); Join16(b1); }
    assert t[2] == b2 by { Digits4(b1 % 16, b2 / 64); Join64(b2); }
  }

  /** A high and a low digit in base 16 are read back by `/ 16` and `% 16`. */
  lemma Digits16(hi: nat, lo: nat)
    requires lo < 16
    ensures (hi * 16 + lo) / 16 == hi && (hi * 16 + lo) % 16 == lo
  {
  }

  lemma Digits4(hi: nat, lo: nat)
    requires lo < 4
    ensures (hi * 4 + lo) / 4 == hi && (hi * 4 + lo) % 4 == lo
  {
  }

  /** A byte is its top six bits and its low two bits. */
  lemma Join4(b: byte)
    ensures (b / 4 * 4 + (b % 4) % 4) % 256 == b
  {
  }

  lemma Join16(b: byte)
    ensures ((b / 16) * 16 + (b % 16) % 16) % 256 == b
  {
  }

  lemma Join64(b: byte)
    ensures ((b / 64) * 64 + b % 64) % 256 == b
  {
  }

  /** In a short final group the decoder fills the missing indices with 64, and
      the bytes it keeps are still the encoded ones. */
  lemma OctetsOfShortGroup1(b0: byte)
    ensures var s := Sextets(b0, 0, 0); Octets(s[0], s[1], 64, 64)[0] == b0
  {
    assert Sextets(b0, 0, 0)[..2] == [b0 / 4, (b0 % 4) * 16];
    Digits16(b0 % 4, 0);
    Join4(b0);
  }

  lemma OctetsOfShortGroup2(b0: byte, b1: byte)
    ensures var s := Sextets(b0, b1, 0); Octets(s[0], s[1], s[2], 64)[..2] == [b0, b1]
  {
    var a1, a2 := (b0 % 4) * 16 + b1 / 16, (b1 % 16) * 4;
    assert Sextets(b0, b1, 0)[..3] == [b0 / 4, a1, a2];
    var t := Octets(b0 / 4, a1, a2, 64);
    assert t[0] == b0 by { Digits16(b0 % 4, b1 / 16); Join4(b0); }
    assert t[1] == b1 by { Digits16(b0 % 4, b1 / 16); Digits4(b1 % 16, 0); Join16(b1); }
    assert t[..2] == [b0, b1];
  }

  /** The four characters of one full group. */
  function GroupChars(b0: byte, b1: byte, b2: byte): (r: string)
    ensures |r| == 4 && AllBase64(r)
  {
    Chars(Sextets(b0, b1, b2))
  }

  /** `e` is alphabet characters followed by exactly `p` '=' characters. */
  predicate Padded(e: string, p: nat) {
    p <= |e|
    && (forall i :: 0 <= i < |e| - p ==> IsBase64Char(e[i]))
    && (forall i :: |e| - p <= i < |e| ==> e[i] == '=')
  }

  /** The final group of one or two bytes: the bytes are zero-filled to three,
      the first `|t| + 1` sextets are written and the rest is '=' padding. */
  function TailChars(t: seq<byte>): (r: string)
    requires 1 <= |t| <= 2
    ensures |r| == 4 && Padded(r, 3 - |t|)
  {
    if |t| == 1 then Chars(Sextets(t[0], 0, 0)[..2]) + "=="
    else Chars(Sextets(t[0], t[1], 0)[..3]) + "="
  }

  /** `base64_encode`: full groups of three bytes, then the padded final group. */
  function EncodeSpec(data: seq<byte>): string
    decreases |data|
  {
    if |data| >= 3 then GroupChars(data[0], data[1], data[2]) + EncodeSpec(data[3..])
    else if |data| == 0 then ""
    else TailChars(data)
  }

  /** Encoding a whole number of groups and then more is encoding each part. */
  lemma {:induction false} EncodeSpecAppend(a: seq<byte>, b: seq<byte>, groups: nat)
    requires |a| == 3 * groups
    ensures EncodeSpec(a + b) == EncodeSpec(a) + EncodeSpec(b)
    decreases groups
  {
    if groups > 0 {
      assert (a + b)[3..] == a[3..] + b;
      assert (a + b)[0] == a[0] && (a + b)[1] == a[1] && (a + b)[2] == a[2];
      EncodeSpecAppend(a[3..], b, groups - 1);
    } else {
      assert a + b == b;
    }
  }

  /** Encoding whole groups up to `start` and then one more full group. */
  lemma EncodeGroupStep(data: seq<byte>, start: nat, groups: nat)
    requires start + 3 <= |data| && start == 3 * groups
    ensures EncodeSpec(data[..start + 3])
      == EncodeSpec(data[..start]) + GroupChars(data[start], data[start + 1], data[start + 2])
  {
    var prefix, g := data[..start], data[start..start + 3];
    assert prefix + g == data[..start + 3];
    EncodeSpecAppend(prefix, g, groups);
    assert g[3..] == [];
  }

  /** Encoding whole groups up to `start` and then the final partial group. */
  lemma EncodeTailStep(data: seq<byte>, start: nat, groups: nat)
    requires start < |data| <= start + 2 && start == 3 * groups
    ensures EncodeSpec(data) == EncodeSpec(data[..start]) + TailChars(data[start..])
  {
    var prefix, t := data[..start], data[start..];
    SplitAt(data, start);
    EncodeSpecAppend(prefix, t, groups);
    EncodeTail(t);
  }

  lemma SplitAt<T>(s: seq<T>, k: nat)
    requires k <= |s|
    ensures s[..k] + s[k..] == s
  {
  }

  lemma EncodeTail(t: seq<byte>)
    requires 1 <= |t| <= 2
    ensures EncodeSpec(t) == TailChars(t)
  {
  }

  /** `base64_encode`: bytes are collected into a three-byte group buffer
      (`char_array_3`, holding `data[k - i..k]`) that is flushed as four
      characters when full; a partial group is zero-filled and padded at the end. */
  method Encode(data: seq<byte>) returns (result: string)
    ensures result == EncodeSpec(data)
  {
    result := "";
    var i := 0;
    var k := 0;
    ghost var groups := 0;
    while k < |data|
      invariant 0 <= i < 3 && i <= k <= |data|
      invariant k - i == 3 * groups
      invariant result == EncodeSpec(data[..k - i])
    {
      i := i + 1;
      k := k + 1;
      if i == 3 {
        EncodeGroupStep(data, k - 3, groups);
        result := result + GroupChars(data[k - 3], data[k - 2], data[k - 1]);
        i := 0;
        groups := groups + 1;
      }
    }
    if i > 0 {
      EncodeTailStep(data, k - i, groups);
      result := result + TailChars(data[k - i..]);
    } else {
      assert data[..k] == data;
    }
  }

  /** The number of '=' characters ending the encoding of `n` bytes. */
  function PadCount(n: nat): (p: nat)
    ensures p <= 2 && (n + p) % 3 == 0
  {
    (3 - n % 3) % 3
  }

  lemma PaddedPrepend(g: string, rest: string, p: nat)
    requires AllBase64(g) && Padded(rest, p)
    ensures Padded(g + rest, p)
  {
    var e := g + rest;
    forall i | 0 <= i < |e| - p
      ensures IsBase64Char(e[i])
    {
      if i >= |g| { assert e[i] == rest[i - |g|]; }
    }
    forall i | |e| - p <= i < |e|
      ensures e[i] == '='
    {
      assert e[i] == rest[i - |g|];
    }
  }

  /** Encoding `3 * groups + rest` bytes gives `4 * groups` characters, then four
      more when `rest > 0`, of which the last `3 - rest` are '='. */
  lemma {:induction false} EncodeShapeGroups(data: seq<byte>, groups: nat, rest: nat)
    requires |data| == 3 * groups + rest && rest < 3
    ensures |EncodeSpec(data)| == 4 * groups + (if rest == 0 then 0 else 4)
    ensures Padded(EncodeSpec(data), if rest == 0 then 0 else 3 - rest)
    decreases groups
  {
    if groups > 0 {
      EncodeShapeGroups(data[3..], groups - 1, rest);
      var g := GroupChars(data[0], data[1], data[2]);
      assert EncodeSpec(data) == g + EncodeSpec(data[3..]);
      PaddedPrepend(g, EncodeSpec(data[3..]), if rest == 0 then 0 else 3 - rest);
    }
  }

  /** Encoding `n` bytes gives `4 * ceil(n / 3)` characters: alphabet characters
      followed by `PadCount(n)` '=' characters. */
  lemma EncodeShape(data: seq<byte>)
    ensures |EncodeSpec(data)| == 4 * ((|data| + 2) / 3)
    ensures Padded(EncodeSpec(data), PadCount(|data|))
  {
    var n := |data|;
    DivThree(n);
    EncodeShapeGroups(data, n / 3, n % 3);
  }

  lemma DivThree(n: nat)
    ensures n == 3 * (n / 3) + n % 3 && n % 3 < 3
    ensures (n + 2) / 3 == n / 3 + (if n % 3 == 0 then 0 else 1)
    ensures PadCount(n) == if n % 3 == 0 then 0 else 3 - n % 3
  {
  }

  /** First index at or after `from` whose character is '=' or outside the table
      (or the length). */
  function StopIndexFrom(s: string, from: nat): (n: nat)
    requires from <= |s|
    ensures from <= n <= |s|
    ensures forall j :: from <= j < n ==> IsBase64Char(s[j])
    ensures n < |s| ==> !IsBase64Char(s[n])
    decreases |s| - from
  {
    if from == |s| || !IsBase64Char(s[from]) then from else StopIndexFrom(s, from + 1)
  }

  /** Where the decoding loop stops. */
  function StopIndex(s: string): (n: nat)
    ensures n <= |s| && AllBase64(s[..n])
    ensures n < |s| ==> !IsBase64Char(s[n])
  {
    StopIndexFrom(s, 0)
  }

  lemma Base64Extend(s: string, k: nat)
    requires k < |s| && AllBase64(s[..k]) && IsBase64Char(s[k])
    ensures AllBase64(s[..k + 1])
  {
    assert s[..k + 1] == s[..k] + [s[k]];
  }

  lemma Base64Prefix(s: string, m: nat, n: nat)
    requires m <= n <= |s| && AllBase64(s[..n])
    ensures AllBase64(s[..m])
  {
    assert forall j :: 0 <= j < m ==> s[..m][j] == s[..n][j];
  }

  /** Any index with the two properties of `StopIndex` is `StopIndex`. */
  lemma StopIndexUnique(s: string, n: nat)
    requires n <= |s| && AllBase64(s[..n])
    requires n < |s| ==> !IsBase64Char(s[n])
    ensures n == StopIndex(s)
  {
  }

  /** The table indices of one group of four characters, joined into three bytes. */
  function GroupBytes(g: string): (t: seq<byte>)
    requires |g| == 4
    ensures |t| == 3
  {
    var a := Lookups(g);
    Octets(a[0], a[1], a[2], a[3])
  }

  /** A partial group with its missing slots set to NUL (`char_array_4[j] = 0`). */
  function NulFilled(s: string): (g: string)
    requires 1 <= |s| <= 3
    ensures |g| == 4 && g[..|s|] == s && forall k :: |s| <= k < 4 ==> g[k] == '\0'
  {
    if |s| == 1 then s + "\0\0\0" else if |s| == 2 then s + "\0\0" else s + "\0"
  }

  /** Decoding a run of table characters: groups of four give three bytes; a final
      group of `i` characters is NUL-filled and gives `i - 1` bytes. */
  function DecodeChars(s: string): (r: seq<byte>)
    requires AllBase64(s)
    decreases |s|
  {
    if |s| >= 4 then GroupBytes(s[..4]) + DecodeChars(s[4..])
    else if |s| == 0 then []
    else GroupBytes(NulFilled(s))[..|s| - 1]
  }

  /** `base64_decode`: decodes the characters before the first '=' or non-table character. */
  function DecodeSpec(s: string): seq<byte> {
    DecodeChars(s[..StopIndex(s)])
  }

  lemma {:induction false} DecodeCharsAppend(a: string, b: string, groups: nat)
    requires AllBase64(a) && AllBase64(b) && |a| == 4 * groups
    ensures AllBase64(a + b)
    ensures DecodeChars(a + b) == DecodeChars(a) + DecodeChars(b)
    decreases groups
  {
    if groups > 0 {
      assert (a + b)[4..] == a[4..] + b;
      assert (a + b)[..4] == a[..4];
      DecodeCharsAppend(a[4..], b, groups - 1);
    } else {
      assert a + b == b;
    }
  }

  /** Decoding whole groups up to `start` and then one more full group. */
  lemma DecodeGroupStep(s: string, start: nat, groups: nat)
    requires start + 4 <= |s| && start == 4 * groups && AllBase64(s[..start + 4])
    ensures AllBase64(s[..start]) && AllBase64(s[start..start + 4])
    ensures DecodeChars(s[..start + 4]) == DecodeChars(s[..start]) + GroupBytes(s[start..start + 4])
  {
    var prefix, g := s[..start], s[start..start + 4];
    Base64Slices(s, start, start + 4);
    DecodeCharsAppend(prefix, g, groups);
    DecodeOneGroup(g);
  }

  /** Cutting a run of table characters in two. */
  lemma Base64Slices(s: string, start: nat, stop: nat)
    requires start <= stop <= |s| && AllBase64(s[..stop])
    ensures AllBase64(s[..start]) && AllBase64(s[start..stop])
    ensures s[..start] + s[start..stop] == s[..stop]
  {
    assert forall j :: 0 <= j < start ==> s[..start][j] == s[..stop][j];
    assert forall j :: 0 <= j < stop - start ==> s[start..stop][j] == s[..stop][start + j];
  }

  /** Decoding whole groups up to `start` and then a final partial group ending at `stop`. */
  lemma DecodeTailStep(s: string, start: nat, stop: nat, groups: nat)
    requires start < stop <= start + 3 && stop <= |s| && start == 4 * groups
    requires AllBase64(s[..stop])
    ensures AllBase64(s[..start]) && 1 <= |s[start..stop]| <= 3
    ensures DecodeChars(s[..stop])
      == DecodeChars(s[..start]) + GroupBytes(NulFilled(s[start..stop]))[..stop - start - 1]
  {
    var prefix, t := s[..start], s[start..stop];
    Base64Slices(s, start, stop);
    DecodeCharsAppend(prefix, t, groups);
  }

  /** `base64_decode`: characters are collected into a four-character group buffer
      (`char_array_4`, holding `encoded[k - i..k]`) until the first '=' or
      non-table character; full groups are decoded as they fill and a final
      partial group at the end. The source always reports success. */
  method Decode(encoded: string) returns (ok: bool, output: seq<byte>)
    ensures ok
    ensures output == DecodeSpec(encoded)
  {
    output := [];
    var i := 0;
    var k := 0;
    ghost var groups := 0;
    while k < |encoded| && encoded[k] != '=' && IsBase64Char(encoded[k])
      invariant 0 <= i < 4 && i <= k <= |encoded|
      invariant k - i == 4 * groups
      invariant AllBase64(encoded[..k]) && AllBase64(encoded[..k - i])
      invariant output == DecodeChars(encoded[..k - i])
    {
      Base64Extend(encoded, k);
      i := i + 1;
      k := k + 1;
      if i == 4 {
        DecodeGroupStep(encoded, k - 4, groups);
        output := output + GroupBytes(encoded[k - 4..k]);
        i := 0;
        groups := groups + 1;
      } else {
        Base64Prefix(encoded, k - i, k);
      }
    }
    StopIndexUnique(encoded, k);
    if i > 0 {
      DecodeTailStep(encoded, k - i, k, groups);
      output := output + GroupBytes(NulFilled(encoded[k - i..k]))[..i - 1];
    }
    ok := true;
  }

  /** Decoding `4 * groups + rest` table characters gives `3 * groups` bytes, plus
      `rest - 1` for a partial final group. */
  lemma {:induction false} DecodeCharsLength(s: string, groups: nat, rest: nat)
    requires AllBase64(s) && |s| == 4 * groups + rest && rest < 4
    ensures |DecodeChars(s)| == 3 * groups + (if rest == 0 then 0 else rest - 1)
    decreases groups
  {
    if groups > 0 {
      DecodeCharsLength(s[4..], groups - 1, rest);
    }
  }

  /** The length of a decoding, from the position where the decoder stops. */
  lemma DecodeLength(s: string)
    ensures var n := StopIndex(s);
      |DecodeSpec(s)| == 3 * (n / 4) + (if n % 4 == 0 then 0 else n % 4 - 1)
  {
    var n := StopIndex(s);
    DecodeCharsLength(s[..n], n / 4, n % 4);
  }

  /** A full group decodes to its three bytes. */
  lemma GroupRoundTrip(b0: byte, b1: byte, b2: byte)
    ensures GroupBytes(GroupChars(b0, b1, b2)) == [b0, b1, b2]
  {
    LookupsChars(Sextets(b0, b1, b2));
    OctetsOfSextets(b0, b1, b2);
  }

  /** A final group of one byte decodes, before its padding, to that byte. */
  lemma TailRoundTrip1(b0: byte)
    ensures AllBase64(TailChars([b0])[..2])
    ensures DecodeChars(TailChars([b0])[..2]) == [b0]
  {
    var s := Sextets(b0, 0, 0);
    var u := TailChars([b0])[..2];
    assert u == Chars(s[..2]);
    var q := NulFilled(u);
    assert Lookups(q) == [s[0], s[1], 64, 64] by {
      LookupsChars(s[..2]);
    }
    OctetsOfShortGroup1(b0);
  }

  /** A final group of two bytes decodes, before its padding, to those bytes. */
  lemma TailRoundTrip2(b0: byte, b1: byte)
    ensures AllBase64(TailChars([b0, b1])[..3])
    ensures DecodeChars(TailChars([b0, b1])[..3]) == [b0, b1]
  {
    var s := Sextets(b0, b1, 0);
    var u := TailChars([b0, b1])[..3];
    assert u == Chars(s[..3]);
    var q := NulFilled(u);
    assert Lookups(q) == [s[0], s[1], s[2], 64] by {
      LookupsChars(s[..3]);
    }
    OctetsOfShortGroup2(b0, b1);
  }

  /** One full group of four table characters decodes to its three bytes. */
  lemma DecodeOneGroup(g: string)
    requires |g| == 4 && AllBase64(g)
    ensures DecodeChars(g) == GroupBytes(g)
  {
    assert g[..4] == g && g[4..] == [];
  }

  lemma SlicePrepend(g: string, r: string, n: nat)
    requires n <= |r|
    ensures (g + r)[..|g| + n] == g + r[..n]
  {
  }

  /** The length of the encoding of `3 * groups + rest` bytes without its padding. */
  function UnpaddedLength(groups: nat, rest: nat): nat {
    4 * groups + (if rest == 0 then 0 else rest + 1)
  }

  /** Decoding the unpadded encoding of a full group followed by more bytes. */
  lemma UnpaddedStep(data: seq<byte>, groups: nat, rest: nat)
    requires |data| == 3 * groups + rest && groups > 0
    requires var n := UnpaddedLength(groups - 1, rest);
      n <= |EncodeSpec(data[3..])| && AllBase64(EncodeSpec(data[3..])[..n])
      && DecodeChars(EncodeSpec(data[3..])[..n]) == data[3..]
    ensures UnpaddedLength(groups, rest) <= |EncodeSpec(data)|
    ensures AllBase64(EncodeSpec(data)[..UnpaddedLength(groups, rest)])
    ensures DecodeChars(EncodeSpec(data)[..UnpaddedLength(groups, rest)]) == data
  {
    var n := UnpaddedLength(groups - 1, rest);
    assert UnpaddedLength(groups, rest) == 4 + n;
    EncodeFirstGroup(data);
    FirstThree(data);
    PrependGroup(data[0], data[1], data[2], EncodeSpec(data[3..]), data[3..], n);
  }

  lemma EncodeFirstGroup(data: seq<byte>)
    requires |data| >= 3
    ensures EncodeSpec(data) == GroupChars(data[0], data[1], data[2]) + EncodeSpec(data[3..])
  {
  }

  lemma FirstThree(data: seq<byte>)
    requires |data| >= 3
    ensures data == [data[0], data[1], data[2]] + data[3..]
  {
  }

  /** A full group in front of a decodable run decodes to its bytes in front. */
  lemma PrependGroup(b0: byte, b1: byte, b2: byte, r: string, rest: seq<byte>, n: nat)
    requires n <= |r| && AllBase64(r[..n]) && DecodeChars(r[..n]) == rest
    ensures var g := GroupChars(b0, b1, b2);
      AllBase64((g + r)[..4 + n]) && DecodeChars((g + r)[..4 + n]) == [b0, b1, b2] + rest
  {
    var g := GroupChars(b0, b1, b2);
    SlicePrepend(g, r, n);
    DecodeCharsAppend(g, r[..n], 1);
    DecodeOneGroup(g);
    GroupRoundTrip(b0, b1, b2);
  }

  /** The encoding of `3 * groups + rest` bytes, without its padding, decodes to them. */
  lemma {:induction false} UnpaddedDecodes(data: seq<byte>, groups: nat, rest: nat)
    requires |data| == 3 * groups + rest && rest < 3
    ensures UnpaddedLength(groups, rest) <= |EncodeSpec(data)|
    ensures AllBase64(EncodeSpec(data)[..UnpaddedLength(groups, rest)])
    ensures DecodeChars(EncodeSpec(data)[..UnpaddedLength(groups, rest)]) == data
    decreases groups
  {
    if groups > 0 {
      UnpaddedDecodes(data[3..], groups - 1, rest);
      UnpaddedStep(data, groups, rest);
    } else {
      UnpaddedTail(data);
    }
  }

  /** The same for fewer than three bytes. */
  lemma UnpaddedTail(data: seq<byte>)
    requires |data| < 3
    ensures UnpaddedLength(0, |data|) <= |EncodeSpec(data)|
    ensures AllBase64(EncodeSpec(data)[..UnpaddedLength(0, |data|)])
    ensures DecodeChars(EncodeSpec(data)[..UnpaddedLength(0, |data|)]) == data
  {
    if |data| == 1 {
      EncodeTail(data);
      assert data == [data[0]];
      TailRoundTrip1(data[0]);
    } else if |data| == 2 {
      EncodeTail(data);
      assert data == [data[0], data[1]];
      TailRoundTrip2(data[0], data[1]);
    }
  }

  /** The decoder inverts the encoder on every byte string, also when the
      encoding is followed by text that starts with a character outside the table. */
  lemma DecodeEncodeThen(data: seq<byte>, rest: string)
    requires rest == [] || !IsBase64Char(rest[0])
    ensures DecodeSpec(EncodeSpec(data) + rest) == data
  {
    var groups, rest3 := |data| / 3, |data| % 3;
    var e := EncodeSpec(data);
    var s := e + rest;
    var n := UnpaddedLength(groups, rest3);
    EncodeShapeGroups(data, groups, rest3);
    UnpaddedDecodes(data, groups, rest3);
    assert s[..n] == e[..n];
    if n < |e| {
      assert s[n] == e[n];
    }
    StopIndexUnique(s, n);
  }

  /** The decoder inverts the encoder on every byte string. */
  lemma DecodeEncode(data: seq<byte>)
    ensures DecodeSpec(EncodeSpec(data)) == data
  {
    DecodeEncodeThen(data, "");
    assert EncodeSpec(data) + "" == EncodeSpec(data);
  }
}
