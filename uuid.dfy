/** `generate_uuid`: a version-4 UUID in the canonical 8-4-4-4-12 textual form
    (section 4.4 of RFC 4122). The 16 random bytes are an input. */
module Uuid {
  import opened Ints

  /** `hex_chars[n]` for `hex_chars = "0123456789abcdef"`. */
  function HexChar(n: nat): (c: char)
    requires n < 16
    ensures IsLowerHex(c)
  {
    if n < 10 then ('0' as int + n) as char else ('a' as int + n - 10) as char
  }

  predicate IsLowerHex(c: char) {
    '0' <= c <= '9' || 'a' <= c <= 'f'
  }

  /** The inverse of `HexChar`. */
  function HexValue(c: char): (n: nat)
    requires IsLowerHex(c)
    ensures n < 16 && HexChar(n) == c
  {
    if c <= '9' then c as int - '0' as int else c as int - 'a' as int + 10
  }

  /** The bytes after the version and variant bits are set: byte 6 becomes
      `(b & 0x0F) | 0x40` and byte 8 becomes `(b & 0x3F) | 0x80`. */
  function Stamped(b: seq<byte>): (v: seq<byte>)
    requires |b| == 16
    ensures |v| == 16
    ensures v[6] / 16 == 4 && v[6] % 16 == b[6] % 16
    ensures v[8] / 64 == 2 && v[8] % 64 == b[8] % 64
    ensures forall i :: 0 <= i < 16 && i != 6 && i != 8 ==> v[i] == b[i]
  {
    b[6 := b[6] % 16 + 64][8 := b[8] % 64 + 128]
  }

  /** Whether a '-' is written before byte `i`. */
  predicate DashBefore(i: nat) {
    i == 4 || i == 6 || i == 8 || i == 10
  }

  /** How many of the first `n` bytes are preceded by a '-'. */
  function DashCount(n: nat): (d: nat)
    ensures d <= 4
  {
    if n <= 4 then 0 else if n <= 6 then 1 else if n <= 8 then 2 else if n <= 10 then 3 else 4
  }

  /** The text the loop appends for byte `i`: an optional '-' and two hex digits,
      high nibble first. */
  function Segment(v: seq<byte>, i: nat): (r: string)
    requires i < |v|
  {
    (if DashBefore(i) then "-" else "") + [HexChar(v[i] / 16), HexChar(v[i] % 16)]
  }

  /** The text after the loop has handled the first `n` bytes. */
  function Prefix(v: seq<byte>, n: nat): string
    requires n <= |v|
  {
    if n == 0 then "" else Prefix(v, n - 1) + Segment(v, n - 1)
  }

  /** Where the two hex digits of byte `i` are written. */
  function Pos(i: nat): nat {
    2 * i + DashCount(i + 1)
  }

  /** The shape of the text after `n` bytes: its length, the place of every
      byte's two digits, and the dashes. */
  predicate PrefixShape(v: seq<byte>, n: nat, u: string)
    requires n <= |v|
  {
    |u| == 2 * n + DashCount(n)
    && (forall i :: 0 <= i < n ==>
          (Pos(i) + 1 < |u| && u[Pos(i)] == HexChar(v[i] / 16) && u[Pos(i) + 1] == HexChar(v[i] % 16)))
    && (forall j :: 0 <= j < |u| ==> (u[j] == '-' <==> j in {8, 13, 18, 23}))
    && (forall j :: 0 <= j < |u| && u[j] != '-' ==> IsLowerHex(u[j]))
  }

  lemma PrefixStep(v: seq<byte>, n: nat, u: string)
    requires n < |v| <= 16 && PrefixShape(v, n, u)
    ensures PrefixShape(v, n + 1, u + Segment(v, n))
  {
    var w := u + Segment(v, n);
    var s := Segment(v, n);
    assert |s| == 2 + (if DashBefore(n) then 1 else 0);
    assert Pos(n) == |u| + |s| - 2;
    forall i | 0 <= i < n
      ensures w[Pos(i)] == u[Pos(i)] && w[Pos(i) + 1] == u[Pos(i) + 1]
    {
    }
    forall j | 0 <= j < |w|
      ensures w[j] == '-' <==> j in {8, 13, 18, 23}
    {
      if j >= |u| {
        assert w[j] == s[j - |u|];
      }
    }
  }

  /** The whole text is the prefix after all 16 bytes. */
  lemma {:induction false} PrefixHasShape(v: seq<byte>, n: nat)
    requires n <= |v| <= 16
    ensures PrefixShape(v, n, Prefix(v, n))
  {
    if n > 0 {
      PrefixHasShape(v, n - 1);
      PrefixStep(v, n - 1, Prefix(v, n - 1));
    }
  }

  /** `generate_uuid` with the random bytes `random` given: the version and
      variant bits are set, then each byte is written as two lower-case hex
      digits, with a '-' before bytes 4, 6, 8 and 10. */
  method GenerateUuid(random: seq<byte>) returns (uuid: string)
    requires |random| == 16
    ensures uuid == Prefix(Stamped(random), 16)
  {
    var v := Stamped(random);
    uuid := "";
    var i := 0;
    while i < 16
      invariant 0 <= i <= 16
      invariant uuid == Prefix(v, i)
    {
      if i == 4 || i == 6 || i == 8 || i == 10 {
        uuid := uuid + "-";
      }
      uuid := uuid + [HexChar(v[i] / 16), HexChar(v[i] % 16)];
      i := i + 1;
    }
  }

  /** The text is 36 characters: lower-case hex digits with a '-' exactly at
      indices 8, 13, 18 and 23; the version digit (index 14) is '4' and the
      variant digit (index 19) is one of '8', '9', 'a', 'b'. */
  lemma UuidFormat(random: seq<byte>)
    requires |random| == 16
    ensures var u := Prefix(Stamped(random), 16);
      |u| == 36
      && (forall j :: 0 <= j < 36 ==> (u[j] == '-' <==> j in {8, 13, 18, 23}))
      && (forall j :: 0 <= j < 36 && u[j] != '-' ==> IsLowerHex(u[j]))
      && u[14] == '4' && u[19] in {'8', '9', 'a', 'b'}
  {
    var v := Stamped(random);
    PrefixHasShape(v, 16);
    assert Pos(6) == 14 && Pos(8) == 19;
  }

  /** The text determines the stamped bytes: each byte is the value of its two digits. */
  lemma UuidDecodes(random: seq<byte>)
    requires |random| == 16
    ensures var u := Prefix(Stamped(random), 16);
      |u| == 36
      && forall i :: 0 <= i < 16 ==>
           (Pos(i) + 1 < 36 && IsLowerHex(u[Pos(i)]) && IsLowerHex(u[Pos(i) + 1])
            && 16 * HexValue(u[Pos(i)]) + HexValue(u[Pos(i) + 1]) == Stamped(random)[i])
  {
    var v := Stamped(random);
    PrefixHasShape(v, 16);
    forall i | 0 <= i < 16
      ensures 16 * HexValue(HexChar(v[i] / 16)) + HexValue(HexChar(v[i] % 16)) == v[i]
    {
      HexRoundTrip(v[i] / 16);
      HexRoundTrip(v[i] % 16);
    }
  }

  lemma HexRoundTrip(n: nat)
    requires n < 16
    ensures HexValue(HexChar(n)) == n
  {
  }
}
