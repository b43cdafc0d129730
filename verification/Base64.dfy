/** Base64 with padding (section 4 of RFC 4648), as encoding/base64's StdEncoding reads and writes it. */
module Base64 {
  import opened Bytes

  function Symbol(i: nat): char
    requires i < 64
  {
    if i < 26 then 'A' + i as char
    else if i < 52 then 'a' + (i - 26) as char
    else if i < 62 then '0' + (i - 52) as char
    else if i == 62 then '+' else '/'
  }

  /** The value of a symbol, or 64 for a character that is none. */
  function Sextet(c: char): (i: nat)
    ensures i <= 64
  {
    if 'A' <= c <= 'Z' then c as int - 'A' as int
    else if 'a' <= c <= 'z' then c as int - 'a' as int + 26
    else if '0' <= c <= '9' then c as int - '0' as int + 52
    else if c == '+' then 62 else if c == '/' then 63 else 64
  }

  lemma SextetOfSymbol(i: nat)
    requires i < 64
    ensures Sextet(Symbol(i)) == i && Symbol(i) != '=' && Symbol(i) != '\n' && Symbol(i) != '\r'
  {
  }

  /** Three bytes as one number. */
  function Pack(x: Byte, y: Byte, z: Byte): (n: nat)
    ensures n < 0x100_0000
  {
    x as int * 65536 + y as int * 256 + z as int
  }

  /** The four symbols of a 24-bit number. */
  function Quad(n: nat): (s: string)
    requires n < 0x100_0000
    ensures |s| == 4
  {
    [Symbol(n / 262144), Symbol(n / 4096 % 64), Symbol(n / 64 % 64), Symbol(n % 64)]
  }

  function Encode(b: Data): string {
    if b == [] then ""
    else if |b| == 1 then Quad(Pack(b[0], 0, 0))[..2] + "=="
    else if |b| == 2 then Quad(Pack(b[0], b[1], 0))[..3] + "="
    else Quad(Pack(b[0], b[1], b[2])) + Encode(b[3..])
  }

  datatype Decoded = Bytes(b: Data) | Malformed

  /** The 24-bit number of four sextets. */
  function Unquad(a: nat, b: nat, c: nat, d: nat): (n: nat)
    requires a < 64 && b < 64 && c < 64 && d < 64
    ensures n < 0x100_0000
  {
    a * 262144 + b * 4096 + c * 64 + d
  }

  function Unpack(n: nat): (b: Data)
    requires n < 0x100_0000
    ensures |b| == 3
  {
    [(n / 65536) as Byte, (n / 256 % 256) as Byte, (n % 256) as Byte]
  }

  /** One group of four; padding may only end the last one. Bits below the last byte are not checked. */
  function DecodeGroups(s: string): Decoded {
    if s == "" then Bytes([])
    else if |s| < 4 || Sextet(s[0]) == 64 || Sextet(s[1]) == 64 then Malformed
    else if s[2] == '=' then
      if s[3] == '=' && |s| == 4 then Bytes(Unpack(Unquad(Sextet(s[0]), Sextet(s[1]), 0, 0))[..1]) else Malformed
    else if Sextet(s[2]) == 64 then Malformed
    else if s[3] == '=' then
      if |s| == 4 then Bytes(Unpack(Unquad(Sextet(s[0]), Sextet(s[1]), Sextet(s[2]), 0))[..2]) else Malformed
    else if Sextet(s[3]) == 64 then Malformed
    else
      var rest := DecodeGroups(s[4..]);
      if rest.Malformed? then Malformed
      else Bytes(Unpack(Unquad(Sextet(s[0]), Sextet(s[1]), Sextet(s[2]), Sextet(s[3]))) + rest.b)
  }

  /** Line breaks inside the text are skipped. */
  function WithoutBreaks(s: string): string {
    if s == "" then "" else (if s[0] == '\n' || s[0] == '\r' then "" else [s[0]]) + WithoutBreaks(s[1..])
  }

  function Decode(s: string): Decoded {
    DecodeGroups(WithoutBreaks(s))
  }

  predicate NoBreaks(s: string) {
    forall i :: 0 <= i < |s| ==> s[i] != '\n' && s[i] != '\r'
  }

  lemma {:induction false} NothingToSkip(s: string)
    requires NoBreaks(s)
    ensures WithoutBreaks(s) == s
  {
    if s == "" {
    } else {
      NothingToSkip(s[1..]);
    }
  }

  lemma QuadSextets(n: nat)
    requires n < 0x100_0000
    ensures NoBreaks(Quad(n)) && '=' !in Quad(n)
    ensures Sextet(Quad(n)[0]) == n / 262144 && Sextet(Quad(n)[1]) == n / 4096 % 64
    ensures Sextet(Quad(n)[2]) == n / 64 % 64 && Sextet(Quad(n)[3]) == n % 64
  {
    SextetOfSymbol(n / 262144);
    SextetOfSymbol(n / 4096 % 64);
    SextetOfSymbol(n / 64 % 64);
    SextetOfSymbol(n % 64);
  }

  /** The digits of n in base 64 make n again. */
  lemma UnquadDigits(n: nat)
    requires n < 0x100_0000
    ensures Unquad(n / 262144, n / 4096 % 64, n / 64 % 64, n % 64) == n
  {
    assert n / 64 / 64 == n / 4096 && n / 4096 / 64 == n / 262144;
  }

  lemma UnpackPack(x: Byte, y: Byte, z: Byte)
    ensures Unpack(Pack(x, y, z)) == [x, y, z]
  {
    var n, hi := Pack(x, y, z), x as int * 256 + y as int;
    assert n == hi * 256 + z as int;
    assert n / 256 == hi && n % 256 == z as int;
    assert hi / 256 == x as int && hi % 256 == y as int;
    assert n / 65536 == n / 256 / 256;
  }

  /** With zero bytes at the end, the last sextets are zero. */
  lemma PaddedDigits(x: Byte, y: Byte)
    ensures Pack(x, 0, 0) / 64 % 64 == 0 == Pack(x, 0, 0) % 64
    ensures Pack(x, y, 0) % 64 == 0
  {
  }

  lemma {:induction false} EncodeBreaks(b: Data)
    ensures NoBreaks(Encode(b))
  {
    if |b| == 1 {
      QuadSextets(Pack(b[0], 0, 0));
    } else if |b| == 2 {
      QuadSextets(Pack(b[0], b[1], 0));
    } else if |b| > 2 {
      QuadSextets(Pack(b[0], b[1], b[2]));
      EncodeBreaks(b[3..]);
    }
  }

  lemma OneByte(x: Byte)
    ensures DecodeGroups(Quad(Pack(x, 0, 0))[..2] + "==") == Bytes([x])
  {
    QuadSextets(Pack(x, 0, 0));
    PaddedDigits(x, 0);
    UnquadDigits(Pack(x, 0, 0));
    UnpackPack(x, 0, 0);
  }

  lemma TwoBytes(x: Byte, y: Byte)
    ensures DecodeGroups(Quad(Pack(x, y, 0))[..3] + "=") == Bytes([x, y])
  {
    QuadSextets(Pack(x, y, 0));
    PaddedDigits(x, y);
    UnquadDigits(Pack(x, y, 0));
    UnpackPack(x, y, 0);
  }

  lemma ThreeBytes(x: Byte, y: Byte, z: Byte, rest: string)
    requires DecodeGroups(rest).Bytes?
    ensures DecodeGroups(Quad(Pack(x, y, z)) + rest) == Bytes([x, y, z] + DecodeGroups(rest).b)
  {
    var n := Pack(x, y, z);
    var s := Quad(n) + rest;
    QuadSextets(n);
    UnquadDigits(n);
    UnpackPack(x, y, z);
    assert s[4..] == rest;
    assert s[2] == Quad(n)[2] && s[3] == Quad(n)[3];
  }

  /** Decoding undoes encoding, whatever the length. */
  lemma {:induction false} GroupsRoundTrip(b: Data)
    ensures DecodeGroups(Encode(b)) == Bytes(b)
  {
    if |b| == 1 {
      OneByte(b[0]);
      assert b == [b[0]];
    } else if |b| == 2 {
      TwoBytes(b[0], b[1]);
      assert b == [b[0], b[1]];
    } else if |b| > 2 {
      GroupsRoundTrip(b[3..]);
      ThreeBytes(b[0], b[1], b[2], Encode(b[3..]));
      assert b == [b[0], b[1], b[2]] + b[3..];
    }
  }

  lemma RoundTrip(b: Data)
    ensures Decode(Encode(b)) == Bytes(b)
  {
    EncodeBreaks(b);
    NothingToSkip(Encode(b));
    GroupsRoundTrip(b);
  }

  // ---------------------------------------------------------------------
  // Against the standard's own table
  // ---------------------------------------------------------------------

  /** Table 1 of RFC 4648. */
  const TABLE := "ABCDEFGHIJKLMNOPQRSTUVWXYZ" + "abcdefghijklmnopqrstuvwxyz" + "0123456789+/"

  lemma Rows()
    ensures TABLE[..26] == "ABCDEFGHIJKLMNOPQRSTUVWXYZ" && TABLE[26..52] == "abcdefghijklmnopqrstuvwxyz"
    ensures |TABLE| == 64 && TABLE[52..] == "0123456789+/"
  {
  }

  lemma Upper(i: nat)
    requires i < 26
    ensures "ABCDEFGHIJKLMNOPQRSTUVWXYZ"[i] == 'A' + i as char
  {
  }

  lemma Lower(i: nat)
    requires i < 26
    ensures "abcdefghijklmnopqrstuvwxyz"[i] == 'a' + i as char
  {
  }

  lemma Lowest(i: nat)
    requires i < 12
    ensures "0123456789+/"[i] == if i < 10 then '0' + i as char else if i == 10 then '+' else '/'
  {
  }

  /** The encoder writes the table's characters, and the decoder knows each of them by its place. */
  lemma Alphabet(i: nat)
    requires i < 64
    ensures |TABLE| == 64 && Symbol(i) == TABLE[i] && Sextet(TABLE[i]) == i
  {
    Rows();
    if i < 26 {
      Upper(i);
      assert TABLE[..26][i] == TABLE[i];
    } else if i < 52 {
      Lower(i - 26);
      assert TABLE[26..52][i - 26] == TABLE[i];
    } else {
      Lowest(i - 52);
      assert TABLE[52..][i - 52] == TABLE[i];
    }
  }

  /** And it knows no others. */
  lemma OffTable(c: char)
    ensures |TABLE| == 64 && (Sextet(c) < 64 <==> c in TABLE) && (Sextet(c) < 64 ==> TABLE[Sextet(c)] == c)
  {
    Rows();
    if Sextet(c) < 64 { Alphabet(Sextet(c)); }
    if c in TABLE {
      var i :| 0 <= i < |TABLE| && TABLE[i] == c;
      Alphabet(i);
    }
  }

  /** p gives each character's place in the table, and 0 for padding. */
  predicate Places(s: string, p: seq<nat>) {
    |p| == |s| && |TABLE| == 64
    && forall k :: 0 <= k < |s| ==> if s[k] == '=' then p[k] == 0 else p[k] < 64 && TABLE[p[k]] == s[k]
  }

  /** The 24 bits of the g-th four characters. */
  function Bits(p: seq<nat>, g: nat): nat
    requires 4 * g + 3 < |p|
  {
    p[4 * g] * 262144 + p[4 * g + 1] * 4096 + p[4 * g + 2] * 64 + p[4 * g + 3]
  }

  /** One or two padding characters, at the very end. */
  function Padding(s: string): nat {
    if s == "" || s[|s| - 1] != '=' then 0 else if |s| >= 2 && s[|s| - 2] == '=' then 2 else 1
  }

  /** Groups of four characters of a table, the last of them padded or not. */
  predicate Grouped(s: string, table: string) {
    |s| % 4 == 0 && forall k :: 0 <= k < |s| - Padding(s) ==> s[k] in table
  }

  /** The g-th three bytes, as far as there are that many, are the 24 bits of the g-th four places. */
  predicate GroupOf(p: seq<nat>, b: Data, g: nat)
    requires 4 * g + 3 < |p|
  {
    var n := Bits(p, g);
    && (3 * g < |b| ==> b[3 * g] as int == n / 65536)
    && (3 * g + 1 < |b| ==> b[3 * g + 1] as int == n / 256 % 256)
    && (3 * g + 2 < |b| ==> b[3 * g + 2] as int == n % 256)
  }

  /** The bytes are the places' bits in order, without those of the padding. */
  predicate BytesOf(s: string, p: seq<nat>, b: Data)
    requires |p| == |s|
  {
    && |s| % 4 == 0 && |b| == 3 * (|s| / 4) - Padding(s)
    && forall g :: 0 <= g < |s| / 4 ==> GroupOf(p, b, g)
  }

  lemma FourSextets(s: string, p: seq<nat>)
    requires |s| >= 4 && Places(s, p)
    ensures forall k :: 0 <= k < 4 && s[k] != '=' ==> Sextet(s[k]) == p[k] && p[k] < 64
    ensures forall k :: 0 <= k < 4 && s[k] == '=' ==> p[k] == 0
  {
    forall k | 0 <= k < 4 && s[k] != '=' ensures Sextet(s[k]) == p[k] { Alphabet(p[k]); }
  }

  lemma GroupBehind(p: seq<nat>, x: Data, rest: Data, g: nat)
    requires |x| == 3 && 4 * g + 7 < |p| && GroupOf(p[4..], rest, g)
    ensures GroupOf(p, x + rest, g + 1)
  {
    assert Bits(p[4..], g) == Bits(p, g + 1);
  }

  /** Behind a full group, the rest's bytes keep their places. */
  lemma BytesBehind(s: string, p: seq<nat>, x: Data, rest: Data)
    requires |s| >= 4 && |p| == |s| && s[3] != '=' && |x| == 3 && GroupOf(p, x, 0) && BytesOf(s[4..], p[4..], rest)
    ensures BytesOf(s, p, x + rest)
  {
    forall g | 1 <= g < |s| / 4 ensures GroupOf(p, x + rest, g) { GroupBehind(p, x, rest, g - 1); }
    assert GroupOf(p, x + rest, 0);
    assert |s| > 4 ==> |s| >= 8 && Padding(s[4..]) == Padding(s);
  }

  lemma UnpackedGroup(p: seq<nat>, n: nat, k: nat)
    requires |p| >= 4 && n < 0x100_0000 && n == Bits(p, 0) && k <= 3
    ensures GroupOf(p, Unpack(n)[..k], 0)
  {
  }

  /** The first group, padded or not, and what follows it. */
  lemma FirstGroup(s: string, a: nat, b: nat, c: nat, d: nat)
    requires |s| >= 4 && DecodeGroups(s).Bytes? && a < 64 && b < 64 && c < 64 && d < 64
    requires Sextet(s[0]) < 64 ==> Sextet(s[0]) == a
    requires Sextet(s[1]) < 64 ==> Sextet(s[1]) == b
    requires if s[2] == '=' then c == 0 else Sextet(s[2]) == c
    requires if s[3] == '=' then d == 0 else Sextet(s[3]) == d
    ensures s[3] == '=' ==>
              |s| == 4 && DecodeGroups(s).b == Unpack(Unquad(a, b, c, d))[..if s[2] == '=' then 1 else 2]
    ensures s[3] != '=' ==> s[2] != '=' && DecodeGroups(s[4..]).Bytes?
                            && DecodeGroups(s).b == Unpack(Unquad(a, b, c, d)) + DecodeGroups(s[4..]).b
  {
  }

  lemma NoPaddingFirst(s: string)
    requires s != "" && DecodeGroups(s).Bytes?
    ensures |s| >= 4 && s[0] != '=' && s[1] != '='
  {
  }

  /** What decodes, decodes to the bits of the characters' places in the standard's table. */
  lemma {:induction false} GroupsMean(s: string, p: seq<nat>)
    requires Places(s, p) && DecodeGroups(s).Bytes?
    ensures BytesOf(s, p, DecodeGroups(s).b)
    decreases |s|
  {
    if s == "" {
    } else {
      NoPaddingFirst(s);
      FourSextets(s, p);
      var n := Unquad(p[0], p[1], p[2], p[3]);
      FirstGroup(s, p[0], p[1], p[2], p[3]);
      UnpackedGroup(p, n, if s[3] != '=' then 3 else if s[2] == '=' then 1 else 2);
      if s[3] != '=' {
        GroupsMean(s[4..], p[4..]);
        assert Unpack(n)[..3] == Unpack(n);
        BytesBehind(s, p, Unpack(n), DecodeGroups(s[4..]).b);
      }
    }
  }

  lemma GroupedBehind(s: string, table: string)
    requires |s| >= 4 && s[3] != '='
    ensures Grouped(s, table) <==>
            s[0] in table && s[1] in table && s[2] in table && s[3] in table && Grouped(s[4..], table)
  {
    var t := s[4..];
    assert |s| > 4 && |s| % 4 == 0 ==> |s| >= 8 && Padding(t) == Padding(s);
    assert |s| == 4 ==> Padding(s) == 0 == Padding(t);
    if Grouped(s, table) {
      assert forall k :: 0 <= k < |t| - Padding(t) ==> t[k] == s[k + 4];
    }
    if s[0] in table && s[1] in table && s[2] in table && s[3] in table && Grouped(t, table) {
      forall k | 0 <= k < |s| - Padding(s) ensures s[k] in table {
        if k >= 4 { assert s[k] == t[k - 4]; }
      }
    }
  }

  /** What decodes is what is grouped right. */
  lemma {:induction false} GroupsIff(s: string, table: string)
    requires forall c :: c in table <==> Sextet(c) < 64
    ensures DecodeGroups(s).Bytes? <==> Grouped(s, table)
    decreases |s|
  {
    if |s| < 4 {
    } else if s[3] == '=' {
      LastGroupIff(s, table);
    } else {
      GroupsIff(s[4..], table);
      GroupedBehind(s, table);
    }
  }

  lemma LastGroupIff(s: string, table: string)
    requires |s| >= 4 && s[3] == '=' && forall c :: c in table <==> Sextet(c) < 64
    ensures DecodeGroups(s).Bytes? <==> Grouped(s, table)
  {
    assert '=' !in table;
    assert |s| > 4 && |s| % 4 == 0 ==> 3 < |s| - Padding(s);
  }

  /** Text without line breaks decodes exactly when it is groups of four of the table's characters, with one or two
      padding characters at the end or none. */
  lemma DecodesIff(s: string)
    requires NoBreaks(s)
    ensures Decode(s).Bytes? <==> Grouped(s, TABLE)
  {
    NothingToSkip(s);
    forall c ensures c in TABLE <==> Sextet(c) < 64 { OffTable(c); }
    GroupsIff(s, TABLE);
  }

  /** And then to the bits of the characters' places in the table, six each, in order. */
  lemma DecodedBits(s: string, p: seq<nat>)
    requires NoBreaks(s) && Places(s, p) && Decode(s).Bytes?
    ensures BytesOf(s, p, Decode(s).b)
  {
    NothingToSkip(s);
    GroupsMean(s, p);
  }

  /** What the first group comes to. */
  lemma GroupParts(s: string)
    requires DecodeGroups(s).Bytes? && s != ""
    ensures |s| >= 4
    ensures s[3] == '=' ==> |s| == 4 && |DecodeGroups(s).b| == if s[2] == '=' then 1 else 2
    ensures s[3] != '=' ==> DecodeGroups(s[4..]).Bytes? && |DecodeGroups(s).b| == 3 + |DecodeGroups(s[4..]).b|
  {
  }

  lemma LongerText(s: string, n: nat)
    requires |s| >= 4 && |s[4..]| % 4 == 0 && s[3] != '=' && n == 3 * (|s[4..]| / 4) - Padding(s[4..])
    ensures |s| % 4 == 0 && 3 + n == 3 * (|s| / 4) - Padding(s)
  {
    assert |s| > 4 ==> |s| >= 8 && s[4..][|s| - 5] == s[|s| - 1] && s[4..][|s| - 6] == s[|s| - 2];
  }

  lemma {:induction false} GroupsLength(s: string)
    requires DecodeGroups(s).Bytes?
    ensures |s| % 4 == 0 && |DecodeGroups(s).b| == 3 * (|s| / 4) - Padding(s)
    decreases |s|
  {
    if s == "" {
    } else {
      GroupParts(s);
      if s[3] != '=' {
        GroupsLength(s[4..]);
        LongerText(s, |DecodeGroups(s[4..]).b|);
      }
    }
  }

  /** The encoder writes those bits. */
  lemma EncodedBits(b: Data, p: seq<nat>)
    requires Places(Encode(b), p)
    ensures Grouped(Encode(b), TABLE) && BytesOf(Encode(b), p, b)
  {
    RoundTrip(b);
    EncodeBreaks(b);
    DecodesIff(Encode(b));
    DecodedBits(Encode(b), p);
  }

  lemma {:induction false} SkipOne(a: string, c: char, b: string)
    requires c == '\n' || c == '\r'
    ensures WithoutBreaks(a + [c] + b) == WithoutBreaks(a + b)
    decreases |a|
  {
    if a == "" {
      assert (a + [c] + b)[1..] == b && a + b == b;
    } else {
      assert (a + [c] + b)[1..] == a[1..] + [c] + b && (a + b)[1..] == a[1..] + b;
      SkipOne(a[1..], c, b);
    }
  }

  /** A line break anywhere makes no difference. */
  lemma BreakSkipped(a: string, c: char, b: string)
    requires c == '\n' || c == '\r'
    ensures Decode(a + [c] + b) == Decode(a + b)
  {
    SkipOne(a, c, b);
  }

  lemma PlusThenAs(s: string, p: seq<nat>, table: string)
    requires |s| == 28 == |p| && s[0] == '+' && s[27] == '=' && forall k :: 1 <= k < 27 ==> s[k] == 'A'
    requires p[0] == 62 && forall k :: 1 <= k < 28 ==> p[k] == 0
    requires |table| == 64 && table[62] == '+' && table[0] == 'A'
    ensures Grouped(s, table) && NoBreaks(s)
    ensures forall k :: 0 <= k < 28 ==> if s[k] == '=' then p[k] == 0 else p[k] < 64 && table[p[k]] == s[k]
  {
    assert Padding(s) == 1;
    assert table[62] in table && table[0] in table;
  }

  /** A plus sign in front makes a first byte of 0xf8. */
  lemma PlusSignDecodes(s: string)
    requires |s| == 28 && s[0] == '+' && s[27] == '=' && forall k :: 1 <= k < 27 ==> s[k] == 'A'
    ensures Decode(s).Bytes? && |Decode(s).b| == 20 && Decode(s).b[0] == 0xf8
  {
    var p := [62] + seq(27, k => 0);
    Alphabet(62);
    Alphabet(0);
    PlusThenAs(s, p, TABLE);
    DecodesIff(s);
    DecodedBits(s, p);
    NothingToSkip(s);
    GroupsLength(s);
    assert GroupOf(p, Decode(s).b, 0);
  }

  lemma TwentyBytes(len: nat, pad: nat)
    requires len % 4 == 0 && pad <= 2
    ensures 3 * (len / 4) - pad == 20 <==> len == 28 && pad == 1
  {
  }

  /** Twenty bytes are written in 28 characters, one of them padding. */
  lemma DecodesToTwenty(s: string)
    requires NoBreaks(s)
    ensures Decode(s).Bytes? && |Decode(s).b| == 20 <==> Decode(s).Bytes? && |s| == 28 && Padding(s) == 1
  {
    NothingToSkip(s);
    if Decode(s).Bytes? {
      GroupsLength(s);
      TwentyBytes(|s|, Padding(s));
    }
  }
}
