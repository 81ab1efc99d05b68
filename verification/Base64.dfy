/** Base64 (sections 4 and 5 of RFC 4648): `base64encode`, `base64decode` and the way back. */
module Base64 {

  type byte = b: int | 0 <= b < 256

  const UPPER: string := "ABCDEFGHIJKLMNOPQRSTUVWXYZ"
  const LOWER: string := "abcdefghijklmnopqrstuvwxyz"
  const DIGITS: string := "0123456789"

  /** The alphabets of sections 4 and 5, written out. */
  const STANDARD: string := UPPER + LOWER + DIGITS + "+/"
  const URLSAFE: string := UPPER + LOWER + DIGITS + "-_"

  // ---------------------------------------------------------------------------------------------
  // The encoding, by groups of 24 bits

  /** The four sextets of a 24-bit group, most significant first. */
  function Sextet(group: nat, i: nat): nat
    requires group < 0x100_0000 && i < 4
    ensures Sextet(group, i) < 64
  {
    if i == 0 then group / 0x4_0000 else if i == 1 then group / 0x1000 % 64 else if i == 2 then group / 64 % 64 else group % 64
  }

  function Group(a: byte, b: byte, c: byte): (n: nat)
    ensures n < 0x100_0000
  {
    a * 0x1_0000 + b * 0x100 + c
  }

  /** `n` characters of a group. */
  function Chars(key: string, group: nat, n: nat): (r: string)
    requires |key| == 64 && group < 0x100_0000 && n <= 4
    ensures |r| == n
  {
    seq(n, i requires 0 <= i < n => key[Sextet(group, i)])
  }

  /** The encoding without its padding. */
  function Plain(x: seq<byte>, key: string): string
    requires |key| == 64
  {
    if |x| >= 3 then Chars(key, Group(x[0], x[1], x[2]), 4) + Plain(x[3..], key)
    else if |x| == 2 then Chars(key, Group(x[0], x[1], 0), 3)
    else if |x| == 1 then Chars(key, Group(x[0], 0, 0), 2)
    else ""
  }

  function Padding(n: nat): string {
    if n % 3 == 1 then "==" else if n % 3 == 2 then "=" else ""
  }

  function Encoded(x: seq<byte>, key: string): string
    requires |key| == 64
  {
    Plain(x, key) + Padding(|x|)
  }

  /** `base64encode` */
  method Encode(data: seq<byte>, key: string) returns (ret: string)
    requires |key| == 64
    ensures ret == Encoded(data, key) && |ret| == (|data| + 2) / 3 * 4
  {
    hide Chars, Group, Sextet;
    ret := "";
    var at, size := 0, |data|;
    assert data[0..] == data && "" + Plain(data, key) == Plain(data, key);
    while size >= 3
      invariant 0 <= size && at + size == |data| && ret + Plain(data[at..], key) == Plain(data, key)
      invariant |ret| == at / 3 * 4 && at % 3 == 0
    {
      var four := FourOf(key, data[at], data[at + 1], data[at + 2]);
      PlainMore(data, at, key);
      Regroup(ret, four, Plain(data[at + 3..], key));
      ret := ret + four;
      at, size := at + 3, size - 3;
    }
    if size == 1 {
      var two := TwoOf(key, data[at]);
      ret := ret + two + "==";
    } else if size == 2 {
      var three := ThreeOf(key, data[at], data[at + 1]);
      ret := ret + three + "=";
    } else {
      assert ret + "" == ret;
    }
  }

  lemma {:induction false} PlainMore(data: seq<byte>, at: nat, key: string)
    requires |key| == 64 && at + 3 <= |data|
    ensures Plain(data[at..], key) == Chars(key, Group(data[at], data[at + 1], data[at + 2]), 4) + Plain(data[at + 3..], key)
  {
    hide Chars, Group, Sextet;
    assert data[at..][3..] == data[at + 3..];
  }

  lemma Regroup(a: string, b: string, c: string)
    ensures a + (b + c) == a + b + c
  {
  }

  /** The masks and shifts of the encoder are quotients and remainders, and its alternations are sums. */
  lemma EncoderBits(a: bv8, b: bv8, c: bv8)
    ensures (a & 0xFC) >> 2 == a / 4 && (a & 0x03) << 4 == a % 4 * 16
    ensures ((a & 0x03) << 4) | ((b & 0xF0) >> 4) == a % 4 * 16 + b / 16
    ensures (b & 0x0F) << 2 == b % 16 * 4
    ensures ((b & 0x0F) << 2) | ((c & 0xC0) >> 6) == b % 16 * 4 + c / 64
    ensures c & 0x3F == c % 64
  {
  }

  /** So are those of the decoder, whose arguments have six bits. */
  lemma DecoderBits(a: bv8, b: bv8, c: bv8, d: bv8)
    requires a < 64 && b < 64 && c < 64 && d < 64
    ensures (a << 2) | ((b & 0x30) >> 4) == a * 4 + b / 16
    ensures ((b & 0x0F) << 4) | ((c & 0x3C) >> 2) == b % 16 * 16 + c / 4
    ensures ((c & 0x03) << 6) | d == c % 4 * 64 + d
  {
  }

  /** The characters of three bytes, as the shifts and masks give them. */
  method FourOf(key: string, a: byte, b: byte, c: byte) returns (r: string)
    requires |key| == 64
    ensures r == Chars(key, Group(a, b, c), 4)
  {
    SextetsOf(a, b, c);
    r := [key[a / 4], key[a % 4 * 16 + b / 16], key[b % 16 * 4 + c / 64], key[c % 64]];
  }

  method ThreeOf(key: string, a: byte, b: byte) returns (r: string)
    requires |key| == 64
    ensures r == Chars(key, Group(a, b, 0), 3)
  {
    SextetsOf(a, b, 0);
    r := [key[a / 4], key[a % 4 * 16 + b / 16], key[b % 16 * 4]];
  }

  method TwoOf(key: string, a: byte) returns (r: string)
    requires |key| == 64
    ensures r == Chars(key, Group(a, 0, 0), 2)
  {
    SextetsOf(a, 0, 0);
    r := [key[a / 4], key[a % 4 * 16]];
  }

  lemma SextetsOf(a: byte, b: byte, c: byte)
    ensures var g := Group(a, b, c);
            && Sextet(g, 0) == a / 4 && Sextet(g, 1) == a % 4 * 16 + b / 16
            && Sextet(g, 2) == b % 16 * 4 + c / 64 && Sextet(g, 3) == c % 64
  {
    hide Group;
    FirstSextet(a, b, c);
    SecondSextet(a, b, c);
    ThirdSextet(a, b, c);
    FourthSextet(a, b, c);
  }

  lemma FourthSextet(a: byte, b: byte, c: byte)
    ensures Group(a, b, c) % 64 == c % 64
  {
    assert Group(a, b, c) == 64 * (a * 1024 + b * 4) + c;
  }

  lemma FirstSextet(a: byte, b: byte, c: byte)
    ensures Group(a, b, c) / 0x4_0000 == a / 4
  {
    assert Group(a, b, c) == 0x4_0000 * (a / 4) + (a % 4 * 0x1_0000 + b * 0x100 + c);
  }

  lemma SecondSextet(a: byte, b: byte, c: byte)
    ensures Group(a, b, c) / 0x1000 % 64 == a % 4 * 16 + b / 16
  {
    hide Group;
    GroupBy4096(a, b, c);
    var x, r := a / 4, a % 4 * 16 + b / 16;
    assert a * 16 + b / 16 == 64 * x + r && 0 <= r < 64;
    Modulo64(x, r);
  }

  lemma GroupBy4096(a: byte, b: byte, c: byte)
    ensures Group(a, b, c) / 0x1000 == a * 16 + b / 16
  {
    var x, r := a * 16 + b / 16, b % 16 * 0x100 + c;
    assert Group(a, b, c) == 0x1000 * x + r && 0 <= r < 0x1000;
  }

  lemma GroupBy64(a: byte, b: byte, c: byte)
    ensures Group(a, b, c) / 64 == a * 1024 + b * 4 + c / 64
  {
    var x := a * 1024 + b * 4;
    assert Group(a, b, c) == 64 * x + c;
    assert (64 * x + c) / 64 == x + c / 64;
  }

  lemma Modulo64(x: nat, r: nat)
    requires r < 64
    ensures (64 * x + r) % 64 == r
  {
  }

  lemma ThirdSextet(a: byte, b: byte, c: byte)
    ensures Group(a, b, c) / 64 % 64 == b % 16 * 4 + c / 64
  {
    hide Group;
    GroupBy64(a, b, c);
    var x, r := a * 16 + b / 16, b % 16 * 4 + c / 64;
    assert a * 1024 + b * 4 + c / 64 == 64 * x + r && 0 <= r < 64;
    Modulo64(x, r);
  }

  // ---------------------------------------------------------------------------------------------
  // Decoding

  /** The value of a character, in either alphabet; 0 for any other. */
  function Key(c: char): (n: nat)
    ensures n < 64
  {
    if 'A' <= c <= 'Z' then c as nat - 'A' as nat
    else if 'a' <= c <= 'z' then c as nat - 'a' as nat + 26
    else if '0' <= c <= '9' then c as nat - '0' as nat + 52
    else if c == '+' || c == '-' then 62
    else if c == '/' || c == '_' then 63
    else 0
  }

  /** How many bytes the text stands for. */
  function DecodedSize(data: string): (n: nat)
    requires |data| >= 2
  {
    if |data| % 4 == 2 then |data| / 4 * 3 + 1
    else if |data| % 4 == 3 then |data| / 4 * 3 + 2
    else if data[|data| - 2] == '=' then |data| / 4 * 3 - 2
    else if data[|data| - 1] == '=' then |data| / 4 * 3 - 1
    else |data| / 4 * 3
  }

  /** The bytes of `size` bytes' worth of characters. */
  function Bytes(data: string, size: nat): seq<byte>
    requires |data| >= (size * 4 + 2) / 3
  {
    if size >= 3 then
      var (a, b, c, d) := (Key(data[0]), Key(data[1]), Key(data[2]), Key(data[3]));
      [a * 4 + b / 16, b % 16 * 16 + c / 4, c % 4 * 64 + d] + Bytes(data[4..], size - 3)
    else if size == 2 then
      var (a, b, c) := (Key(data[0]), Key(data[1]), Key(data[2]));
      [a * 4 + b / 16, b % 16 * 16 + c / 4]
    else if size == 1 then [Key(data[0]) * 4 + Key(data[1]) / 16]
    else []
  }

  lemma SizeFits(data: string)
    requires |data| >= 2
    ensures |data| >= (DecodedSize(data) * 4 + 2) / 3
  {
    var q := |data| / 4;
    assert |data| == 4 * q + |data| % 4;
  }

  /** `base64decode` */
  method Decode(data: string) returns (ret: seq<byte>)
    requires |data| >= 2
    ensures |data| >= (DecodedSize(data) * 4 + 2) / 3 && ret == Bytes(data, DecodedSize(data))
  {
    hide Key, Bytes, DecodedSize;
    SizeFits(data);
    var at: nat, size: nat := 0, DecodedSize(data);
    ret := [];
    assert data[0..] == data && [] + Bytes(data, size) == Bytes(data, size);
    while size >= 3
      invariant at <= |data| && |data| - at >= (size * 4 + 2) / 3
      invariant ret + Bytes(data[at..], size) == Bytes(data, DecodedSize(data))
      decreases size
    {
      var odd, even := Key(data[at]), Key(data[at + 1]);
      var three := [odd * 4 + even / 16];
      odd := Key(data[at + 2]);
      three := three + [even % 16 * 16 + odd / 4];
      even := Key(data[at + 3]);
      three := three + [odd % 4 * 64 + even];
      BytesStep(data, at, size);
      assert ret + (three + Bytes(data[at + 4..], size - 3)) == ret + three + Bytes(data[at + 4..], size - 3);
      ret := ret + three;
      at, size := at + 4, size - 3;
    }
    BytesEnd(data, at, size);
    if size == 2 {
      var odd, even := Key(data[at]), Key(data[at + 1]);
      ret := ret + [odd * 4 + even / 16, even % 16 * 16 + Key(data[at + 2]) / 4];
    } else if size == 1 {
      ret := ret + [Key(data[at]) * 4 + Key(data[at + 1]) / 16];
    } else {
      assert ret + [] == ret;
    }
  }

  lemma BytesStep(data: string, at: nat, size: nat)
    requires size >= 3 && at <= |data| && |data| - at >= (size * 4 + 2) / 3
    ensures at + 4 <= |data| && |data| - (at + 4) >= ((size - 3) * 4 + 2) / 3
    ensures var (a, b, c, d) := (Key(data[at]), Key(data[at + 1]), Key(data[at + 2]), Key(data[at + 3]));
            Bytes(data[at..], size)
            == [a * 4 + b / 16, b % 16 * 16 + c / 4, c % 4 * 64 + d] + Bytes(data[at + 4..], size - 3)
  {
    hide Key;
    assert data[at..][4..] == data[at + 4..];
  }

  lemma BytesEnd(data: string, at: nat, size: nat)
    requires size < 3 && at <= |data| && |data| - at >= (size * 4 + 2) / 3
    ensures size == 0 ==> Bytes(data[at..], size) == []
    ensures size == 1 ==> at + 2 <= |data| && Bytes(data[at..], size) == [Key(data[at]) * 4 + Key(data[at + 1]) / 16]
    ensures size == 2 ==>
              && at + 3 <= |data|
              && Bytes(data[at..], size) == [Key(data[at]) * 4 + Key(data[at + 1]) / 16,
                                            Key(data[at + 1]) % 16 * 16 + Key(data[at + 2]) / 4]
  {
    hide Key;
  }

  // ---------------------------------------------------------------------------------------------
  // The way back

  /** The decoder knows every character of the alphabet by its index, and none of them is the padding. */
  predicate KnownAlphabet(key: string) {
    |key| == 64 && forall i: nat :: i < 64 ==> Key(key[i]) == i && key[i] != '='
  }

  /** The decoder knows both alphabets, and takes any character outside them for the first. */
  lemma Alphabets()
    ensures KnownAlphabet(STANDARD) && KnownAlphabet(URLSAFE)
    ensures forall c: char :: c !in STANDARD && c !in URLSAFE ==> Key(c) == 0
  {
    hide Key;
    forall i: nat | i < 64 ensures |STANDARD| == 64 && Key(STANDARD[i]) == i && STANDARD[i] != '=' { KeyOf(STANDARD, "+/", i); }
    forall i: nat | i < 64 ensures |URLSAFE| == 64 && Key(URLSAFE[i]) == i && URLSAFE[i] != '=' { KeyOf(URLSAFE, "-_", i); }
    forall c: char | c !in STANDARD && c !in URLSAFE ensures Key(c) == 0 { if Key(c) > 0 { KeyOnly(c); } }
  }

  lemma Runs(i: nat)
    ensures |UPPER| == |LOWER| == 26 && |DIGITS| == 10
    ensures i < 26 ==> UPPER[i] as nat == 'A' as nat + i && LOWER[i] as nat == 'a' as nat + i
    ensures i < 10 ==> DIGITS[i] as nat == '0' as nat + i
  {
  }

  lemma KeyOf(key: string, last: string, i: nat)
    requires key == UPPER + LOWER + DIGITS + last && (last == "+/" || last == "-_") && i < 64
    ensures |key| == 64 && Key(key[i]) == i && key[i] != '='
  {
    Runs(if i < 26 then i else if i < 52 then i - 26 else if i < 62 then i - 52 else 0);
  }

  lemma KeyOnly(c: char)
    requires Key(c) > 0
    ensures c in UPPER || c in LOWER || c in DIGITS || c in "+/" || c in "-_"
  {
    var n := Key(c);
    Runs(if n < 26 then n else if n < 52 then n - 26 else if n < 62 then n - 52 else 0);
    if n < 26 { assert c == UPPER[n]; }
    else if n < 52 { assert c == LOWER[n - 26]; }
    else if n < 62 { assert c == DIGITS[n - 52]; }
    else { assert c == "+/"[n - 62] || c == "-_"[n - 62]; }
  }

  /** The length of the encoding, with and without the padding. */
  lemma {:induction false} PlainLength(x: seq<byte>, key: string)
    requires |key| == 64
    ensures |Plain(x, key)| == |x| / 3 * 4 + (if |x| % 3 == 0 then 0 else |x| % 3 + 1)
    decreases |x|
  {
    hide Chars;
    if |x| >= 3 { PlainLength(x[3..], key); }
  }

  lemma {:induction false} NoPaddingInside(x: seq<byte>, key: string)
    requires KnownAlphabet(key)
    ensures '=' !in Plain(x, key)
    decreases |x|
  {
    hide Sextet, Group, Key;
    if |x| >= 3 { NoPaddingInside(x[3..], key); }
  }

  /** Reading back the characters of a group, whatever follows them. */
  lemma GroupBack(key: string, a: byte, b: byte, c: byte, n: nat, rest: string)
    requires KnownAlphabet(key) && 2 <= n <= 4
    ensures var d := Chars(key, Group(a, b, c), n) + rest;
            && Key(d[0]) * 4 + Key(d[1]) / 16 == a
            && (n >= 3 ==> Key(d[1]) % 16 * 16 + Key(d[2]) / 4 == b)
            && (n == 4 ==> Key(d[2]) % 4 * 64 + Key(d[3]) == c)
  {
    hide Key, Sextet, Group;
    SextetsOf(a, b, c);
    var d := Chars(key, Group(a, b, c), n) + rest;
    assert forall i: nat :: i < n ==> Key(d[i]) == Sextet(Group(a, b, c), i);
    SplitBack(a, b, c);
  }

  lemma SplitBack(a: byte, b: byte, c: byte)
    ensures a / 4 * 4 + (a % 4 * 16 + b / 16) / 16 == a
    ensures (a % 4 * 16 + b / 16) % 16 * 16 + (b % 16 * 4 + c / 64) / 4 == b
    ensures (b % 16 * 4 + c / 64) % 4 * 64 + c % 64 == c
  {
  }

  lemma {:induction false} BytesBack(x: seq<byte>, key: string, pad: string)
    requires KnownAlphabet(key)
    ensures |Plain(x, key) + pad| >= (|x| * 4 + 2) / 3
    ensures Bytes(Plain(x, key) + pad, |x|) == x
    decreases |x|
  {
    hide Chars, Group, Key, Bytes;
    PlainLength(x, key);
    if |x| >= 3 {
      BytesBack(x[3..], key, pad);
      GroupMore(x, key, pad);
    } else {
      LastBytes(x, key, pad);
    }
  }

  lemma GroupMore(x: seq<byte>, key: string, pad: string)
    requires KnownAlphabet(key) && |x| >= 3
    requires |Plain(x[3..], key) + pad| >= (|x[3..]| * 4 + 2) / 3 && Bytes(Plain(x[3..], key) + pad, |x| - 3) == x[3..]
    requires |Plain(x, key) + pad| >= (|x| * 4 + 2) / 3
    ensures Bytes(Plain(x, key) + pad, |x|) == x
  {
    hide Chars, Group, Key;
    var four, rest := Chars(key, Group(x[0], x[1], x[2]), 4), Plain(x[3..], key) + pad;
    assert Plain(x, key) + pad == four + rest;
    GroupBack(key, x[0], x[1], x[2], 4, rest);
    BytesStep(four + rest, 0, |x|);
    assert (four + rest)[0..] == four + rest && (four + rest)[4..] == rest;
    assert x == [x[0], x[1], x[2]] + x[3..];
  }

  lemma LastBytes(x: seq<byte>, key: string, pad: string)
    requires KnownAlphabet(key) && |x| < 3 && |Plain(x, key) + pad| >= (|x| * 4 + 2) / 3
    ensures Bytes(Plain(x, key) + pad, |x|) == x
  {
    hide Chars, Group, Key;
    var s := Plain(x, key) + pad;
    if |x| == 2 {
      GroupBack(key, x[0], x[1], 0, 3, pad);
      BytesEnd(s, 0, 2);
    } else if |x| == 1 {
      GroupBack(key, x[0], 0, 0, 2, pad);
      BytesEnd(s, 0, 1);
    } else {
      BytesEnd(s, 0, 0);
    }
    assert s[0..] == s;
  }

  /** The output length is right in each residue case, with the padding and without it. */
  lemma SizeBack(x: seq<byte>, key: string)
    requires KnownAlphabet(key) && x != []
    ensures |Plain(x, key)| >= 2
    ensures DecodedSize(Encoded(x, key)) == |x| && DecodedSize(Plain(x, key)) == |x|
  {
    hide Plain, Key;
    PlainLength(x, key);
    NoPaddingInside(x, key);
    var q, r := |x| / 3, |x| % 3;
    assert |x| == 3 * q + r;
    var p := Plain(x, key);
    if r == 0 {
      assert Encoded(x, key) == p;
      assert |p| == 4 * q && p[|p| - 1] != '=' && p[|p| - 2] != '=';
    } else {
      assert |p| == 4 * q + r + 1 && |Encoded(x, key)| == 4 * (q + 1);
      assert p[|p| - 1] != '=' && p[|p| - 1] == Encoded(x, key)[|p| - 1];
    }
  }

  /** `base64decode(base64encode(x))` is `x`, in both alphabets, with the padding kept or stripped. */
  lemma RoundTrip(x: seq<byte>, key: string)
    requires x != [] && (key == STANDARD || key == URLSAFE)
    ensures |Plain(x, key)| >= 2
    ensures var kept := Encoded(x, key);
            DecodedSize(kept) == |x| && |kept| >= (|x| * 4 + 2) / 3 && Bytes(kept, |x|) == x
    ensures var stripped := Plain(x, key);
            DecodedSize(stripped) == |x| && |stripped| >= (|x| * 4 + 2) / 3 && Bytes(stripped, |x|) == x
  {
    hide Plain, Key, Bytes, DecodedSize, KnownAlphabet;
    Alphabets();
    SizeBack(x, key);
    BytesBack(x, key, Padding(|x|));
    BytesBack(x, key, "");
    assert Plain(x, key) + "" == Plain(x, key);
  }
}
