/** The character tables of the parser, written out, and the classes that the machine uses for them. */
module HttpTables {
  import opened HttpMachine

  /** Row `r` of the table `tokens`: the entries of the sixteen characters from 16 * `r` on; a NUL is no entry. */
  function TokenRow(r: nat): (row: string)
    requires r < 8
    ensures |row| == 16
  {
    if r == 2 then "\0!\0#$%&'\0\0*+\0-.\0"
    else if r == 3 then "0123456789\0\0\0\0\0\0"
    else if r == 4 then "\0abcdefghijklmno"
    else if r == 5 then "pqrstuvwxyz\0\0\0^_"
    else if r == 6 then "`abcdefghijklmno"
    else if r == 7 then "pqrstuvwxyz\0|\0~\0"
    else "\0\0\0\0\0\0\0\0\0\0\0\0\0\0\0\0"
  }

  predicate EntryIs(c: char, entry: char) {
    (IsToken(c) <==> entry != '\0') && (IsToken(c) ==> TokenLower(c) == entry)
  }

  /** The tokens are the characters with an entry, and the entry is the character in lower case. */
  lemma TokenTable(c: char)
    ensures c < '\U{80}' ==> EntryIs(c, TokenRow(c as nat / 16)[c as nat % 16])
    ensures c >= '\U{80}' ==> !IsToken(c)
  {
    if c < '\U{80}' {
      TokenEntry(c as nat / 16, c as nat % 16);
      assert c == (16 * (c as nat / 16) + c as nat % 16) as char;
    }
  }

  lemma TokenEntry(r: nat, i: nat)
    requires r < 8 && i < 16
    ensures EntryIs((16 * r + i) as char, TokenRow(r)[i])
  {
    match r {
      case 0 => assert TokenRow(0)[i] == '\0';
      case 1 => assert TokenRow(1)[i] == '\0';
      case 2 => ThirdRow(i);
      case 3 => FourthRow(i);
      case 4 => FifthRow(i);
      case 5 => SixthRow(i);
      case 6 => SeventhRow(i);
      case 7 => EighthRow(i);
    }
  }

  lemma ThirdRow(i: nat)
    requires i < 16
    ensures EntryIs((32 + i) as char, "\0!\0#$%&'\0\0*+\0-.\0"[i])
  {
  }

  lemma FourthRow(i: nat)
    requires i < 16
    ensures EntryIs((48 + i) as char, "0123456789\0\0\0\0\0\0"[i])
  {
  }

  lemma FifthRow(i: nat)
    requires i < 16
    ensures EntryIs((64 + i) as char, "\0abcdefghijklmno"[i])
  {
  }

  lemma SixthRow(i: nat)
    requires i < 16
    ensures EntryIs((80 + i) as char, "pqrstuvwxyz\0\0\0^_"[i])
  {
  }

  lemma SeventhRow(i: nat)
    requires i < 16
    ensures EntryIs((96 + i) as char, "`abcdefghijklmno"[i])
  {
  }

  lemma EighthRow(i: nat)
    requires i < 16
    ensures EntryIs((112 + i) as char, "pqrstuvwxyz\0|\0~\0"[i])
  {
  }

  /** Byte `k` of the table `normal_url_char`, whose bit `i` is for the character 8 * `k` + `i`. */
  function UrlBits(k: nat): (bits: bv8)
    requires k < 16
  {
    [0, 0, 0, 0, 246, 255, 255, 127, 255, 255, 255, 255, 255, 255, 255, 127][k]
  }

  /** The characters of a path and a query are those whose bit is set. */
  lemma UrlTable(c: char)
    requires c < '\U{80}'
    ensures IsUrlChar(c) <==> (UrlBits(c as nat / 8) >> (c as nat % 8)) & 1 == 1
  {
    UrlBit(c as nat / 8, c as nat % 8);
    assert c == (8 * (c as nat / 8) + c as nat % 8) as char;
  }

  lemma UrlBit(k: nat, i: nat)
    requires k < 16 && i < 8
    ensures IsUrlChar((8 * k + i) as char) <==> (UrlBits(k) >> i) & 1 == 1
  {
    AllBits(i);
    NoBits(i);
  }

  lemma AllBits(i: nat)
    requires i < 8
    ensures (255 as bv8 >> i) & 1 == 1
    ensures (127 as bv8 >> i) & 1 == 1 <==> i != 7
    ensures (246 as bv8 >> i) & 1 == 1 <==> i != 0 && i != 3
  {
  }

  lemma NoBits(i: nat)
    requires i < 8
    ensures (0 as bv8 >> i) & 1 == 0
  {
  }

  /** Setting bit 5 makes a letter of exactly the letters. */
  lemma Letters(c: char)
    ensures IsAlpha(c) <==> 'a' <= c <= 'z' || 'A' <= c <= 'Z'
    ensures 'a' <= c <= 'z' ==> Lower(c) == c
    ensures 'A' <= c <= 'Z' ==> Lower(c) as int - 'a' as int == c as int - 'A' as int
  {
  }

  /** The characters of user information: letters, digits, the marks and the reserved ones (section 3.2.2 of
      RFC 2396). */
  lemma Userinfo(c: char)
    ensures IsUserinfoChar(c) <==>
              'a' <= c <= 'z' || 'A' <= c <= 'Z' || '0' <= c <= '9' || c in "-_.!~*'()" || c in "%;:&=+$,"
  {
    Letters(c);
  }

  /** The bytes of a header value: no control characters but tab and line ends, and no DEL. */
  lemma HeaderChars(c: char)
    ensures IsHeaderChar(c) <==> c in "\t\r\n" || ' ' <= c <= '~' || c >= '\U{80}'
  {
  }
}
