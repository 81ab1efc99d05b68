/** What the escape sequences of a string mean: the bytes that are put out for them are read back as UTF-8. */
module JsonUnicode {
  import opened Wrappers
  import opened HexDigits
  import opened JsonText
  import opened JsonBuffer
  import JsonReader

  // ---------------------------------------------------------------------------------------------
  // Reading UTF-8, as section 3 of RFC 3629 lays out its bytes (surrogates are codes like any other)

  /** The six bits of a byte 10xxxxxx. */
  function Tail(c: char): Option<nat> {
    if 0x80 <= c as int < 0xC0 then Some(c as int - 0x80) else None
  }

  /** The bits of `n` bytes 10xxxxxx at the front of `s`, behind those that are in `high`. */
  function Tails(high: nat, s: string, n: nat): Option<nat>
    decreases n
  {
    if n == 0 then Some(high)
    else if s == "" || Tail(s[0]).None? then None
    else Tails(high * 64 + Tail(s[0]).value, s[1..], n - 1)
  }

  datatype Front = Front(code: nat, n: nat)

  /** The code at the front, in as few bytes as it can have. */
  function FirstCode(s: string): (r: Option<Front>)
    ensures r.Some? ==> 1 <= r.value.n <= |s|
  {
    if s == "" then None
    else
      var b := s[0] as int;
      if b < 0x80 then Some(Front(b, 1))
      else if 0xC0 <= b < 0xE0 then Shortest(Tails(b - 0xC0, s[1..], 1), 2, 0x80, |s|)
      else if 0xE0 <= b < 0xF0 then Shortest(Tails(b - 0xE0, s[1..], 2), 3, 0x800, |s|)
      else if 0xF0 <= b < 0xF8 then Shortest(Tails(b - 0xF0, s[1..], 3), 4, 0x1_0000, |s|)
      else None
  }

  function Shortest(code: Option<nat>, n: nat, least: nat, length: nat): Option<Front> {
    if code.None? || code.value < least || length < n then None else Some(Front(code.value, n))
  }

  /** All the codes of a text. */
  function Codes(s: string): Option<seq<nat>> {
    if s == "" then Some([])
    else match FirstCode(s)
      case None => None
      case Some(f) => if Codes(s[f.n..]).None? then None else Some([f.code] + Codes(s[f.n..]).value)
  }

  /** Every code unit is put out in bytes that are read back as that code, whatever follows them. */
  lemma Utf8Read(code: nat, rest: string)
    requires code < 0x1_0000
    ensures FirstCode(Utf8(code) + rest) == Some(Front(code, |Utf8(code)|))
  {
    var s := Utf8(code) + rest;
    if code >= 0x800 {
      assert s[1..][0] == s[1] && s[1..][1..][0] == s[2];
      ThreeBytes(code);
      var t := s[1..];
      TailsTwice(0xE0 + code / 0x1000 - 0xE0, t);
    } else if code >= 0x80 {
      assert s[1..][0] == s[1];
      TailsOnce(0xC0 + code / 0x40 - 0xC0, s[1..]);
    }
  }

  lemma TailsOnce(high: nat, t: string)
    requires t != "" && Tail(t[0]).Some?
    ensures Tails(high, t, 1) == Some(high * 64 + Tail(t[0]).value)
  {
  }

  lemma TailsTwice(high: nat, t: string)
    requires |t| >= 2 && Tail(t[0]).Some? && Tail(t[1]).Some?
    ensures Tails(high, t, 2) == Some((high * 64 + Tail(t[0]).value) * 64 + Tail(t[1]).value)
  {
    TailsOnce(high * 64 + Tail(t[0]).value, t[1..]);
  }

  lemma ThreeBytes(code: nat)
    ensures (code / 0x1000 * 64 + code / 0x40 % 0x40) * 64 + code % 0x40 == code
  {
    var a := code / 0x40;
    assert code == a * 0x40 + code % 0x40 && a == a / 0x40 * 0x40 + a % 0x40 && a / 0x40 == code / 0x1000;
  }

  /** The bytes of a code: how many, and their leading bits. */
  lemma Utf8Bytes(code: nat)
    requires code < 0x1_0000
    ensures var r := Utf8(code);
            && |r| == (if code < 0x80 then 1 else if code < 0x800 then 2 else 3)
            && (|r| == 1 ==> r[0] as int < 0x80) && (|r| == 2 ==> 0xC2 <= r[0] as int < 0xE0)
            && (|r| == 3 ==> 0xE0 <= r[0] as int < 0xF0)
            && forall k :: 1 <= k < |r| ==> 0x80 <= r[k] as int < 0xC0
  {
  }

  // ---------------------------------------------------------------------------------------------
  // Strings with escape sequences

  /** A piece of a string as it stands between quotes, with the code it is for: a character as it is, in UTF-8,
      a backslash with a letter, or a backslash, `u` and four digits. */
  datatype Piece =
    | Raw(bytes: string, code: nat)
    | Short(letter: char, code: nat)
    | Unit(digits: string, code: nat)

  /** The letters and what they are for, as section 7 of RFC 8259 lists them. */
  predicate MeansShort(c: char, code: nat) {
    match c
    case '"' => code == 0x22
    case '\\' => code == 0x5C
    case '/' => code == 0x2F
    case 'b' => code == 0x08
    case 'f' => code == 0x0C
    case 'n' => code == 0x0A
    case 'r' => code == 0x0D
    case 't' => code == 0x09
    case _ => false
  }

  predicate IsPiece(p: Piece) {
    match p
    case Raw(bytes, code) =>
      bytes != "" && bytes[0] !in "\\\"\0" && FirstCode(bytes) == Some(Front(code, |bytes|))
    case Short(letter, code) => MeansShort(letter, code)
    case Unit(digits, code) =>
      |digits| == 4 && code < 0x1_0000 && Spells(digits[0], code / 4096) && Spells(digits[1], code / 256 % 16)
      && Spells(digits[2], code / 16 % 16) && Spells(digits[3], code % 16)
  }

  predicate ArePieces(ps: seq<Piece>) {
    forall k :: 0 <= k < |ps| ==> IsPiece(ps[k])
  }

  function PieceText(p: Piece): string {
    match p
    case Raw(bytes, _) => bytes
    case Short(letter, _) => ['\\', letter]
    case Unit(digits, _) => "\\u" + digits
  }

  function Written(ps: seq<Piece>): string {
    if ps == [] then "" else PieceText(ps[0]) + Written(ps[1..])
  }

  function CodesOf(ps: seq<Piece>): (r: seq<nat>) {
    seq(|ps|, k requires 0 <= k < |ps| => ps[k].code)
  }

  lemma DigitRead(c: char, d: nat)
    requires Spells(c, d)
    ensures IsHex(c) && FromHex(c) == d
  {
  }

  lemma FourDigits(code: nat)
    ensures code / 4096 * 0x1000 + code / 256 % 16 * 0x100 + code / 16 % 16 * 0x10 + code % 16 == code
  {
    var a := code / 16;
    var b := a / 16;
    assert code == a * 16 + code % 16 && a == b * 16 + a % 16 && b == b / 16 * 16 + b % 16;
    assert b == code / 256 && b / 16 == code / 4096;
  }

  lemma DigitsRead(digits: string, code: nat)
    requires IsPiece(Unit(digits, code))
    ensures HexAt(digits, 0) && Code(digits, 0) == code
  {
    hide FromHex, IsHex, Spells;
    DigitRead(digits[0], code / 4096);
    DigitRead(digits[1], code / 256 % 16);
    DigitRead(digits[2], code / 16 % 16);
    DigitRead(digits[3], code % 16);
    FourDigits(code);
  }

  lemma CodeRead(t: string, p: Piece)
    requires p.Unit? && IsPiece(p) && |t| >= 6 && t[..6] == "\\u" + p.digits
    ensures t[0] == '\\' && t[1] == 'u' && HexAt(t, 2) && Code(t, 2) == p.code
  {
    hide FromHex, IsHex, Spells;
    var w := t[..6];
    assert forall k :: 0 <= k < 6 ==> w[k] == t[k];
    DigitsRead(p.digits, p.code);
  }

  /** An escape sequence at the front is complete, and stands for its code in UTF-8. */
  lemma EscapeRead(p: Piece, rest: string)
    requires IsPiece(p) && !p.Raw? && WellEscaped(rest)
    ensures var s := PieceText(p) + rest;
            && p.code < 0x1_0000 && s[0] == '\\' && EscapeLength(s) == |PieceText(p)|
            && WellEscaped(s) && Unescape(s) == Utf8(p.code) + Unescape(rest)
  {
    hide Code, HexAt, Utf8, WellEscaped, Unescape, IsPiece;
    var s := PieceText(p) + rest;
    var n := |PieceText(p)|;
    assert s[..n] == PieceText(p) && s[n..] == rest;
    EscapeFront(p, s);
    WellStep(s);
    UnescapeStep(s);
  }

  lemma EscapeFront(p: Piece, s: string)
    requires IsPiece(p) && !p.Raw? && |PieceText(p)| <= |s| && s[..|PieceText(p)|] == PieceText(p)
    ensures |PieceText(p)| >= 2 && s[0] == '\\' && EscapeLength(s) == |PieceText(p)|
    ensures p.code < 0x1_0000 && Unescaped(s) == Utf8(p.code)
  {
    if p.Unit? {
      hide Spells, Code, Utf8;
      CodeRead(s, p);
    } else {
      hide Spells, Code, HexAt;
      var w := s[..2];
      assert w[0] == s[0] && w[1] == s[1] == p.letter;
    }
  }

  ghost predicate IsShort(c: char) {
    exists code: nat :: MeansShort(c, code)
  }

  /** Exactly these sequences are escape sequences: the reader takes no other. */
  lemma EscapesAre(s: string)
    requires s != "" && s[0] == '\\'
    ensures EscapeLength(s) == 2 <==> |s| >= 2 && IsShort(s[1])
    ensures EscapeLength(s) == 6 <==> |s| >= 6 && s[1] == 'u' && forall k :: 2 <= k < 6 ==> IsDigit(s[k])
  {
    hide IsDigit, IsShort, IsHex;
    if |s| >= 2 { ShortAre(s[1]); }
    if |s| >= 6 {
      DigitsAre(s[2]);
      DigitsAre(s[3]);
      DigitsAre(s[4]);
      DigitsAre(s[5]);
    }
  }

  lemma ShortAre(c: char)
    ensures IsShort(c) <==> c in SHORT
    ensures c == 'u' ==> !IsShort(c)
  {
    if c in SHORT {
      assert MeansShort(c, ShortFor(c) as nat);
    }
  }

  lemma DigitsAre(c: char)
    ensures IsDigit(c) <==> IsHex(c)
  {
    if IsHex(c) {
      assert Spells(c, FromHex(c));
    } else {
      forall d: nat ensures !Spells(c, d) { if Spells(c, d) { DigitRead(c, d); } }
    }
  }

  lemma WellStep(s: string)
    requires s != "" && s[0] == '\\' && EscapeLength(s) > 0
    ensures WellEscaped(s) <==> WellEscaped(s[EscapeLength(s)..])
  {
    hide EscapeLength;
  }

  /** Bytes without a backslash stay as they are. */
  lemma {:induction false} RawRead(bytes: string, rest: string)
    requires '\\' !in bytes && WellEscaped(rest)
    ensures WellEscaped(bytes + rest) && Unescape(bytes + rest) == bytes + Unescape(rest)
    decreases |bytes|
  {
    hide EscapeLength, Unescaped;
    if bytes == "" {
      assert bytes + rest == rest;
    } else {
      RawRead(bytes[1..], rest);
      var s := bytes + rest;
      assert s[0] == bytes[0] && s[1..] == bytes[1..] + rest;
    }
  }

  /** A character in UTF-8 is a backslash, a quote or a NUL only as a byte by itself. */
  lemma RawBytes(p: Piece, k: nat)
    requires p.Raw? && IsPiece(p) && k < |p.bytes|
    ensures p.bytes[k] !in "\\\"\0"
  {
    var s := p.bytes;
    if k > 0 { TailsHigh(if |s| == 2 then s[0] as int - 0xC0 else if |s| == 3 then s[0] as int - 0xE0 else s[0] as int - 0xF0,
                         s[1..], |s| - 1, k - 1); }
  }

  lemma {:induction false} TailsHigh(high: nat, s: string, n: nat, k: nat)
    requires Tails(high, s, n).Some? && k < n && n <= |s|
    ensures s[k] as int >= 0x80
    decreases n
  {
    if k > 0 { TailsHigh(high * 64 + Tail(s[0]).value, s[1..], n - 1, k - 1); }
  }

  /** Unescaped, the text is the UTF-8 of the codes it was written for. */
  lemma {:induction false} PiecesRead(ps: seq<Piece>)
    requires ArePieces(ps)
    ensures WellEscaped(Written(ps)) && Codes(Unescape(Written(ps))) == Some(CodesOf(ps))
    decreases |ps|
  {
    hide IsPiece, WellEscaped, Unescape, FirstCode, PieceText, Utf8;
    if ps == [] {
      UnescapePlain("");
    } else {
      var p, rest := ps[0], Written(ps[1..]);
      PiecesRead(ps[1..]);
      assert CodesOf(ps) == [p.code] + CodesOf(ps[1..]);
      PieceFirst(p, rest);
    }
  }

  lemma PieceFirst(p: Piece, rest: string)
    requires IsPiece(p) && WellEscaped(rest) && Codes(Unescape(rest)).Some?
    ensures WellEscaped(PieceText(p) + rest)
    ensures Codes(Unescape(PieceText(p) + rest)) == Some([p.code] + Codes(Unescape(rest)).value)
  {
    hide WellEscaped, Unescape, FirstCode, Utf8, Codes;
    if p.Raw? {
      forall k | 0 <= k < |p.bytes| ensures p.bytes[k] != '\\' { RawBytes(p, k); }
      RawRead(p.bytes, rest);
      CodeKept(p.bytes, Unescape(rest), p.code);
      CodesMore(p.bytes, Unescape(rest), p.code);
    } else {
      EscapeRead(p, rest);
      Utf8Read(p.code, Unescape(rest));
      CodesMore(Utf8(p.code), Unescape(rest), p.code);
    }
  }

  /** What is behind a code does not change how it is read. */
  lemma CodeKept(a: string, b: string, code: nat)
    requires FirstCode(a) == Some(Front(code, |a|))
    ensures FirstCode(a + b) == Some(Front(code, |a|))
  {
    var s := a + b;
    assert s[0] == a[0] && s[1..] == a[1..] + b;
    if |a| > 1 {
      TailsKept(if |a| == 2 then a[0] as int - 0xC0 else if |a| == 3 then a[0] as int - 0xE0 else a[0] as int - 0xF0,
                a[1..], b, |a| - 1);
    }
  }

  lemma {:induction false} TailsKept(high: nat, a: string, b: string, n: nat)
    requires Tails(high, a, n).Some? && n <= |a|
    ensures Tails(high, a + b, n) == Tails(high, a, n)
    decreases n
  {
    if n > 0 {
      assert (a + b)[0] == a[0] && (a + b)[1..] == a[1..] + b;
      TailsKept(high * 64 + Tail(a[0]).value, a[1..], b, n - 1);
    }
  }

  lemma CodesMore(a: string, b: string, code: nat)
    requires FirstCode(a + b) == Some(Front(code, |a|)) && a != "" && Codes(b).Some?
    ensures Codes(a + b) == Some([code] + Codes(b).value)
  {
    hide FirstCode;
    assert (a + b)[|a|..] == b;
  }

  // ---------------------------------------------------------------------------------------------
  // Through the reader

  /** The scan passes over whole pieces, up to the quote behind them. */
  lemma {:induction false} PiecesScanned(ps: seq<Piece>, post: string)
    requires ArePieces(ps)
    ensures Scan(Written(ps) + "\"" + post) == Some(|Written(ps)|)
    decreases |ps|
  {
    hide IsPiece, PieceText, WellEscaped, EscapeLength, Scan;
    if ps == [] {
      var s := "" + "\"" + post;
      assert s[0] == '"';
      ScanQuote(s);
    } else {
      var p, rest := ps[0], Written(ps[1..]) + "\"" + post;
      PiecesScanned(ps[1..], post);
      assert Written(ps) + "\"" + post == PieceText(p) + rest;
      PieceScanned(p, rest);
    }
  }

  lemma ScanQuote(s: string)
    requires s != "" && s[0] == '"'
    ensures Scan(s) == Some(0)
  {
  }

  lemma PieceScanned(p: Piece, rest: string)
    requires IsPiece(p)
    ensures Scan(PieceText(p) + rest) == Shift(|PieceText(p)|, Scan(rest))
  {
    hide EscapeLength, Scan;
    var s := PieceText(p) + rest;
    if p.Raw? {
      forall k | 0 <= k < |p.bytes| ensures p.bytes[k] !in "\\\"\0" { RawBytes(p, k); }
      RawScanned(p.bytes, rest);
    } else {
      assert s[..|PieceText(p)|] == PieceText(p) && s[|PieceText(p)|..] == rest;
      EscapeFront(p, s);
      ScanEscaped(s);
    }
  }

  lemma ScanEscaped(s: string)
    requires s != "" && s[0] == '\\' && EscapeLength(s) > 0
    ensures Scan(s) == Shift(EscapeLength(s), Scan(s[EscapeLength(s)..]))
  {
    hide EscapeLength;
  }

  lemma {:induction false} RawScanned(bytes: string, rest: string)
    requires forall k :: 0 <= k < |bytes| ==> bytes[k] !in "\\\"\0"
    ensures Scan(bytes + rest) == Shift(|bytes|, Scan(rest))
    decreases |bytes|
  {
    hide EscapeLength;
    if bytes == "" {
      assert bytes + rest == rest;
    } else {
      var s := bytes + rest;
      assert bytes[0] !in "\\\"\0";
      assert s[0] == bytes[0] && s[1..] == bytes[1..] + rest;
      RawScanned(bytes[1..], rest);
    }
  }

  /** A JSON text that is one string is loaded as that string. */
  lemma {:induction false} PiecesLoaded(ps: seq<Piece>)
    requires ArePieces(ps)
    ensures WellEscaped(Written(ps)) && Load("\"" + Written(ps) + "\"") == Some(Str(Unescape(Written(ps))))
  {
    hide WellEscaped, Unescape, Scan, ArePieces, Codes;
    PiecesRead(ps);
    PiecesScanned(ps, "");
    var w := Written(ps);
    var s := "\"" + w + "\"";
    assert s[1..] == w + "\"" + "";
    assert s[1..][..|w|] == w;
    assert s[0..] == s && s[|s|..] == "";
  }

  /** Such a text goes through the reader's buffer, and `s()` of the value that comes out gives, in UTF-8,
      the codes it was written for. */
  method ReadText(text: string, ghost ps: seq<Piece>) returns (r: string)
    requires ArePieces(ps) && text == "\"" + Written(ps) + "\""
    ensures Codes(r) == Some(CodesOf(ps))
  {
    hide Load, Unescape, WellEscaped, Codes, ArePieces, SliceOk, SliceText;
    PiecesRead(ps);
    PiecesLoaded(ps);
    var v, buf := JsonReader.LoadCopy(text);
    match v.value {
      case RString(start, end) =>
        var value := new StringValue(buf, start, end);
        r := value.S();
      case _ =>
        r := "";
        assert false;
    }
  }
}
