/** JSON texts: what the writer puts out, what the reader makes of a text, and the round trip. */
module JsonText {
  import opened Wrappers

  /** A value; a number is kept as its text, and the members of an object in the order in which they are
      written or read. */
  datatype Json =
    | Null | False | True
    | Number(text: string)
    | Str(s: string)
    | List(items: seq<Json>)
    | Object(members: seq<Member>)

  datatype Member = Member(key: string, value: Json)

  // ---------------------------------------------------------------------------------------------
  // Strings

  function Hex(n: nat): char
    requires n < 16
  {
    if n < 10 then '0' + n as char else 'a' + (n - 10) as char
  }

  function EscapeChar(c: char): string {
    if c == '"' then "\\\""
    else if c == '\\' then "\\\\"
    else if c == '\n' then "\\n"
    else if c == 8 as char then "\\b"
    else if c == 12 as char then "\\f"
    else if c == '\r' then "\\r"
    else if c == '\t' then "\\t"
    else if c < ' ' then "\\u00" + [Hex(c as nat / 16), Hex(c as nat % 16)]
    else [c]
  }

  function Escape(s: string): string {
    if s == "" then "" else EscapeChar(s[0]) + Escape(s[1..])
  }

  predicate IsHex(c: char) {
    '0' <= c <= '9' || 'a' <= c <= 'f' || 'A' <= c <= 'F'
  }

  predicate HexAt(s: string, i: nat) {
    i + 4 <= |s| && IsHex(s[i]) && IsHex(s[i + 1]) && IsHex(s[i + 2]) && IsHex(s[i + 3])
  }

  const SHORT: string := "\"\\/bfnrt"

  /** How many characters the escape sequence at the front of `s` has; 0 if there is none. */
  function EscapeLength(s: string): (n: nat)
    requires s != "" && s[0] == '\\'
    ensures n <= |s| && (n == 0 || n == 2 || n == 6)
  {
    if |s| < 2 then 0
    else if s[1] == 'u' then (if HexAt(s, 2) then 6 else 0)
    else if s[1] in SHORT then 2 else 0
  }

  /** The length of the string contents up to the closing quote; None at a bad escape, a NUL or the end. */
  function Scan(s: string): (r: Option<nat>)
    ensures r.Some? ==> r.value < |s| && s[r.value] == '"'
  {
    if s == "" || s[0] == '\0' then None
    else if s[0] == '"' then Some(0)
    else if s[0] == '\\' then
      var n := EscapeLength(s);
      if n == 0 then None else Shift(n, Scan(s[n..]))
    else Shift(1, Scan(s[1..]))
  }

  function Shift(n: nat, r: Option<nat>): Option<nat> {
    if r.None? then None else Some(n + r.value)
  }

  function FromHex(c: char): int {
    if c >= 'a' then c as int - 'a' as int + 10
    else if c >= 'A' then c as int - 'A' as int + 10
    else c as int - '0' as int
  }

  lemma FromHexBound(c: char)
    requires IsHex(c)
    ensures 0 <= FromHex(c) < 16
  {
  }

  function Code(s: string, i: nat): (r: nat)
    requires HexAt(s, i)
    ensures r < 0x1_0000
  {
    FromHexBound(s[i]);
    FromHexBound(s[i + 1]);
    FromHexBound(s[i + 2]);
    FromHexBound(s[i + 3]);
    FromHex(s[i]) * 0x1000 + FromHex(s[i + 1]) * 0x100 + FromHex(s[i + 2]) * 0x10 + FromHex(s[i + 3])
  }

  /** The UTF-8 bytes of a code unit. */
  function Utf8(code: nat): (r: string)
    requires code < 0x1_0000
    ensures 1 <= |r| <= 3
  {
    if code >= 0x800 then
      [(0xE0 + code / 0x1000) as char, (0x80 + code / 0x40 % 0x40) as char, (0x80 + code % 0x40) as char]
    else if code >= 0x80 then [(0xC0 + code / 0x40) as char, (0x80 + code % 0x40) as char]
    else [code as char]
  }

  /** What a character after a backslash stands for. */
  function ShortFor(c: char): char {
    match c
    case 'b' => 8 as char
    case 'f' => 12 as char
    case 'n' => '\n'
    case 'r' => '\r'
    case 't' => '\t'
    case _ => c
  }

  /** The escape sequence at the front and what it stands for. */
  function Unescaped(s: string): (r: string)
    requires s != "" && s[0] == '\\' && EscapeLength(s) > 0
    ensures 1 <= |r| < EscapeLength(s)
  {
    if s[1] == 'u' then Utf8(Code(s, 2)) else [ShortFor(s[1])]
  }

  /** All escape sequences of `s` are complete. */
  predicate WellEscaped(s: string) {
    s == "" ||
    if s[0] == '\\' then EscapeLength(s) > 0 && WellEscaped(s[EscapeLength(s)..]) else WellEscaped(s[1..])
  }

  function Unescape(s: string): (r: string)
    requires WellEscaped(s)
    ensures |r| <= |s|
  {
    if s == "" then ""
    else if s[0] == '\\' then Unescaped(s) + Unescape(s[EscapeLength(s)..])
    else [s[0]] + Unescape(s[1..])
  }

  /** The contents that the scan delimits are complete escape sequences without a quote or a NUL between. */
  lemma {:induction false} ScanWell(s: string)
    requires Scan(s).Some?
    ensures WellEscaped(s[..Scan(s).value])
    decreases |s|
  {
    if s[0] == '"' {
    } else {
      var n := if s[0] == '\\' then EscapeLength(s) else 1;
      var k := Scan(s[n..]).value;
      ScanWell(s[n..]);
      assert s[..n + k][n..] == s[n..][..k];
      if s[0] == '\\' { EscapeCut(s, n + k); }
    }
  }

  lemma EscapeCut(s: string, k: nat)
    requires s != "" && s[0] == '\\' && EscapeLength(s) > 0 && EscapeLength(s) <= k <= |s|
    ensures EscapeLength(s[..k]) == EscapeLength(s)
  {
    assert s[..k][1] == s[1];
    if s[1] == 'u' { assert forall j :: 2 <= j < 6 ==> s[..k][j] == s[j]; }
  }

  lemma CharEscaped(c: char, post: string)
    ensures var e := EscapeChar(c);
            && (|e| == 1 ==> e[0] == c && c != '"' && c != '\\' && c >= ' ')
            && (|e| != 1 ==> e != "" && e[0] == '\\' && EscapeLength(e + post) == |e| && Unescaped(e + post) == [c])
  {
    hide Unescaped;
    var e := EscapeChar(c);
    if |e| == 6 {
      var t := e + post;
      assert t[1] == 'u' && t[2] == '0' && t[3] == '0' && t[4] == Hex(c as nat / 16) && t[5] == Hex(c as nat % 16);
      ControlCode(c, t);
    } else if |e| != 1 {
      ShortEscaped(c, post);
    }
  }

  lemma ShortEscaped(c: char, post: string)
    requires |EscapeChar(c)| == 2
    ensures var e := EscapeChar(c);
            e[0] == '\\' && EscapeLength(e + post) == 2 && Unescaped(e + post) == [c]
  {
    var e := EscapeChar(c);
    assert (e + post)[0] == '\\' && (e + post)[1] == e[1] && e[1] in SHORT && e[1] != 'u';
  }

  lemma ControlCode(c: char, t: string)
    requires c < ' ' && |t| >= 6 && t[0] == '\\' && t[1] == 'u' && t[2] == t[3] == '0'
    requires t[4] == Hex(c as nat / 16) && t[5] == Hex(c as nat % 16)
    ensures EscapeLength(t) == 6 && Unescaped(t) == [c]
  {
    assert HexAt(t, 2);
    HexBack(c as nat / 16);
    HexBack(c as nat % 16);
    assert Code(t, 2) == c as nat;
  }

  lemma HexBack(n: nat)
    requires n < 16
    ensures IsHex(Hex(n)) && FromHex(Hex(n)) == n
  {
  }

  /** Unescaping undoes escaping, for every string. */
  lemma {:induction false} UnescapeEscape(s: string)
    ensures WellEscaped(Escape(s)) && Unescape(Escape(s)) == s
    decreases |s|
  {
    hide EscapeChar, Unescaped, EscapeLength;
    if s != "" {
      var e := EscapeChar(s[0]);
      UnescapeEscape(s[1..]);
      CharEscaped(s[0], Escape(s[1..]));
      assert Escape(s)[|e|..] == Escape(s[1..]);
      assert Escape(s)[0] == e[0];
      assert [s[0]] + s[1..] == s;
    }
  }

  /** The scan stops exactly at the quote after an escaped string. */
  lemma {:induction false} ScanEscape(s: string, post: string)
    ensures Scan(Escape(s) + "\"" + post) == Some(|Escape(s)|)
    decreases |s|
  {
    hide EscapeChar, Unescaped, EscapeLength, Scan;
    if s == "" {
      assert Escape(s) + "\"" + post == "\"" + post;
      ScanClosed("\"" + post);
    } else {
      var e := EscapeChar(s[0]);
      var rest := Escape(s[1..]) + "\"" + post;
      ScanEscape(s[1..], post);
      CharEscaped(s[0], rest);
      assert Escape(s) + "\"" + post == e + rest;
      ScanOver(s[0], rest);
    }
  }

  lemma ScanClosed(t: string)
    requires t != "" && t[0] == '"'
    ensures Scan(t) == Some(0)
  {
  }

  /** The scan passes over an escaped character. */
  lemma ScanOver(c: char, rest: string)
    ensures Scan(EscapeChar(c) + rest) == Shift(|EscapeChar(c)|, Scan(rest))
  {
    hide EscapeChar, Unescaped, EscapeLength;
    var e := EscapeChar(c);
    CharEscaped(c, rest);
    assert (e + rest)[|e|..] == rest && (e + rest)[0] == e[0];
  }

  // ---------------------------------------------------------------------------------------------
  // Numbers

  function Digits(n: nat): string {
    if n < 10 then [('0' as int + n) as char] else Digits(n / 10) + [('0' as int + n % 10) as char]
  }

  /** `std::to_string` */
  function IntText(n: int): string {
    if n < 0 then "-" + Digits(-n) else Digits(n)
  }

  datatype NumberState = Minus | AfterMinus | ZeroFirst | InDigits | DigitsAfterPoints | E | DigitsAfterE | Invalid

  /** The transition tables of the reader. */
  function NumberStep(s: NumberState, c: char): NumberState {
    if c == '0' then
      match s
      case Minus => ZeroFirst
      case AfterMinus => ZeroFirst
      case InDigits => InDigits
      case DigitsAfterPoints => DigitsAfterPoints
      case E => DigitsAfterE
      case DigitsAfterE => DigitsAfterE
      case _ => Invalid
    else if '1' <= c <= '9' then
      match s
      case Minus => InDigits
      case AfterMinus => InDigits
      case InDigits => InDigits
      case DigitsAfterPoints => DigitsAfterPoints
      case E => DigitsAfterE
      case DigitsAfterE => DigitsAfterE
      case _ => Invalid
    else if c == '.' then
      if s.ZeroFirst? || s.InDigits? then DigitsAfterPoints else Invalid
    else if c == '-' then
      if s.Minus? then AfterMinus else if s.E? then DigitsAfterE else Invalid
    else if c == '+' then
      if s.E? then DigitsAfterE else Invalid
    else if s.InDigits? || s.DigitsAfterPoints? then NumberState.E else Invalid
  }

  predicate InNumber(c: char) {
    '0' <= c <= '9' || c == '.' || c == '-' || c == '+' || c == 'e' || c == 'E'
  }

  predicate Accepting(s: NumberState) {
    s.ZeroFirst? || s.InDigits? || s.DigitsAfterPoints? || s.DigitsAfterE?
  }

  /** The length of the number at the front. */
  function NumberLength(s: string, state: NumberState): (r: Option<nat>)
    ensures r.Some? ==> r.value <= |s|
    ensures r.Some? && r.value == 0 ==> Accepting(state)
  {
    if state.Invalid? then None
    else if s == "" || !InNumber(s[0]) then (if Accepting(state) then Some(0) else None)
    else Shift(1, NumberLength(s[1..], NumberStep(state, s[0])))
  }

  predicate AllDigits(s: string) {
    forall k :: 0 <= k < |s| ==> '0' <= s[k] <= '9'
  }

  lemma {:induction false} DigitsAre(n: nat)
    ensures Digits(n) != "" && AllDigits(Digits(n)) && (n > 0 ==> Digits(n)[0] != '0') && (n == 0 ==> Digits(n) == "0")
    decreases n
  {
    if n >= 10 { DigitsAre(n / 10); }
  }

  predicate NumberEnds(post: string) {
    post == "" || !InNumber(post[0])
  }

  lemma {:induction false} DigitsScanned(s: string, post: string)
    requires AllDigits(s) && NumberEnds(post)
    ensures NumberLength(s + post, InDigits) == Some(|s|)
    decreases |s|
  {
    if s == "" {
      assert s + post == post;
    } else {
      assert (s + post)[1..] == s[1..] + post;
      DigitsScanned(s[1..], post);
    }
  }

  /** An integer that was written is read to its end. */
  lemma {:induction false} IntScanned(n: int, post: string)
    requires NumberEnds(post)
    ensures NumberLength(IntText(n) + post, Minus) == Some(|IntText(n)|)
    ensures IntText(n) != "" && (IntText(n)[0] == '-' || '0' <= IntText(n)[0] <= '9')
  {
    hide NumberLength, NumberStep, NumberEnds, AllDigits, Digits;
    var d := Digits(if n < 0 then -n else n);
    DigitsAre(if n < 0 then -n else n);
    DigitFirst(d);
    if n < 0 {
      var t := IntText(n) + post;
      assert t[0] == '-' && t[1..] == d + post;
      NumberMore(t, Minus);
      MinusStep();
      FirstDigit(d, post, AfterMinus);
    } else {
      FirstDigit(d, post, Minus);
    }
  }

  lemma MinusStep()
    ensures NumberStep(Minus, '-') == AfterMinus
  {
  }

  lemma FirstDigit(d: string, post: string, state: NumberState)
    requires d != "" && AllDigits(d) && NumberEnds(post) && (state.Minus? || state.AfterMinus?)
    requires d[0] != '0' || d == "0"
    ensures NumberLength(d + post, state) == Some(|d|)
  {
    hide NumberStep, NumberLength, AllDigits, NumberEnds;
    var t := d + post;
    assert t[0] == d[0] && t[1..] == d[1..] + post;
    DigitFirst(d);
    NumberMore(t, state);
    DigitStep(state, d[0]);
    if d == "0" {
      assert d[1..] + post == post;
      NumberStops(post, ZeroFirst);
    } else {
      DigitsScanned(d[1..], post);
    }
  }

  lemma DigitFirst(d: string)
    requires d != "" && AllDigits(d)
    ensures '0' <= d[0] <= '9' && AllDigits(d[1..])
    ensures InNumber(d[0])
  {
  }

  lemma NumberMore(s: string, state: NumberState)
    requires s != "" && InNumber(s[0]) && !state.Invalid?
    ensures NumberLength(s, state) == Shift(1, NumberLength(s[1..], NumberStep(state, s[0])))
  {
    hide NumberStep;
  }

  lemma NumberStops(post: string, state: NumberState)
    requires NumberEnds(post) && Accepting(state)
    ensures NumberLength(post, state) == Some(0)
  {
  }

  lemma DigitStep(state: NumberState, c: char)
    requires '0' <= c <= '9' && (state.Minus? || state.AfterMinus?)
    ensures NumberStep(state, c) == if c == '0' then ZeroFirst else InDigits
  {
  }

  function DigitsValue(s: string): nat
    requires AllDigits(s)
  {
    if s == "" then 0
    else DigitsValue(s[..|s| - 1]) * 10 + (s[|s| - 1] as int - '0' as int)
  }

  /** `i()` and `u()` of a text of digits, perhaps with a minus. */
  function IntValue(s: string): int
    requires AllDigits(s) || (s != "" && s[0] == '-' && AllDigits(s[1..]))
  {
    if AllDigits(s) then DigitsValue(s) else 0 - DigitsValue(s[1..])
  }

  lemma {:induction false} DigitsBack(n: nat)
    ensures AllDigits(Digits(n)) && DigitsValue(Digits(n)) == n
    decreases n
  {
    DigitsAre(n);
    if n >= 10 {
      DigitsBack(n / 10);
      var d := Digits(n);
      assert d[..|d| - 1] == Digits(n / 10);
    } else {
      assert Digits(n)[..0] == "";
    }
  }

  /** The numeric value of what is written is the number that was written. */
  lemma IntBack(n: int)
    ensures AllDigits(IntText(n)) || (IntText(n) != "" && IntText(n)[0] == '-' && AllDigits(IntText(n)[1..]))
    ensures IntValue(IntText(n)) == n
  {
    hide DigitsValue;
    if n < 0 {
      assert IntText(n)[1..] == Digits(-n) && IntText(n)[0] == '-';
      DigitsBack(-n);
    } else {
      DigitsBack(n);
    }
  }

  // ---------------------------------------------------------------------------------------------
  // The writer

  /** `indent` below 0 puts everything on one line. */
  datatype Format = Format(indent: int, separator: char)

  predicate IsSpace(c: char) {
    c == ' ' || c == '\t' || c == '\r' || c == '\n'
  }

  function Repeat(c: char, n: nat): (r: string)
    ensures |r| == n && forall k :: 0 <= k < n ==> r[k] == c
  {
    seq(n, i => c)
  }

  function Break(f: Format, level: nat): string {
    if f.indent < 0 then "" else "\n" + Repeat(f.separator, Times(level, f.indent))
  }

  function Times(a: nat, b: nat): nat {
    a * b
  }

  function Quote(s: string): string {
    "\"" + Escape(s) + "\""
  }

  function Dump(v: Json, f: Format, level: nat): string
    decreases v, 0
  {
    match v
    case Null => "null"
    case False => "false"
    case True => "true"
    case Number(text) => text
    case Str(s) => Quote(s)
    case List(items) => "[" + Break(f, level + 1) + DumpItems(items, f, level + 1) + Break(f, level) + "]"
    case Object(members) => "{" + Break(f, level + 1) + DumpMembers(members, f, level + 1) + Break(f, level) + "}"
  }

  /** The items with a comma and a line break between them. */
  function DumpItems(items: seq<Json>, f: Format, level: nat): string
    decreases items, 0
  {
    if items == [] then ""
    else Dump(items[0], f, level) + MoreItems(items[1..], f, level)
  }

  function MoreItems(items: seq<Json>, f: Format, level: nat): string
    decreases items, 1
  {
    if items == [] then "" else "," + Break(f, level) + DumpItems(items, f, level)
  }

  function DumpMembers(members: seq<Member>, f: Format, level: nat): string
    decreases members, 0
  {
    if members == [] then ""
    else
      Quote(members[0].key) + ":" + (if f.indent >= 0 then " " else "") + Dump(members[0].value, f, level)
      + MoreMembers(members[1..], f, level)
  }

  function MoreMembers(members: seq<Member>, f: Format, level: nat): string
    decreases members, 1
  {
    if members == [] then "" else "," + Break(f, level) + DumpMembers(members, f, level)
  }

  // ---------------------------------------------------------------------------------------------
  // The reader

  const MAX_DEPTH := 10000

  /** What is read, and how many characters it takes. */
  datatype Read<T> = Read(value: T, n: nat)

  function Skip(s: string): (n: nat)
    ensures n <= |s| && (forall k :: 0 <= k < n ==> IsSpace(s[k])) && (n < |s| ==> !IsSpace(s[n]))
  {
    if s != "" && IsSpace(s[0]) then 1 + Skip(s[1..]) else 0
  }

  predicate Word(s: string, word: string) {
    |word| <= |s| && s[..|word|] == word
  }

  function DecodeString(s: string): (r: Option<Read<string>>)
    ensures r.Some? ==> 1 < r.value.n <= |s|
  {
    if s == "" || s[0] != '"' then None
    else match Scan(s[1..])
      case None => None
      case Some(k) =>
        ScanWell(s[1..]);
        Some(Read(Unescape(s[1..][..k]), k + 2))
  }

  function DecodeNumber(s: string): (r: Option<Read<Json>>)
    ensures r.Some? ==> 0 < r.value.n <= |s|
  {
    match NumberLength(s, Minus)
    case None => None
    case Some(k) => Some(Read(Number(s[..k]), k))
  }

  function DecodeValue(s: string, depth: nat): (r: Option<Read<Json>>)
    ensures r.Some? ==> 0 < r.value.n <= |s|
    decreases |s|, 3
  {
    if s == "" then None
    else if s[0] == '[' then DecodeList(s, depth + 1)
    else if s[0] == '{' then DecodeObject(s, depth + 1)
    else if s[0] == '"' then
      match DecodeString(s)
      case None => None
      case Some(r) => Some(Read(Str(r.value), r.n))
    else if s[0] == 't' then (if Word(s, "true") then Some(Read(True, 4)) else None)
    else if s[0] == 'f' then (if Word(s, "false") then Some(Read(False, 5)) else None)
    else if s[0] == 'n' then (if Word(s, "null") then Some(Read(Null, 4)) else None)
    else DecodeNumber(s)
  }

  function DecodeList(s: string, depth: nat): (r: Option<Read<Json>>)
    requires s != "" && s[0] == '['
    ensures r.Some? ==> 0 < r.value.n <= |s|
    decreases |s|, 2
  {
    if depth > MAX_DEPTH then None
    else
      var k := 1 + Skip(s[1..]);
      if k < |s| && s[k] == ']' then Some(Read(List([]), k + 1))
      else match DecodeItems(s[k..], depth)
        case None => None
        case Some(r) => Some(Read(List(r.value), k + r.n))
  }

  /** What follows an item: nothing that fits, the end of the container, or more items from an index on. */
  datatype After = Wrong | End(n: nat) | More(n: nat)

  function AfterItem(s: string, n: nat, close: char): (a: After)
    requires n <= |s|
    ensures a.End? ==> n < a.n <= |s|
    ensures a.More? ==> n < a.n <= |s|
  {
    var k := n + Skip(s[n..]);
    if k == |s| then Wrong
    else if s[k] == close then End(k + 1)
    else if s[k] != ',' then Wrong
    else More(k + 1 + Skip(s[k + 1..]))
  }

  /** A value, and what follows it up to the closing bracket. */
  function DecodeItems(s: string, depth: nat): (r: Option<Read<seq<Json>>>)
    ensures r.Some? ==> 0 < r.value.n <= |s|
    decreases |s|, 4
  {
    match DecodeValue(s, depth + 1)
    case None => None
    case Some(v) =>
      match AfterItem(s, v.n, ']')
      case Wrong => None
      case End(n) => Some(Read([v.value], n))
      case More(n) => PrependItem(v.value, n, DecodeItems(s[n..], depth))
  }

  function PrependItem(v: Json, n: nat, r: Option<Read<seq<Json>>>): Option<Read<seq<Json>>> {
    if r.None? then None else Some(Read([v] + r.value.value, n + r.value.n))
  }

  function DecodeObject(s: string, depth: nat): (r: Option<Read<Json>>)
    requires s != "" && s[0] == '{'
    ensures r.Some? ==> 0 < r.value.n <= |s|
    decreases |s|, 2
  {
    if depth > MAX_DEPTH then None
    else
      var k := 1 + Skip(s[1..]);
      if k < |s| && s[k] == '}' then Some(Read(Object([]), k + 1))
      else match DecodeMembers(s[k..], depth)
        case None => None
        case Some(r) => Some(Read(Object(r.value), k + r.n))
  }

  /** The key and the colon after it. */
  function DecodeKey(s: string): (r: Option<Read<string>>)
    ensures r.Some? ==> 0 < r.value.n <= |s|
  {
    match DecodeString(s)
    case None => None
    case Some(r) =>
      var k := r.n + Skip(s[r.n..]);
      if k == |s| || s[k] != ':' then None
      else Some(Read(r.value, k + 1 + Skip(s[k + 1..])))
  }

  function DecodeMember(s: string, depth: nat): (r: Option<Read<Member>>)
    ensures r.Some? ==> 0 < r.value.n <= |s|
    decreases |s|, 4
  {
    match DecodeKey(s)
    case None => None
    case Some(key) =>
      match DecodeValue(s[key.n..], depth + 1)
      case None => None
      case Some(v) => Some(Read(Member(key.value, v.value), key.n + v.n))
  }

  function DecodeMembers(s: string, depth: nat): (r: Option<Read<seq<Member>>>)
    ensures r.Some? ==> 0 < r.value.n <= |s|
    decreases |s|, 5
  {
    match DecodeMember(s, depth)
    case None => None
    case Some(m) =>
      match AfterItem(s, m.n, '}')
      case Wrong => None
      case End(n) => Some(Read([m.value], n))
      case More(n) => PrependMember(m.value, n, DecodeMembers(s[n..], depth))
  }

  function PrependMember(m: Member, n: nat, r: Option<Read<seq<Member>>>): Option<Read<seq<Member>>> {
    if r.None? then None else Some(Read([m] + r.value.value, n + r.value.n))
  }

  /** The end of the text has to follow the value; a NUL ends it as well. */
  function AtEnd(s: string, n: nat, v: Json): Option<Json>
    requires n <= |s|
  {
    var j := n + Skip(s[n..]);
    if j < |s| && s[j] != '\0' then None else Some(v)
  }

  /** `load`: the whole text, up to the first NUL after the value. */
  function Load(s: string): Option<Json> {
    var k := Skip(s);
    match DecodeValue(s[k..], 0)
    case None => None
    case Some(r) => AtEnd(s, k + r.n, r.value)
  }
}
