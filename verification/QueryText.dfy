/** Percent-encoded query strings: what a segment stands for, and which key it has. */
module QueryText {
  import opened HexDigits

  const NUL: char := '\0'

  /** What ends a key. */
  const DELIMITERS: string := "=&#"

  predicate IsHex(c: char) {
    '0' <= c <= '9' || 'A' <= c <= 'F' || 'a' <= c <= 'f'
  }

  function HexValue(c: char): (n: nat)
    ensures IsHex(c) ==> n < 16
  {
    if '0' <= c <= '9' then c as nat - 48
    else if 'A' <= c <= 'F' then c as nat - 55
    else if 'a' <= c <= 'f' then c as nat - 87
    else 0
  }

  /** Not one of the characters that end a key or a value. */
  predicate IsPlain(c: char) {
    c != '=' && c != '#' && c != '&' && c != NUL
  }

  predicate Escape(s: string) {
    |s| >= 3 && s[0] == '%' && IsHex(s[1]) && IsHex(s[2])
  }

  function Escaped(s: string): char
    requires Escape(s)
  {
    (HexValue(s[1]) * 16 + HexValue(s[2])) as char
  }

  /** `qs_decode`: up to the first character that ends the value, or the first bad escape. */
  function Decode(s: string): (d: string)
    ensures |d| <= |s|
  {
    if s == "" || !IsPlain(s[0]) then ""
    else if s[0] == '%' then (if Escape(s) then [Escaped(s)] + Decode(s[3..]) else "")
    else [if s[0] == '+' then ' ' else s[0]] + Decode(s[1..])
  }

  /** A text in which nothing ends the value and every percent sign begins an escape. */
  predicate WellCoded(s: string) {
    s == "" || (IsPlain(s[0]) && if s[0] == '%' then Escape(s) && WellCoded(s[3..]) else WellCoded(s[1..]))
  }

  // ---------------------------------------------------------------------------------------------
  // Encoding

  predicate Unreserved(c: char) {
    '0' <= c <= '9' || 'a' <= c <= 'z' || 'A' <= c <= 'Z' || c == '-' || c == '.' || c == '_' || c == '~'
  }

  function HexDigit(n: nat): char
    requires n < 16
  {
    if n < 10 then (48 + n) as char else (55 + n) as char
  }

  /** Percent-encoding of bytes (section 2.1 of RFC 3986). */
  function Encode(s: string): string
    requires forall k :: 0 <= k < |s| ==> s[k] < 256 as char
  {
    if s == "" then ""
    else (if Unreserved(s[0]) then [s[0]] else ['%', HexDigit(s[0] as nat / 16), HexDigit(s[0] as nat % 16)])
         + Encode(s[1..])
  }

  lemma HexBack(n: nat)
    requires n < 16
    ensures IsHex(HexDigit(n)) && HexValue(HexDigit(n)) == n
  {
  }

  lemma {:induction false} EncodeBack(s: string)
    requires forall k :: 0 <= k < |s| ==> s[k] < 256 as char
    ensures WellCoded(Encode(s)) && Decode(Encode(s)) == s
    decreases |s|
  {
    hide HexDigit, HexValue, IsHex;
    if s != "" {
      EncodeBack(s[1..]);
      var e, rest := Encode(s), Encode(s[1..]);
      assert [s[0]] + s[1..] == s;
      if Unreserved(s[0]) {
        assert e[1..] == rest;
      } else {
        HexBack(s[0] as nat / 16);
        HexBack(s[0] as nat % 16);
        assert e[3..] == rest;
        assert e[1] == HexDigit(s[0] as nat / 16) && e[2] == HexDigit(s[0] as nat % 16);
        assert Escaped(e) == s[0];
      }
    }
  }

  // ---------------------------------------------------------------------------------------------
  // Every way to write a text

  /** The ways to write a character: as itself, a blank as a plus sign, and any byte as a percent sign with two
      digits. */
  predicate Writes(t: string, c: char) {
    || (t == [c] && c !in "=#&%+\0")
    || (t == "+" && c == ' ')
    || (|t| == 3 && t[0] == '%' && c < 256 as char && Spells(t[1], c as nat / 16) && Spells(t[2], c as nat % 16))
  }

  function Joined(ts: seq<string>): string {
    if ts == [] then "" else ts[0] + Joined(ts[1..])
  }

  predicate AllWrite(ts: seq<string>, s: string) {
    |ts| == |s| && forall k :: 0 <= k < |ts| ==> Writes(ts[k], s[k])
  }

  /** Where a value ends: at its end, at a delimiter, a NUL, or a percent sign without two digits. */
  ghost predicate Ends(rest: string) {
    || rest == "" || rest[0] in "=#&\0"
    || (rest[0] == '%' && !(|rest| >= 3 && IsDigit(rest[1]) && IsDigit(rest[2])))
  }

  lemma DigitIs(c: char, d: nat)
    ensures Spells(c, d) ==> IsHex(c) && HexValue(c) == d
    ensures IsHex(c) <==> IsDigit(c)
  {
    if IsHex(c) { assert Spells(c, HexValue(c)); }
    forall e: nat | Spells(c, e) ensures IsHex(c) { }
  }

  lemma EndsNothing(rest: string)
    requires Ends(rest)
    ensures Decode(rest) == ""
  {
    hide IsDigit, IsHex, HexValue;
    if |rest| >= 3 {
      DigitIs(rest[1], 0);
      DigitIs(rest[2], 0);
    }
  }

  lemma WrittenFirst(t: string, c: char, rest: string)
    requires Writes(t, c)
    ensures Decode(t + rest) == [c] + Decode(rest) && (WellCoded(rest) ==> WellCoded(t + rest))
  {
    hide IsHex, HexValue, Spells;
    var s := t + rest;
    if |t| == 3 {
      DigitIs(t[1], c as nat / 16);
      DigitIs(t[2], c as nat % 16);
      assert s[0] == '%' && s[1] == t[1] && s[2] == t[2] && s[3..] == rest;
      assert Escaped(s) == c;
    } else {
      assert s[0] == t[0] && s[1..] == rest;
    }
  }

  /** Whichever way each character is written, what is decoded is the text, up to where the value ends. */
  lemma {:induction false} WrittenDecoded(ts: seq<string>, s: string, rest: string)
    requires AllWrite(ts, s) && Ends(rest)
    ensures WellCoded(Joined(ts)) && Decode(Joined(ts) + rest) == s
    decreases |ts|
  {
    hide Writes, WellCoded, Decode, Ends;
    if ts == [] {
      assert "" + rest == rest;
      EndsNothing(rest);
      assert WellCoded("") by { NothingCoded(); }
    } else {
      WrittenDecoded(ts[1..], s[1..], rest);
      assert Joined(ts) + rest == ts[0] + (Joined(ts[1..]) + rest);
      WrittenFirst(ts[0], s[0], Joined(ts[1..]) + rest);
      WrittenFirst(ts[0], s[0], Joined(ts[1..]));
      assert s == [s[0]] + s[1..];
    }
  }

  lemma NothingCoded()
    ensures WellCoded("")
  {
  }

  // ---------------------------------------------------------------------------------------------
  // Segments

  /** `strcspn(s, set)` */
  function Span(s: string, stops: string): (n: nat)
    ensures n <= |s| && (forall k :: 0 <= k < n ==> s[k] !in stops && s[k] != NUL)
    ensures n < |s| ==> s[n] in stops || s[n] == NUL
  {
    if s == "" || s[0] in stops || s[0] == NUL then 0 else 1 + Span(s[1..], stops)
  }

  /** The segments between the ampersands, at most `size` of them. */
  function Segments(s: string, size: nat): (r: seq<string>)
    requires NUL !in s
    ensures |r| <= size
    decreases size
  {
    if size == 0 then []
    else
      var j := Span(s, "&");
      if j == |s| then [s] else [s[..j]] + Segments(s[j + 1..], size - 1)
  }

  /** A segment whose key ends at `k`: its value decoded, a blank one cut. */
  function CookedAt(segment: string, k: nat): (r: string)
    requires k <= |segment|
    ensures |r| <= |segment|
  {
    if k == |segment| || segment[k] == '&' || segment[k] == NUL then segment[..k]
    else segment[..k + 1] + Decode(segment[k + 1..])
  }

  /** A segment after parsing. */
  function Cooked(segment: string): (r: string)
    ensures |r| <= |segment|
  {
    CookedAt(segment, Span(segment, DELIMITERS))
  }

  lemma BlankCut(segment: string, k: nat)
    requires k == Span(segment, DELIMITERS) && (k == |segment| || segment[k] == '&' || segment[k] == NUL)
    ensures Cooked(segment) == segment[..k]
  {
    hide Span, Decode;
  }

  /** A C string: up to the first NUL. */
  function CString(s: string): string {
    if s == "" || s[0] == NUL then "" else [s[0]] + CString(s[1..])
  }

  lemma {:induction false} CStringIs(s: string, rest: string)
    requires NUL !in s && rest != "" && rest[0] == NUL
    ensures CString(s + rest) == s
    decreases |s|
  {
    if s == "" {
      assert s + rest == rest;
    } else {
      assert (s + rest)[1..] == s[1..] + rest;
      CStringIs(s[1..], rest);
      assert [s[0]] + s[1..] == s;
    }
  }

  // ---------------------------------------------------------------------------------------------
  // Keys

  /** One character as `qs_strncmp` takes it from either string, and how far it goes; NUL for an end and for a
      bad escape. */
  function Unit(s: string): (r: (char, nat))
    ensures r.1 <= |s| && (r.0 != NUL ==> r.1 > 0)
  {
    if s == "" || !IsPlain(s[0]) then (NUL, 0)
    else if s[0] == '%' then (if Escape(s) then (Escaped(s), 3) else (NUL, 0))
    else (if s[0] == '+' then ' ' else s[0], 1)
  }

  /** `qs_strncmp(s, qs, n) == 0` */
  predicate SameKey(s: string, qs: string, n: nat)
    decreases n
  {
    if n == 0 then qs == "" || !IsPlain(qs[0])
    else
      var u, v := Unit(s), Unit(qs);
      u.0 == v.0 && (u.0 == NUL || SameKey(s[u.1..], qs[v.1..], n - 1))
  }

  /** A name without any of the characters that have a meaning. */
  predicate PlainName(name: string) {
    forall k :: 0 <= k < |name| ==> IsPlain(name[k]) && name[k] != '%' && name[k] != '+'
  }

  /** A plain name is the key of a segment exactly when it is what the segment's key decodes to. */
  lemma {:induction false} KeyFound(name: string, key: string, rest: string)
    requires PlainName(name) && WellCoded(key) && NUL !in Decode(key)
    requires rest == "" || !IsPlain(rest[0])
    ensures SameKey(name, key + rest, |name|) <==> Decode(key) == name
    decreases |name|
  {
    hide HexValue, IsHex;
    if key == "" {
      assert key + rest == rest;
    } else {
      UnitFirst(key, rest);
      var u := Unit(key);
      assert (key + rest)[u.1..] == key[u.1..] + rest;
      assert u.0 == Decode(key)[0];
      if name != "" {
        assert Unit(name) == (name[0], 1);
        KeyFound(name[1..], key[u.1..], rest);
        assert name == [name[0]] + name[1..];
      } else {
        assert (key + rest)[0] == key[0];
      }
    }
  }

  lemma UnitFirst(key: string, rest: string)
    requires key != "" && WellCoded(key)
    ensures Unit(key + rest) == Unit(key) && Unit(key).1 > 0
    ensures Decode(key) == [Unit(key).0] + Decode(key[Unit(key).1..]) && WellCoded(key[Unit(key).1..])
  {
    hide HexValue, IsHex;
    assert (key + rest)[0] == key[0];
    if key[0] == '%' { assert (key + rest)[1] == key[1] && (key + rest)[2] == key[2]; }
  }

  // ---------------------------------------------------------------------------------------------
  // Pairs

  datatype Pair = Pair(key: string, value: string)

  /** A key and a value, both encoded; the decoded texts are free of NULs. */
  predicate PairOk(p: Pair) {
    WellCoded(p.key) && WellCoded(p.value) && NUL !in Decode(p.key) && NUL !in Decode(p.value)
  }

  function PairText(p: Pair): string {
    p.key + "=" + p.value
  }

  function QueryOf(pairs: seq<Pair>): string
    requires pairs != []
  {
    if |pairs| == 1 then PairText(pairs[0]) else PairText(pairs[0]) + "&" + QueryOf(pairs[1..])
  }

  lemma {:induction false} WellCodedPlain(s: string)
    requires WellCoded(s)
    ensures forall k :: 0 <= k < |s| ==> IsPlain(s[k])
    decreases |s|
  {
    if s != "" {
      if s[0] == '%' {
        WellCodedPlain(s[3..]);
        forall k | 0 <= k < |s| ensures IsPlain(s[k]) { if k >= 3 { assert s[k] == s[3..][k - 3]; } }
      } else {
        WellCodedPlain(s[1..]);
        forall k | 0 <= k < |s| ensures IsPlain(s[k]) { if k >= 1 { assert s[k] == s[1..][k - 1]; } }
      }
    }
  }

  lemma {:induction false} SpanIs(a: string, b: string, stops: string)
    requires forall k :: 0 <= k < |a| ==> a[k] !in stops && a[k] != NUL
    requires b == "" || b[0] in stops
    ensures Span(a + b, stops) == |a|
    decreases |a|
  {
    if a == "" {
      assert a + b == b;
    } else {
      assert (a + b)[1..] == a[1..] + b;
      SpanIs(a[1..], b, stops);
    }
  }

  /** A pair's segment after parsing: its key as it was, and its decoded value. */
  lemma PairCooked(p: Pair)
    requires PairOk(p)
    ensures Cooked(PairText(p)) == p.key + "=" + Decode(p.value)
  {
    hide Decode, WellCoded, Span;
    WellCodedPlain(p.key);
    assert PairText(p) == p.key + ("=" + p.value);
    SpanIs(p.key, "=" + p.value, DELIMITERS);
    assert PairText(p)[|p.key| + 1..] == p.value;
    assert PairText(p)[..|p.key| + 1] == p.key + "=";
  }

  lemma {:induction false} QueryPlain(pairs: seq<Pair>)
    requires pairs != [] && forall p :: p in pairs ==> PairOk(p)
    ensures NUL !in QueryOf(pairs)
    decreases |pairs|
  {
    hide WellCoded, Decode, PairText, PairOk;
    PairPlain(pairs[0]);
    if |pairs| > 1 { QueryPlain(pairs[1..]); }
  }

  /** The segments are the texts of the pairs, as many as are asked for. */
  lemma {:induction false} QuerySegments(pairs: seq<Pair>, size: nat)
    requires pairs != [] && forall p :: p in pairs ==> PairOk(p)
    ensures NUL !in QueryOf(pairs)
    ensures |Segments(QueryOf(pairs), size)| == if |pairs| <= size then |pairs| else size
    ensures forall k :: 0 <= k < |pairs| && k < size ==> Segments(QueryOf(pairs), size)[k] == PairText(pairs[k])
    decreases size
  {
    hide WellCoded, Decode, PairText, PairOk, Segments;
    QueryPlain(pairs);
    var t := PairText(pairs[0]);
    PairPlain(pairs[0]);
    if size == 0 {
      NoSegments(QueryOf(pairs));
    } else if |pairs| == 1 {
      OneSegment(t, size);
    } else {
      QuerySegments(pairs[1..], size - 1);
      var rest := QueryOf(pairs[1..]);
      assert QueryOf(pairs) == t + ("&" + rest);
      SegmentBefore(t, rest, size);
      var s := Segments(QueryOf(pairs), size);
      forall k | 0 <= k < |pairs| && k < size ensures s[k] == PairText(pairs[k]) {
        if k > 0 { assert s[k] == Segments(rest, size - 1)[k - 1] && pairs[k] == pairs[1..][k - 1]; }
      }
    }
  }

  lemma NoSegments(s: string)
    requires NUL !in s
    ensures Segments(s, 0) == []
  {
  }

  lemma OneSegment(t: string, size: nat)
    requires size > 0 && forall k :: 0 <= k < |t| ==> t[k] != '&' && t[k] != NUL
    ensures Segments(t, size) == [t]
  {
    assert t + "" == t;
    SpanIs(t, "", "&");
  }

  lemma SegmentBefore(t: string, rest: string, size: nat)
    requires size > 0 && NUL !in rest && forall k :: 0 <= k < |t| ==> t[k] != '&' && t[k] != NUL
    ensures NUL !in t + ("&" + rest) && Segments(t + ("&" + rest), size) == [t] + Segments(rest, size - 1)
  {
    hide Span;
    var s := t + ("&" + rest);
    assert NUL !in s;
    SpanIs(t, "&" + rest, "&");
    assert s[|t| + 1..] == rest && s[..|t|] == t;
  }

  lemma PairPlain(p: Pair)
    requires PairOk(p)
    ensures forall k :: 0 <= k < |PairText(p)| ==> PairText(p)[k] != '&' && PairText(p)[k] != NUL
  {
    hide Decode, WellCoded;
    WellCodedPlain(p.key);
    WellCodedPlain(p.value);
  }

  /** The decoded values of the pairs whose key decodes to the name, in order. */
  function ValuesOf(pairs: seq<Pair>, name: string): seq<string> {
    if pairs == [] then []
    else ValuesOf(pairs[..|pairs| - 1], name)
         + (var p := pairs[|pairs| - 1]; if Decode(p.key) == name then [Decode(p.value)] else [])
  }

  // ---------------------------------------------------------------------------------------------
  // Pairs that are written by encoding

  /** Bytes other than NUL. */
  predicate IsText(s: string) {
    forall k :: 0 <= k < |s| ==> NUL < s[k] < 256 as char
  }

  predicate AllText(pairs: seq<Pair>) {
    forall k :: 0 <= k < |pairs| ==> IsText(pairs[k].key) && IsText(pairs[k].value)
  }

  function EncodedPairs(pairs: seq<Pair>): (r: seq<Pair>)
    requires AllText(pairs)
    ensures |r| == |pairs|
  {
    seq(|pairs|, i requires 0 <= i < |pairs| => Pair(Encode(pairs[i].key), Encode(pairs[i].value)))
  }

  /** The values under a name, in order. */
  function ValuesUnder(pairs: seq<Pair>, name: string): seq<string> {
    if pairs == [] then []
    else ValuesUnder(pairs[..|pairs| - 1], name)
         + (var p := pairs[|pairs| - 1]; if p.key == name then [p.value] else [])
  }

  lemma EncodedOk(pairs: seq<Pair>)
    requires AllText(pairs)
    ensures forall p :: p in EncodedPairs(pairs) ==> PairOk(p)
  {
    hide Encode, Decode, WellCoded;
    forall k | 0 <= k < |pairs| ensures PairOk(EncodedPairs(pairs)[k]) {
      EncodeBack(pairs[k].key);
      EncodeBack(pairs[k].value);
    }
  }

  /** What the encoded pairs stand for is what they were made of. */
  lemma {:induction false} EncodedValues(pairs: seq<Pair>, name: string)
    requires AllText(pairs)
    ensures ValuesOf(EncodedPairs(pairs), name) == ValuesUnder(pairs, name)
    decreases |pairs|
  {
    hide Encode, Decode, WellCoded;
    if pairs != [] {
      var n := |pairs| - 1;
      EncodedValues(pairs[..n], name);
      assert EncodedPairs(pairs)[..n] == EncodedPairs(pairs[..n]);
      EncodeBack(pairs[n].key);
      EncodeBack(pairs[n].value);
    }
  }
}
