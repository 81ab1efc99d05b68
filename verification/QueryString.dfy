/** `query_string`: the url is parsed in its own buffer, and keys are looked up there. */
module QueryString {
  import opened Wrappers
  import opened QueryText

  const MAX_KEY_VALUE_PAIRS_COUNT := 256

  // ---------------------------------------------------------------------------------------------
  // Where things are in the buffer

  /** The segment stands at `p`, before an ampersand or a NUL. */
  predicate StandsAt(b: string, p: nat, segment: string) {
    && p + |segment| < |b| && b[p..p + |segment|] == segment
    && (b[p + |segment|] == '&' || b[p + |segment|] == NUL)
  }

  /** The C string at `p` begins with this text, which a NUL follows. */
  predicate Placed(b: string, p: nat, text: string) {
    p + |text| < |b| && b[p..p + |text|] == text && b[p + |text|] == NUL
  }

  /** Every segment ends before the next one begins. */
  predicate Apart(kv: seq<nat>, segments: seq<string>) {
    |kv| == |segments| && forall i, k :: 0 <= i < k < |kv| ==> kv[i] + |segments[i]| < kv[k]
  }

  predicate AllStand(b: string, kv: seq<nat>, segments: seq<string>, from: nat)
    requires |kv| == |segments|
  {
    forall k :: from <= k < |kv| ==> StandsAt(b, kv[k], segments[k])
  }

  predicate AllPlaced(b: string, kv: seq<nat>, segments: seq<string>, to: nat)
    requires |kv| == |segments|
  {
    forall k :: 0 <= k < to && k < |kv| ==> Placed(b, kv[k], Cooked(segments[k]))
  }

  /** What a lookup of the key points to, in the order of the pairs. */
  function ValueAt(b: string, p: nat): nat
    requires p <= |b|
  {
    var skip := Span(b[p..], "=");
    if p + skip < |b| && b[p + skip] == '=' then p + skip + 1 else p + skip
  }

  predicate InBuffer(b: string, kv: seq<nat>) {
    forall k :: 0 <= k < |kv| ==> kv[k] <= |b|
  }

  function Matches(b: string, kv: seq<nat>, key: string): seq<nat>
    requires InBuffer(b, kv)
  {
    if kv == [] then []
    else
      var n := |kv| - 1;
      Matches(b, kv[..n], key) + if SameKey(key, b[kv[n]..], |key|) then [ValueAt(b, kv[n])] else []
  }

  class QueryString {
    const buf: array<char>
    var pairs: seq<nat>

    /** The buffer ends in a NUL. */
    predicate Valid()
      reads this, buf
    {
      buf.Length > 0 && buf[buf.Length - 1] == NUL && InBuffer(buf[..], pairs)
    }

    /** A copy of the text, not yet parsed. */
    constructor (params: string)
      ensures Valid() && pairs == [] && buf[..] == params + [NUL] && fresh(buf)
    {
      buf := new char[|params| + 1](i requires 0 <= i <= |params| => if i < |params| then params[i] else NUL);
      pairs := [];
      new;
      assert buf[..] == params + [NUL];
    }

    /** `strcspn` */
    method Strcspn(at: nat, stops: string) returns (n: nat)
      requires Valid() && at < buf.Length
      ensures n == Span(buf[at..], stops) && at + n < buf.Length
    {
      hide Span;
      ghost var s := buf[at..];
      n := 0;
      assert s[0..] == s;
      while buf[at + n] !in stops && buf[at + n] != NUL
        invariant at + n < buf.Length && Span(s, stops) == n + Span(s[n..], stops)
        decreases buf.Length - n
      {
        SpanStep(s[n..], stops);
        assert s[n] == buf[at + n] && s[n..][1..] == s[n + 1..];
        n := n + 1;
      }
      SpanStep(s[n..], stops);
      assert s[n] == buf[at + n];
    }

    static lemma SpanStep(s: string, stops: string)
      requires s != ""
      ensures Span(s, stops) == if s[0] in stops || s[0] == NUL then 0 else 1 + Span(s[1..], stops)
    {
    }

    /** `qs_decode`: the value is rewritten in place and ends no later than it did. */
    method QsDecode(at: nat, ghost s: string)
      requires Valid() && StandsAt(buf[..], at, s) && '&' !in s && NUL !in s
      modifies buf
      ensures Valid() && Placed(buf[..], at, Decode(s))
      ensures forall k :: 0 <= k < buf.Length && !(at <= k <= at + |s|) ==> buf[k] == old(buf[k])
    {
      hide Decode, Decoding;
      var i: nat, j: nat := at, at;
      DecodingStart(buf[..], at, s);
      while IsPlain(buf[j])
        invariant i <= j && Decoding(buf[..], at, i, j, s)
        invariant at <= i && j <= at + |s| < buf.Length && Valid()
        invariant forall k :: 0 <= k < buf.Length && !(at <= k < j) ==> buf[k] == old(buf[k])
        decreases at + |s| - j
      {
        var c, n := UnitAt(at, i, j, s);
        if n == 0 { break; }
        ghost var b := buf[..];
        buf[i] := c;
        DecodingMore(b, buf[..], at, i, j, s, c, n);
        i, j := i + 1, j + n;
      }
      DecodingDone(buf[..], at, i, j, s);
      buf[i] := NUL;
      assert buf[at..i] == Decode(s);
    }

    /** One character of the value and how much of the text it takes; none at a bad escape. */
    method UnitAt(ghost at: nat, ghost i: nat, j: nat, ghost s: string) returns (c: char, n: nat)
      requires Valid() && Decoding(buf[..], at, i, j, s) && at <= j <= at + |s| < buf.Length && IsPlain(buf[j])
      ensures j < at + |s|
      ensures n == 0 ==> Decode(s[j - at..]) == ""
      ensures n > 0 ==> j + n <= at + |s| && Decode(s[j - at..]) == [c] + Decode(s[j - at..][n..])
    {
      hide Decode, HexValue, IsHex;
      ghost var rest := s[j - at..];
      assert buf[j..at + |s|] == rest;
      assert rest[0] == buf[j];
      DecodeStep(rest);
      c, n := buf[j], 1;
      if c == '+' {
        c := ' ';
      } else if c == '%' {
        EscapeAt(buf[..], j, at + |s|, rest);
        if !IsHex(buf[j + 1]) || !IsHex(buf[j + 2]) {
          n := 0;
        } else {
          c := Hex2(buf[j + 1], buf[j + 2]);
          n := 3;
        }
      }
    }

    /** The text up to `j` has been rewritten up to `i`. */
    static ghost predicate Decoding(b: string, at: nat, i: nat, j: nat, s: string) {
      && at <= i <= j <= at + |s| < |b|
      && b[j..at + |s|] == s[j - at..] && (b[at + |s|] == '&' || b[at + |s|] == NUL)
      && b[at..i] + Decode(s[j - at..]) == Decode(s)
    }

    static lemma DecodingStart(b: string, at: nat, s: string)
      requires StandsAt(b, at, s)
      ensures Decoding(b, at, at, at, s)
    {
      hide Decode;
      assert s[0..] == s && b[at..at] + Decode(s) == Decode(s);
    }

    static lemma DecodingMore(b: string, b1: string, at: nat, i: nat, j: nat, s: string, c: char, n: nat)
      requires Decoding(b, at, i, j, s) && b1 == b[i := c] && 0 < n && j + n <= at + |s|
      requires Decode(s[j - at..]) == [c] + Decode(s[j - at..][n..])
      ensures Decoding(b1, at, i + 1, j + n, s)
    {
      hide Decode;
      var rest := s[j - at..];
      assert rest[n..] == s[j + n - at..];
      assert b1[j + n..at + |s|] == b[j..at + |s|][n..];
      assert b1[at..i + 1] == b[at..i] + [c];
      assert b[at..i] + ([c] + Decode(rest[n..])) == b[at..i] + [c] + Decode(rest[n..]);
    }

    static lemma DecodingDone(b: string, at: nat, i: nat, j: nat, s: string)
      requires Decoding(b, at, i, j, s)
      requires !IsPlain(b[j]) || Decode(s[j - at..]) == ""
      ensures b[at..i] == Decode(s)
    {
      hide Decode;
      if !IsPlain(b[j]) {
        if j < at + |s| { assert b[j..at + |s|][0] == b[j]; }
        DecodeEnd(s[j - at..]);
      }
      assert b[at..i] + "" == b[at..i];
    }

    static function Hex2(a: char, b: char): char
      requires IsHex(a) && IsHex(b)
    {
      (HexValue(a) * 16 + HexValue(b)) as char
    }

    static lemma DecodeStep(s: string)
      requires s != "" && IsPlain(s[0])
      ensures s[0] == '%' && !Escape(s) ==> Decode(s) == ""
      ensures s[0] == '%' && Escape(s) ==> Decode(s) == [Escaped(s)] + Decode(s[3..])
      ensures s[0] != '%' ==> Decode(s) == [if s[0] == '+' then ' ' else s[0]] + Decode(s[1..])
    {
    }

    static lemma DecodeEnd(s: string)
      requires s == "" || !IsPlain(s[0])
      ensures Decode(s) == ""
    {
    }

    /** An escape lies inside the segment, as the character behind the segment is no digit. */
    static lemma EscapeAt(b: string, j: nat, end: nat, rest: string)
      requires j < end < |b| && rest == b[j..end] && rest[0] == '%' && (b[end] == '&' || b[end] == NUL)
      ensures Escape(rest) <==> j + 2 < |b| && IsHex(b[j + 1]) && IsHex(b[j + 2])
      ensures Escape(rest) ==> j + 3 <= end && Escaped(rest) == Hex2(b[j + 1], b[j + 2])
      ensures j + 1 < |b| && (IsHex(b[j + 1]) ==> j + 2 < |b|)
    {
      assert forall k :: 0 <= k < |rest| ==> rest[k] == b[j + k];
    }

    /** The second half of `qs_parse` for one segment. */
    method Cook(p: nat, ghost segment: string)
      requires Valid() && StandsAt(buf[..], p, segment) && '&' !in segment && NUL !in segment
      modifies buf
      ensures Valid() && Placed(buf[..], p, Cooked(segment))
      ensures forall k :: 0 <= k < buf.Length && !(p <= k <= p + |segment|) ==> buf[k] == old(buf[k])
    {
      hide Decode, Span, Cooked, Placed;
      var n := Strcspn(p, DELIMITERS);
      ghost var b := buf[..];
      assert buf[p..] == b[p..];
      SpanWithin(b, p, segment, DELIMITERS);
      if buf[p + n] == '&' || buf[p + n] == NUL {
        buf[p + n] := NUL;
        BlankCooked(b, buf[..], p, segment, n);
      } else {
        Behind(b, p, segment, n + 1);
        QsDecode(p + n + 1, segment[n + 1..]);
        ValueCooked(b, buf[..], p, segment, n);
      }
    }

    static lemma BlankCooked(b: string, b1: string, p: nat, segment: string, n: nat)
      requires StandsAt(b, p, segment) && n == Span(segment, DELIMITERS) && '&' !in segment
      requires p + n < |b| && (b[p + n] == '&' || b[p + n] == NUL) && (n < |segment| ==> b[p + n] == segment[n])
      requires b1 == b[p + n := NUL]
      ensures Placed(b1, p, Cooked(segment)) && n <= |segment|
    {
      hide Span, Decode, Cooked, Placed, StandsAt;
      BlankCut(segment, n);
      CutPlaced(b, b1, p, segment, n);
    }

    static lemma CutPlaced(b: string, b1: string, p: nat, segment: string, n: nat)
      requires StandsAt(b, p, segment) && n <= |segment| && p + n < |b| && b1 == b[p + n := NUL]
      ensures Placed(b1, p, segment[..n])
    {
      FrontKept(b, b1, p, segment, n);
    }

    static lemma ValueCooked(b: string, b1: string, p: nat, segment: string, n: nat)
      requires StandsAt(b, p, segment) && n == Span(segment, DELIMITERS) && n < |segment| && |b1| == |b|
      requires segment[n] != '&' && segment[n] != NUL && Placed(b1, p + n + 1, Decode(segment[n + 1..]))
      requires forall k :: p <= k < p + n + 1 ==> b1[k] == b[k]
      ensures Placed(b1, p, Cooked(segment))
    {
      hide Span, Decode, Placed, StandsAt;
      ValuePut(b, b1, p, segment, n + 1, Decode(segment[n + 1..]));
    }

    static lemma ValuePut(b: string, b1: string, p: nat, segment: string, m: nat, value: string)
      requires StandsAt(b, p, segment) && m <= |segment| && |b1| == |b| && Placed(b1, p + m, value)
      requires forall k :: p <= k < p + m ==> b1[k] == b[k]
      ensures Placed(b1, p, segment[..m] + value)
    {
      hide Placed;
      FrontKept(b, b1, p, segment, m);
      var front := segment[..m];
      assert |front| == m;
      Joined(b1, p, front, value);
    }

    static lemma FrontKept(b: string, b1: string, p: nat, segment: string, m: nat)
      requires StandsAt(b, p, segment) && m <= |segment| && |b1| == |b|
      requires forall k :: p <= k < p + m ==> b1[k] == b[k]
      ensures b1[p..p + m] == segment[..m]
    {
      forall i | 0 <= i < m ensures b1[p + i] == segment[i] { assert b[p..p + |segment|][i] == b[p + i]; }
    }

    static lemma Behind(b: string, p: nat, segment: string, n: nat)
      requires StandsAt(b, p, segment) && n <= |segment|
      ensures StandsAt(b, p + n, segment[n..])
    {
      assert b[p + n..p + |segment|] == b[p..p + |segment|][n..];
    }

    static lemma Joined(b: string, p: nat, front: string, rest: string)
      requires p + |front| <= |b| && b[p..p + |front|] == front && Placed(b, p + |front|, rest)
      ensures Placed(b, p, front + rest)
    {
      assert b[p..p + |front| + |rest|] == b[p..p + |front|] + b[p + |front|..p + |front| + |rest|];
    }

    /** The search for a delimiter ends at the end of the segment. */
    static lemma SpanWithin(b: string, p: nat, segment: string, stops: string)
      requires StandsAt(b, p, segment) && '&' in stops
      ensures Span(b[p..], stops) == Span(segment, stops)
      ensures var n := Span(segment, stops); p + n < |b| && (n < |segment| ==> b[p + n] == segment[n])
      decreases |segment|
    {
      if segment != "" {
        assert b[p] == segment[0];
        if segment[0] !in stops && segment[0] != NUL {
          Behind(b, p, segment, 1);
          SpanWithin(b, p + 1, segment[1..], stops);
          assert b[p..][1..] == b[p + 1..];
        }
      }
    }

    // -------------------------------------------------------------------------------------------
    // Parsing

    /** The first half of `qs_parse`: where the segments begin. */
    method FindPairs(start: nat, size: nat, ghost query: string) returns (kv: seq<nat>)
      requires Valid() && size > 0 && NUL !in query && Placed(buf[..], start, query)
      ensures Apart(kv, Segments(query, size)) && AllStand(buf[..], kv, Segments(query, size), 0)
      ensures |kv| > 0
    {
      hide Span, Segments, StandsAt;
      kv := [];
      var p := start;
      ghost var segments: seq<string>, rest := [], query;
      assert [] + Segments(query, size) == Segments(query, size);
      while |kv| < size
        invariant |kv| == |segments| <= size && NUL !in rest && Placed(buf[..], p, rest)
        invariant segments + Segments(rest, size - |kv|) == Segments(query, size)
        invariant Apart(kv, segments) && AllStand(buf[..], kv, segments, 0)
        invariant forall k :: 0 <= k < |kv| ==> kv[k] + |segments[k]| < p
        invariant |kv| > 0 || (p == start && rest == query)
      {
        var j := Strcspn(p, "&");
        ghost var segment := SegmentHere(buf[..], p, rest, size - |kv|, j);
        kv := kv + [p];
        segments := segments + [segment];
        if buf[p + j] == NUL {
          assert segments == Segments(query, size);
          return;
        }
        assert segments + Segments(rest[j + 1..], size - |kv|)
            == segments[..|kv| - 1] + ([segment] + Segments(rest[j + 1..], size - |kv|));
        rest := rest[j + 1..];
        p := p + j + 1;
      }
      NoMore(rest);
      assert segments == Segments(query, size);
    }

    static lemma NoMore(rest: string)
      requires NUL !in rest
      ensures Segments(rest, 0) == []
    {
    }

    /** The first segment of what is left. */
    static lemma SegmentHere(b: string, p: nat, rest: string, size: nat, j: nat) returns (segment: string)
      requires Placed(b, p, rest) && NUL !in rest && size > 0 && j == Span(b[p..], "&") && p + j < |b|
      ensures |segment| == j && StandsAt(b, p, segment)
      ensures b[p + j] == NUL ==> Segments(rest, size) == [segment]
      ensures b[p + j] != NUL ==>
                && j < |rest| && NUL !in rest[j + 1..] && Placed(b, p + j + 1, rest[j + 1..])
                && Segments(rest, size) == [segment] + Segments(rest[j + 1..], size - 1)
    {
      hide Segments;
      SpanPlaced(b, p, rest, "&");
      SegmentsIs(rest, size);
      segment := rest[..j];
      assert b[p..p + j] == b[p..p + |rest|][..j];
      if j < |rest| {
        assert b[p + j] == rest[j];
        assert b[p + j + 1..p + |rest|] == b[p..p + |rest|][j + 1..];
      }
    }

    static lemma SegmentsIs(s: string, size: nat)
      requires NUL !in s && size > 0
      ensures var j := Span(s, "&");
              Segments(s, size) == if j == |s| then [s] else [s[..j]] + Segments(s[j + 1..], size - 1)
    {
      hide Span;
    }

    static lemma SpanPlaced(b: string, p: nat, text: string, stops: string)
      requires Placed(b, p, text) && NUL !in text
      ensures Span(b[p..], stops) == Span(text, stops)
      decreases |text|
    {
      if text != "" {
        assert b[p] == b[p..p + |text|][0] == text[0];
        if text[0] !in stops {
          assert b[p + 1..p + |text|] == b[p..p + |text|][1..];
          SpanPlaced(b, p + 1, text[1..], stops);
          assert b[p..][1..] == b[p + 1..];
        }
      }
    }

    /** The second half of `qs_parse`: no segment is touched by what is done to another. */
    method CookAll(kv: seq<nat>, ghost segments: seq<string>)
      requires Valid() && Apart(kv, segments) && AllStand(buf[..], kv, segments, 0)
      requires forall s :: s in segments ==> '&' !in s && NUL !in s
      modifies buf
      ensures Valid() && AllPlaced(buf[..], kv, segments, |kv|)
    {
      hide Cooked, StandsAt, Placed;
      var k := 0;
      while k < |kv|
        invariant k <= |kv| && Valid()
        invariant AllPlaced(buf[..], kv, segments, k) && AllStand(buf[..], kv, segments, k)
      {
        ghost var b := buf[..];
        Cook(kv[k], segments[k]);
        Untouched(b, buf[..], kv, segments, k);
        k := k + 1;
      }
    }

    static lemma Untouched(b: string, b1: string, kv: seq<nat>, segments: seq<string>, k: nat)
      requires Apart(kv, segments) && k < |kv| && |b| == |b1|
      requires AllPlaced(b, kv, segments, k) && AllStand(b, kv, segments, k)
      requires forall i :: 0 <= i < |b| && !(kv[k] <= i <= kv[k] + |segments[k]|) ==> b1[i] == b[i]
      requires Placed(b1, kv[k], Cooked(segments[k]))
      ensures AllPlaced(b1, kv, segments, k + 1) && AllStand(b1, kv, segments, k + 1)
    {
      hide Cooked;
      forall i | 0 <= i < k ensures Placed(b1, kv[i], Cooked(segments[i])) {
        assert Placed(b, kv[i], Cooked(segments[i])) && kv[i] + |segments[i]| < kv[k];
        Shorter(segments[i]);
        assert b1[kv[i]..kv[i] + |Cooked(segments[i])|] == b[kv[i]..kv[i] + |Cooked(segments[i])|];
      }
      forall i | k + 1 <= i < |kv| ensures StandsAt(b1, kv[i], segments[i]) {
        assert StandsAt(b, kv[i], segments[i]) && kv[k] + |segments[k]| < kv[i];
        assert b1[kv[i]..kv[i] + |segments[i]|] == b[kv[i]..kv[i] + |segments[i]|];
      }
    }

    static lemma Shorter(segment: string)
      ensures |Cooked(segment)| <= |segment|
    {
    }

    /** `qs_parse` on a url without a NUL: the query is what follows the first question mark or number sign. */
    method QsParse(size: nat, parseUrl: bool, ghost url: string)
      requires Valid() && size > 0 && NUL !in url && Placed(buf[..], 0, url)
      modifies this, buf
      ensures Valid()
      ensures var n := Span(url, "?#");
              && (parseUrl && n == |url| ==> pairs == [])
              && (!(parseUrl && n == |url|) ==>
                    var query := if parseUrl then url[n + 1..] else url;
                    && NUL !in query && Apart(pairs, Segments(query, size)) && |pairs| > 0
                    && AllPlaced(buf[..], pairs, Segments(query, size), |pairs|))
    {
      hide Span, Segments, Cooked;
      var start := 0;
      ghost var query := url;
      if parseUrl {
        start := Strcspn(0, "?#");
        assert buf[0..] == buf[..];
        SpanPlaced(buf[..], 0, url, "?#");
        if buf[start] == NUL {
          if start < |url| { assert buf[0..|url|][start] == url[start]; }
          pairs := [];
          return;
        }
        start := start + 1;
        query := url[start..];
        assert buf[start..|url|] == buf[0..|url|][start..];
      }
      var kv := FindPairs(start, size, query);
      SegmentsPlain(query, size);
      CookAll(kv, Segments(query, size));
      pairs := kv;
      BeginsInside(buf[..], kv, Segments(query, size));
    }

    static lemma BeginsInside(b: string, kv: seq<nat>, segments: seq<string>)
      requires |kv| == |segments| && AllPlaced(b, kv, segments, |kv|)
      ensures InBuffer(b, kv)
    {
      forall k | 0 <= k < |kv| ensures kv[k] <= |b| { assert Placed(b, kv[k], Cooked(segments[k])); }
    }

    static lemma SegmentsPlain(s: string, size: nat)
      requires NUL !in s
      ensures forall t :: t in Segments(s, size) ==> '&' !in t && NUL !in t
      decreases size
    {
      if size > 0 {
        var j := Span(s, "&");
        if j < |s| { SegmentsPlain(s[j + 1..], size - 1); }
      }
    }

    // -------------------------------------------------------------------------------------------
    // Lookup

    /** `qs_strncmp` with the key, compared with zero. */
    method SameAs(key: string, p: nat) returns (same: bool)
      requires Valid() && p < buf.Length
      ensures same == SameKey(key, buf[p..], |key|)
    {
      hide Unit;
      var i: nat, j: nat, n: nat := 0, p, |key|;
      ghost var b := buf[..];
      assert key[0..] == key;
      while n > 0
        invariant i <= |key| && p <= j <= |b| && b == buf[..]
        invariant SameKey(key, b[p..], |key|) == SameKey(key[i..], b[j..], n)
      {
        var u, v := Unit(key[i..]), Unit(buf[j..]);
        assert buf[j..] == b[j..];
        if u.0 != v.0 { return false; }
        if u.0 == NUL { return true; }
        assert key[i..][u.1..] == key[i + u.1..] && b[j..][v.1..] == b[j + v.1..];
        i, j, n := i + u.1, j + v.1, n - 1;
      }
      if j < |b| { assert b[j..][0] == buf[j]; }
      same := j == buf.Length || !IsPlain(buf[j]);
    }

    /** `qs_k2v`: the value of the nth pair with the key. */
    method QsK2v(key: string, nth: nat) returns (r: Option<nat>)
      requires Valid() && forall k :: 0 <= k < |pairs| ==> pairs[k] < buf.Length
      ensures var all := Matches(buf[..], pairs, key); r == if nth < |all| then Some(all[nth]) else None
    {
      hide SameKey, Matches, ValueAt;
      var i := 0;
      var left := nth;
      ghost var b := buf[..];
      Whole(b, pairs, key);
      while i < |pairs|
        invariant i <= |pairs| && nth == |Matches(b, pairs[..i], key)| + left
      {
        OneMore(b, pairs, i, key);
        assert buf[pairs[i]..] == b[pairs[i]..];
        var same := SameAs(key, pairs[i]);
        if same {
          if left == 0 {
            var v := ValueOf(pairs[i]);
            MatchesPrefix(b, pairs, i + 1, key);
            return Some(v);
          }
          left := left - 1;
        }
        i := i + 1;
      }
      r := None;
    }

    static lemma Whole(b: string, kv: seq<nat>, key: string)
      requires InBuffer(b, kv)
      ensures kv[..|kv|] == kv && Matches(b, kv[..0], key) == []
    {
    }

    /** Behind the first equals sign, or the end of a pair without one. */
    method ValueOf(p: nat) returns (v: nat)
      requires Valid() && p < buf.Length
      ensures v == ValueAt(buf[..], p)
    {
      hide Span;
      var skip := Strcspn(p, "=");
      assert buf[..][p..] == buf[p..];
      if buf[p + skip] == '=' { skip := skip + 1; }
      v := p + skip;
    }

    static lemma OneMore(b: string, kv: seq<nat>, i: nat, key: string)
      requires InBuffer(b, kv) && i < |kv|
      ensures Matches(b, kv[..i + 1], key)
           == Matches(b, kv[..i], key) + if SameKey(key, b[kv[i]..], |key|) then [ValueAt(b, kv[i])] else []
    {
      hide SameKey, ValueAt;
      assert kv[..i + 1][..i] == kv[..i];
    }

    static lemma MatchesPrefix(b: string, kv: seq<nat>, i: nat, key: string)
      requires InBuffer(b, kv) && i <= |kv|
      ensures Matches(b, kv[..i], key) <= Matches(b, kv, key)
      decreases |kv|
    {
      hide SameKey, ValueAt;
      if i == |kv| {
        assert kv[..i] == kv;
      } else {
        var n := |kv| - 1;
        MatchesPrefix(b, kv[..n], i, key);
        assert kv[..n][..i] == kv[..i];
      }
    }

    /** `get` */
    method Get(name: string) returns (r: Option<nat>)
      requires Valid() && forall k :: 0 <= k < |pairs| ==> pairs[k] < buf.Length
      ensures var all := Matches(buf[..], pairs, name); r == if all == [] then None else Some(all[0])
    {
      r := QsK2v(name, 0);
    }

    /** `get_list` without brackets */
    method GetList(name: string) returns (r: seq<nat>)
      requires Valid() && forall k :: 0 <= k < |pairs| ==> pairs[k] < buf.Length
      ensures r == Matches(buf[..], pairs, name)
    {
      ghost var all := Matches(buf[..], pairs, name);
      r := [];
      while true
        invariant r <= all
        decreases |all| - |r|
      {
        var element := QsK2v(name, |r|);
        if element.None? { return; }
        r := r + [element.value];
      }
    }
  }

  // ---------------------------------------------------------------------------------------------
  // Encoded pairs

  /** The pairs' matches point to their decoded values. */
  lemma {:induction false} MatchesAre(b: string, kv: seq<nat>, pairs: seq<Pair>, name: string)
    requires |kv| == |pairs| && InBuffer(b, kv) && PlainName(name)
    requires forall k :: 0 <= k < |kv| ==> PairOk(pairs[k]) && Placed(b, kv[k], Cooked(PairText(pairs[k])))
    ensures var all := Matches(b, kv, name);
            var values := ValuesOf(pairs, name);
            |all| == |values| && forall i :: 0 <= i < |all| ==> all[i] <= |b| && CString(b[all[i]..]) == values[i]
    decreases |kv|
  {
    hide SameKey, ValueAt, Decode, CString, Cooked, PairOk, Placed, PlainName;
    if kv != [] {
      var n := |kv| - 1;
      MatchesAre(b, kv[..n], pairs[..n], name);
      OneMatch(b, kv[n], pairs[n], name);
    }
  }

  lemma OneMatch(b: string, p: nat, pair: Pair, name: string)
    requires PairOk(pair) && PlainName(name) && Placed(b, p, Cooked(PairText(pair)))
    ensures SameKey(name, b[p..], |name|) <==> Decode(pair.key) == name
    ensures ValueAt(b, p) <= |b| && CString(b[ValueAt(b, p)..]) == Decode(pair.value)
  {
    hide SameKey, Decode, CString, WellCoded, Cooked, Span, PlainName;
    PairCooked(pair);
    var value := Decode(pair.value);
    var text := pair.key + "=" + value;
    var behind := b[p + |text|..];
    assert b[p..] == text + behind;
    assert b[p..] == pair.key + ("=" + value + behind);
    KeyFound(name, pair.key, "=" + value + behind);
    WellCodedPlain(pair.key);
    SpanIs(pair.key, "=" + value + behind, "=");
    assert b[p..][|pair.key|] == '=';
    assert b[p + |pair.key| + 1..] == value + behind;
    CStringIs(value, behind);
  }

  /** The pairs that are read: the first 256 of them. */
  function Taken(pairs: seq<Pair>): (taken: seq<Pair>)
    ensures |taken| == if |pairs| <= 256 then |pairs| else 256
  {
    if |pairs| <= 256 then pairs else pairs[..256]
  }

  function UrlOf(path: string, pairs: seq<Pair>): string {
    if pairs == [] then path else path + "?" + QueryOf(pairs)
  }

  lemma UrlSpan(path: string, pairs: seq<Pair>)
    requires forall p :: p in pairs ==> PairOk(p)
    requires forall k :: 0 <= k < |path| ==> path[k] != '?' && path[k] != '#' && path[k] != NUL
    ensures var url := UrlOf(path, pairs);
            && NUL !in url && Span(url, "?#") == |path|
            && (pairs == [] ==> |url| == |path|)
            && (pairs != [] ==> |url| > |path| && url[|path| + 1..] == QueryOf(pairs))
  {
    hide PairOk, QueryOf, Span;
    if pairs == [] {
      assert path + "" == path;
      SpanIs(path, "", "?#");
    } else {
      QuerySegments(pairs, MAX_KEY_VALUE_PAIRS_COUNT);
      assert UrlOf(path, pairs) == path + ("?" + QueryOf(pairs));
      SpanIs(path, "?" + QueryOf(pairs), "?#");
    }
  }

  /** The segments of the query are the pairs, each cooked in its place. */
  method ParsePairs(q: QueryString, ghost path: string, ghost pairs: seq<Pair>) returns (ghost b: string)
    requires forall p :: p in pairs ==> PairOk(p)
    requires forall k :: 0 <= k < |path| ==> path[k] != '?' && path[k] != '#' && path[k] != NUL
    requires q.Valid() && Placed(q.buf[..], 0, UrlOf(path, pairs))
    modifies q, q.buf
    ensures q.Valid() && b == q.buf[..] && |q.pairs| == |Taken(pairs)|
    ensures forall k :: 0 <= k < |Taken(pairs)| ==>
              PairOk(pairs[k]) && q.pairs[k] < |b| && Placed(b, q.pairs[k], Cooked(PairText(pairs[k])))
  {
    hide PairOk, PlainName, Segments, QueryOf, CString, Cooked, Matches, PairText, ValuesOf;
    ghost var url := UrlOf(path, pairs);
    UrlSpan(path, pairs);
    q.QsParse(MAX_KEY_VALUE_PAIRS_COUNT, true, url);
    b := q.buf[..];
    if pairs != [] {
      QuerySegments(pairs, MAX_KEY_VALUE_PAIRS_COUNT);
      ghost var segments := Segments(QueryOf(pairs), MAX_KEY_VALUE_PAIRS_COUNT);
      forall k | 0 <= k < |Taken(pairs)|
        ensures PairOk(pairs[k]) && Placed(b, q.pairs[k], Cooked(PairText(pairs[k]))) && q.pairs[k] < |b|
      {
        assert Placed(b, q.pairs[k], Cooked(segments[k]));
      }
    }
  }

  /** A url with encoded pairs, if any, after the question mark: `get` gives the first value of a name, and `get_list` all
      of them in order, among the first 256 pairs. */
  method ReadPairs(path: string, pairs: seq<Pair>, name: string) returns (q: QueryString, first: Option<nat>, list: seq<nat>)
    requires (forall p :: p in pairs ==> PairOk(p)) && PlainName(name)
    requires forall k :: 0 <= k < |path| ==> path[k] != '?' && path[k] != '#' && path[k] != NUL
    ensures var values := ValuesOf(Taken(pairs), name);
            && (first.None? <==> values == [])
            && (first.Some? ==> first.value <= q.buf.Length && CString(q.buf[first.value..]) == values[0])
            && |list| == |values|
            && forall i :: 0 <= i < |list| ==> list[i] <= q.buf.Length && CString(q.buf[list[i]..]) == values[i]
  {
    hide PairOk, PlainName, Segments, QueryOf, CString, Cooked, Matches, PairText, ValuesOf;
    q := new QueryString(UrlOf(path, pairs));
    ghost var b := ParsePairs(q, path, pairs);
    MatchesAre(b, q.pairs, Taken(pairs), name);
    first := q.Get(name);
    list := q.GetList(name);
    assert forall i :: 0 <= i <= |b| ==> b[i..] == q.buf[i..];
  }

  lemma TakenEncoded(pairs: seq<Pair>)
    requires AllText(pairs)
    ensures AllText(Taken(pairs)) && Taken(EncodedPairs(pairs)) == EncodedPairs(Taken(pairs))
  {
    hide Encode, IsText;
  }

  /** Any pairs of NUL-free byte strings, percent-encoded into a url, come back as they were. */
  method ReadEncoded(path: string, pairs: seq<Pair>, name: string)
    returns (q: QueryString, first: Option<nat>, list: seq<nat>)
    requires AllText(pairs) && PlainName(name)
    requires forall k :: 0 <= k < |path| ==> path[k] != '?' && path[k] != '#' && path[k] != NUL
    ensures var values := ValuesUnder(Taken(pairs), name);
            && (first.None? <==> values == [])
            && (first.Some? ==> first.value <= q.buf.Length && CString(q.buf[first.value..]) == values[0])
            && |list| == |values|
            && forall i :: 0 <= i < |list| ==> list[i] <= q.buf.Length && CString(q.buf[list[i]..]) == values[i]
  {
    hide PairOk, PlainName, CString, ValuesOf, ValuesUnder, EncodedPairs, AllText;
    EncodedOk(pairs);
    TakenEncoded(pairs);
    EncodedValues(Taken(pairs), name);
    q, first, list := ReadPairs(path, EncodedPairs(pairs), name);
  }
}
