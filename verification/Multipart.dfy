/** The multipart message: `dump`, `parse_body`, and reading back what was written. */
module Multipart {
  import opened Wrappers
  import opened MultipartText

  // ---------------------------------------------------------------------------------------------
  // The methods

  /** `dump` */
  method DumpMessage(parts: seq<Part>, boundary: string) returns (str: string)
    ensures str == Dump(parts, boundary)
  {
    hide DumpPart, DumpParts;
    var delimiter := Delimiter(boundary);
    str := "";
    var i := 0;
    assert parts[0..] == parts && "" + DumpParts(parts, delimiter) == DumpParts(parts, delimiter);
    while i < |parts|
      invariant i <= |parts| && str + DumpParts(parts[i..], delimiter) == DumpParts(parts, delimiter)
    {
      PartsStep(parts, i, delimiter);
      assert str + (delimiter + CRLF + DumpPart(parts[i]) + DumpParts(parts[i + 1..], delimiter))
          == str + delimiter + CRLF + DumpPart(parts[i]) + DumpParts(parts[i + 1..], delimiter);
      str := str + delimiter + CRLF + DumpPart(parts[i]);
      i := i + 1;
    }
    PartsEnd(delimiter);
    assert parts[i..] == [];
    assert str + (delimiter + "--" + CRLF) == str + delimiter + "--" + CRLF;
    str := str + delimiter + "--" + CRLF;
  }

  lemma PartsStep(parts: seq<Part>, i: nat, delimiter: string)
    requires i < |parts|
    ensures DumpParts(parts[i..], delimiter)
         == delimiter + CRLF + DumpPart(parts[i]) + DumpParts(parts[i + 1..], delimiter)
  {
    hide DumpPart;
    assert parts[i..][1..] == parts[i + 1..];
  }

  lemma PartsEnd(delimiter: string)
    ensures DumpParts([], delimiter) == delimiter + "--" + CRLF
  {
  }

  /** The constructor's loop over the parts: each is entered into the map under its name. */
  method MapParts(parts: seq<Part>) returns (partMap: Option<seq<Entry>>)
    ensures partMap == if AllNamed(parts) then Some(Entries(parts)) else None
  {
    var done: seq<Entry> := [];
    var i := 0;
    while i < |parts|
      invariant i <= |parts| && AllNamed(parts[..i]) && done == Entries(parts[..i])
    {
      if !Named(parts[i]) {
        assert parts[i] in parts;
        return None;
      }
      EntriesMore(parts[..i], parts[i]);
      assert parts[..i] + [parts[i]] == parts[..i + 1];
      done := done + [Entry(NameOf(parts[i]).value, parts[i])];
      i := i + 1;
    }
    assert parts[..i] == parts;
    return Some(done);
  }

  lemma {:induction false} EntriesMore(parts: seq<Part>, p: Part)
    requires AllNamed(parts) && Named(p)
    ensures AllNamed(parts + [p]) && Entries(parts + [p]) == Entries(parts) + [Entry(NameOf(p).value, p)]
    decreases |parts|
  {
    hide Named, NameOf;
    if parts == [] {
      assert parts + [p] == [p];
    } else {
      EntriesMore(parts[1..], p);
      assert (parts + [p])[1..] == parts[1..] + [p];
    }
  }

  /** `parse_body` */
  method ParseMessage(text: string, boundary: string) returns (r: Reading)
    ensures r == ParseBody(text, Delimiter(boundary), [], [])
  {
    hide Find, ParseSection, ParseBody, NameOf;
    var delimiter := Delimiter(boundary);
    var body := text;
    var sections: seq<Part> := [];
    var partMap: seq<Entry> := [];
    while body != CRLF
      invariant ParseBody(text, delimiter, [], []) == ParseBody(body, delimiter, sections, partMap)
      decreases |body|
    {
      BodyStep(body, delimiter, sections, partMap);
      var found := Find(body, delimiter);
      if found.None? { return Read(sections, partMap); }
      var section := body[..found.value];
      body := Erased(body, found.value + |delimiter| + 2);
      if section != "" {
        var p := ParsePart(section);
        if p.None? { return Thrown; }
        if !Named(p.value) { return PastEnd; }
        partMap := partMap + [Entry(NameOf(p.value).value, p.value)];
        sections := sections + [p.value];
      }
    }
    BodyEnd(delimiter, sections, partMap);
    return Read(sections, partMap);
  }

  lemma BodyEnd(delimiter: string, sofar: seq<Part>, entries: seq<Entry>)
    requires delimiter != ""
    ensures ParseBody(CRLF, delimiter, sofar, entries) == Read(sofar, entries)
  {
  }

  lemma BodyStep(body: string, delimiter: string, sofar: seq<Part>, entries: seq<Entry>)
    requires delimiter != "" && body != CRLF
    ensures var f := Find(body, delimiter);
            && (f.None? ==> ParseBody(body, delimiter, sofar, entries) == Read(sofar, entries))
            && (f.Some? ==>
                  && f.value + |delimiter| <= |body|
                  && var section := body[..f.value];
                     var rest := Erased(body, f.value + |delimiter| + 2);
                     var p := ParseSection(section);
                     ParseBody(body, delimiter, sofar, entries) ==
                     if section == "" then ParseBody(rest, delimiter, sofar, entries)
                     else if p.None? then Thrown
                     else if !Named(p.value) then PastEnd
                     else ParseBody(rest, delimiter, sofar + [p.value], entries + [Entry(NameOf(p.value).value, p.value)]))
  {
    hide ParseSection, Erased, NameOf;
    var f := Find(body, delimiter);
    assert f.Some? ==> At(body, delimiter, f.value);
  }

  /** `parse_section` */
  method ParsePart(text: string) returns (p: Option<Part>)
    ensures p == ParseSection(text)
  {
    hide Find, ParseHead;
    var section := text;
    var found := Find(section, CRLF + CRLF);
    var head := section[..if found.None? then (if |section| < 1 then 0 else 1) else found.value + 2];
    section := Erased(section, if found.None? then 3 else found.value + 4);
    var headers := ParseSectionHead(head);
    if headers.None? { return None; }
    p := Some(Part(headers.value, if |section| < 2 then section else section[..|section| - 2]));
  }

  /** `parse_section_head` */
  method ParseSectionHead(text: string) returns (headers: Option<seq<Header>>)
    ensures headers == ParseHead(text, [])
  {
    hide Find, ParseLine, NextLines;
    var lines := text;
    var done: seq<Header> := [];
    while lines != ""
      invariant ParseHead(text, []) == ParseHead(lines, done)
      decreases |lines|
    {
      var line := Before(lines, CRLF);
      lines := NextLines(lines);
      var h := ParseHeader(line);
      if h.None? { return None; }
      done := done + [h.value];
    }
    return Some(done);
  }

  /** One line of the head: the header up to the first semicolon, then its parameters. */
  method ParseHeader(text: string) returns (h: Option<Header>)
    ensures h == ParseLine(text)
  {
    hide Find, ParseParam, Emplaced, Before, Behind;
    var line := text;
    if line == "" { return Some(Header("", "", [])); }
    var header := Before(line, "; ");
    line := Behind(line, "; ");
    var split := Find(header, ": ");
    if split.None? && header == "" { return None; }
    var key := if split.None? then header else header[..split.value];
    var value := if split.None? then header[1..] else header[split.value + 2..];
    var params: seq<Param> := [];
    ghost var rest := line;
    while line != ""
      invariant ParseParams(rest, []) == ParseParams(line, params)
      decreases |line|
    {
      var param := Before(line, "; ");
      line := Behind(line, "; ");
      params := Emplaced(params, ParseParam(param));
    }
    return Some(Header(key, value, params));
  }

  // ---------------------------------------------------------------------------------------------
  // The first place of a pattern

  /** The pattern occurs nowhere in the text. */
  ghost predicate Free(s: string, pat: string) {
    forall k: nat :: !At(s, pat, k)
  }

  lemma FindIs(s: string, pat: string, k: nat)
    requires pat != "" && At(s, pat, k) && forall j: nat :: j < k ==> !At(s, pat, j)
    ensures Find(s, pat) == Some(k)
  {
    var f := Find(s, pat);
    assert f.None? ==> !At(s, pat, k);
    assert f.Some? ==> f.value == k;
  }

  /** A pattern of two different characters that a text is free of stands first where it is put behind the text. */
  lemma FindPair(a: string, pat: string, rest: string)
    requires |pat| == 2 && pat[0] != pat[1] && Free(a, pat)
    ensures Find(a + pat + rest, pat) == Some(|a|)
  {
    var s := a + pat + rest;
    assert s[|a|..|a| + 2] == pat;
    forall j: nat | j < |a| ensures !At(s, pat, j) {
      if j + 2 <= |a| {
        assert s[j..j + 2] == a[j..j + 2];
        assert !At(a, pat, j);
      } else {
        assert s[j..j + 2][1] == s[j + 1] == pat[0];
      }
    }
    FindIs(s, pat, |a|);
  }

  /** A pattern that begins with a character which neither the text nor the rest of the pattern has. */
  lemma FindOne(a: string, pat: string, rest: string)
    requires pat != "" && pat[0] !in a
    ensures Find(a + pat + rest, pat) == Some(|a|)
  {
    var s := a + pat + rest;
    assert s[|a|..|a| + |pat|] == pat;
    forall j: nat | j < |a| ensures !At(s, pat, j) {
      if j + |pat| <= |s| { assert s[j..j + |pat|][0] == s[j] == a[j]; }
    }
    FindIs(s, pat, |a|);
  }

  /** A pattern without the text's last character cannot begin inside the text and end behind it. */
  lemma FindAfter(a: string, pat: string, rest: string)
    requires pat != "" && a != "" && Free(a, pat) && a[|a| - 1] !in pat
    ensures Find(a + pat + rest, pat) == Some(|a|)
  {
    var s := a + pat + rest;
    assert s[|a|..|a| + |pat|] == pat;
    forall j: nat | j < |a| ensures !At(s, pat, j) {
      if j + |pat| <= |a| {
        assert s[j..j + |pat|] == a[j..j + |pat|];
        assert !At(a, pat, j);
      } else if j + |pat| <= |s| {
        assert s[j..j + |pat|][|a| - 1 - j] == s[|a| - 1] == a[|a| - 1];
      }
    }
    FindIs(s, pat, |a|);
  }

  lemma FindNone(s: string, pat: string)
    requires pat != "" && Free(s, pat)
    ensures Find(s, pat) == None
  {
  }

  // ---------------------------------------------------------------------------------------------
  // Texts that can be written down

  predicate OneLine(s: string) {
    '\r' !in s && '\n' !in s
  }

  ghost predicate ParamOk(p: Param) {
    OneLine(p.name) && OneLine(p.value) && '=' !in p.name && Free(p.name, "; ") && Free(p.value, "; ")
  }

  ghost predicate HeaderOk(h: Header) {
    && OneLine(h.key) && OneLine(h.value)
    && Free(h.key, ": ") && Free(h.key, "; ") && Free(h.value, "; ")
    && (forall p :: p in h.params ==> ParamOk(p))
    && (forall i, k :: 0 <= i < k < |h.params| ==> h.params[i].name != h.params[k].name)
  }

  /** At least one header, no separator inside the texts, and the delimiter nowhere in the part. */
  ghost predicate PartOk(p: Part, delimiter: string) {
    p.headers != [] && (forall h :: h in p.headers ==> HeaderOk(h)) && Free(DumpPart(p), delimiter)
  }

  predicate NoPair(s: string, c: char, d: char) {
    forall k :: 0 <= k < |s| - 1 ==> !(s[k] == c && s[k + 1] == d)
  }

  lemma FreePair(s: string, pat: string)
    requires |pat| == 2
    ensures Free(s, pat) <==> NoPair(s, pat[0], pat[1])
  {
    if Free(s, pat) {
      forall k | 0 <= k < |s| - 1 ensures !(s[k] == pat[0] && s[k + 1] == pat[1]) {
        assert !At(s, pat, k);
        assert s[k..k + 2] == [s[k], s[k + 1]];
      }
    }
    if NoPair(s, pat[0], pat[1]) {
      forall k: nat ensures !At(s, pat, k) {
        if k + 2 <= |s| { assert s[k..k + 2] == [s[k], s[k + 1]]; }
      }
    }
  }

  // ---------------------------------------------------------------------------------------------
  // Parameters

  function ParamText(p: Param): string {
    p.name + "=" + Padded(p.value)
  }

  /** Texts with a semicolon and a blank between them. */
  function ListText(ts: seq<string>): string
    requires ts != []
  {
    if |ts| == 1 then ts[0] else ts[0] + "; " + ListText(ts[1..])
  }

  function TextsOf(params: seq<Param>): (ts: seq<string>)
    ensures |ts| == |params|
  {
    seq(|params|, k requires 0 <= k < |params| => ParamText(params[k]))
  }

  lemma {:induction false} DumpParamsText(params: seq<Param>)
    requires params != []
    ensures DumpParams(params) == "; " + ListText(TextsOf(params))
    decreases |params|
  {
    hide ParamText;
    if |params| == 1 {
      assert params[1..] == [];
      ParamIs(params[0], "");
    } else {
      DumpParamsText(params[1..]);
      assert TextsOf(params)[1..] == TextsOf(params[1..]);
      ParamIs(params[0], "; " + ListText(TextsOf(params[1..])));
    }
  }

  lemma ParamIs(p: Param, rest: string)
    ensures "; " + p.name + "=" + Padded(p.value) + rest == "; " + (ParamText(p) + rest)
  {
  }

  lemma ParamFree(p: Param)
    requires ParamOk(p)
    ensures Free(ParamText(p), "; ") && ParamText(p) != ""
  {
    FreePair(p.name, "; ");
    FreePair(p.value, "; ");
    FreePair(ParamText(p), "; ");
  }

  /** A text that is not between quotes. */
  predicate Bare(v: string) {
    |v| < 2 || v[0] != '"' || v[|v| - 1] != '"'
  }

  /** The ways to spell a parameter: with a value between quotes or without them, or by a value alone. */
  predicate Spells(t: string, p: Param) {
    && '=' !in p.name
    && (t == p.name + "=" + Padded(p.value)
        || (t == p.name + "=" + p.value && Bare(p.value))
        || (t == p.name && (t == Padded(p.value) || (t == p.value && Bare(t)))))
  }

  /** The quotes around a value are taken off, and nothing else is. */
  lemma ParamParsed(t: string, p: Param)
    requires Spells(t, p)
    ensures ParseParam(t) == p
  {
    Unquoted(p.value);
    if t == p.name {
      NoneOf(t);
      FindNone(t, "=");
    } else {
      var v := if t == p.name + "=" + Padded(p.value) then Padded(p.value) else p.value;
      FindOne(p.name, "=", v);
      assert t[|p.name| + 1..] == v && t[..|p.name|] == p.name;
    }
  }

  lemma Unquoted(v: string)
    ensures Trimmed(Padded(v)) == v && (Bare(v) ==> Trimmed(v) == v)
  {
    assert Padded(v)[1..|Padded(v)| - 1] == v;
  }

  lemma NoneOf(t: string)
    requires '=' !in t
    ensures Free(t, "=")
  {
    forall k: nat ensures !At(t, "=", k) {
      if k + 1 <= |t| { assert t[k..k + 1][0] == t[k]; }
    }
  }

  lemma SplitAt(a: string, pat: string, rest: string)
    requires |pat| == 2 && pat[0] != pat[1] && Free(a, pat)
    ensures Before(a + pat + rest, pat) == a && Behind(a + pat + rest, pat) == rest
  {
    FindPair(a, pat, rest);
    assert (a + pat + rest)[|a| + 2..] == rest;
  }

  lemma NoSplit(a: string, pat: string)
    requires pat != "" && Free(a, pat)
    ensures Before(a, pat) == a && Behind(a, pat) == ""
  {
    FindNone(a, pat);
  }

  predicate Names(params: seq<Param>, name: string) {
    exists k :: 0 <= k < |params| && params[k].name == name
  }

  /** The parameters whose name has not come before. */
  function Firsts(params: seq<Param>): seq<Param> {
    if params == [] then []
    else
      var n := |params| - 1;
      Firsts(params[..n]) + if Names(params[..n], params[n].name) then [] else [params[n]]
  }

  lemma {:induction false} FirstsNames(params: seq<Param>, name: string)
    ensures (exists q :: q in Firsts(params) && q.name == name) <==> Names(params, name)
    decreases |params|
  {
    if params != [] {
      var n := |params| - 1;
      FirstsNames(params[..n], name);
      FirstsNames(params[..n], params[n].name);
      NamesMore(params, name);
    }
  }

  lemma NamesMore(params: seq<Param>, name: string)
    requires params != []
    ensures Names(params, name) <==> Names(params[..|params| - 1], name) || params[|params| - 1].name == name
  {
    var n := |params| - 1;
    if Names(params[..n], name) {
      var k :| 0 <= k < |params[..n]| && params[..n][k].name == name;
      assert params[k].name == name;
    }
    if Names(params, name) {
      var k :| 0 <= k < |params| && params[k].name == name;
      if k < n { assert params[..n][k].name == name; }
    }
  }

  lemma EmplacedFirst(params: seq<Param>, p: Param)
    ensures Emplaced(Firsts(params), p) == Firsts(params + [p])
  {
    FirstsNames(params, p.name);
    assert (params + [p])[..|params|] == params;
  }

  lemma {:induction false} FirstsDistinct(params: seq<Param>)
    requires forall i, k :: 0 <= i < k < |params| ==> params[i].name != params[k].name
    ensures Firsts(params) == params
    decreases |params|
  {
    if params != [] {
      var n := |params| - 1;
      FirstsDistinct(params[..n]);
      assert params == params[..n] + [params[n]];
    }
  }

  ghost predicate Listed(ts: seq<string>, params: seq<Param>) {
    |ts| == |params| && forall k :: 0 <= k < |ts| ==> ts[k] != "" && Free(ts[k], "; ") && Spells(ts[k], params[k])
  }

  /** However its parameters are spelled, a list of them is read as what they are; of those with the same name,
      the first counts. */
  lemma {:induction false} ParamsParsed(ts: seq<string>, done: seq<Param>, params: seq<Param>)
    requires ts != [] && Listed(ts, params)
    ensures ParseParams(ListText(ts), Firsts(done)) == Firsts(done + params)
    decreases |ts|
  {
    hide Spells, ParseParam, Before, Behind, Emplaced, Firsts;
    var p, t := params[0], ts[0];
    assert t != "" && Free(t, "; ") && Spells(t, p);
    ParamParsed(t, p);
    EmplacedFirst(done, p);
    if |ts| == 1 {
      NoSplit(t, "; ");
      NothingMore(Firsts(done + [p]));
      assert [p] == params;
    } else {
      SplitAt(t, "; ", ListText(ts[1..]));
      assert done + [p] + params[1..] == done + params;
      ParamsParsed(ts[1..], done + [p], params[1..]);
    }
  }

  lemma NothingMore(sofar: seq<Param>)
    ensures ParseParams("", sofar) == sofar
  {
  }

  // ---------------------------------------------------------------------------------------------
  // Headers

  lemma HeaderParsed(h: Header)
    requires HeaderOk(h)
    ensures DumpHeader(h) != "" && ParseLine(DumpHeader(h)) == Some(h)
  {
    hide Find, ParseParams, Before, Behind, DumpParams, ListText, Spells, ParamOk, TextsOf, Firsts, ParseLine;
    var text := h.key + ": " + h.value;
    if h.params == [] {
      PlainLine(h);
      NoParams();
      assert DumpHeader(h) == text;
    } else {
      DumpParamsText(h.params);
      assert DumpHeader(h) == text + "; " + ListText(TextsOf(h.params));
      OwnTexts(h.params);
      FirstsDistinct(h.params);
      HeaderSpelled(h, TextsOf(h.params), h.params);
    }
  }

  lemma PlainLine(h: Header)
    requires Free(h.key, ": ") && Free(h.key, "; ") && Free(h.value, "; ") && h.params == []
    ensures ParseLine(h.key + ": " + h.value) == Some(h)
  {
    hide Find, ParseParams, Before, Behind;
    var text := h.key + ": " + h.value;
    TextFree(h);
    FindPair(h.key, ": ", h.value);
    assert text[|h.key| + 2..] == h.value && text[..|h.key|] == h.key;
    NoSplit(text, "; ");
    NoParams();
  }

  /** A header line with its parameters spelled in any of the ways. */
  lemma HeaderSpelled(h: Header, ts: seq<string>, params: seq<Param>)
    requires Free(h.key, ": ") && Free(h.key, "; ") && Free(h.value, "; ") && ts != [] && Listed(ts, params)
    requires h.params == Firsts(params)
    ensures ParseLine(h.key + ": " + h.value + "; " + ListText(ts)) == Some(h)
  {
    hide Find, ParseParams, Before, Behind, ListText, Listed, Firsts;
    var text := h.key + ": " + h.value;
    TextFree(h);
    FindPair(h.key, ": ", h.value);
    assert text[|h.key| + 2..] == h.value && text[..|h.key|] == h.key;
    SplitAt(text, "; ", ListText(ts));
    assert [] + params == params;
    assert Firsts([]) == [] by { NoFirsts(); }
    ParamsParsed(ts, [], params);
  }

  lemma NoFirsts()
    ensures Firsts([]) == []
  {
  }

  lemma OwnTexts(params: seq<Param>)
    requires forall p :: p in params ==> ParamOk(p)
    ensures Listed(TextsOf(params), params)
  {
    hide ParamOk, Free;
    forall k | 0 <= k < |params| ensures ParamText(params[k]) != "" && Free(ParamText(params[k]), "; ")
                                         && Spells(ParamText(params[k]), params[k]) {
      var p := params[k];
      assert p in params;
      ParamFree(p);
      assert '=' !in p.name by { NoEquals(p); }
    }
  }

  lemma NoEquals(p: Param)
    requires ParamOk(p)
    ensures '=' !in p.name
  {
  }

  lemma NoParams()
    ensures DumpParams([]) == "" && ParseParams("", []) == []
  {
  }

  lemma TextFree(h: Header)
    requires Free(h.key, "; ") && Free(h.value, "; ")
    ensures Free(h.key + ": " + h.value, "; ")
  {
    FreePair(h.key, "; ");
    FreePair(h.value, "; ");
    FreePair(h.key + ": " + h.value, "; ");
  }

  lemma {:induction false} ParamsOneLine(params: seq<Param>)
    requires forall p :: p in params ==> ParamOk(p)
    ensures OneLine(DumpParams(params))
    decreases |params|
  {
    hide OneLine;
    if params == [] {
      Joined("", "");
    } else {
      ParamsOneLine(params[1..]);
      var p := params[0];
      Joined("\"", p.value);
      Joined("\"" + p.value, "\"");
      Joined("; ", p.name);
      Joined("; " + p.name, "=");
      Joined("; " + p.name + "=", Padded(p.value));
      Joined("; " + p.name + "=" + Padded(p.value), DumpParams(params[1..]));
      Marks();
      assert ParamOk(p);
    }
  }

  lemma Joined(a: string, b: string)
    ensures OneLine(a + b) <==> OneLine(a) && OneLine(b)
    ensures OneLine("")
  {
    forall c: char ensures c in a + b <==> c in a || c in b { }
  }

  lemma Marks()
    ensures OneLine("; ") && OneLine("=") && OneLine("\"") && OneLine(": ")
  {
  }

  lemma HeaderOneLine(h: Header)
    requires HeaderOk(h)
    ensures OneLine(DumpHeader(h)) && DumpHeader(h) != ""
  {
    hide DumpParams, OneLine;
    ParamsOneLine(h.params);
    Joined(h.key, ": ");
    Joined(h.key + ": ", h.value);
    Joined(h.key + ": " + h.value, DumpParams(h.params));
    Marks();
  }

  lemma {:induction false} HeadersParsed(headers: seq<Header>, sofar: seq<Header>)
    requires forall h :: h in headers ==> HeaderOk(h)
    ensures ParseHead(DumpHeaders(headers), sofar) == Some(sofar + headers)
    decreases |headers|
  {
    hide DumpHeader, HeaderOk, ParseHead;
    if headers == [] {
      NothingParsed(sofar);
      assert sofar + headers == sofar;
    } else {
      var h := headers[0];
      HeaderOneLine(h);
      HeaderParsed(h);
      LineParsed(DumpHeader(h), DumpHeaders(headers[1..]), sofar, h);
      HeadersParsed(headers[1..], sofar + [h]);
      assert sofar + [h] + headers[1..] == sofar + headers;
    }
  }

  lemma NothingParsed(sofar: seq<Header>)
    ensures ParseHead("", sofar) == Some(sofar)
  {
  }

  lemma LineParsed(line: string, rest: string, sofar: seq<Header>, h: Header)
    requires OneLine(line) && ParseLine(line) == Some(h)
    ensures ParseHead(line + CRLF + rest, sofar) == ParseHead(rest, sofar + [h])
  {
    hide ParseLine, Find;
    var s := line + CRLF + rest;
    FindOne(line, CRLF, rest);
    assert s[|line| + 2..] == rest && s[..|line|] == line;
    assert Before(s, CRLF) == line && NextLines(s) == rest;
  }

  // ---------------------------------------------------------------------------------------------
  // Sections

  const BLANK: string := CRLF + CRLF

  /** The head ends at the first blank line. */
  lemma {:induction false} HeadEnds(headers: seq<Header>, rest: string)
    requires headers != [] && forall h :: h in headers ==> HeaderOk(h)
    ensures |DumpHeaders(headers)| >= 2
    ensures Find(DumpHeaders(headers) + CRLF + rest, BLANK) == Some(|DumpHeaders(headers)| - 2)
    decreases |headers|
  {
    hide DumpHeader, HeaderOk, Find, DumpHeaders, OneLine;
    var line, behind := DumpHeader(headers[0]), DumpHeaders(headers[1..]);
    HeaderOneLine(headers[0]);
    HeadersAre(headers);
    if |headers| == 1 {
      FindBlank(line, rest);
      assert DumpHeaders(headers) + CRLF + rest == line + BLANK + rest;
    } else {
      HeaderOneLine(headers[1]);
      HeadersAre(headers[1..]);
      HeadEnds(headers[1..], rest);
      LineBefore(line, DumpHeader(headers[1]), behind, rest);
      assert DumpHeaders(headers) + CRLF + rest == line + CRLF + (behind + CRLF + rest);
    }
  }

  /** One line more before a head. */
  lemma LineBefore(line: string, next: string, behind: string, rest: string)
    requires OneLine(line) && OneLine(next) && next != "" && next <= behind && |behind| >= 2
    requires Find(behind + CRLF + rest, BLANK) == Some(|behind| - 2)
    ensures Find(line + CRLF + (behind + CRLF + rest), BLANK) == Some(|line| + |behind|)
  {
    hide Find, OneLine, At;
    var more := behind + CRLF + rest;
    FirstNoReturn(next, more);
    FindTells(more, BLANK, |behind| - 2);
    AfterLine(line, more, |behind| - 2);
  }

  lemma HeadersAre(headers: seq<Header>)
    requires headers != []
    ensures DumpHeaders(headers) == DumpHeader(headers[0]) + CRLF + DumpHeaders(headers[1..])
    ensures |headers| == 1 ==> DumpHeaders(headers[1..]) == ""
  {
    hide DumpHeader;
  }

  lemma FindBlank(line: string, rest: string)
    requires OneLine(line)
    ensures Find(line + BLANK + rest, BLANK) == Some(|line|)
  {
    FindOne(line, BLANK, rest);
  }

  lemma FirstNoReturn(line: string, more: string)
    requires OneLine(line) && line != "" && line <= more
    ensures more[0] != '\r'
  {
    assert more[0] == line[0];
  }

  lemma AfterLine(line: string, more: string, f: nat)
    requires OneLine(line) && more != "" && more[0] != '\r'
    requires At(more, BLANK, f) && forall k: nat :: k < f ==> !At(more, BLANK, k)
    ensures Find(line + CRLF + more, BLANK) == Some(|line| + 2 + f)
  {
    hide At, Find;
    Shifted(line, more, f);
    forall j: nat | j < |line| + 2 + f ensures !At(line + CRLF + more, BLANK, j) { NotBefore(line, more, f, j); }
    FindIs(line + CRLF + more, BLANK, |line| + 2 + f);
  }

  lemma FindTells(s: string, pat: string, k: nat)
    requires pat != "" && Find(s, pat) == Some(k)
    ensures At(s, pat, k) && forall j: nat :: j < k ==> !At(s, pat, j)
  {
  }

  lemma NotBefore(line: string, more: string, f: nat, j: nat)
    requires OneLine(line) && more != "" && more[0] != '\r' && j < |line| + 2 + f
    requires forall k: nat :: k < f ==> !At(more, BLANK, k)
    ensures !At(line + CRLF + more, BLANK, j)
  {
    hide At;
    if j >= |line| + 2 {
      Shifted(line, more, j - |line| - 2);
    } else {
      NotYet(line, more, j);
    }
  }

  lemma Shifted(line: string, more: string, i: nat)
    ensures At(line + CRLF + more, BLANK, |line| + 2 + i) <==> At(more, BLANK, i)
  {
    var s, k := line + CRLF + more, |line| + 2 + i;
    if k + 4 <= |s| { assert s[k..k + 4] == more[i..i + 4]; }
  }

  /** A blank line begins neither inside a line nor with its end, as the next line is not empty. */
  lemma NotYet(line: string, more: string, j: nat)
    requires OneLine(line) && more != "" && more[0] != '\r' && j < |line| + 2
    ensures !At(line + CRLF + more, BLANK, j)
  {
    var s := line + CRLF + more;
    if j + 4 <= |s| {
      var four := s[j..j + 4];
      assert four[0] == s[j] && four[2] == s[j + 2];
      if j < |line| {
        assert s[j] == line[j];
      } else if j == |line| {
        assert s[j + 2] == more[0];
      } else {
        assert s[j] == '\n';
      }
    }
  }

  lemma PartParsed(p: Part)
    requires p.headers != [] && forall h :: h in p.headers ==> HeaderOk(h)
    ensures ParseSection(DumpPart(p)) == Some(p)
  {
    hide DumpHeaders, HeaderOk, Find, ParseHead;
    var head := DumpHeaders(p.headers);
    var s := DumpPart(p);
    HeadEnds(p.headers, p.body + CRLF);
    assert s == head + CRLF + (p.body + CRLF);
    HeadersParsed(p.headers, []);
    assert s[..|head|] == head;
    assert Erased(s, |head| + 2) == p.body + CRLF;
    assert (p.body + CRLF)[..|p.body|] == p.body;
    assert [] + p.headers == p.headers;
  }

  // ---------------------------------------------------------------------------------------------
  // The round trip

  /** A section up to its delimiter, and the sections after it. */
  lemma {:induction false} SectionsParsed(parts: seq<Part>, delimiter: string, sofar: seq<Part>, entries: seq<Entry>)
    requires parts != [] && '\n' !in delimiter && delimiter != "" && forall p :: p in parts ==> PartOk(p, delimiter)
    ensures ParseBody(DumpPart(parts[0]) + DumpParts(parts[1..], delimiter), delimiter, sofar, entries)
         == if AllNamed(parts) then Read(sofar + parts, entries + Entries(parts)) else PastEnd
    decreases |parts|
  {
    hide DumpPart, ParseSection, ParseBody, PartOk, DumpParts, NameOf;
    var p, section := parts[0], DumpPart(parts[0]);
    PartOf(p, delimiter);
    RestIs(parts, delimiter);
    var two, after :=
      if |parts| == 1 then "--" else CRLF,
      if |parts| == 1 then CRLF else DumpPart(parts[1]) + DumpParts(parts[2..], delimiter);
    SectionStep(section, delimiter, two, after, sofar, entries, p);
    if Named(p) {
      var sofar', entries' := sofar + [p], entries + [Entry(NameOf(p).value, p)];
      if |parts| == 1 {
        BodyEnd(delimiter, sofar', entries');
        assert [p] == parts;
      } else {
        assert parts[1..][1..] == parts[2..];
        SectionsParsed(parts[1..], delimiter, sofar', entries');
        assert sofar' + parts[1..] == sofar + parts;
        assert AllNamed(parts) <==> AllNamed(parts[1..]);
      }
    }
  }

  lemma SectionStep(section: string, delimiter: string, two: string, after: string, sofar: seq<Part>,
                    entries: seq<Entry>, p: Part)
    requires |two| == 2 && delimiter != "" && '\n' !in delimiter
    requires |section| >= 4 && section[|section| - 1] == '\n' && Free(section, delimiter) && ParseSection(section) == Some(p)
    ensures ParseBody(section + (delimiter + (two + after)), delimiter, sofar, entries)
         == if Named(p) then ParseBody(after, delimiter, sofar + [p], entries + [Entry(NameOf(p).value, p)]) else PastEnd
  {
    hide ParseSection, ParseBody, Find, Free, NameOf;
    var body := section + (delimiter + (two + after));
    FindAfter(section, delimiter, two + after);
    assert body == section + delimiter + (two + after);
    BodyStep(body, delimiter, sofar, entries);
    assert body[..|section|] == section;
    assert body[|section| + |delimiter| + 2..] == after;
  }

  lemma RestIs(parts: seq<Part>, delimiter: string)
    requires parts != []
    ensures |parts| == 1 ==> DumpParts(parts[1..], delimiter) == delimiter + ("--" + CRLF)
    ensures |parts| > 1 ==>
              DumpParts(parts[1..], delimiter)
              == delimiter + (CRLF + (DumpPart(parts[1]) + DumpParts(parts[2..], delimiter)))
  {
    hide DumpPart;
    if |parts| == 1 {
      PartsEnd(delimiter);
      assert parts[1..] == [];
    } else {
      PartsStep(parts, 1, delimiter);
    }
  }

  lemma PartOf(p: Part, delimiter: string)
    requires PartOk(p, delimiter)
    ensures Free(DumpPart(p), delimiter) && ParseSection(DumpPart(p)) == Some(p)
    ensures |DumpPart(p)| >= 4 && DumpPart(p)[|DumpPart(p)| - 1] == '\n'
  {
    hide ParseSection, DumpHeaders;
    PartParsed(p);
  }

  /** `parse_body(dump(m))` gives back the parts of `m`, each in the map under its name, if and only if every part
      has a name; otherwise it looks one up behind the end of a map. */
  lemma RoundTrip(parts: seq<Part>, boundary: string)
    requires OneLine(boundary) && forall p :: p in parts ==> PartOk(p, Delimiter(boundary))
    ensures ParseBody(Dump(parts, boundary), Delimiter(boundary), [], [])
         == if AllNamed(parts) then Read(parts, Entries(parts)) else PastEnd
  {
    hide DumpPart, ParseBody, Find, PartOk, DumpParts, NameOf;
    var delimiter := Delimiter(boundary);
    var after := if parts == [] then CRLF else DumpPart(parts[0]) + DumpParts(parts[1..], delimiter);
    var two := if parts == [] then "--" else CRLF;
    var body := Dump(parts, boundary);
    assert body == delimiter + two + after by { DumpIs(parts, delimiter); }
    FirstDelimiter(delimiter, two + after);
    assert body == delimiter + (two + after);
    BodyStep(body, delimiter, [], []);
    assert Erased(body, |delimiter| + 2) == after;
    if parts == [] {
      BodyEnd(delimiter, [], []);
    } else {
      SectionsParsed(parts, delimiter, [], []);
      assert [] + parts == parts;
      if AllNamed(parts) { assert [] + Entries(parts) == Entries(parts); }
    }
  }

  predicate HasName(p: Part, name: string) {
    Named(p) && SameKey(NameOf(p).value, name)
  }

  /** In the message that is read back, `get_part_by_name` gives a part that has the name, in any case of its
      letters, and so the only such part if there is no other; and an empty part where none has it. */
  lemma PartFound(parts: seq<Part>, boundary: string, name: string)
    requires OneLine(boundary) && AllNamed(parts) && forall p :: p in parts ==> PartOk(p, Delimiter(boundary))
    ensures var r := ParseBody(Dump(parts, boundary), Delimiter(boundary), [], []);
            && r.Read?
            && var found := PartByName(r.partMap, name);
               && ((exists p :: p in parts && HasName(p, name)) ==> found in parts && HasName(found, name))
               && ((forall p :: p in parts ==> !HasName(p, name)) ==> found == Part([], ""))
  {
    hide ParseBody, Dump, PartOk, HasName;
    RoundTrip(parts, boundary);
    FoundIn(parts, name);
  }

  /** The same letter, small or capital, or the same character. */
  predicate SameLetter(c: char, d: char) {
    c == d || ('a' <= c <= 'z' && c as int - d as int == 'a' as int - 'A' as int)
    || ('a' <= d <= 'z' && d as int - c as int == 'a' as int - 'A' as int)
  }

  /** Keys are the same if they differ in the case of letters only. */
  lemma SameKeyIs(l: string, r: string)
    ensures SameKey(l, r) <==> |l| == |r| && forall i :: 0 <= i < |l| ==> SameLetter(l[i], r[i])
  {
    if |l| == |r| {
      forall i | 0 <= i < |l| ensures Upper(l[i]) == Upper(r[i]) <==> SameLetter(l[i], r[i]) { SameUpper(l[i], r[i]); }
    }
  }

  lemma SameUpper(c: char, d: char)
    ensures Upper(c) == Upper(d) <==> SameLetter(c, d)
  {
  }

  /** The name of a part is what the first Content-Disposition line says under `name`; the case of the key does not
      matter. */
  lemma NameIs(before: seq<Header>, h: Header, after: seq<Header>, body: string)
    requires SameKey(h.key, "content-disposition") && forall k :: k in before ==> !SameKey(k.key, "content-disposition")
    ensures NameOf(Part(before + [h] + after, body)) == ParamValue(h.params, "name")
    decreases |before|
  {
    hide ParamValue;
    LowerToo(h.key);
    var hs := before + [h] + after;
    if before == [] {
      assert hs[0] == h;
    } else {
      LowerToo(before[0].key);
      assert hs[0] == before[0] && hs[1..] == before[1..] + [h] + after;
      NameIs(before[1..], h, after, body);
    }
  }

  lemma LowerToo(key: string)
    ensures SameKey(key, "Content-Disposition") <==> SameKey(key, "content-disposition")
  {
    assert Upper('C') == Upper('c') && Upper('D') == Upper('d');
    assert forall i :: 0 <= i < 19 ==> Upper("Content-Disposition"[i]) == Upper("content-disposition"[i]);
  }

  /** A message begins with its boundary and ends with it, between two hyphens and two more. */
  lemma DumpFrame(parts: seq<Part>, boundary: string)
    ensures "--" + boundary <= Dump(parts, boundary)
    ensures var last := "--" + boundary + "--\r\n"; var n := |Dump(parts, boundary)| - |last|;
            n >= 0 && Dump(parts, boundary)[n..] == last
    decreases |parts|
  {
    hide DumpPart;
    if parts != [] {
      DumpFrame(parts[1..], boundary);
      var first := Delimiter(boundary) + CRLF + DumpPart(parts[0]);
      assert Dump(parts, boundary) == first + Dump(parts[1..], boundary);
      assert Dump(parts, boundary) == "--" + boundary + (CRLF + DumpPart(parts[0]) + Dump(parts[1..], boundary));
    } else {
      assert "--" + CRLF == "--\r\n";
      assert Dump(parts, boundary) == "--" + boundary + ("--" + CRLF);
    }
  }

  lemma {:induction false} FoundIn(parts: seq<Part>, name: string)
    requires AllNamed(parts)
    ensures var found := PartByName(Entries(parts), name);
            && ((exists p :: p in parts && HasName(p, name)) ==> found in parts && HasName(found, name))
            && ((forall p :: p in parts ==> !HasName(p, name)) ==> found == Part([], ""))
    decreases |parts|
  {
    hide NameOf, SameKey;
    if parts != [] {
      FoundIn(parts[1..], name);
      assert Entries(parts)[1..] == Entries(parts[1..]);
      assert forall p :: p in parts <==> p == parts[0] || p in parts[1..];
    }
  }

  lemma DumpIs(parts: seq<Part>, delimiter: string)
    ensures parts == [] ==> DumpParts(parts, delimiter) == delimiter + "--" + CRLF
    ensures parts != [] ==>
              DumpParts(parts, delimiter) == delimiter + CRLF + (DumpPart(parts[0]) + DumpParts(parts[1..], delimiter))
  {
    hide DumpPart;
  }

  lemma FirstDelimiter(delimiter: string, rest: string)
    requires delimiter != "" && delimiter[0] == '-'
    ensures Find(delimiter + rest, delimiter) == Some(0) && delimiter + rest != CRLF
  {
    assert (delimiter + rest)[0] == '-';
    assert (delimiter + rest)[0..0 + |delimiter|] == delimiter;
    FindIs(delimiter + rest, delimiter, 0);
  }
}
