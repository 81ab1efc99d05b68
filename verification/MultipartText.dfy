/** Multipart bodies: what `dump` writes and what the parser makes of a text (section 5.1 of RFC 2046). */
module MultipartText {
  import opened Wrappers

  datatype Param = Param(name: string, value: string)

  /** A header line; the parameters in the order in which they are written or read. */
  datatype Header = Header(key: string, value: string, params: seq<Param>)

  datatype Part = Part(headers: seq<Header>, body: string)

  /** An entry of `part_map`. */
  datatype Entry = Entry(name: string, part: Part)

  /** What becomes of a body: it is read; reading a header throws; or the name of a part is looked up where there
      is none, which reads behind the end of a map. */
  datatype Reading = Read(sections: seq<Part>, partMap: seq<Entry>) | Thrown | PastEnd

  const CRLF: string := "\r\n"

  // ---------------------------------------------------------------------------------------------
  // Searching and cutting

  predicate At(s: string, pat: string, k: nat) {
    k + |pat| <= |s| && s[k..k + |pat|] == pat
  }

  /** `s.find(pat)` */
  function Find(s: string, pat: string): (r: Option<nat>)
    requires pat != ""
    ensures r.Some? ==> At(s, pat, r.value) && forall k: nat :: k < r.value ==> !At(s, pat, k)
    ensures r.None? ==> forall k: nat :: !At(s, pat, k)
  {
    if |s| < |pat| then None
    else if s[..|pat|] == pat then Some(0)
    else
      var r := Find(s[1..], pat);
      Later(s, pat, r);
      if r.None? then None else Some(r.value + 1)
  }

  lemma Later(s: string, pat: string, r: Option<nat>)
    requires pat != "" && |s| >= |pat| && s[..|pat|] != pat
    requires r.Some? ==> At(s[1..], pat, r.value) && forall k: nat :: k < r.value ==> !At(s[1..], pat, k)
    requires r.None? ==> forall k: nat :: !At(s[1..], pat, k)
    ensures r.Some? ==> At(s, pat, r.value + 1) && forall k: nat :: k < r.value + 1 ==> !At(s, pat, k)
    ensures r.None? ==> forall k: nat :: !At(s, pat, k)
  {
    forall k: nat ensures At(s, pat, k) <==> k > 0 && At(s[1..], pat, k - 1) {
      if k > 0 && k + |pat| <= |s| {
        var here, there := s[k..k + |pat|], s[1..][k - 1..k - 1 + |pat|];
        assert forall j :: 0 <= j < |pat| ==> here[j] == there[j];
      } else if k == 0 {
        assert s[0..|pat|] == s[..|pat|];
      }
    }
  }

  /** `s.erase(0, n)` */
  function Erased(s: string, n: nat): (r: string)
    ensures |r| == if n <= |s| then |s| - n else 0
  {
    if n <= |s| then s[n..] else ""
  }

  /** The text before the pattern, and the text behind it; where the pattern is missing, all of the text and
      nothing. */
  function Before(s: string, pat: string): string
    requires pat != ""
  {
    var f := Find(s, pat);
    if f.None? then s else s[..f.value]
  }

  function Behind(s: string, pat: string): (r: string)
    requires pat != ""
    ensures |r| < |s| || r == ""
  {
    var f := Find(s, pat);
    if f.None? then "" else s[f.value + |pat|..]
  }

  // ---------------------------------------------------------------------------------------------
  // Writing

  function Padded(s: string): string {
    "\"" + s + "\""
  }

  function DumpParams(params: seq<Param>): string {
    if params == [] then "" else "; " + params[0].name + "=" + Padded(params[0].value) + DumpParams(params[1..])
  }

  function DumpHeader(h: Header): string {
    h.key + ": " + h.value + DumpParams(h.params)
  }

  function DumpHeaders(headers: seq<Header>): string {
    if headers == [] then "" else DumpHeader(headers[0]) + CRLF + DumpHeaders(headers[1..])
  }

  function DumpPart(p: Part): string {
    DumpHeaders(p.headers) + CRLF + p.body + CRLF
  }

  function DumpParts(parts: seq<Part>, delimiter: string): string {
    if parts == [] then delimiter + "--" + CRLF
    else delimiter + CRLF + DumpPart(parts[0]) + DumpParts(parts[1..], delimiter)
  }

  function Delimiter(boundary: string): string {
    "--" + boundary
  }

  function Dump(parts: seq<Part>, boundary: string): string {
    DumpParts(parts, Delimiter(boundary))
  }

  // ---------------------------------------------------------------------------------------------
  // Looking up

  function Upper(c: char): char {
    if 'a' <= c <= 'z' then (c as int - 32) as char else c
  }

  /** `string_equals`: keys are compared without regard to case. */
  predicate SameKey(l: string, r: string) {
    |l| == |r| && forall i :: 0 <= i < |l| ==> Upper(l[i]) == Upper(r[i])
  }

  /** `get_header_object`: an empty header where there is none with the key. */
  function HeaderObject(headers: seq<Header>, key: string): (h: Header)
    ensures (exists k :: k in headers && SameKey(k.key, key)) ==> h in headers && SameKey(h.key, key)
    ensures (forall k :: k in headers ==> !SameKey(k.key, key)) ==> h == Header("", "", [])
  {
    if headers == [] then Header("", "", [])
    else if SameKey(headers[0].key, key) then headers[0]
    else HeaderObject(headers[1..], key)
  }

  /** `params.find(name)`; None is the end of the map. */
  function ParamValue(params: seq<Param>, name: string): (r: Option<string>)
    ensures r.None? <==> forall p :: p in params ==> p.name != name
    ensures r.Some? ==> Param(name, r.value) in params
  {
    if params == [] then None
    else if params[0].name == name then Some(params[0].value)
    else ParamValue(params[1..], name)
  }

  /** The name under which a part is entered into the map. */
  function NameOf(p: Part): Option<string> {
    ParamValue(HeaderObject(p.headers, "Content-Disposition").params, "name")
  }

  predicate Named(p: Part) {
    NameOf(p).Some?
  }

  predicate AllNamed(parts: seq<Part>) {
    forall p :: p in parts ==> Named(p)
  }

  /** The map of a message: each part under its name. */
  function Entries(parts: seq<Part>): seq<Entry>
    requires AllNamed(parts)
  {
    if parts == [] then []
    else
      assert parts[0] in parts;
      [Entry(NameOf(parts[0]).value, parts[0])] + Entries(parts[1..])
  }

  /** `get_part_by_name`: an empty part where there is none with the name. */
  function PartByName(partMap: seq<Entry>, name: string): Part {
    if partMap == [] then Part([], "")
    else if SameKey(partMap[0].name, name) then partMap[0].part
    else PartByName(partMap[1..], name)
  }

  // ---------------------------------------------------------------------------------------------
  // Reading

  function Trimmed(s: string): string {
    if |s| > 1 && s[0] == '"' && s[|s| - 1] == '"' then s[1..|s| - 1] else s
  }

  /** A parameter without an equals sign is its own name and value. */
  function ParseParam(p: string): Param {
    var f := Find(p, "=");
    if f.None? then Param(p, Trimmed(p)) else Param(p[..f.value], Trimmed(p[f.value + 1..]))
  }

  /** `emplace` leaves a name that is there already. */
  function Emplaced(params: seq<Param>, p: Param): seq<Param> {
    if exists q :: q in params && q.name == p.name then params else params + [p]
  }

  function ParseParams(line: string, sofar: seq<Param>): seq<Param>
    decreases |line|
  {
    if line == "" then sofar
    else ParseParams(Behind(line, "; "), Emplaced(sofar, ParseParam(Before(line, "; "))))
  }

  /** A line; None where taking the value of an empty header throws. */
  function ParseLine(line: string): Option<Header> {
    if line == "" then Some(Header("", "", []))
    else
      var header := Before(line, "; ");
      var f := Find(header, ": ");
      if f.None? && header == "" then None
      else Some(Header(if f.None? then header else header[..f.value],
                       if f.None? then header[1..] else header[f.value + 2..],
                       ParseParams(Behind(line, "; "), [])))
  }

  /** Without a line end the whole text is a line, and the next line begins one character later. */
  function NextLines(lines: string): (r: string)
    requires lines != ""
    ensures |r| < |lines|
  {
    var f := Find(lines, CRLF);
    if f.None? then lines[1..] else lines[f.value + 2..]
  }

  function ParseHead(lines: string, sofar: seq<Header>): Option<seq<Header>>
    decreases |lines|
  {
    if lines == "" then Some(sofar)
    else match ParseLine(Before(lines, CRLF))
      case None => None
      case Some(h) => ParseHead(NextLines(lines), sofar + [h])
  }

  function ParseSection(section: string): Option<Part> {
    var f := Find(section, CRLF + CRLF);
    var head := if f.None? then section[..if |section| < 1 then 0 else 1] else section[..f.value + 2];
    var rest := Erased(section, if f.None? then 3 else f.value + 4);
    var body := if |rest| < 2 then rest else rest[..|rest| - 2];
    match ParseHead(head, [])
    case None => None
    case Some(headers) => Some(Part(headers, body))
  }

  /** The sections before each delimiter, each entered into the map under its name; empty ones are skipped. */
  function ParseBody(body: string, delimiter: string, sofar: seq<Part>, entries: seq<Entry>): Reading
    requires delimiter != ""
    decreases |body|
  {
    if body == CRLF then Read(sofar, entries)
    else match Find(body, delimiter)
      case None => Read(sofar, entries)
      case Some(found) =>
        var section := body[..found];
        var rest := Erased(body, found + |delimiter| + 2);
        if section == "" then ParseBody(rest, delimiter, sofar, entries)
        else match ParseSection(section)
          case None => Thrown
          case Some(p) =>
            if Named(p) then ParseBody(rest, delimiter, sofar + [p], entries + [Entry(NameOf(p).value, p)]) else PastEnd
  }
}
