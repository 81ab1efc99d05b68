/** Transfer-Encoding lines: which lists of codings announce chunks. */
module HttpCodings {
  import opened Wrappers
  import opened HttpMachine
  import opened HttpRequest
  import opened HttpSplit
  import opened HttpGoes
  import opened HttpNames
  import opened HttpHeaderLines

  /** A coding.  An underscore in front is no token to the scanner, which has set its bit 5 by then. */
  predicate IsCoding(t: string) {
    t != "" && AllTokens(t) && t[0] != '_'
  }

  /** The coding is "chunked", or the beginning of it, in any case. */
  predicate IsStem(t: string) {
    LowerName(t) <= "chunked"
  }

  predicate AllTokens(t: string) {
    forall k :: 0 <= k < |t| ==> IsToken(t[k])
  }

  function Spaces(n: nat): (s: string)
    ensures |s| == n && forall k :: 0 <= k < n ==> s[k] == ' '
  {
    seq(n, i => ' ')
  }

  /** A coding with the comma and the spaces behind it. */
  datatype Item = Item(coding: string, spaces: nat)

  function ItemText(i: Item): string {
    i.coding + "," + Spaces(i.spaces)
  }

  function ItemsText(items: seq<Item>): string {
    if items == [] then "" else ItemsText(items[..|items| - 1]) + ItemText(items[|items| - 1])
  }

  /** A list of codings, the last of them `word`, with `n` spaces at the end. */
  predicate IsList(v: string, items: seq<Item>, word: string, n: nat) {
    && (forall k :: 0 <= k < |items| ==> IsCoding(items[k].coding)) && IsCoding(word)
    && v == ItemsText(items) + word + Spaces(n)
  }

  /** Whether what comes behind these codings is taken for a coding of its own.  The comma behind a stem is lost, so
      that the coding after it is passed over. */
  predicate Separated(items: seq<Item>) {
    if items == [] then true
    else
      var n := |items| - 1;
      Separated(items[..n]) ==> !IsStem(items[n].coding)
  }

  /** Chunks are announced by a list that ends with "chunked", if the comma before it has not been lost. */
  predicate Announces(items: seq<Item>, word: string) {
    Separated(items) && LowerName(word) == "chunked"
  }

  /** A value that announces chunks. */
  ghost predicate IsChunked(v: string) {
    exists items: seq<Item>, word: string, n: nat :: IsList(v, items, word, n) && Announces(items, word)
  }

  // ---------------------------------------------------------------------------------------------
  // The scanner over such a list

  /** The scanner after `i` bytes of a value of Transfer-Encoding. */
  function CodingScan(v: string, n: uint64, i: nat): Scanned
    requires 1 <= i <= |v|
  {
    if i == 1 then Scanned(Scan(if Lower(v[0]) == 'c' then HMatchingTeChunked else HMatchingTeToken, 0), n)
    else match CodingScan(v, n, i - 1)
      case Rejected(e) => Rejected(e)
      case Scanned(s, n1) => ValueScan(s, n1, v[i - 1])
  }

  lemma {:induction false} TailIsCoding(v: string, n: uint64, i: nat)
    requires 1 <= i <= |v|
    ensures TailScan(Scan(if Lower(v[0]) == 'c' then HMatchingTeChunked else HMatchingTeToken, 0), n, v[1..], i - 1)
         == CodingScan(v, n, i)
  {
    hide ValueScan, Lower;
    if i > 1 {
      TailIsCoding(v, n, i - 1);
      assert v[1..][i - 2] == v[i - 1];
    }
  }

  /** A coding may begin at `i`. */
  predicate Begins(v: string, n: uint64, i: nat)
    requires i <= |v|
  {
    i == 0 || CodingScan(v, n, i) == Scanned(Scan(HMatchingTeTokenStart, 0), n)
  }

  /** The coding `t` stands at `i`. */
  predicate Stands(v: string, i: nat, t: string) {
    i + |t| <= |v| && forall k :: 0 <= k < |t| ==> v[i + k] == t[k]
  }

  /** What is known after `j` bytes of a coding. */
  function Stage(t: string, j: nat): HeaderState
    requires j <= |t|
  {
    if LowerName(t[..j]) == "chunked" then HTeChunked
    else if LowerName(t[..j]) <= "chunked" then HMatchingTeChunked
    else HMatchingTeToken
  }

  /** A scan in the middle of a coding. */
  predicate Within(r: Scanned, n: uint64, t: string, j: nat)
    requires j <= |t|
  {
    r.Scanned? && r.contentLength == n && r.scan.state == Stage(t, j)
    && (r.scan.state.HMatchingTeChunked? ==> r.scan.index == j - 1)
  }

  lemma TokenLetter(ch: char, c: char)
    requires IsToken(ch) && 'a' <= c <= 'z'
    ensures Lower(ch) == c <==> TokenLower(ch) == c
  {
  }

  lemma TokensStay(ch: char)
    requires IsToken(ch)
    ensures ch != '_' ==> IsToken(Lower(ch))
    ensures ch != ' ' && ch != ','
  {
  }

  lemma StageGrows(t: string, j: nat)
    requires 1 <= j <= |t| && AllTokens(t)
    ensures LowerName(t[..j]) <= "chunked" <==>
              LowerName(t[..j - 1]) <= "chunked" && j <= 7 && TokenLower(t[j - 1]) == "chunked"[j - 1]
    ensures LowerName(t[..j]) == "chunked" <==> LowerName(t[..j]) <= "chunked" && j == 7
  {
    var a, b := LowerName(t[..j - 1]), LowerName(t[..j]);
    assert b == a + [TokenLower(t[j - 1])];
    PrefixGrows(a, TokenLower(t[j - 1]), "chunked");
  }

  /** One more byte of a coding. */
  lemma StageStep(t: string, j: nat, s: Scan, n: uint64)
    requires 2 <= j <= |t| && AllTokens(t) && Within(Scanned(s, n), n, t, j - 1)
    ensures Within(ValueScan(s, n, t[j - 1]), n, t, j)
  {
    hide Lower, TokenLower, LowerName, IsToken;
    StageGrows(t, j - 1);
    StageGrows(t, j);
    assert IsToken(t[j - 1]);
    TokensStay(t[j - 1]);
    if j <= 7 { TokenLetter(t[j - 1], "chunked"[j - 1]); }
  }

  lemma StageStart(v: string, n: uint64, i: nat, t: string)
    requires Stands(v, i, t) && t != "" && t[0] != '_' && AllTokens(t) && Begins(v, n, i)
    ensures Within(CodingScan(v, n, i + 1), n, t, 1)
  {
    hide Lower, TokenLower, LowerName, IsToken;
    StageGrows(t, 1);
    assert IsToken(t[0]) && v[i + 0] == t[0];
    TokensStay(t[0]);
    TokenLetter(t[0], 'c');
    NothingRead(t);
  }

  lemma NothingRead(t: string)
    ensures LowerName(t[..0]) <= "chunked"
  {
  }

  lemma {:induction false} StageRead(v: string, n: uint64, i: nat, t: string, j: nat)
    requires Stands(v, i, t) && AllTokens(t) && Begins(v, n, i) && 1 <= j <= |t| && t[0] != '_'
    ensures Within(CodingScan(v, n, i + j), n, t, j)
  {
    hide ValueScan, Stage, Begins, AllTokens;
    if j == 1 {
      StageStart(v, n, i, t);
    } else {
      StageRead(v, n, i, t, j - 1);
      var r := CodingScan(v, n, i + j - 1);
      StageStep(t, j, r.scan, n);
      assert v[i + (j - 1)] == t[j - 1];
    }
  }

  /** Behind a comma that has been lost. */
  predicate Lost(v: string, n: uint64, i: nat)
    requires i <= |v|
  {
    i > 0 && CodingScan(v, n, i).Scanned? && CodingScan(v, n, i).contentLength == n
    && CodingScan(v, n, i).scan.state.HMatchingTeToken?
  }

  predicate Where(v: string, n: uint64, i: nat, own: bool)
    requires i <= |v|
  {
    if own then Begins(v, n, i) else Lost(v, n, i)
  }

  lemma {:induction false} LostRead(v: string, n: uint64, i: nat, t: string, j: nat)
    requires Stands(v, i, t) && AllTokens(t) && Lost(v, n, i) && j <= |t|
    ensures Lost(v, n, i + j)
  {
    if j > 0 {
      LostRead(v, n, i, t, j - 1);
      assert v[i + (j - 1)] == t[j - 1];
      TokensStay(t[j - 1]);
    }
  }

  /** The comma behind a coding begins the next one, or is lost behind a stem; spaces change nothing. */
  lemma {:induction false} ItemRead(v: string, n: uint64, i: nat, own: bool, item: Item, k: nat)
    requires Stands(v, i, ItemText(item)) && Where(v, n, i, own) && IsCoding(item.coding) && k <= item.spaces
    ensures Where(v, n, i + |item.coding| + 1 + k, own ==> !IsStem(item.coding))
  {
    hide Stage, AllTokens, IsStem, Begins, Lost;
    var t := item.coding;
    var text := ItemText(item);
    assert forall j :: 0 <= j < |t| ==> text[j] == t[j] && v[i + j] == text[j];
    assert v[i + (|t| + k)] == text[|t| + k] == if k == 0 then ',' else ' ';
    if k > 0 {
      ItemRead(v, n, i, own, item, k - 1);
      SpaceKeeps(v, n, i + |t| + k, own ==> !IsStem(t));
    } else if own {
      StageRead(v, n, i, t, |t|);
      CommaOwn(v, n, i, t);
    } else {
      LostRead(v, n, i, t, |t|);
      CommaFound(v, n, i + |t|);
    }
  }

  lemma SpaceKeeps(v: string, n: uint64, i: nat, own: bool)
    requires 0 < i < |v| && v[i] == ' ' && Where(v, n, i, own)
    ensures Where(v, n, i + 1, own)
  {
  }

  lemma CommaFound(v: string, n: uint64, i: nat)
    requires i < |v| && v[i] == ',' && Lost(v, n, i)
    ensures Begins(v, n, i + 1)
  {
  }

  lemma CommaOwn(v: string, n: uint64, i: nat, t: string)
    requires i + |t| < |v| && v[i + |t|] == ',' && t != "" && Within(CodingScan(v, n, i + |t|), n, t, |t|)
    ensures Where(v, n, i + |t| + 1, !IsStem(t))
  {
    hide LowerName;
    assert t[..|t|] == t;
    StemLength(t);
    if IsStem(t) && LowerName(t) != "chunked" { CommaMisses(CodingScan(v, n, i + |t|).scan); }
  }

  lemma StemLength(t: string)
    ensures IsStem(t) ==> |t| <= 7 && (|t| == 7 <==> LowerName(t) == "chunked")
  {
  }

  lemma CommaMisses(s: Scan)
    requires s.state.HMatchingTeChunked?
    ensures Keyword(s, Lower(','), HTeChunked, HMatchingTeToken).state.HMatchingTeToken?
  {
  }

  lemma {:induction false} ItemsRead(v: string, n: uint64, items: seq<Item>)
    requires (forall k :: 0 <= k < |items| ==> IsCoding(items[k].coding)) && Stands(v, 0, ItemsText(items))
    ensures Where(v, n, |ItemsText(items)|, Separated(items))
    decreases |items|
  {
    hide Where, IsCoding, ItemText, Stands, IsStem;
    if items == [] {
      assert Where(v, n, 0, true) by { BeginsFirst(v, n); }
    } else {
      var k := |items| - 1;
      var a, b := ItemsText(items[..k]), ItemText(items[k]);
      SplitStands(v, 0, a, b);
      ItemsRead(v, n, items[..k]);
      ItemRead(v, n, |a|, Separated(items[..k]), items[k], items[k].spaces);
      ItemLength(items[k]);
    }
  }

  lemma BeginsFirst(v: string, n: uint64)
    ensures Where(v, n, 0, true)
  {
  }

  lemma ItemLength(item: Item)
    ensures |ItemText(item)| == |item.coding| + 1 + item.spaces
  {
  }

  lemma SplitStands(v: string, i: nat, a: string, b: string)
    requires Stands(v, i, a + b)
    ensures Stands(v, i, a) && Stands(v, i + |a|, b)
  {
    forall k | 0 <= k < |a| ensures v[i + k] == a[k] { assert (a + b)[k] == a[k]; }
    forall k | 0 <= k < |b| ensures v[i + |a| + k] == b[k] { assert (a + b)[|a| + k] == b[k] && v[i + (|a| + k)] == b[k]; }
  }

  /** States in which a value can end that announces no chunks. */
  predicate NoChunks(h: HeaderState) {
    h.HMatchingTeToken? || h.HMatchingTeChunked?
  }

  /** The scanner recognises exactly the lists that announce chunks. */
  lemma ListScanned(v: string, n: uint64, items: seq<Item>, word: string, m: nat)
    requires IsList(v, items, word, m)
    ensures v != ""
    ensures var r := CodingScan(v, n, |v|);
            r.Scanned? && r.contentLength == n
            && if Announces(items, word) then r.scan.state.HTeChunked? else NoChunks(r.scan.state)
  {
    hide CodingScan, IsCoding, LowerName, Where, ItemsText, Separated, NoChunks;
    var a := ItemsText(items);
    assert Stands(v, 0, a + (word + Spaces(m))) by { assert v == a + (word + Spaces(m)); }
    SplitStands(v, 0, a, word + Spaces(m));
    SplitStands(v, |a|, word, Spaces(m));
    ItemsRead(v, n, items);
    NotEmpty(word);
    LastRead(v, n, |a|, Separated(items), word, m);
  }

  lemma NotEmpty(word: string)
    requires IsCoding(word)
    ensures word != ""
  {
  }

  lemma LastRead(v: string, n: uint64, i: nat, own: bool, word: string, m: nat)
    requires IsCoding(word) && Stands(v, i, word) && Where(v, n, i, own)
    requires |v| == i + |word| + m && Stands(v, i + |word|, Spaces(m))
    ensures var r := CodingScan(v, n, |v|);
            r.Scanned? && r.contentLength == n
            && if own && LowerName(word) == "chunked" then r.scan.state.HTeChunked? else NoChunks(r.scan.state)
  {
    hide CodingScan, LowerName, AllTokens, Begins;
    assert word[..|word|] == word;
    if own { StageRead(v, n, i, word, |word|); } else { LostRead(v, n, i, word, |word|); }
    SpacesRead(v, n, i + |word|, m);
  }

  lemma {:induction false} SpacesRead(v: string, n: uint64, i: nat, m: nat)
    requires 1 <= i && i + m <= |v| && Stands(v, i, Spaces(m))
    requires CodingScan(v, n, i).Scanned? && CodingScan(v, n, i).contentLength == n
    requires CodingScan(v, n, i).scan.state.HTeChunked? || NoChunks(CodingScan(v, n, i).scan.state)
    ensures CodingScan(v, n, i + m).Scanned? && CodingScan(v, n, i + m).contentLength == n
    ensures CodingScan(v, n, i).scan.state.HTeChunked? ==> CodingScan(v, n, i + m).scan.state.HTeChunked?
    ensures NoChunks(CodingScan(v, n, i).scan.state) ==> NoChunks(CodingScan(v, n, i + m).scan.state)
    decreases m
  {
    hide ValueScan, NoChunks, Spaces;
    if m > 0 {
      assert Spaces(m) == Spaces(m - 1) + " ";
      SplitStands(v, i, Spaces(m - 1), " ");
      SpacesRead(v, n, i, m - 1);
      assert v[i + (m - 1)] == Spaces(m)[m - 1] == ' ';
      SpaceStep(CodingScan(v, n, i + m - 1).scan, n);
    }
  }

  lemma SpaceStep(s: Scan, n: uint64)
    requires s.state.HTeChunked? || NoChunks(s.state)
    ensures var t := ValueScan(s, n, ' ');
            && t.Scanned? && t.contentLength == n
            && if s.state.HTeChunked? then t.scan.state.HTeChunked? else NoChunks(t.scan.state)
  {
    if s.state.HMatchingTeChunked? { SpaceMisses(s); }
  }

  lemma SpaceMisses(s: Scan)
    requires s.state.HMatchingTeChunked?
    ensures Keyword(s, Lower(' '), HTeChunked, HMatchingTeToken).state.HMatchingTeToken?
  {
  }

  // ---------------------------------------------------------------------------------------------
  // The line

  lemma CodingStart(m: Machine, ch: char)
    requires m.errno == NoError && m.scan.state.HTransferEncoding?
    ensures ValueStartStep(m, ch, false)
         == Out(m.(state := HeaderValue, scan := Scan(if Lower(ch) == 'c' then HMatchingTeChunked else HMatchingTeToken, 0)),
                [ValueData([ch])])
  {
  }

  /** What such a value leaves behind. */
  lemma CodingFrame(m: Machine, h: Header, s: Scan, n: nat)
    requires AtLine(m) && IsHeader(h) && NameScan(h.name).Some? && SawTransferEncoding(h.name, |h.name|)
    requires s.state.HTeChunked? || NoChunks(s.state)
    ensures var m1 := AtValue(m, h).(state := ValueLws, scan := s, nread := n);
            && Frame(m1) == Frame(m).(usesTransferEncoding := true,
                                      flags := if s.state.HTeChunked? then Frame(m).flags.(chunked := true)
                                               else Frame(m).flags)
            && Finished(m1).keepAlive == Finished(m).keepAlive && Finished(m1).close == Finished(m).close
            && Finished(m1).upgrade == Finished(m).upgrade
  {
    hide NameScan, SawTransferEncoding, IsToken, IsHeaderChar;
  }

  /** A Transfer-Encoding line announces chunks exactly if its list of codings does. */
  lemma CodingsLine(c: Conn, h: Header, items: seq<Item>, word: string, n: nat) returns (c1: Conn)
    requires Open(c) && AtLine(c.m) && IsHeader(h) && Room(c.m, |Line(h)|)
    requires LowerName(h.name) == "transfer-encoding" && IsList(h.value, items, word, n)
    ensures Goes(c, Line(h), c1)
    ensures Open(c1) && c1.m.state.ValueLws? && c1.m.nread == c.m.nread + |Line(h)| && c1.r == AddHeader(Caught(c), h)
    ensures Frame(c1.m) == Frame(c.m).(usesTransferEncoding := true,
                                       flags := if Announces(items, word) then Frame(c.m).flags.(chunked := true)
                                                else Frame(c.m).flags)
    ensures Heard(c.m, [h], c1.m)
  {
    hide Goes, NameScan, SawTransferEncoding, TailScan, HeaderStep, ValueStartStep, LowerName, Known, Heard, CodingScan,
         IsList, Lower, IsCoding, Frame, Finished, Announces, NoChunks;
    FramingNames(h.name);
    TransferEncodingSeen(h.name);
    var v := h.value;
    var m := AtValue(c.m, h).(nread := AtValue(c.m, h).nread + 1);
    ListScanned(v, m.contentLength, items, word, n);
    CodingStart(m, v[0]);
    TailIsCoding(v, m.contentLength, |v|);
    var o := ValueStartStep(m, v[0], false);
    LineRead(c, h, o);
    var t := TailScan(o.m.scan, o.m.contentLength, v[1..], |v| - 1);
    c1 := Conn(o.m.(state := ValueLws, scan := t.scan, contentLength := t.contentLength, nread := c.m.nread + |Line(h)|),
               AddHeader(Caught(c), h));
    assert c1.m == AtValue(c.m, h).(state := ValueLws, scan := t.scan, nread := c1.m.nread);
    CodingFrame(c.m, h, t.scan, c1.m.nread);
    NotBoth(t.scan.state);
    HeardElsewhere(c.m, h, c1.m);
    StillOpen(Caught(c), h);
  }

  lemma NotBoth(h: HeaderState)
    ensures NoChunks(h) ==> !h.HTeChunked?
  {
  }

  /** A list whose last coding is "chunked" and that announces no chunks: the comma behind the first one is lost. */
  lemma CommaLost()
    ensures IsList("chunked,chunked", [Item("chunked", 0)], "chunked", 0)
    ensures !Announces([Item("chunked", 0)], "chunked")
  {
    var items := [Item("chunked", 0)];
    assert LowerName("chunked") == "chunked";
    assert items[..0] == [] && ItemsText([]) == "" && Separated([]);
    assert ItemText(items[0]) == "chunked,";
    assert ItemsText(items) == "chunked,";
    assert "chunked," + "chunked" + Spaces(0) == "chunked,chunked";
  }
}
