/** Request bodies: of a declared length, and in chunks. */
module HttpPayload {
  import opened HttpMachine
  import opened HttpRequest
  import opened HttpPieces
  import opened HttpRuns
  import opened HttpSplit
  import opened HttpGoes
  import opened HttpLengths
  import opened HttpHeaderLines

  /** A body of the declared length is delivered whole, and its last byte completes the message. */
  lemma SizedBody(c: Conn, content: string)
    requires Open(c) && c.m.state.BodyIdentity? && 0 < |content| == c.m.contentLength < ULLONG_MAX
    ensures Goes(c, content, Conn(c.m.(contentLength := 0, state := MessageDone),
                                  Apply(Apply(c.r, BodyData(content)), MessageComplete)))
  {
    hide RunTo, PeeksAt, RequestAt, Apply;
    RunStarts(c, content);
    BodyToEnd(c, content, 0, c.m, c.r);
    assert content[0..|content|] == content;
    forall k | 0 <= k < |content|
      ensures !PeeksAt(RunTo(c, content, k).m, content[k])
              && RunTo(c, content, k).r.completions == 0 && !RunTo(c, content, k).m.halted
    {
      InsideBody(c, content, k);
    }
  }

  lemma InsideBody(c: Conn, content: string, k: nat)
    requires Open(c) && c.m.state.BodyIdentity? && k < |content| == c.m.contentLength < ULLONG_MAX
    ensures !PeeksAt(RunTo(c, content, k).m, content[k])
    ensures RunTo(c, content, k).r.completions == 0 && !RunTo(c, content, k).m.halted
  {
    hide RunTo, PeeksAt, RequestAt;
    RunStarts(c, content);
    BodyBytes(c, content, 0, k, c.m, c.r);
    NoPeekHere(RunTo(c, content, k).m, content[k]);
  }

  // ---------------------------------------------------------------------------------------------
  // Chunks

  predicate Chunking(c: Conn) {
    Open(c) && c.m.flags.chunked && InChunk(c.m.state)
  }

  lemma ChunkByte(c: Conn, s: string, c1: Conn, ch: char)
    requires Goes(c, s, c1) && Chunking(c1) && ParsingHeader(c1.m.state) && Room(c1.m, 1)
    ensures var o := ChunkStep(c1.m.(nread := c1.m.nread + 1), ch);
            Goes(c, s + [ch], Conn(o.m, ApplyAll(c1.r, o.events)))
  {
    hide Goes, RequestLineStep, HeaderStep, ChunkStep, BodyStep;
    NoPeekHere(c1.m, ch);
    GoesByteOn(c, s, c1, ch);
  }

  lemma SizeStarts(m: Machine, ch: char)
    requires m.state.ChunkSizeStart? && m.flags.chunked && m.nread == 1 && Unhex(ch) >= 0
    ensures ChunkStep(m, ch) == Out(m.(contentLength := Unhex(ch), state := ChunkSize), [])
  {
    hide Unhex;
  }

  lemma SizeGoesOn(m: Machine, ch: char)
    requires m.state.ChunkSize? && m.flags.chunked
    ensures ChunkStep(m, ch) == Out(ChunkSizeStep(m, ch), [])
  {
    hide ChunkSizeStep;
  }

  /** A chunk size: hex digits of value at most 2^64 - 17. */
  predicate IsSize(s: string) {
    s != "" && AllHex(s) && HexValue(s) <= MAX_CHUNK_SIZE
  }

  lemma {:induction false} SizeGrows(s: string, i: nat)
    requires i <= |s| && AllHex(s)
    ensures AllHex(s[..i]) && HexValue(s[..i]) <= HexValue(s)
  {
    hide Unhex;
    if i < |s| {
      SizeGrows(s[..|s| - 1], i);
      assert s[..|s| - 1][..i] == s[..i];
    } else {
      assert s[..i] == s;
    }
  }

  lemma {:induction false} SizePrefix(c: Conn, s: string, i: nat)
    requires Chunking(c) && c.m.state.ChunkSizeStart? && c.m.nread == 0 && IsSize(s) && 1 <= i <= |s| && Room(c.m, i)
    ensures AllHex(s[..i]) && HexValue(s[..i]) <= MAX_CHUNK_SIZE
    ensures Goes(c, s[..i], Conn(c.m.(contentLength := HexValue(s[..i]), state := ChunkSize, nread := i), c.r))
  {
    hide Goes, Unhex, ChunkStep, ChunkSizeStep, HexValue;
    SizeGrows(s, i);
    var ch := s[i - 1];
    assert Unhex(ch) >= 0;
    ChunkSizeDigit(c.m, s, i);
    if i == 1 {
      GoesNowhere(c);
      SizeStarts(c.m.(nread := 1), ch);
      ChunkByte(c, "", c, ch);
      assert "" + [ch] == s[..1];
    } else {
      SizePrefix(c, s, i - 1);
      var c1 := Conn(c.m.(contentLength := HexValue(s[..i - 1]), state := ChunkSize, nread := i - 1), c.r);
      SizeGoesOn(c1.m.(nread := i), ch);
      ChunkByte(c, s[..i - 1], c1, ch);
      assert s[..i - 1] + [ch] == s[..i];
    }
  }

  /** The one-digit case of ChunkSizeExact, with any header count. */
  lemma ChunkSizeDigit(m: Machine, s: string, i: nat)
    requires AllHex(s) && HexValue(s) <= MAX_CHUNK_SIZE && 1 <= i <= |s|
    ensures AllHex(s[..i]) && AllHex(s[..i - 1])
    ensures i == 1 ==> HexValue(s[..i]) == Unhex(s[0])
    ensures i > 1 && HexValue(s[..i]) <= MAX_CHUNK_SIZE ==>
              forall m: Machine :: m.contentLength == HexValue(s[..i - 1]) ==>
                ChunkSizeStep(m, s[i - 1]) == m.(contentLength := HexValue(s[..i]))
  {
    hide Unhex;
    assert s[..i][..i - 1] == s[..i - 1] && s[..i][i - 1] == s[i - 1];
    assert Unhex(s[i - 1]) >= 0;
    NotCR(s[i - 1]);
    if i == 1 { assert HexValue(s[..0]) == 0; }
  }

  lemma SizeEnds(m: Machine)
    requires m.state.ChunkSize? && m.flags.chunked
    ensures ChunkStep(m, CR) == Out(m.(state := ChunkSizeAlmostDone), [])
    ensures ChunkStep(m.(state := ChunkSizeAlmostDone), LF)
         == Out(if m.contentLength == 0 then m.(nread := 0, flags := m.flags.(trailing := true), state := HeaderFieldStart)
                else m.(nread := 0, state := ChunkData), [])
  {
  }

  /** A chunk-size line. */
  lemma SizeLine(c: Conn, s: string)
    requires Chunking(c) && c.m.state.ChunkSizeStart? && c.m.nread == 0 && IsSize(s) && Room(c.m, |s| + 2)
    ensures var m1 := c.m.(contentLength := HexValue(s));
            Goes(c, s + CRLF, Conn(if HexValue(s) == 0 then m1.(flags := m1.flags.(trailing := true), state := HeaderFieldStart)
                                   else m1.(state := ChunkData), c.r))
  {
    hide Goes, Unhex, ChunkStep, HexValue;
    SizePrefix(c, s, |s|);
    assert s[..|s|] == s;
    var c1 := Conn(c.m.(contentLength := HexValue(s), state := ChunkSize, nread := |s|), c.r);
    SizeEnds(c1.m.(nread := |s| + 1));
    ChunkByte(c, s, c1, CR);
    var c2 := Conn(c1.m.(state := ChunkSizeAlmostDone, nread := |s| + 1), c.r);
    SizeEnds(c1.m.(nread := |s| + 2));
    ChunkByte(c, s + [CR], c2, LF);
    assert s + [CR] + [LF] == s + CRLF;
  }

  /** The data of a chunk. */
  lemma ChunkContent(c: Conn, data: string)
    requires Open(c) && c.m.flags.chunked && c.m.state.ChunkData? && 0 < |data| == c.m.contentLength < ULLONG_MAX
    ensures Goes(c, data, Conn(c.m.(contentLength := 0, state := ChunkDataAlmostDone), Apply(c.r, BodyData(data))))
  {
    hide RunTo, PeeksAt, RequestAt, Apply;
    RunStarts(c, data);
    ChunkBytes(c, data, 0, |data|, c.m, c.r);
    assert data[0..|data|] == data;
    forall k | 0 <= k < |data|
      ensures !PeeksAt(RunTo(c, data, k).m, data[k])
              && RunTo(c, data, k).r.completions == 0 && !RunTo(c, data, k).m.halted
    {
      InsideChunk(c, data, k);
    }
  }

  lemma InsideChunk(c: Conn, data: string, k: nat)
    requires Open(c) && c.m.flags.chunked && c.m.state.ChunkData? && k < |data| == c.m.contentLength < ULLONG_MAX
    ensures !PeeksAt(RunTo(c, data, k).m, data[k])
    ensures RunTo(c, data, k).r.completions == 0 && !RunTo(c, data, k).m.halted
  {
    hide RunTo, PeeksAt, RequestAt;
    RunStarts(c, data);
    ChunkBytes(c, data, 0, k, c.m, c.r);
    NoPeekHere(RunTo(c, data, k).m, data[k]);
  }

  lemma UncountedChunkByte(c: Conn, s: string, c1: Conn, ch: char)
    requires Goes(c, s, c1) && Chunking(c1) && (c1.m.state.ChunkDataAlmostDone? || c1.m.state.ChunkDataDone?)
    ensures var o := ChunkStep(c1.m, ch); Goes(c, s + [ch], Conn(o.m, ApplyAll(c1.r, o.events)))
  {
    hide Goes, RequestLineStep, HeaderStep, ChunkStep, BodyStep;
    NoPeekHere(c1.m, ch);
    GoesByteOn(c, s, c1, ch);
  }

  lemma DataEnds(m: Machine)
    requires m.state.ChunkDataAlmostDone? && m.flags.chunked && m.contentLength == 0
    ensures ChunkStep(m, CR) == Out(m.(state := ChunkDataDone), [])
    ensures ChunkStep(m.(state := ChunkDataDone), LF) == Out(m.(nread := 0, state := ChunkSizeStart), [])
  {
  }

  datatype Chunk = Chunk(size: string, data: string)

  function ChunkText(k: Chunk): string {
    k.size + CRLF + k.data + CRLF
  }

  predicate IsChunk(k: Chunk, limit: nat) {
    IsSize(k.size) && 0 < |k.data| == HexValue(k.size) && |k.size| + 2 <= limit
  }

  /** Between chunks. */
  predicate AtChunk(c: Conn) {
    Chunking(c) && c.m.state.ChunkSizeStart? && c.m.nread == 0
  }

  /** One chunk adds its data to the body. */
  lemma ChunkRead(c: Conn, k: Chunk)
    requires AtChunk(c) && IsChunk(k, c.m.config.maxHeaderSize)
    ensures Goes(c, ChunkText(k), Conn(c.m.(contentLength := 0), Apply(c.r, BodyData(k.data))))
  {
    hide Goes, HexValue, AllHex, ChunkStep;
    SizeLine(c, k.size);
    var c1 := Conn(c.m.(contentLength := |k.data|, state := ChunkData), c.r);
    ChunkContent(c1, k.data);
    var c2 := Conn(c.m.(contentLength := 0, state := ChunkDataAlmostDone), Apply(c.r, BodyData(k.data)));
    GoesOn(c, k.size + CRLF, c1, k.data, c2);
    DataEnds(c2.m);
    UncountedChunkByte(c, k.size + CRLF + k.data, c2, CR);
    var c3 := Conn(c2.m.(state := ChunkDataDone), c2.r);
    UncountedChunkByte(c, k.size + CRLF + k.data + [CR], c3, LF);
    assert k.size + CRLF + k.data + [CR] + [LF] == ChunkText(k);
  }

  function ChunksText(ks: seq<Chunk>): string {
    if ks == [] then "" else ChunksText(ks[..|ks| - 1]) + ChunkText(ks[|ks| - 1])
  }

  function ChunksData(ks: seq<Chunk>): string {
    if ks == [] then "" else ChunksData(ks[..|ks| - 1]) + ks[|ks| - 1].data
  }

  /** The connection after the chunks `ks`. */
  function AfterChunks(c: Conn, ks: seq<Chunk>): Conn {
    Conn(if ks == [] then c.m else c.m.(contentLength := 0), c.r.(body := c.r.body + ChunksData(ks)))
  }

  lemma OneChunkMore(c: Conn, ks: seq<Chunk>)
    requires AtChunk(c) && ks != [] && IsChunk(ks[|ks| - 1], c.m.config.maxHeaderSize)
    ensures var n := |ks| - 1; Goes(AfterChunks(c, ks[..n]), ChunkText(ks[n]), AfterChunks(c, ks))
  {
    hide Goes, IsChunk, ChunkText;
    var n := |ks| - 1;
    var c1 := AfterChunks(c, ks[..n]);
    ChunkRead(c1, ks[n]);
    assert c.r.body + ChunksData(ks[..n]) + ks[n].data == c.r.body + ChunksData(ks);
  }

  /** Any number of chunks add the concatenation of their data to the body. */
  lemma {:induction false} ChunksRead(c: Conn, ks: seq<Chunk>)
    requires AtChunk(c) && forall i :: 0 <= i < |ks| ==> IsChunk(ks[i], c.m.config.maxHeaderSize)
    ensures Goes(c, ChunksText(ks), AfterChunks(c, ks))
  {
    hide Goes, IsChunk, ChunkText, AtChunk;
    if ks == [] {
      assert c.r.body + "" == c.r.body;
      GoesNowhere(c);
    } else {
      hide AfterChunks;
      var n := |ks| - 1;
      assert IsChunk(ks[n], c.m.config.maxHeaderSize);
      ChunksRead(c, ks[..n]);
      OneChunkMore(c, ks);
      GoesOn(c, ChunksText(ks[..n]), AfterChunks(c, ks[..n]), ChunkText(ks[n]), AfterChunks(c, ks));
    }
  }

  lemma TrailerStep(m: Machine)
    requires m.state.HeaderFieldStart? && m.flags.trailing
    ensures HeaderStep(m, CR, false) == Out(m.(state := HeadersAlmostDone), [])
    ensures HeaderStep(m.(state := HeadersAlmostDone), LF, false) == Out(m.(state := HeadersAlmostDone), [MessageComplete])
  {
  }

  /** The zero chunk and the empty trailer complete the message, once, at their last byte. */
  lemma LastChunk(c: Conn, size: string)
    requires AtChunk(c) && IsSize(size) && HexValue(size) == 0 && |size| + 2 <= c.m.config.maxHeaderSize
    ensures Goes(c, size + CRLF + CRLF,
                 Conn(c.m.(contentLength := 0, flags := c.m.flags.(trailing := true), state := HeadersAlmostDone, nread := 2),
                      Apply(c.r, MessageComplete)))
  {
    hide Goes, HexValue, AllHex, HeaderStep;
    SizeLine(c, size);
    var s := size + CRLF;
    var c1 := Conn(c.m.(contentLength := 0, flags := c.m.flags.(trailing := true), state := HeaderFieldStart), c.r);
    NoPeekHere(c1.m, CR);
    TrailerStep(c1.m.(nread := 1));
    HeaderByte(c, s, c1, CR);
    var c2 := Conn(c1.m.(state := HeadersAlmostDone, nread := 1), c.r);
    NoPeekHere(c2.m, LF);
    TrailerStep(c1.m.(nread := 2));
    HeaderByte(c, s + [CR], c2, LF);
    ApplyOne(c.r, MessageComplete);
    assert s + [CR] + [LF] == size + CRLF + CRLF;
  }
}
