# Verified models of the Crow headers and of the channel registry

The transcoding service is a thin RTSP/HTTP front end. Its hard logic is in the Crow headers that it compiles
and in its own registry of channels. Each unit below models one of them in the form the source has: a class
whose methods update fields where the source is an object that changes, an array rewritten in place where the
source rewrites a buffer, and functions and lemmas for the reference meaning that the unit must agree with.

- **HTTP request parser** (`Http*.dfy`). `HttpMachine` is one pure step per byte, with the saved state, flags,
  counters and errors of `http_parser_execute`. `HttpParser` is the buffer loop with its bulk scans and data
  marks; it refines the step. On top of it: feeding slices equals feeding the whole, writing a request and
  parsing it gives the request back with what becomes of the connection, the exact ranges of Content-Length and
  chunk sizes, which lists of codings announce chunks, and which internal assert can fail. `HttpTables` has the
  parser's character tables.
- **Mustache** (`Mustache*.dfy`). The compiler from text to a flat program with jump targets, and the
  interpreter of that program with its context stack, against a recursive meaning of the section tree;
  `MustacheMeaning` says what that meaning is, and `MustacheLines` which lines are removed.
- **Routing** (`Route*.dfy`). The trie that `add` builds, `optimize` compresses and `find` searches, against a
  scan through the list of rules; above it the rule numbering and the dispatch of one method. `RouteFill` writes
  urls for a rule and finds what was written in its places.
- **JSON** (`Json*.dfy`). The reader that works destructively in its buffer, lazy unescaping, the writer, lazy
  sorted lookup and the growing child array; `load` after `dump`; which texts are numbers, and the UTF-8 that
  escape sequences stand for.
- **WebSocket** (`WebSocket*.dfy`). The frame writer and the five-state reader, for every way in which the bytes
  arrive.
- **Session cache** (`SessionCache.dfy`). Concurrent requests over reference-counted nodes and a store whose
  `load` moves the data out, refined to a plain map of sessions.
- **Query strings, multipart, SHA-1, base64** (`Query*.dfy`, `Multipart*.dfy`, `Sha1.dfy`, `Base64.dfy`).
- **Channel registry** (`UriParts.dfy`, `Registry.dfy`). The three structures of `TranscodingService` that have
  to stay in step.

A method that changes state is specified by a function of the old state, and what the source promises is then
proved about that function. `dafny verify dfyconfig.toml` checks everything.

## Where the code does not do what one would expect

The models follow the code. Where a promise is not kept, an input shows it and the condition is proved.

- The only look-ahead of the HTTP parser is the test for `h2` in an Upgrade value. A cut changes what is parsed if
  and only if it comes between these two bytes (`HttpSplit.CutMatters`); `HttpUpgrade.UpgradeFromStart` is a whole
  text for which it does, and without the word `upgrade` no text has such a place (`HttpUpgrade.NoUpgradeNoPeek`).
- The assert behind "Shouldn't get here" in the header value loop is reachable: by a Connection value that begins
  with a NUL (`HttpAsserts.FailsFromStart`, a whole text). `HttpAsserts.AssertFails` says for every text exactly when
  an assert fails, this one or those on `nread`, `F_CHUNKED` and `content_length`; NULs anywhere else are harmless
  (`HttpAsserts.NoNulBehind`).
- A header name that merely begins with `transfer-encoding` sets `uses_transfer_encoding`
  (`HttpHeaderLines.TransferEncodingSeen`).
- The table `unhex` has 0 for the bytes from 128 up, so they pass for the digit 0 in a chunk size
  (`HttpLengths.HighByteIsZero`).
- In a Transfer-Encoding list the comma behind a coding that is a beginning of `chunked` is lost, so that
  `chunked, chunked` announces no chunks: `HttpCodings.ListScanned` says exactly which lists do,
  `HttpCodings.CommaLost` is one that does not.
- A Connection line is heard only if its whole value is one word (`HttpHeaderLines.ConnectionHeard`).
- A header with an empty value is dropped unless it is the last one: `HttpRoundTrip.Kept` is what remains and
  `KeptAll` says when nothing is lost.
- Once a buffer fails, data that was marked in it is not delivered, so a request fed in slices may have kept more
  of a failing request than one fed whole. `HttpSplit.FeedSlices` says exactly what is kept short of the header
  limit, `HttpPieces.SlicesAgree` that two ways to slice a failing request leave the same if and only if the later
  beginning of the failing slice is not inside the piece that fails, and `HttpCuts.CutInTarget` gives slicings that
  differ.
- Numbers of JSON: `1.` and `1e+` are taken and `0e1` is refused; `JsonNumber.NumberExact` says exactly which
  texts are taken.
- A JSON value nested more than 5000 deep is written but not read back (`JsonRoundTrip.LoadDump`).
- Copies of a JSON string share the buffer but not the end, so a copy that has not been read yet sees a longer
  string after the other has been unescaped: right exactly if there was nothing to unescape
  (`JsonBuffer.ReadThroughCopy`).
- A rule for a path with a trailing slash registers the redirect as index 1, which beats every rule
  (`RouteTable.PerMethod.Handle`).
- A NUL in a pattern is compared with the first character of the empty key of a parameter child, and so taken for
  the parameter: exactly where a parameter stands among the children before any literal NUL
  (`RouteSearch.WalkedIs`); `RouteSearch.NulTaken` is a pattern that is refused although nobody added it.
- A multipart part without a `name` in its Content-Disposition is looked up behind the end of a map: a message is
  read back if and only if every part has one (`Multipart.RoundTrip`).
- Removing a channel disconnects clients of other channels: of those whose id begins with the removed one, and, if
  the removed id begins the name of a profile, as `s` does `second`, of every channel at that profile. For ids without
  a slash it is exactly these (`Registry.RemovalReaches`, `OthersLeft`).
- An `@` in the path of a URI is taken for the end of credentials. Without credentials a URI is read back if and
  only if it has no `@` (`UriParts.ReadWithoutCredentials`).

## Model

| member | source | states |
|---|---|---|
| HttpParser.HttpParser.Execute | headers/crow/http_parser_merged.h:633-1927 | A buffer handled with bulk scans and data marks leaves the state, the request and the count that one step per byte leaves; it fails exactly if the steps fail, with their error unless they are over the header limit, and then leaves exactly what was delivered before the failing piece; empty buffers end the stream as the source says |
| HttpParser.HttpParser.Round | headers/crow/http_parser_merged.h:751-1925 | One round of the loop makes progress and keeps the machine, the delivered data and the pending marks equal to the bytewise run |
| HttpParser.HttpParser.FieldLoop | headers/crow/http_parser_merged.h:1106-1247 | The scanning loop over a field name, which counts its bytes only at the end, is as many single steps |
| HttpParser.HttpParser.ValueLoop | headers/crow/http_parser_merged.h:1341-1516 | The scanning loop over a header value, with its Connection, Transfer-Encoding and Content-Length scanners, is as many single steps |
| HttpParser.HttpParser.BodyRun | headers/crow/http_parser_merged.h:1723-1757 | Taking as much of the body as the buffer holds is as many single steps |
| HttpParser.HttpParser.ChunkRun | headers/crow/http_parser_merged.h:1851-1871 | Taking as much of a chunk as the buffer holds is as many single steps |
| HttpParser.DeliverTwice | headers/crow/parser.h:41-85 | Delivering a field name, value, url or body in two parts is delivering it at once |
| HttpParser.PendingGrows | headers/crow/http_parser_merged.h:731-750 | Moving the end of the marked data by some bytes adds exactly those bytes to what will be delivered |
| HttpRuns.BodyBytes | headers/crow/http_parser_merged.h:1723-1757 | k bytes of a sized body are delivered and counted down by k, so delivered plus remaining is constant |
| HttpRuns.BodyToEnd | headers/crow/http_parser_merged.h:1723-1757 | The last byte of a sized body completes the message |
| HttpRuns.ChunkBytes | headers/crow/http_parser_merged.h:1851-1871 | k bytes of a chunk are delivered and counted down by k; the state changes exactly at the last |
| HttpRuns.EofBytes | headers/crow/http_parser_merged.h:1760-1764 | A body without a length delivers whatever comes |
| HttpRequest.StoppedStays | headers/crow/http_parser_merged.h:706-709 | After an error or a halt further bytes change nothing |
| HttpSplit.StepPeeks | headers/crow/http_parser_merged.h:1275-1285 | The byte after the current one matters exactly for an `h` that begins an Upgrade value |
| HttpSplit.RunSuffix | headers/crow/http_parser_merged.h:633-1927 | A run over a concatenation is the run over its first part followed by the run over its second, unless the machine notices the cut |
| HttpSplit.RunPrefix | headers/crow/http_parser_merged.h:633-1927 | What follows a buffer does not change the run over it, unless the machine notices the cut |
| HttpSplit.CutMatters | headers/crow/http_parser_merged.h:1275-1285 | A cut changes the run if and only if it comes right behind an `h` that begins an Upgrade value and a `2` follows |
| HttpSplit.SliceFails | headers/crow/http_parser_merged.h:731-750 | A slice fails at the byte at which the whole fails, having delivered what is determined by where that slice begins |
| HttpSplit.Feed | headers/crow/parser.h:110-134 | `feed` ignores data after completion, and otherwise runs the machine over the buffer and reports its errors; a failing call leaves exactly what was delivered before the failing piece |
| HttpSplit.FeedSlices | headers/crow/parser.h:110-134 | Split invariance: fed in any non-empty slices whose cuts the machine does not notice, the parser ends as the bytewise run over the whole does; it fails exactly if that run does, with its error unless the run is over the header limit, and the request it leaves is then fixed by where the failing slice begins |
| HttpSplit.UpgradeCut | headers/crow/http_parser_merged.h:1275-1285 | The cut that is noticed: `h2` whole and `h`, `2` apart end with different flags |
| HttpPieces.PieceIs | headers/crow/http_parser_merged.h:731-750 | The bytes of a url, name, value or body that have been read so far, delivered to the request before it, make the request of the bytewise run |
| HttpPieces.SlicesAgree | headers/crow/http_parser_merged.h:731-750 | Two ways to slice a request that fails at a byte leave the same request if and only if the later beginning of the failing slice does not lie inside the piece that this byte continues |
| HttpCuts.CutInTarget | headers/crow/http_parser_merged.h:484-625 | A request that fails at a control character in its target is left with the part of the target before the cut, so different cuts leave different requests |
| HttpUpgrade.NoUpgradeNoPeek | headers/crow/http_parser_merged.h:1275-1285 | A text in which the word `upgrade` does not occur, in any case, may be cut anywhere |
| HttpUpgrade.UpgradeHeader | headers/crow/http_parser_merged.h:1275-1285 | After any text up to a header line, an Upgrade header whose value begins with `h2` is ignored whole and obeyed when cut between these bytes |
| HttpUpgrade.UpgradeFromStart | headers/crow/http_parser_merged.h:1275-1285 | The same for a whole text: a request line and an Upgrade header |
| HttpMethodWord.GuessedRight | headers/crow/http_parser_merged.h:769-864 | The guess of the method from a few letters is right for every method of the table, once enough letters are read |
| HttpMethodWord.MethodWord | headers/crow/http_parser_merged.h:769-864 | The name of any method and a space are read as that method |
| HttpRequestLine.Target | headers/crow/http_parser_merged.h:484-625 | A target in origin form, `*`, or absolute form with its scheme, authority and rest is delivered as the raw url |
| HttpRequestLine.RequestLineRead | headers/crow/http_parser_merged.h:866-1054 | A whole request line, its target in origin or absolute form, gives its method, target and version |
| HttpRequestLine.LeadingRead | headers/crow/http_parser_merged.h:769-776 | Line ends before a request are passed over and count against the header limit |
| HttpRequestLine.UrlInside | headers/crow/http_parser_merged.h:484-625 | Every prefix of such a target keeps the url states alive, through scheme, slashes and authority into the path |
| HttpNames.NameRecognised | headers/crow/http_parser_merged.h:1056-1222 | The keyword scanner knows after every name which keyword it is a beginning of |
| HttpNames.FramingNames | headers/crow/http_parser_merged.h:1106-1222 | Exactly `content-length`, `transfer-encoding`, `upgrade`, `connection` and `proxy-connection`, in any case, are recognised |
| HttpHeaderLines.TransferEncodingSeen | headers/crow/http_parser_merged.h:1186-1197 | `uses_transfer_encoding` is set exactly by names that begin with `transfer-encoding` |
| HttpHeaderLines.OrdinaryLine | headers/crow/http_parser_merged.h:1056-1578 | Any other header line, with a value or without, is delivered, leaves all that concerns the body alone, and adds to the flags exactly what it says as a Connection or an Upgrade line |
| HttpHeaderLines.UpgradeLine | headers/crow/http_parser_merged.h:1274-1285 | An Upgrade line whose value does not begin with `h` asks for another protocol |
| HttpHeaderLines.LengthLine | headers/crow/http_parser_merged.h:1300-1313 | A first Content-Length line fixes exactly the number it spells |
| HttpHeaderLines.ConnectionHeard | headers/crow/http_parser_merged.h:1319-1502 | The value of a Connection line asks to stay, or to close, if and only if it is `keep-alive`, or `close`, in any case and with nothing behind it but spaces |
| HttpHeaderLines.WordTail | headers/crow/http_parser_merged.h:1474-1502 | After every byte the scanner of a Connection value stands where the comparison with the word stands |
| HttpCodings.ListScanned | headers/crow/http_parser_merged.h:1439-1496 | Of all lists of codings with spaces behind the commas, the scanner recognises exactly those that end with `chunked`, unless the comma before it is lost behind a coding that is a beginning of `chunked` |
| HttpCodings.CodingsLine | headers/crow/http_parser_merged.h:1287-1302 | A Transfer-Encoding line with such a list announces chunks if and only if the list does |
| HttpCodings.CommaLost | headers/crow/http_parser_merged.h:1494-1496 | A list that ends with `chunked` and does not announce chunks |
| HttpTables.TokenTable | headers/crow/http_parser_merged.h:646-678 | The token characters, and their lower case, are the entries of the table |
| HttpTables.UrlTable | headers/crow/http_parser_merged.h:490-523 | The characters of a path and a query are those whose bit is set in the table |
| HttpTables.Userinfo | headers/crow/http_parser_merged.h:440-450 | The characters of user information, one by one |
| HttpTables.HeaderChars | headers/crow/http_parser_merged.h:459-461 | The characters of a header value: no control character but tab and line ends |
| HttpLengths.ContentLengthExact | headers/crow/http_parser_merged.h:1402-1436 | A value is accepted if and only if it is digits with trailing spaces and at most 2^64-7, and is then stored exactly and below the sentinel |
| HttpLengths.ChunkSizeExact | headers/crow/http_parser_merged.h:1786-1821 | A hex string is accepted as a chunk size if and only if it is at most 2^64-17, and is then stored exactly |
| HttpLengths.HighByteIsZero | headers/crow/http_parser_merged.h:1786-1821 | A byte from 128 up is read as the digit 0 |
| HttpLengths.UnhexIs | headers/crow/http_parser_merged.h:681-690 | The table has the value of each hexadecimal digit, small or capital |
| HttpLengths.UnhexNone | headers/crow/http_parser_merged.h:681-690 | and no value for any other ASCII character |
| HttpPayload.SizedBody | headers/crow/http_parser_merged.h:1723-1757 | A body of the declared length is delivered and completes the message at its last byte |
| HttpPayload.ChunkRead | headers/crow/http_parser_merged.h:1770-1888 | One chunk, with any extension, adds its data |
| HttpPayload.ChunksRead | headers/crow/http_parser_merged.h:1770-1888 | Any number of chunks add the concatenation of their data |
| HttpPayload.LastChunk | headers/crow/http_parser_merged.h:1580-1589 | The zero chunk and the empty trailer complete the message once, at their last byte |
| HttpRoundTrip.HeadersCollected | headers/crow/parser.h:49-93 | How header fields and values become headers: those with a value are kept in order, the last is still being assembled |
| HttpRoundTrip.KeptAll | headers/crow/parser.h:49-93 | No header is lost if and only if none but the last has an empty value |
| HttpRoundTrip.LastWord | headers/crow/parser.h:166-184 | What the connection does after the request, by its version and the words that its Connection lines say |
| HttpRoundTrip.RoundTrip | headers/crow/http_parser_merged.h:633-1927 | For every request with no, a sized or a chunked body, with or without line ends before it, parsing what was written gives method, target, version, kept headers and body back, and completes once, at the last byte; with an Upgrade line it completes and stops at the empty line. HTTP/1.1 stays open and is closed if and only if some Connection line says `close`; HTTP/1.0 stays open if and only if one says `keep-alive` and is closed otherwise; any other version does neither |
| HttpRoundTrip.UnchunkedRefused | headers/crow/http_parser_merged.h:1672-1701 | A request whose Transfer-Encoding announces no chunks is refused at the empty line, unless the parser is lenient and takes all that follows for its body |
| HttpRoundTrip.BothRefused | headers/crow/http_parser_merged.h:1590-1606 | A request with a Content-Length and a Transfer-Encoding is refused at the empty line, unless the switch for chunks beside a length is set, or, without chunks, the parser is lenient |
| HttpRoundTrip.FeedMessage | headers/crow/parser.h:110-134 | The parser object, fed a written request in any non-empty slices, has parsed exactly that request, and knows whether the connection stays open or changes its protocol |
| HttpSafety.StepSound | headers/crow/http_parser_merged.h:1580-1889 | Every step keeps the facts that the asserts state, or meets the one byte that fails one |
| HttpSafety.RunSound | headers/crow/http_parser_merged.h:1770-1889 | Over a whole buffer an assert fails if and only if a byte that fails one is met |
| HttpSafety.StepQuiet | headers/crow/http_parser_merged.h:1341-1395 | Only a NUL at the beginning of a Connection value leads to the state of the value loop that has no case, and outside that state no assert fails |
| HttpSafety.NulFailsAssert | headers/crow/http_parser_merged.h:1392-1395 | A Connection value that begins with a NUL fails one |
| HttpAsserts.AssertFails | headers/crow/http_parser_merged.h:1106-1578 | For every text, from the first byte on: an assert fails if and only if some header line named `connection` or `proxy-connection`, in any case, has a value that begins with a NUL, behind which, or behind folds, comes an accepted byte that is no line end, within the header limit |
| HttpAsserts.Traced | headers/crow/http_parser_merged.h:1106-1578 | A run that is in a header name, or in a Connection value that is still compared with nothing, got there by a line of exactly that text |
| HttpAsserts.NoNulBehind | headers/crow/http_parser_merged.h:1106-1578 | A text in which no NUL stands directly behind `connection`, a colon and white space fails no assert, wherever else it has NULs |
| HttpAsserts.FailsFromStart | headers/crow/http_parser_merged.h:1316-1395 | A whole text that fails it: a request line and such a Connection header |
| MustacheTree.FlatBracketed | headers/crow/mustache.h:412-566 | The flat program of a tree has well-bracketed jump targets that go forward |
| MustacheTree.FlatAppend | headers/crow/mustache.h:412-566 | The program of a list of nodes is the programs of its parts, one after the other |
| MustacheMeaning.LookupIs | headers/crow/mustache.h:88-151 | A name stands for a value if and only if the innermost object of the stack that has the name has this value, and for nothing if and only if none has it |
| MustacheMeaning.SectionMeans | headers/crow/mustache.h:265-330 | A section puts out nothing for a missing name, false, null and an empty list, its children once with the value on top of the stack for any other value, and once for each item of a list, in order; the inverted section puts out its children once in exactly the first four cases |
| MustacheMeaning.VariableMeans | headers/crow/mustache.h:222-264 | A variable puts out its text and its value, escaped or as it is, and nothing for a missing name |
| MustacheMeaning.EscapeShown | headers/crow/mustache.h:153-171 | What is escaped is shown as it was, by a reader of entities |
| MustacheMeaning.EscapeHarmless | headers/crow/mustache.h:153-171 | An escaped text has none of the special characters but the ampersands of its entities |
| MustacheRender.Template.FindContext | headers/crow/mustache.h:88-151 | The search down the stack finds the innermost object that has the name |
| MustacheRender.Template.EscapeInto | headers/crow/mustache.h:153-171 | Appends the text with its seven special characters replaced |
| MustacheRender.Template.RenderInternal | headers/crow/mustache.h:197-342 | Running a program that is the flat form of a tree, with its jumps, list recursion and context stack, appends exactly the tree's meaning, restores the stack, terminates, and fails if and only if the meaning is undefined |
| MustacheRender.Template.RenderString | headers/crow/mustache.h:401-409 | Rendering a compiled template in a context puts out the meaning of its tree and the text after its last tag |
| MustacheParse.SectionClosed | headers/crow/mustache.h:454-473 | Patching the jump target of the opening tag turns an open section into a closed one |
| MustacheParse.AfterClose | headers/crow/mustache.h:454-473 | A closing tag with the right name patches the program so that it is that of the grown tree; another name is refused |
| MustacheParse.ReadWell | headers/crow/mustache.h:412-566 | What is read of a template are its tags in the order of the text, and the tree they stand for |
| MustacheParse.ScanTags | headers/crow/mustache.h:412-566 | The loop succeeds if and only if every tag is well-formed and every closing tag fits; its fragments are the texts between the tags, its steps the program of the tree they stand for, and its error tells why reading stopped |
| MustacheCompile.TrimAround | headers/crow/mustache.h:570-621 | The two scanning loops cut exactly the line of a tag that stands alone on it |
| MustacheCompile.RemoveStandalones | headers/crow/mustache.h:568-622 | The backward pass over all tags cuts the fragments as the reference pass does |
| MustacheCompile.OnlyLinesCut | headers/crow/mustache.h:568-622 | Nothing but spaces and line ends is cut from the texts of a template, ends are cut only back to the beginning of a line, and nothing is cut around a variable |
| MustacheLines.LinesCut | headers/crow/mustache.h:568-622 | A tag takes its line with it if and only if it is no variable and between the beginning of a line, or of the text, and a line end, or the end of the text, there are only spaces around it; this is told by the template as it is written, whatever the pass has cut before |
| MustacheLines.PassCuts | headers/crow/mustache.h:569-621 | The backward pass over the tags, which changes the texts while it goes, decides at each tag as if it had changed none |
| MustacheCompile.RetextFlat | headers/crow/mustache.h:568-622 | Changing the texts of the flat program is changing those of the tree |
| MustacheCompile.Compile | headers/crow/mustache.h:412-622 | A text compiles if and only if its tags are well-formed and fit; if no section is left open, to the program of its tree with standalone lines removed |
| MustacheTemplate.RenderBody | headers/crow/mustache.h:401-622 | Compilation preserves meaning: every template with balanced tags, compiled and rendered, puts out what its section tree means in the given context, and throws if and only if that meaning is undefined |
| MustachePrint.TagRead | headers/crow/mustache.h:418-564 | A printed tag is read as that tag, whatever is around it |
| MustachePrint.SpacedRead | headers/crow/mustache.h:418-564 | Spaces around the name of a tag make no difference, and a name in three pairs of braces is one that is not escaped |
| MustachePrint.TagsRefused | headers/crow/mustache.h:418-564 | Which tags are refused, and for which reason, by the first pair of opening braces and the first pair of closing ones behind it |
| MustachePrint.GrownFlat | headers/crow/mustache.h:443-482 | The tags of a tree, read as brackets, stand for that tree |
| MustachePrint.PrintedTree | headers/crow/mustache.h:412-566 | Every tree, printed as a template, is read as that tree, with its own texts between the tags |
| RoutePattern.ScanFirst | headers/crow/routing.h:845-1006 | The reference search gives the smallest index among all rules that match, with that rule's own parameters |
| RoutePattern.EatAppend | headers/crow/routing.h:881-993 | Matching a pattern is matching its front and then the rest from there |
| RoutePattern.ScanPrefixed | headers/crow/routing.h:881-993 | Rules with a common front: it is matched once for all, or none matches |
| RoutePattern.ScanBetter | headers/crow/routing.h:857-867 | Searching part of the rules on its own and keeping the better result is searching them in the row |
| RouteFill.IntegerTaken | headers/crow/routing.h:881-921 | An integer parameter takes exactly a sign, zeros and decimal digits up to what is no digit, as the number that they spell, if and only if it is in range |
| RouteFill.UrlMatches | headers/crow/routing.h:881-993 | A url written for a pattern, with a number, a word or a path in each of its places, is matched with exactly these |
| RouteFill.UrlRefused | headers/crow/routing.h:890-911 | A number out of range is not taken |
| RouteFill.RuleIs | headers/crow/routing.h:1009-1088 | A rule written with its tags is parsed as its pattern |
| RouteFill.FindFilled | headers/crow/routing.h:1003-1092 | After `add` of a rule, `find` of a url written for it gives its index and what was written in its places |
| RouteFill.FindRefused | headers/crow/routing.h:1003-1092 | and none for a number out of range |
| RouteTrie.InsertTouch | headers/crow/routing.h:1009-1092 | Writing the index at the end of the walk is inserting the rule |
| RouteTrie.TouchMore | headers/crow/routing.h:1014-1088 | A missing child is appended, and the walk goes on in it |
| RouteTrie.InsertEntries | headers/crow/routing.h:1009-1092 | Insertion adds one rule to those of the trie and changes no other |
| RouteTrie.InsertDistinct | headers/crow/routing.h:1014-1088 | Siblings stay distinct |
| RouteTrie.EntryIndex | headers/crow/routing.h:1009-1092 | A rule of the trie is the one its pattern leads to |
| RouteTrie.IndexEntry | headers/crow/routing.h:1009-1092 | A pattern that leads to an index is a rule of the trie |
| RouteSearch.Trie.FindBelow | headers/crow/routing.h:845-1001 | The backtracking search finds what a scan through the rules below finds, and gives the shared parameters back as they were |
| RouteSearch.Trie.Find | headers/crow/routing.h:1003-1006 | `find` equals the linear scan |
| RouteSearch.MergeKeeps | headers/crow/routing.h:769-777 | Merging a simple node with its only child keeps its rules and makes it smaller |
| RouteSearch.OptimizeNode | headers/crow/routing.h:762-786 | Path compression of a node terminates, keeps its rules and leaves no simple node with a child |
| RouteSearch.Trie.Optimize | headers/crow/routing.h:756-760 | `optimize` changes no rule, so by `Find` no result |
| RouteSearch.Trie.Add | headers/crow/routing.h:1009-1092 | `add` fails if and only if the pattern that it follows in the tree has an index, and otherwise inserts that pattern; it is the pattern of the text if and only if no NUL of the text comes where a parameter stands before any literal NUL |
| RouteSearch.WalkedIs | headers/crow/routing.h:1066-1084 | The pattern followed is that of the text if and only if no NUL in it is taken for a parameter |
| RouteSearch.FrontNotMisread | headers/crow/routing.h:1290-1308 | Once a rule is inserted of which no NUL was taken for a parameter, none is in its text without the last piece |
| RouteSearch.NulTaken | headers/crow/routing.h:1066-1084 | A tree with one parameter takes the text of a single NUL for that parameter |
| RouteTable.PiecesWithoutSlash | headers/crow/routing.h:1290-1297 | The pattern without its trailing slash is the parsed pattern without its last piece |
| RouteTable.KnownIndex | headers/crow/routing.h:1089-1091 | The trie has an index for a pattern if and only if the pattern was added |
| RouteTable.SameFirst | headers/crow/routing.h:845-1006 | The order of the rules does not matter to the smallest index |
| RouteTable.PerMethod.AddPattern | headers/crow/routing.h:1009-1092 | One `add`, as a change to the list of rules added, for every text of which no NUL is taken for a parameter |
| RouteTable.PerMethod.AddRule | headers/crow/routing.h:1288-1314 | For every such text: a rule gets the next index and, with a trailing slash, a redirect; it succeeds if and only if neither pattern is known, and a failure leaves the part that was done |
| RouteTable.PerMethod.Validate | headers/crow/routing.h:837-842 | A trie with a simple head is compressed, any other refused |
| RouteTable.PerMethod.Handle | headers/crow/routing.h:1412-1447 | After any rules: not found if and only if no rule matches, redirected if and only if a redirect matches, otherwise the matching rule with the smallest index, with its own parameters |
| JsonText.UnescapeEscape | headers/crow/json.h:37-69 | Unescaping undoes escaping, for every byte string |
| JsonUnicode.Utf8Read | headers/crow/json.h:512-528 | The bytes put out for a code unit are read back as that code, in as few bytes as it can have, by a decoder made from the bit patterns of UTF-8 (section 3 of RFC 3629) |
| JsonUnicode.Utf8Bytes | headers/crow/json.h:512-528 | How many bytes a code has, and the ranges of the first and of the others |
| JsonUnicode.EscapesAre | headers/crow/json.h:915-945 | Exactly the eight letters, and four hexadecimal digits in both cases, make an escape sequence |
| JsonUnicode.PiecesRead | headers/crow/json.h:478-540 | A string of UTF-8 characters, short escapes and `\u` escapes, with digits in both cases, is unescaped to the UTF-8 of the codes it was written for |
| JsonUnicode.PiecesLoaded | headers/crow/json.h:900-958 | Such a string between quotes is loaded as that text |
| JsonUnicode.ReadText | headers/crow/json.h:451-540 | Through the buffer of the reader and `s()`, the codes come out that were written |
| JsonText.ScanEscape | headers/crow/json.h:900-958 | The scan for the closing quote stops exactly behind an escaped string |
| JsonText.IntBack | headers/crow/json.h:1930-1937 | The text of an integer has that integer's value |
| JsonText.IntScanned | headers/crow/json.h:1000-1124 | The number scanner reads a written integer to its end |
| JsonNumber.NumberExact | headers/crow/json.h:1000-1124 | Exactly these texts are numbers: a whole part, a point with or without digits behind it, and an exponent with a sign or a digit, with or without more; a zero takes an exponent only behind a point |
| JsonBuffer.StringValue.Unescape | headers/crow/json.h:478-540 | Rewriting the buffer in place gives the unescaped text, sets the flag before it, writes nowhere else, and does nothing the second time |
| JsonBuffer.StringValue.S | headers/crow/json.h:451-460 | `s()` gives the same string however often it is asked |
| JsonBuffer.UnescapeShorter | headers/crow/json.h:478-540 | The text gets shorter if and only if it has a backslash |
| JsonBuffer.ReadThroughCopy | headers/crow/json.h:295-318 | Reading a string and then an older copy of it agree if and only if there was nothing to unescape |
| JsonReader.Parser.DecodeString | headers/crow/json.h:900-958 | Accepts, and delimits, exactly what the reference decoder does, and leaves the meaning of the slice in the buffer |
| JsonReader.Parser.DecodeNumber | headers/crow/json.h:1000-1124 | The number states accept exactly the texts that the reference scanner accepts |
| JsonReader.Parser.DecodeItems | headers/crow/json.h:967-997 | The list loop reads the reference's items, which later writes in the buffer do not disturb |
| JsonReader.Parser.DecodeMembers | headers/crow/json.h:1189-1242 | The object loop reads the reference's members, keys unescaped in place |
| JsonReader.Parser.DecodeKey | headers/crow/json.h:1200-1216 | A key, unescaped in place, and its colon |
| JsonReader.Parser.DecodeValue | headers/crow/json.h:1127-1179 | One value, with the depth limit, as the reference reads it |
| JsonReader.Parser.Parse | headers/crow/json.h:1244-1252 | The destructive parser succeeds if and only if the reference does, and its slices mean the reference's value |
| JsonReader.LoadCopy | headers/crow/json.h:1258-1269 | `load` copies the text, accepts it if and only if the reference does, and its slices mean the value of the reference |
| JsonReader.Undisturbed | headers/crow/json.h:873-1256 | What is written elsewhere in the buffer does not change a value's meaning |
| JsonWriter.Text.EscapeInto | headers/crow/json.h:37-69 | The loop appends the escaped text |
| JsonWriter.Text.DumpInternal | headers/crow/json.h:1850-2025 | The writer appends the text of the value with its indentation |
| JsonRoundTrip.FitsNesting | headers/crow/json.h:873-877 | Depth grows by two for each level, so the limit of 10000 allows 5000 nested containers |
| JsonRoundTrip.DumpDecoded | headers/crow/json.h:1850-2025 | The text of a value, wherever it stands, is decoded to that value if it is not too deep, and refused otherwise |
| JsonRoundTrip.LoadDump | headers/crow/json.h:873-1257 | `load(dump(v))` is v, for every indentation, if and only if containers nest at most 5000 deep |
| JsonRoundTrip.DumpThenLoad | headers/crow/json.h:1258-1269 | Written into the writer's string and parsed in the reader's buffer, every value comes back if and only if it nests at most 5000 deep |
| JsonLookup.LowerBound | headers/crow/json.h:564-571 | Binary search finds the first key that is not less |
| JsonLookup.SignedOrder | headers/crow/json.h:206-237 | Keys are ordered by bytes that are signed |
| JsonLookup.ObjectValue.Has | headers/crow/json.h:548-572 | `has` agrees with a linear search, whatever has been cached, and only rearranges the members |
| JsonLookup.ObjectValue.At | headers/crow/json.h:639-674 | `operator[]` gives a member with the key if there is one and fails if and only if there is none, as in an empty object |
| JsonLookup.Children.EmplaceBack | headers/crow/json.h:720-738 | Growing is plain append, with the capacity that the source asks for; what remains fits its sixteen bits |
| WebSocketFrames.HeaderIsFrame | headers/crow/websocket.h:245-266 | The header written for any 64-bit length is that of a frame with that opcode and payload |
| WebSocketFrames.SwappedHalves | headers/crow/websocket.h:263 | Swapping the halves of a 64-bit length and the bytes in each of them puts its big-endian form into little-endian memory |
| WebSocketFrames.SwappedShort | headers/crow/websocket.h:257 | So does swapping the bytes of a 16-bit length |
| WebSocketFrames.HalfBits | headers/crow/websocket.h:263 | The mask, shifts and alternation of that conversion on 64-bit words, as numbers |
| WebSocketFrames.HeaderBits | headers/crow/websocket.h:324-548 | The masks of the two header bytes on 16-bit words, as numbers |
| WebSocketFrames.BigEndianBack | headers/crow/websocket.h:378-449 | The length fields are read as they were written |
| WebSocketFrames.MaskedTwice | headers/crow/websocket.h:555-563 | Unmasking undoes masking |
| WebSocketFrames.XorBits | headers/crow/websocket.h:554-562 | A bit of the masked byte is set if and only if the bits of the byte and of the mask differ |
| WebSocketFrames.CutCarries | headers/crow/websocket.h:564-600 | However a message is cut, its frames carry it and what follows carries what it did |
| WebSocketReader.HeaderRead | headers/crow/websocket.h:310-497 | The header states recover opcode, final bit, length and mask for every frame |
| WebSocketReader.PayloadRead | headers/crow/websocket.h:499-522 | The payload is assembled from pieces of any size |
| WebSocketReader.OneFrame | headers/crow/websocket.h:296-553 | A frame, however its bytes arrive, is handled with the payload it was made of |
| WebSocketReader.StreamRead | headers/crow/websocket.h:296-638 | Text, binary and continuation frames, masked or not, with pings and pongs between them and in pieces of any size: exactly the messages are handed over, in order, every ping is answered with its payload, and a pong is remembered |
| WebSocketReader.SendReceive | headers/crow/websocket.h:705-721 | What one side sends the other receives |
| WebSocketReader.CloseAnswered | headers/crow/websocket.h:601-622 | A close frame closes the connection; it is answered with its payload unless a close frame has been sent, and the handler is called with it unless it has been |
| WebSocketReader.TooLong | headers/crow/websocket.h:446-466 | A frame over the payload limit closes the connection before its payload is read, and no handler sees it |
| WebSocketConnection.Connection.OnRead | headers/crow/websocket.h:296-553 | The object's read handler is one step of the reader |
| WebSocketConnection.Connection.HandleFragment | headers/crow/websocket.h:555-638 | A whole fragment is unmasked and handled by its opcode, and cleared |
| WebSocketConnection.Connection.UnmaskFragment | headers/crow/websocket.h:557-563 | The loop unmasks the fragment in place |
| SessionCache.NothingLost | headers/crow/middlewares/session.h:366-442 | Over every interleaving, a session's entries are what the changes made through it, in order, make of those it had; beginning and ending requests changes nothing |
| SessionCache.SeenAfterSet | headers/crow/middlewares/session.h:267-276 | After `set` the request, and every other with its session, gets the value under that key; nothing else that any request gets has changed |
| SessionCache.SeenAfterApply | headers/crow/middlewares/session.h:284-295 | After `apply` they get what the function makes of the value that was there |
| SessionCache.SeenAfterRemove | headers/crow/middlewares/session.h:297-304 | After `remove` they get nothing |
| SessionCache.SeenLater | headers/crow/middlewares/session.h:374-442 | A request that begins with the id of an ended one gets what that one got; with an unknown id it gets nothing |
| SessionCache.OneSession | headers/crow/middlewares/session.h:371-402 | Requests with the same session share one node, whose `referrers` is the number of open requests that hold it |
| SessionCache.JoinValid | headers/crow/middlewares/session.h:375-382 | Joining a cached session keeps the invariant |
| SessionCache.LoadValid | headers/crow/middlewares/session.h:384-402 | Loading one, which moves its data out of the store, keeps the invariant |
| SessionCache.LastLeaves | headers/crow/middlewares/session.h:404-442 | The last request to leave stores the session and no entry changes |
| SessionCache.SharedLeaves | headers/crow/middlewares/session.h:404-409 | A request that leaves a shared session keeps the invariant |
| SessionCache.DraftLeaves | headers/crow/middlewares/session.h:410-435 | A new session is stored under its generated id |
| SessionCache.SessionMiddleware.BeforeHandle | headers/crow/middlewares/session.h:367-402 | Refines the beginning of a request on the plain map |
| SessionCache.SessionMiddleware.AfterHandle | headers/crow/middlewares/session.h:404-442 | Refines its end, with the id for the cookie |
| SessionCache.SessionMiddleware.Set | headers/crow/middlewares/session.h:269-276 | Changes that key of the session that the request sees, for all who share it, and nothing else |
| SessionCache.SessionMiddleware.Apply | headers/crow/middlewares/session.h:284-295 | Replaces the value of a key by a function of the value it has, for all requests that share the session, and changes nothing else |
| SessionCache.SessionMiddleware.Remove | headers/crow/middlewares/session.h:298-304 | Removes that key and nothing else, and makes no session for a request without one |
| SessionCache.SessionMiddleware.Get | headers/crow/middlewares/session.h:257-265 | Gives what the plain map has |
| SessionCache.SessionMiddleware.Perform | headers/crow/middlewares/session.h:257-442 | A run of any operations of concurrent requests through the middleware is the run of the plain map of sessions, and what a stored session holds at the end, in the cache or in the store, is what the changes made through it make of what it held |
| QueryText.EncodeBack | headers/crow/query_string.h:144-172 | Decoding undoes percent-encoding, for every byte string |
| QueryText.WrittenDecoded | headers/crow/query_string.h:144-172 | Whichever way each character is written, as itself, as a plus sign or as a percent sign with two digits in any case, the text is decoded, up to a delimiter or a bad escape |
| QueryText.EncodedValues | headers/crow/query_string.h:144-172 | The values that encoded pairs stand for under a name are those of the pairs they were made of |
| QueryText.KeyFound | headers/crow/query_string.h:52-93 | Comparing a plain name with an encoded key tells whether the key decodes to it |
| QueryText.QuerySegments | headers/crow/query_string.h:108-123 | The segments of a query are the texts of its pairs, as many as there is room for |
| QueryText.PairCooked | headers/crow/query_string.h:125-137 | A pair's segment ends as its key and its decoded value |
| QueryString.QueryString.QsDecode | headers/crow/query_string.h:144-172 | Decodes in place and touches nothing outside the value |
| QueryString.QueryString.FindPairs | headers/crow/query_string.h:105-123 | Finds where the segments begin |
| QueryString.QueryString.Untouched | headers/crow/query_string.h:125-137 | What is done to one segment leaves those done and those to come alone |
| QueryString.QueryString.QsParse | headers/crow/query_string.h:98-142 | After parsing, every segment of the query, and none but these, is in its place in its final form |
| QueryString.QueryString.SameAs | headers/crow/query_string.h:52-93 | The comparing loop agrees with the reference comparison |
| QueryString.QueryString.QsK2v | headers/crow/query_string.h:175-202 | Gives the nth match |
| QueryString.QueryString.Get | headers/crow/query_string.h:369-373 | Gives the first match |
| QueryString.QueryString.GetList | headers/crow/query_string.h:398-413 | Gives all matches in order |
| QueryString.MatchesAre | headers/crow/query_string.h:175-202 | The segments that match a name point at the decoded values of the pairs with that name, in order |
| QueryString.ReadPairs | headers/crow/query_string.h:98-202 | Written into a url and parsed in place, at most 256 pairs give `get` the first decoded value of a name and `get_list` all of them in order |
| QueryString.ReadEncoded | headers/crow/query_string.h:98-202 | Any NUL-free keys and values, percent-encoded into a url and parsed, come back as they were: the first value of a name and all of them in order |
| Multipart.HeaderParsed | headers/crow/multipart.h:213-256 | A written header line is read back with its parameters |
| Multipart.ParamParsed | headers/crow/multipart.h:239-268 | A parameter is read as its name and value, between quotes or without them, or as a value alone |
| Multipart.ParamsParsed | headers/crow/multipart.h:239-258 | A list of parameters, each spelled in any of these ways, is read as them; of those with the same name the first counts |
| Multipart.HeaderSpelled | headers/crow/multipart.h:217-258 | So is a header line with such a list |
| Multipart.SameKeyIs | headers/crow/ci_map.h:22-36 | Keys are the same if and only if they differ in the case of letters only |
| Multipart.NameIs | headers/crow/multipart.h:183-200 | The name of a part is what its first Content-Disposition line says, whatever the case of that key |
| Multipart.DumpFrame | headers/crow/multipart.h:95-112 | A message begins with its boundary behind two hyphens and ends with it between two and two more |
| Multipart.HeadersParsed | headers/crow/multipart.h:213-256 | The written headers of a part are read back, all of them and in order |
| Multipart.HeadEnds | headers/crow/multipart.h:200-206 | The first blank line is the end of the head |
| Multipart.PartParsed | headers/crow/multipart.h:200-211 | A written part is read back |
| Multipart.SectionsParsed | headers/crow/multipart.h:171-198 | The loop over sections reads the parts one after the other and enters each into the map under its name; it terminates, and fails if and only if a part has no name |
| Multipart.RoundTrip | headers/crow/multipart.h:96-198 | `parse_body(dump(m))` gives the parts, headers, parameters and bodies of m, and in `part_map` each of them under its name, if and only if every part has a Content-Disposition with a name; otherwise a name is looked up behind the end of a map |
| Multipart.PartFound | headers/crow/multipart.h:86-93 | In the message read back, looking up a name in any case of its letters gives a part with that name if there is one, so the only one if it is alone, and otherwise an empty part |
| Multipart.MapParts | headers/crow/multipart.h:130-141 | The constructor makes the map that reading back makes, if and only if every part has a name |
| Multipart.DumpMessage | headers/crow/multipart.h:96-127 | The writing loops produce the text that the round trip is about |
| Multipart.ParseMessage | headers/crow/multipart.h:171-198 | The loop that erases from the front of the body computes the parts and the map that the reference reader finds, or how it fails |
| Multipart.ParseSectionHead | headers/crow/multipart.h:213-256 | The loop that erases header lines from the front computes the headers that the reference reader finds |
| Sha1.SHA1.ProcessByte | headers/crow/TinySHA1.hpp:75-83 | Block, index and digest stand for the message with one byte more |
| Sha1.SHA1.ProcessBytes | headers/crow/TinySHA1.hpp:84-97 | However a message is cut, the state stands for its concatenation |
| Sha1.SHA1.ProcessBlock | headers/crow/TinySHA1.hpp:157-205 | The loops compute the compression function of section 6.1.2 of FIPS 180-4 |
| Sha1.SHA1.PadZeros | headers/crow/TinySHA1.hpp:101-116 | In every padding case the number of zero bytes is the one the standard asks for |
| Sha1.SHA1.GetDigest | headers/crow/TinySHA1.hpp:98-124 | The digest is that of the padded message, for every message under 2^29 bytes |
| Sha1.PadCountIs | headers/crow/TinySHA1.hpp:101-116 | The number of zero bytes is the smallest that leaves eight bytes of the last block for the length (section 5.1.1 of FIPS 180-4) |
| Sha1.LengthBytes | headers/crow/TinySHA1.hpp:113-120 | The last eight bytes are the length in bits, the highest byte first |
| Sha1.RoundConstants | headers/crow/TinySHA1.hpp:179-191 | The constants of the rounds are the integer parts of 2^30 times the roots of 2, 3, 5 and 10 |
| Sha1.InitialCounts | headers/crow/TinySHA1.hpp:65-71 | The bytes of the initial hash, as a rule |
| Sha1.RotatesOnce | headers/crow/TinySHA1.hpp:52-54 | Rotating by one takes the highest bit to the lowest place and every other one place up |
| Sha1.RotatesOften | headers/crow/TinySHA1.hpp:52-54 | Rotating by five is doing this five times, and rotating by thirty undoes doing it twice |
| Sha1.WordBytes | headers/crow/TinySHA1.hpp:159-164 | A word of a block has its highest byte first |
| Sha1.OneByte | headers/crow/TinySHA1.hpp:75-83 | How one byte more changes the blocks of a message and their digest |
| Sha1.ChoiceAgrees | headers/crow/TinySHA1.hpp:179-181 | The code's choice function is that of the standard |
| Sha1.MajorityAgrees | headers/crow/TinySHA1.hpp:185-187 | The code's majority function is that of the standard |
| Base64.SextetsOf | headers/crow/utility.h:570-604 | The quotients and remainders of the encoder are the digits, in base 64, of three bytes |
| Base64.EncoderBits | headers/crow/utility.h:570-604 | The masks, shifts and alternations of the encoder on bytes are these quotients, remainders and sums |
| Base64.DecoderBits | headers/crow/utility.h:652-692 | So are those of the decoder |
| Base64.Alphabets | headers/crow/utility.h:621-638 | The decoder has the index of every character of both alphabets, and takes any other for the first |
| Base64.Encode | headers/crow/utility.h:570-604 | The loop writes the encoding, padded to a multiple of four |
| Base64.Decode | headers/crow/utility.h:621-694 | The loop writes the decoded bytes, as many as the length arithmetic says |
| Base64.SizeBack | headers/crow/utility.h:640-650 | The output length is right in each residue case, with the padding and without |
| Base64.BytesBack | headers/crow/utility.h:652-692 | Each group of characters decodes to the bytes it was written from, so the whole does |
| Base64.RoundTrip | headers/crow/utility.h:570-694 | Decoding undoes encoding, in both alphabets, with the padding kept or stripped |
| Registry.TranscodingService.AddRtsp | TranscodingService.cpp:185-268 | Succeeds if and only if the uri is valid, the id and the path are new and mount points are there; adds the stream and its four factories, and otherwise changes nothing |
| Registry.TranscodingService.RemoveRtsp | TranscodingService.cpp:274-361 | Removes the stream, its factories and the clients whose uri contains its id; of the clients at mount points of channels without a slash in their id it leaves exactly those whose id and profile name do not begin with the removed id |
| Registry.TranscodingService.PathExists | TranscodingService.cpp:185-268 | The loop finds a registered path if and only if there is one |
| Registry.TranscodingService.RemoveClientWithId | TranscodingService.cpp:426-457 | Erasing while iterating leaves exactly the clients whose uri does not contain the id, each as often as before and in the same order |
| Registry.TranscodingService.RemoveClientWithClient | TranscodingService.cpp:395-424 | Erasing while iterating leaves exactly the clients with another handle, each as often as before and in the same order |
| Registry.TranscodingService.AddThenRemove | TranscodingService.cpp:185-361 | Remove undoes add |
| Registry.AddKeeps | TranscodingService.cpp:185-268 | Adding keeps streams and factories in step and paths distinct |
| Registry.RemoveKeeps | TranscodingService.cpp:274-361 | Removing a stream and its four mount points keeps streams and factories in step |
| Registry.FourTimes | TranscodingService.cpp:185-268 | There are four factories for each stream |
| Registry.RemoveUndoesAdd | TranscodingService.cpp:185-361 | Removing what was added gives back both maps |
| Registry.WithoutTells | TranscodingService.cpp:426-457 | A client is left if and only if it was there and its uri does not contain the id |
| Registry.WithoutKeepsOrder | TranscodingService.cpp:426-457 | Those that are left keep their order |
| Registry.WithoutClientCounts | TranscodingService.cpp:395-424 | A client is left, as often as it was there, if and only if its handle is another |
| Registry.WithoutClientKeepsOrder | TranscodingService.cpp:395-424 | and those that are left keep their order |
| Registry.RemovalReaches | TranscodingService.cpp:426-457 | For ids without a slash, removing a channel reaches a client at or below a mount point of another one if and only if the removed id begins that id or the name of the profile, or is found again below |
| Registry.OthersLeft | TranscodingService.cpp:426-457 | The clients at the mount points of other channels that are left are exactly those for which it does neither |
| Registry.OthersLost | TranscodingService.cpp:426-457 | The two families: ids that go on where the removed one ends, and removed ids that begin a profile name, as `s` does `second` |
| Registry.OwnDisconnects | TranscodingService.cpp:426-457 | The channel's own clients are always found |
| UriParts.MountInjective | UriParts.cpp:75-80 | A mount point tells its id and its profile |
| UriParts.MountsApart | UriParts.cpp:75-80 | Two ids share no mount point |
| UriParts.ParseUri | UriParts.cpp:37-80 | The statements that move through the text compute the reference parts, and refuse exactly a text without `//` |
| UriParts.ParseWritten | UriParts.cpp:37-80 | A written URI is taken apart into what it was written from, with the default port |
| UriParts.AtSignInPath | UriParts.cpp:45-60 | What becomes of a URI with an at sign in its path: host and path are taken for the user name |
| UriParts.ReadWithoutCredentials | UriParts.cpp:37-80 | A URI written without credentials is read back if and only if there is no at sign in it |

## Left out

- HTTP: `qs_point` and `req.url` (only the raw url is kept), F_SKIPBODY and callbacks that fail, wrap-around of the 32-bit `nread`, response parsing, bytes after the end of a message in the same buffer.
- HttpSplit.FeedSlices: once the whole is over the header limit, a slice may report another error, and the request it leaves is not fixed.
- HttpRoundTrip.RoundTrip: the written requests have one space after the colon, no folded lines, no CONNECT, no Upgrade value that begins with `h`, no Content-Length beside a Transfer-Encoding where a switch allows both, and no trailer headers; the machine itself has all of these.
- HttpRequest.OnHeaderField: a moved-from string is taken to be empty, and the multimap of headers is the list of its insertions.
- Mustache: partials, `=` delimiter changes, lambdas and dotted names; a closing tag with nothing open is an error here where the source has no check.
- RouteTable.PerMethod.AddRule: a rule with a NUL that is taken for a parameter; which pattern is then added, `RouteSearch.Trie.Add` says.
- Routing: blueprints, more than 65535 rules, the HTTP side of `handle`; `strtod` is a parameter that says how much it takes and whether it refuses; the pointer walk of `add` is a path into a tree of values.
- JSON: the value of fractions and exponents, `Function` values, `num_type`, overflow of the capacity at 2^30 children; `std::sort` is an insertion sort with the same contract.
- WebSocket: unclean shutdown, short reads of the two-byte header, the queue of writes.
- WebSocketFrames.BuildHeader: writes the big-endian bytes outright; `SwappedHalves`, `SwappedShort` and `HalfBits` tie these to the conversions on a little-endian machine, on which alone they are modelled.
- WebSocketReader.StreamRead: the frames fit the payload limit and no close frame is among them; `CloseAnswered` has the close frame and `TooLong` the frame over the limit.
- HttpCodings.CodingsLine: lists with a space before a comma, or with a tab or an underscore behind one.
- SessionCache.SessionMiddleware.AfterHandle: the generated id is taken to be new, and what a moved-from map holds is arbitrary; cookies, expiry and `FileStore` are not modelled.
- Locks: each operation of the session middleware and of the registry is one atomic step, as the mutexes make it.
- QueryString.ReadPairs: `pop`, `get_dict` and names with brackets are not modelled.
- Multipart: `get_boundary`, the message headers; a map is the list of its entries in iteration order.
- MultipartText.HeaderObject: of several headers with the same key the first one is found, where the library may find another; `PartByName` likewise.
- Registry.OthersLeft: ids with a slash in them; `WithoutTells` has the condition on the uri for every id.
- Base64.Decode: a text of fewer than two characters, where the source reads before its beginning, is excluded.
- Registry: GStreamer, RTSP callbacks and `checkUri`, whose verdict is an input; exceptions of the library.
- Not modelled, because it is I/O, a table or easy: `task_timer`, cookies, CORS, MIME types, compression, file stores, logging, compile-time templates.
