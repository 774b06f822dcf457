# The image server's HTTP stack: model and proofs

The repository is a server that receives images over a hand-written HTTP/1.0 stack, and the client
that sends them. This project models the code between the bytes on a socket and the images and
replies at either end, and proves what that code is for:

- **The wire codec.** The client prints a request with a multipart body of Base64 texts; the server
  undoes this with an incremental parser of 22 states, the search for the boundary, the splitting of
  the body and the Base64 decoder. `EndToEnd.PredictEndToEnd` puts the stages together: for every
  non-empty list of files whose names have no control characters, however the bytes are cut into
  reads and whatever follows them, the request is accepted at exactly its last byte and every image is
  decoded; the files are exactly those that were sent (the last of several with one name) if and only
  if no name has a quote. `ClientNames.DeliveredExactly` drops the condition on names: it says for
  arbitrary names, line ends and delimiters in them included, exactly which lists of files arrive.
  Each stage has its own exact statement: the parser accepts exactly a declarative request grammar
  (`RequestSoundness.ParserExact`), splitting gives back the files exactly if the boundary is not all
  dashes, no header line ends in the delimiter and no name has a quote
  (`MultipartBody.SplittingGivesFiles`), and re-encoding gives back exactly the canonical texts
  (`Base64.EncodeDecodeIffCanonical`).
- **The life of connections.** `Lifecycle` is a step system over completed operations; `Server` has the
  objects, whose handlers change them in place and are proved to be its steps. `Lifecycle` proves what
  holds on every run, `Shutdown` that shutdown drains within a bound that is reached. `StoredRuns`
  adds the store: on every run, what a connection has sent is what its request's route says of the
  store as it was when the request was complete, its first line is decided by the bytes received
  (`FirstLineSent`), the store holds exactly the predictions made, and the
  loop has ended by an exception exactly if what some connection sent makes it. `Service` says what the
  client is answered: the text of its prediction, or the texts of the predictions made before.
- **Replies and their content**, **the history store** and **the copy of an image into a tensor**.

Text is `seq<char>`, one `char` for each byte of a C++ string; bytes of images are numbers below 256.
A C++ exception is an explicit outcome (`Thrown`, `Threw`, `None`). Loops and objects of the source are
loops and classes here, each tied by its `ensures` to a function; the theorems are about those functions.

| file | what it models |
|---|---|
| `Text.dfy`, `Decimal.dfy` | `std::string::find`, lines, decimal printing, `std::stoul` |
| `Base64.dfy`, `LineBreaks.dfy` | `base64.cpp` |
| `Base64Bytes.dfy` | Base64 against its two tables, character by character, for every text |
| `RequestParser.dfy` | the parser as a function of one character, and the parser object |
| `RequestGrammar.dfy`, `RequestSoundness.dfy` | the request grammar, and that the parser accepts exactly it |
| `RequestBytes.dfy` | which bytes the parser takes in which state, and requests with any header |
| `UrlCodec.dfy`, `Multipart.dfy`, `RequestHandler.dfy` | `request_handler.cpp` |
| `MultipartBody.dfy` | multipart bodies, and exactly when splitting inverts them |
| `AnyNames.dfy` | the same for names that are arbitrary texts |
| `MultipartPieces.dfy` | splitting of any body whatever, against the pieces of its text |
| `BoundaryCut.dfy` | bodies that are read under another boundary than the one they are written with |
| `Reply.dfy`, `History.dfy` | `reply.cpp`, `historyStorage.cpp` |
| `ReplyBytes.dfy` | the bytes of replies, by the numbers of their statuses |
| `Client.dfy`, `EndToEnd.dfy`, `ClientNames.dfy` | `client.cpp`, and both ends together |
| `ClientBytes.dfy` | the bytes of the client's two requests, written out |
| `Lifecycle.dfy`, `Shutdown.dfy`, `Server.dfy` | `connection.cpp`, `connection_manager.cpp`, `server.cpp` |
| `StoredRuns.dfy` | the server with its store: every run |
| `Service.dfy` | what the client is answered on every run |
| `PlanarBlob.dfy` | `matU8ToBlob` |

Where the code differs from what it seems to mean, the model follows the code:

- Bytes from 128 on are neither characters nor control characters, because `char` is signed.
- A body ends only at a CRLF, at or past the announced length; a tab or any other control character in
  it is refused.
- The boundary ends at one of the letters and signs `/`, `r`, space and `;`, and keeps it
  (request_handler.cpp:200-204), although `\r` was surely meant. `BoundaryExact` and
  `BoundaryBeforeParameterExact` say which boundaries survive at the end of the header and before a
  further parameter; in the second case every ordinary boundary is lost and the request refused
  (`ParameterRefuses`). A boundary that is cut refuses every body, unless the delimiter lines happen to
  end in what is left of it (`CutBoundaryExact`); browsers' boundaries, which begin
  `----WebKitFormBoundary`, are cut at the `r` of `Form` (`BrowserBoundaryRefused`).
- The closing delimiter is not needed: a body that ends without it is split all the same
  (`OpenBodyAccepted`).
- `reset` is documented as going back to the initial state, but leaves both counters as they are: the
  parser then behaves like a new one if and only if it expected no body (`ResetExact`).
- Handles wrap at 2^32. Texts are lost exactly when two jobs that save have numbers equal modulo 2^32
  (`HistoryAgreesWithLog`, `OverwriteReached`); for one server, whose jobs all save at once, exactly from
  the prediction after 2^32 of them on (`PredictionsListed`).
- `url_decode` accepts escapes that are not two hexadecimal digits, as `IncompleteEscapeAccepted` shows;
  `UrlDecodeExact` says which, and what they stand for.
- The decoder never looks past the terminating NUL of a text whose length is no multiple of 4: every
  such read ends in the exception of `pos_of_char`. A text that lacks only the character after its
  padding is decoded (`ReadableLength`).

## Model

| member | source | states |
|---|---|---|
| Decimal.ToDecimalInjective | source/server/database/historyStorage.cpp:42 | `std::to_string` gives different handles different keys |
| Decimal.ValueOfToDecimal | source/client/client.cpp:220 | the value of a printed number is the number |
| Decimal.StoulToDecimal | source/server/server/request_parser.cpp:259 | `std::stoul` undoes decimal printing exactly for numbers of 64 bits, and throws for larger ones |
| Decimal.StoulReads | source/server/server/request_parser.cpp:259 | the value of every text of blanks, a sign or none, digits and a rest: the digits up to 2^64, negated modulo 2^64 after a minus sign, an exception beyond |
| Decimal.StoulReadsOnly | source/server/server/request_parser.cpp:259 | no other text has a value |
| Base64.EncodeText | source/common/utility/base64.cpp:104-153 | the encoder's loop, with its position of 32 bits, computes `Encode` and never wraps for inputs under 2^32 bytes |
| Base64.EncodeOneGroup | source/common/utility/base64.cpp:126-146 | one round pushes exactly the four characters of the next one, two or three bytes |
| Base64.EncoderTerminates | source/common/utility/base64.cpp:119-149 | the wrapping position reaches the end of n bytes if and only if n is under 2^32 |
| Base64.DecodeRound | source/common/utility/base64.cpp:195-212 | one round pushes the bytes of the next four characters, or throws |
| Base64.DecodeText | source/common/utility/base64.cpp:179-215 | the decoder's loop computes `Decode`, None being the exception, and reads no further than the terminator |
| Base64.PosOfSymbol | source/common/utility/base64.cpp:41-64 | `pos_of_char` inverts both alphabets, and padding is in neither |
| Base64.EncodeShape | source/common/utility/base64.cpp:106-109 | encoded length (n + 2) / 3 * 4, and only characters of the chosen alphabet and padding |
| Base64.DecodeEncode | source/common/utility/base64.cpp:104-153 | decoding undoes encoding, for all bytes and both alphabets |
| Base64.EncodeInjective | source/common/utility/base64.cpp:104-153 | different bytes have different encodings |
| Base64.EncodeDecodeIffCanonical | source/common/utility/base64.cpp:195-212 | decoding and encoding again gives back a text exactly if it is canonical (section 3.5 of RFC 4648): length, alphabet, padding only at the end, zero spare bits |
| Base64.StandardTextIsPlain | source/common/utility/base64.cpp:41-50 | standard Base64 has no dash, quote, control character or line end |
| Base64Bytes.SymbolInTable | source/common/utility/base64.cpp:41-50 | the symbol of a six-bit number is the character at its place in the table `A-Z a-z 0-9 + /` or `A-Z a-z 0-9 - _` |
| Base64Bytes.PosOfCharExact | source/common/utility/base64.cpp:52-64 | `pos_of_char` gives i if and only if the character is at place i of one of the two tables |
| Base64Bytes.PosOfCharNone | source/common/utility/base64.cpp:52-64 | it throws if and only if the character is in neither |
| Base64Bytes.EncodeExact | source/common/utility/base64.cpp:104-153 | every character of an encoding, from the bytes: the table at six of the 24 bits of its group (section 4 of RFC 4648), `=` or `.` where no bits are left |
| Base64Bytes.JpegStart | source/common/utility/base64.cpp:104-153 | the first three bytes of a JPEG file in both alphabets |
| Base64Bytes.DecodeExact | source/common/utility/base64.cpp:179-215 | every text, canonical or not: refused if and only if one of its groups is not readable, and else the bytes of the 24 bits of each group |
| Base64Bytes.ReadableLength | source/common/utility/base64.cpp:195-212 | a text that is decoded has whole groups, or lacks one character after final padding |
| LineBreaks.InsertLinebreaks | source/common/utility/base64.cpp:66-82 | the loop ends although the text grows, and breaks it after every `distance` characters |
| LineBreaks.RemoveLinebreaks | source/common/utility/base64.cpp:168-173 | the loop erases exactly the line feeds |
| LineBreaks.DecodeTextLines | source/common/utility/base64.cpp:162-177 | decoding with line breaks removed, with the empty text apart |
| LineBreaks.EncodeWithLineBreaks | source/common/utility/base64.cpp:84-97 | PEM and MIME output for their line lengths 64 and 76 |
| LineBreaks.BrokenLines | source/common/utility/base64.cpp:66-82 | all lines but the last have length `distance`, the last has 1 to `distance`, and together they are the text |
| LineBreaks.BreaksRemoved | source/common/utility/base64.cpp:162-177 | erasing the line feeds undoes breaking |
| LineBreaks.DecodeBrokenEncode | source/common/utility/base64.cpp:162-177 | decoding PEM or MIME output, or plain output, gives the bytes back |
| RequestParser.FeedConcat | include/server/server/request_parser.hpp:38-50 | feeding two buffers is feeding their concatenation, and nothing after a verdict matters |
| RequestParser.SegmentationIndependence | include/server/server/request_parser.hpp:34-50 | however the stream is cut into reads: same verdict, same byte, same request |
| RequestParser.StepInvariant | source/server/server/request_parser.cpp:186-326 | one character keeps: a header where the last one is used, counter equal to the body's length, expected length equal to what the last Content-Length says, also over folded lines |
| RequestParser.FeedInvariant | source/server/server/request_parser.cpp:186-326 | from a configuration with that invariant, the one reached has it if and only if no exception was thrown |
| RequestParser.ReachableInvariant | source/server/server/request_parser.cpp:17-334 | every configuration that a new parser reaches has it, accepting and refusing ones included, except after the exception |
| RequestParser.Parser.constructor | source/server/server/request_parser.cpp:17-20 | a new parser is at the method with zero counters |
| RequestParser.Parser.Reset | source/server/server/request_parser.cpp:22-25 | only the state is restored |
| RequestSoundness.ResetExact | source/server/server/request_parser.cpp:22-25 | a reset parser with a new request gives the verdicts of a new parser on all texts if and only if it expected no body |
| RequestParser.Parser.ConsumeRequestLine | source/server/server/request_parser.cpp:31-185 | the states of the request line, in place, make the specified step |
| RequestParser.Parser.ConsumeHeaders | source/server/server/request_parser.cpp:186-297 | the states of the headers, in place, make the specified step, with the exception of `stoul` |
| RequestParser.Parser.ConsumeBody | source/server/server/request_parser.cpp:298-330 | the states of the body, in place, make the specified step |
| RequestParser.Parser.Consume | source/server/server/request_parser.cpp:27-334 | parser and request together make the specified step |
| RequestParser.Parser.Parse | include/server/server/request_parser.hpp:38-50 | the loop over a buffer reports the verdict, the bytes used and the configuration of `Feed` |
| RequestGrammar.WellFormedAccepted | source/server/server/request_parser.cpp:27-334 | printing any message of the grammar and parsing it accepts at its end, with the fields it denotes, whatever follows |
| RequestSoundness.AcceptedWellFormed | source/server/server/request_parser.cpp:27-334 | whatever is accepted begins with a message of the grammar |
| RequestSoundness.ParserExact | source/server/server/request_parser.cpp:27-334 | accepted at k if and only if the first k bytes are a message of the grammar, and the request is what it denotes |
| RequestSoundness.MessagesPrefixFree | source/server/server/request_parser.cpp:27-334 | no message is a proper prefix of another, and equal bytes denote equal requests |
| RequestSoundness.RefusedForever | source/server/server/request_parser.cpp:27-334 | no beginning of a message is refused: what is refused could not have become one |
| RequestSoundness.BodyFraming | source/server/server/request_parser.cpp:282-330 | after headers announcing N > 0 bytes, accepted at k if and only if k is the first line end at or past N and control characters before it are only in CRLF pairs; the body stored is those k bytes |
| RequestBytes.MethodBytes | source/server/server/request_parser.cpp:31-57 | in a method: bytes 33 to 126 outside the listed separators, then a space; every other byte is refused |
| RequestBytes.UriBytes | source/server/server/request_parser.cpp:58-72 | in a target: everything but bytes 0 to 31 and 127, up to a space |
| RequestBytes.VersionBytes | source/server/server/request_parser.cpp:73-185 | in the version: these letters, digits, dot and line end only |
| RequestBytes.HeaderNameBytes | source/server/server/request_parser.cpp:186-242 | at a header line and in its name: the same bytes as in a method, besides the separators of the state |
| RequestBytes.HeaderValueBytes | source/server/server/request_parser.cpp:204-281 | in values and continuation lines: everything but control bytes |
| RequestBytes.BodyBytes | source/server/server/request_parser.cpp:298-330 | in a body: no control byte but a CRLF |
| RequestBytes.HeaderAccepted | source/server/server/request_parser.cpp:27-334 | a request with one header of any name of such bytes and any value without control bytes is accepted, with that header |
| RequestBytes.HostAccepted | source/server/server/request_parser.cpp:27-334 | so is one with a Host header |
| UrlCodec.Decode | source/server/server/request_handler.cpp:151-188 | the loop computes `UrlDecode`, with hexadecimal stream input as the library reads it |
| UrlCodec.DecodeEncoding | source/server/server/request_handler.cpp:151-188 | decoding undoes every percent-encoding (section 2.1 of RFC 3986), and the length shrinks by twice the escapes |
| UrlCodec.DecodedIsEncoding | source/server/server/request_handler.cpp:151-188 | a text with complete escapes is decoded, and is an encoding of the result |
| UrlCodec.DecodeIffEncoding | source/server/server/request_handler.cpp:151-188 | e encodes p if and only if e has complete escapes and decodes to p |
| UrlCodec.IncompleteEscapeAccepted | source/server/server/request_handler.cpp:161-167 | two incomplete escapes that the code accepts all the same |
| UrlCodec.HexValueExact | source/server/server/request_handler.cpp:161-163 | the sixteen hexadecimal digits, in both cases |
| UrlCodec.HexValueNone | source/server/server/request_handler.cpp:161-163 | no other character is a digit |
| UrlCodec.ScanHexReads | source/server/server/request_handler.cpp:161-163 | for every two characters: what `>> std::hex >>` reads from a text of any length, with its blanks, sign and prefix 0x |
| UrlCodec.NoDigitRefused | source/server/server/request_handler.cpp:163-171 | an escape of two characters that are no digits is refused, whatever follows |
| UrlCodec.UrlDecodeExact | source/server/server/request_handler.cpp:151-188 | every target: it decodes to p if and only if each `%` is followed by two characters from which the stream reads a number, stored modulo 256, and each `+` is a space |
| Multipart.RetrieveMultipartBoundary | source/server/server/request_handler.cpp:190-207 | what follows the first `boundary=`, through the first stop character |
| Multipart.RetrieveFilename | source/server/server/request_handler.cpp:263-278 | the text from `filename="` to the next quote, or failure |
| Multipart.RetrieveImage | source/server/server/request_handler.cpp:280-295 | the line after the first blank line, or failure |
| Multipart.RetrieveEntry | source/server/server/request_handler.cpp:227-236 | name and content of one part, failing if either is missing |
| Multipart.RetrieveParts | source/server/server/request_handler.cpp:222-259 | the loop over the parts and the last part, with one extra byte each and the rest of the text if nothing closes it |
| Multipart.RetrieveImages | source/server/server/request_handler.cpp:209-261 | the map from names to texts, or failure |
| MultipartBody.FileMapLastWins | source/server/server/request_handler.cpp:237 | the map has exactly the given names, each with its last content |
| MultipartBody.DashesCommute | source/server/server/request_handler.cpp:213-214 | the closing line can contain the delimiter only if the boundary is all dashes |
| MultipartBody.SplittingExact | source/server/server/request_handler.cpp:209-261 | splitting a printed body gives all its entries, names cut at the first quote, if the boundary is not all dashes and no name line ends in the delimiter; otherwise it fails |
| MultipartBody.SplittingGivesFiles | source/server/server/request_handler.cpp:209-261 | splitting gives back exactly the files if and only if, moreover, no name has a quote |
| MultipartBody.ClippingExact | source/server/server/request_handler.cpp:272-276 | cutting names at quotes changes the files if and only if a name has a quote |
| MultipartBody.EmptyBody | source/server/server/request_handler.cpp:216-219 | a body without parts is refused |
| MultipartBody.OpenBodyAccepted | source/server/server/request_handler.cpp:246-251 | a body that ends after its last part, or inside the line after it, is split into its files all the same |
| MultipartBody.SeparableBoundary | source/server/server/request_handler.cpp:213-214 | a boundary that is not all dashes and does not end in a quote separates whatever the names are |
| MultipartBody.BoundaryRead | source/server/server/request_handler.cpp:194-205 | the boundary is read through the first stop character |
| MultipartBody.BoundaryExact | source/server/server/request_handler.cpp:194-205 | a boundary at the end of the value is read back if and only if no character before its last is a stop |
| MultipartBody.BoundaryBeforeParameter | source/server/server/request_handler.cpp:200-204 | before a further parameter, the semicolon becomes part of a boundary without stop characters |
| MultipartBody.BoundaryBeforeParameterExact | source/server/server/request_handler.cpp:200-204 | before a further parameter, a boundary is read back if and only if its last character and no other is a stop |
| MultipartBody.ParameterRefuses | source/server/server/request_handler.cpp:194-219 | so the body of a request with a further parameter, for a boundary without stop characters, is refused |
| BoundaryCut.BoundaryWhole | source/server/server/request_handler.cpp:194-205 | a rest of the header without `/`, `r`, space and `;` is the boundary |
| BoundaryCut.BoundaryCutAt | source/server/server/request_handler.cpp:194-205 | otherwise the boundary goes through the first of these four characters |
| BoundaryCut.ReadUnderOther | source/server/server/request_handler.cpp:209-261 | a body written with one boundary and read under another gives its files if its delimiter lines end in the other delimiter, and is refused otherwise |
| BoundaryCut.CutBoundaryExact | source/server/server/request_handler.cpp:194-261 | a boundary with one of the four characters: what is read of it, and the files come back if and only if the delimiter lines end in that |
| BoundaryCut.CutBoundaryRefuses | source/server/server/request_handler.cpp:194-261 | so every body is refused whose boundary has such a character but not as its last |
| BoundaryCut.CutBoundaryRoute | source/server/server/request_handler.cpp:56-80 | and so is every request with such a body |
| BoundaryCut.BrowserBoundaryRefused | source/server/server/request_handler.cpp:194-261 | the boundary of a browser is read as `----WebKitFor`, and every body with it is refused |
| MultipartPieces.BetweenExact | source/server/server/request_handler.cpp:263-295 | what is found between two patterns, for any text: the first opening one, and the first closing one after it |
| MultipartPieces.EntryExact | source/server/server/request_handler.cpp:227-236 | what is read from any part: the first quoted name, and the line after the first blank line |
| MultipartPieces.PiecesExact | source/server/server/request_handler.cpp:222-245 | the pieces of a text between its delimiters make up the text, and no delimiter begins in any of them |
| MultipartPieces.ImagesExact | source/server/server/request_handler.cpp:209-261 | any body whose pieces after the first are all parts gives the files of these parts, the last of a name winning |
| MultipartPieces.RefusedExactly | source/server/server/request_handler.cpp:209-261 | a body is refused if and only if it has no delimiter or one of these pieces is no part |
| AnyNames.FindInPart | source/server/server/request_handler.cpp:222-245 | a delimiter or blank line occurs in a part either inside its name or after it, never across the quotes |
| AnyNames.EntryOfAnyName | source/server/server/request_handler.cpp:227-236 | for any name without a quote: the name, and the line after the first blank line, which may be in the name |
| AnyNames.SplittingAnyNames | source/server/server/request_handler.cpp:209-261 | for arbitrary names without quotes: every entry as it is seen, if no name contains a delimiter, nor the last one a closing one; otherwise refusal |
| AnyNames.ImagesKeysFree | source/server/server/request_handler.cpp:237 | whatever is split, no name found has a quote |
| Reply.ReplyObject.SetStockReply | source/server/server/reply.cpp:242-253 | status, page, and headers with the page's length |
| Reply.ReplyObject.Complete | source/server/server/request_handler.cpp:113-120 | text is appended to the content, whose whole length the header states |
| Reply.ReplyObject.ToBuffers | source/server/server/reply.cpp:103-118 | the buffers together are status line, header lines, blank line and content |
| Reply.ContentRecovered | source/server/server/reply.cpp:103-118 | the content is what follows the first blank line of the bytes |
| Reply.ReplyFramed | source/server/server/reply.cpp:242-253 | every reply states its content's length as `stoul` reads it, and the content is found again, also with bytes after it |
| Reply.StockRepliesFramed | source/server/server/reply.cpp:199-253 | so does each of the stock replies |
| ReplyBytes.StatusLine | source/server/server/reply.cpp:20-51 | protocol, three digits of the status number and reason phrase, for every status |
| ReplyBytes.StockPage | source/server/server/reply.cpp:122-197 | number and reason are in the page of every stock reply but 200 and 204 |
| ReplyBytes.CodeRead | source/server/server/reply.cpp:103-118 | the three digits after `HTTP/1.0 ` in the bytes of any reply are the number of its status |
| ReplyBytes.StatusRead | source/server/server/reply.cpp:55-92 | the first twelve bytes of two replies are equal if and only if their statuses are |
| ReplyBytes.WireBytes | source/server/server/reply.cpp:103-118 | all bytes of a reply with its two headers |
| ReplyBytes.ServedBytes | source/server/server/request_handler.cpp:113-143 | all bytes of a reply that serves a text |
| ReplyBytes.RefusalBytes | source/server/server/reply.cpp:158-162 | all bytes of the reply that refuses a request |
| History.HistoryStorage.GenerateHandle | source/server/database/historyStorage.cpp:35-39 | handles count up and wrap at 2^32: the step `Generate` of every run that has led to this store |
| History.HistoryStorage.Save | source/server/database/historyStorage.cpp:41-44 | the text is stored under the decimal handle and nothing else changes: the step `Save` of every run in which a job has this handle |
| History.HistoryStorage.GetAll | source/server/database/historyStorage.cpp:46-50 | the whole hash |
| History.ListValues | source/server/server/request_handler.cpp:131-133 | going through the hash in any order visits every value once |
| History.HistoryAgreesWithLog | source/server/database/historyStorage.cpp:35-50 | in every interleaving of jobs, handles are distinct if and only if at most 2^32 were generated; the stored texts are, with multiplicity, those that were saved if and only if no two jobs that saved have numbers equal modulo 2^32 |
| History.SecondSaveOverwrites | source/server/database/historyStorage.cpp:41-44 | two jobs with one handle leave only the second text |
| History.OverwriteReached | source/server/database/historyStorage.cpp:35-44 | a run of 2^32 + 1 generations and two saves that loses the first text |
| History.PredictionsListed | source/server/server/request_handler.cpp:109-134 | the store that predictions leave, one after another, holds each of their texts, as often as it was made, if and only if there were at most 2^32 |
| RequestHandler.FindBoundary | source/server/server/request_handler.cpp:62-69 | the last Content-Type header decides, but each must name a boundary |
| RequestHandler.DecodeImages | source/server/server/request_handler.cpp:89-98 | every image is decoded, or the exception leaves |
| RequestHandler.SaveResult | source/server/server/request_handler.cpp:109-110 | a fresh handle is taken and the text stored under it |
| RequestHandler.HandleRequest | source/server/server/request_handler.cpp:38-149 | for every request, the answer of its route, the reply that this answer makes, and the store after it: only a prediction that does not throw changes it, by one record |
| RequestHandler.BoundaryFromExact | source/server/server/request_handler.cpp:62-69 | which boundary the headers name: that of the last Content-Type header, if each of them names one |
| RequestHandler.RouteExact | source/server/server/request_handler.cpp:38-149 | the history is listed if and only if the target decodes to `/history`; images are predicted if and only if it decodes to `/predict`, the headers name a non-empty boundary and the body splits into these images; everything else is refused |
| RequestHandler.ConcatTexts | source/server/server/request_handler.cpp:130-134 | the texts one after another |
| Client.WriteBody | source/client/client.cpp:178-208 | the stream holds the lines of a multipart body with every file |
| Client.SendPredict | source/client/client.cpp:177-223 | the bytes sent are the printed prediction message, with the body's length in decimal |
| Client.SendHistory | source/client/client.cpp:259-268 | the bytes sent are the printed history message |
| ClientBytes.BodyBytes | source/client/client.cpp:196-208 | the body, with every literal of the client |
| ClientBytes.PredictBytes | source/client/client.cpp:217-223 | all bytes of a prediction request |
| ClientBytes.HistoryBytes | source/client/client.cpp:265-268 | all bytes of a history request |
| EndToEnd.PredictWellFormed | source/client/client.cpp:210-223 | the client's message is one of the grammar for all names without control characters |
| EndToEnd.PredictRouted | source/server/server/request_handler.cpp:56-101 | what that message denotes takes the prediction route and gives every file's bytes |
| EndToEnd.RoutedByBody | source/server/server/request_handler.cpp:56-80 | with the client's head, the route is prediction if and only if the body can be split |
| EndToEnd.PredictEndToEnd | source/server/server/request_handler.cpp:56-101 | printing, any cutting into reads, parsing, boundary, splitting and decoding give every file's bytes under its name, the last of a name winning; exactly the files sent if and only if no name has a quote |
| EndToEnd.HistoryEndToEnd | source/client/client.cpp:265-268 | the client's history request is accepted at its end and lists the history |
| ClientNames.BodyFramed | source/server/server/request_parser.cpp:298-330 | a body's control characters are paired if and only if those of the names are |
| ClientNames.PredictAcceptedExactly | source/client/client.cpp:177-223 | for arbitrary names, any cutting into reads and anything after it, the client's request is accepted, at its end, if and only if control characters occur in names only as CRLF pairs |
| ClientNames.SeenFiles | source/server/server/request_handler.cpp:89-98 | the texts read decode to the files if and only if, for the last file of each name, a blank line in the name is followed by the file itself |
| ClientNames.DeliveredExactly | source/server/server/request_handler.cpp:56-101 | for arbitrary names, the server has exactly the files sent if and only if there are files, no name has a quote, an unpaired control character or a delimiter, the last one no closing delimiter, and a blank line only where the file itself follows |
| ClientNames.BlankLineHarmless | source/server/server/request_handler.cpp:284-293 | a name with a blank line in it whose file still arrives: the line after the blank line decodes to it |
| Lifecycle.NextOk | source/server/server/connection.cpp:34-103 | every step keeps the invariant of connections, live set and accepts |
| Lifecycle.AfterOk | source/server/server/server.cpp:58-91 | so does every run |
| Lifecycle.ReadDataOk | source/server/server/connection.cpp:52-83 | a read before the verdict leaves the parser where all bytes so far lead it, and starts one read or one write |
| Lifecycle.LiveAreOutstanding | source/server/server/connection_manager.cpp:18-35 | on every run no connection has two operations outstanding; before the stop the live connections are exactly those with one, and exactly one accept is outstanding |
| Lifecycle.OneReply | source/server/server/connection.cpp:58-75 | on every run the request handler is called once if the bytes received contain a whole request and else never; at most one reply is sent, and its length header is right |
| Lifecycle.NotFedAfterVerdict | source/server/server/connection.cpp:54-82 | when a read handler runs, the parser has not reached a verdict |
| Lifecycle.ReplyKept | include/server/server/reply.hpp:52-55 | while a write is outstanding its buffers refer to the reply as it is, and no step changes it |
| Lifecycle.ReadSizes | include/server/server/connection.hpp:67 | a read ends with 1 to 1048576 bytes |
| Shutdown.RunDrains | source/server/server/server.cpp:67-91 | after the stop every handler that runs lowers the work left, which bounds every run |
| Shutdown.WorkEnables | source/server/server/server.cpp:49-56 | a handler can run if and only if work is left: the loop neither hangs nor ends early |
| Shutdown.WorkAtStop | source/server/server/server.cpp:84-91 | stopping empties the live set and leaves at most two handlers for each live connection and one for the accept |
| Shutdown.ShutdownDrains | source/server/server/server.cpp:67-91 | whatever came before: after the stop nothing is live, created or started; at most one accept handler, at most two handlers of a live connection and none of another run; at most 1 + 2 * live in all; and the loop rests exactly when nothing is outstanding |
| Shutdown.BoundReached | source/server/server/connection.cpp:47-103 | a run that reaches the bound: a read already queued, its handler's next read failing, and the accept |
| Server.Connection.constructor | source/server/server/connection.cpp:21-27 | a connection begins closed, with a new parser, request and reply |
| Server.Connection.Start | source/server/server/connection.cpp:34-40 | a read is started |
| Server.Connection.Stop | source/server/server/connection.cpp:42-45 | the socket is closed: what waits is aborted, what has ended keeps its result |
| Server.Connection.Respond | source/server/server/connection.cpp:64-67 | the request's answer, the reply it makes, its write, and the store after it |
| Server.Connection.ReceiveData | source/server/server/connection.cpp:52-83 | parsing, handling, replying and starting the next operation, in place, are the step `ReadData`, with the answer and the store that the request determines |
| Server.Connection.HandleRead | source/server/server/connection.cpp:47-88 | the read handler on data, abortion and failure; only data change the store |
| Server.Connection.HandleWrite | source/server/server/connection.cpp:90-103 | the write handler stops the connection unless aborted |
| Server.ConnectionManager.Start | source/server/server/connection_manager.cpp:18-22 | the connection becomes live and reads |
| Server.ConnectionManager.Stop | source/server/server/connection_manager.cpp:24-28 | the connection is no longer live, and closed |
| Server.ConnectionManager.StopAll | source/server/server/connection_manager.cpp:30-35 | every live connection is closed and none is live |
| Server.Server.constructor | source/server/server/server.cpp:18-47 | the server begins in an initial world of the step system |
| Server.Server.StartAccept | source/server/server/server.cpp:58-65 | a new connection, and an accept on it |
| Server.Server.HandleAccept | source/server/server/server.cpp:67-82 | the accept handler is the step `HandleAccept`, with a connection never seen before |
| Server.Server.HandleStop | source/server/server/server.cpp:84-91 | the stop handler is the step `HandleStop` |
| Server.Server.StopConnections | source/server/server/server.cpp:90 | live connections are closed, the others stay as they are |
| Server.Server.ReadOne | source/server/server/connection.cpp:47-88 | the read handler of one connection changes no other |
| Server.Server.RunRead | source/server/server/server.cpp:49-56 | the loop's call of a read handler is the step `HandleRead` of the whole server, and of its store what the request asks for |
| Server.Server.RunWrite | source/server/server/server.cpp:49-56 | the loop's call of a write handler is the step `HandleWrite` of the whole server |
| Service.PartOfMessage | source/server/server/request_parser.cpp:27-334 | a proper beginning of a message is neither accepted nor refused |
| Service.NothingBeforeTheEnd | source/server/server/connection.cpp:47-88 | on every run, while part of a message is missing, the request handler is not called and nothing is sent |
| Service.PredictServed | source/server/server/connection.cpp:54-68 | on every run, a connection that has received the client's prediction request has called the handler once, with a request whose images are every file sent, exactly so if and only if no name has a quote |
| Service.FilesServedExactly | source/server/server/connection.cpp:54-68 | on every run, for arbitrary names: the handler has been called with exactly the files sent if and only if the names fit |
| StoredRuns.StepTruthful | source/server/server/connection.cpp:47-103 | every step of the server with its store keeps: what was sent for a complete request fits its route and the store it was asked of, and the store is what the predictions made leave |
| StoredRuns.HistoryTruthful | source/server/server/server.cpp:49-56 | so does every run |
| StoredRuns.StoreHoldsPredictions | source/server/server/request_handler.cpp:106-134 | on every run, the predictions made are those of the connections that sent a whole prediction request on which nothing threw, each once; the store's values are their texts, with multiplicity, if and only if there are at most 2^32 |
| StoredRuns.CrashedExactly | source/server/server/connection.cpp:54-64 | on every run, the loop has ended by an exception if and only if some connection sent a Content-Length that is no number, or a prediction whose images cannot be decoded or analysed |
| StoredRuns.AnsweredFromStore | source/server/server/connection.cpp:58-68 | on every run, what was sent for a complete request is what its route says of the store in the very step that completed it, and that step changed the store as the request says |
| StoredRuns.UnroutedRefused | source/server/server/request_handler.cpp:144-148 | on every run, a complete request for neither route has been sent exactly the 400 reply, and its step has left the store as it was |
| StoredRuns.FirstLineSent | source/server/server/connection.cpp:58-75 | on every run, the bytes sent begin `HTTP/1.0 400 Bad Request` if and only if what was received is refused or asks for neither route, `HTTP/1.0 200 OK` if and only if it is served, and nothing has been sent if and only if a part is missing or an exception left the loop |
| StoredRuns.HistoryListed | source/server/server/request_handler.cpp:122-143 | on every run, a listing has every text that the store held in that step; up to 2^32, those of exactly the predictions made before; it leaves the store as it was |
| Service.PredictAnswered | source/server/server/connection.cpp:58-68 | on every run, a connection that has received the client's request has sent exactly the bytes that serve the text made of its files, which the client finds after the blank line and the store has recorded; nothing if the pipeline threw |
| Service.FilesAnswered | source/server/server/connection.cpp:58-68 | the same for arbitrary names that fit: the answer for exactly the files sent |
| Service.HistoryServed | source/server/server/connection.cpp:54-68 | on every run, the client's history request has been handled once and asks for the listing |
| Service.HistoryAnswered | source/server/server/connection.cpp:58-68 | on every run, a connection that has received the client's history request has sent the bytes that serve the listing of the store in the step that completed it, and the client finds it after the blank line |
| PlanarBlob.CopyGray | include/server/PersonPipeline/ocv_common.hpp:41-46 | two loops write the one plane of the slot and nothing else |
| PlanarBlob.CopyColour | include/server/PersonPipeline/ocv_common.hpp:47-55 | three loops write the three planes of the slot and nothing else |
| PlanarBlob.MatU8ToBlob | include/server/PersonPipeline/ocv_common.hpp:22-59 | the slot at the computed offset becomes the planes of the image, resized if its size differs, and all else is unchanged; both errors change nothing |
| PlanarBlob.CellHoldsPixel | include/server/PersonPipeline/ocv_common.hpp:51-52 | cell (c, h, w) holds channel c of pixel (h, w) |
| PlanarBlob.BlobCell | include/server/PersonPipeline/ocv_common.hpp:47-55 | after the copy, place offset + c * width * height + h * width + w of the tensor has value (h * width + w) * channels + c of the image |
| PlanarBlob.BlobElsewhere | include/server/PersonPipeline/ocv_common.hpp:41-55 | and no place outside the slot has changed |
| PlanarBlob.CellsApart | include/server/PersonPipeline/ocv_common.hpp:51 | different cells have different places |
| PlanarBlob.PlaceHasCell | include/server/PersonPipeline/ocv_common.hpp:51 | every place of the slot is the place of a cell |
| PlanarBlob.PlanesInvert | include/server/PersonPipeline/ocv_common.hpp:47-55 | the interleaved image can be read back from its slot |
| PlanarBlob.OffsetExact | include/server/PersonPipeline/ocv_common.hpp:39 | the offset is the product cut to an `int`, and the true one if and only if the product is under 2^31 |
| PlanarBlob.SlotsApart | include/server/PersonPipeline/ocv_common.hpp:39 | slots of different batches do not overlap |
| PlanarBlob.BatchesCoexist | include/server/PersonPipeline/ocv_common.hpp:39-55 | two images written to different batches can both be read back |

## Left out

- Sockets, the resolver, signals and the event loop's scheduling: an operation ends with data, aborted or failed, at any time, and handlers run one at a time in any order.
- Inference, image decoding, resizing and the combination of JSON results: one function from the decoded images to a text or an exception; resizing is a parameter of the copy.
- The Redis transport: the hash is a map. A restart, after which handles begin again at 0, is not modelled.
- Opening and reading files, checking paths (`formRequest`), connecting and reading the response in the client; the names and bytes of the files are its inputs.
- Logging, command lines, MIME tables beyond the two types used, crop rectangles and `fetchResults`.
- The order in which an `unordered_map` is traversed: the history reply is the texts in some order, and images are given to the pipeline as a map.
- RequestParser.Parser.ConsumeRequestLine: version numbers are unbounded, where the source's `int` overflows; before the version is read they are arbitrary, as they are uninitialised.
- RequestParser.Parser.ConsumeBody: the body counter does not wrap at 2^64.
- Base64.EncodeText: inputs of 2^32 bytes or more, on which the source does not end, as `EncoderTerminates` shows.
- LineBreaks.InsertLinebreaks: distance 0, on which the source does not end; its callers use 64 and 76.
- MultipartBody.SplittingGivesFiles: names with line ends in them, which `AnyNames.SplittingAnyNames` has for boundaries without quotes and not of dashes only; boundaries with line ends in them, which no header can carry.
- Lifecycle.LiveAreOutstanding: once an exception has left a handler, which `CrashedExactly` characterises, the loop has ended and no further step is modelled.
- Lifecycle.NextOk: the partial writes of one asynchronous write are not steps; the stop says which writes were between two of them, and these fail instead of being aborted.
- PlanarBlob.MatU8ToBlob: negative batch indices, and tensors without room for the slot, where the source writes out of bounds.
