# Verified models of s3s

s3s is an S3 service framework. This project models the parts of it whose correctness is least obvious
and proves what they are meant to guarantee, for every input, every run or every reachable state.

- **The streaming multipart parser** (`crates/s3s-multipart`). `StreamBuffer.dfy` and `Multipart.dfy` hold
  the mutable classes; every method is proved to change state as a pure step function does
  (`Stream.dfy`, `Lines.dfy`, `Machine.dfy`, `Taken.dfy`). `Grammar.dfy` is an independent one-shot parse
  of a whole body. `Refinement.dfy` and `Walks.dfy` prove that the streaming parser agrees with it however
  the bytes arrive; `Padding.dfy`, `Suspensions.dfy`, `Deliveries.dfy` and `Resumptions.dfy` find exactly the
  bodies for which a suspension can matter; `Tours.dfy`, `Accounts.dfy` and `Ledger.dfy` cover arbitrary
  clients and every reachable state; `Clients.dfy` is a driver on the mutable parser. `RoundTrip.dfy` says in
  bytes which bodies are accepted, and `Truncation.dfy`, `Trailers.dfy` and `FieldLines.dfy` what becomes of
  cut bodies, of strictly closed streams and of header lines. `Disposition.dfy` reads `Content-Disposition`
  values, and `Parameters.dfy` says in bytes what it reads.
- **The router compiler** (`codegen`). `Router.dfy` and `Dispatcher.dfy` model the plan builder and the
  emitted dispatcher and prove it equal to a first-match chain; `Routes.dfy` starts from the routes of a
  group; `Resolver.dfy` says exactly when the answers are the chain's, and that the most specific rule wins;
  `Chain.dfy` says what the chain answers, from the fields of the routes.
- **The wildcard matcher** of policies (`Pattern.dfy`).
- **Listing and multipart uploads on a file system** (`crates/s3s-fs`). `Tree.dfy` and `Listing.dfy` cover
  the walks, the merge and pagination, and `Pages.dfy` says what a page shows, from the request's fields and
  the paths of the files; `Uploads.dfy`, `UploadRuns.dfy` and `FileStore.dfy` cover the upload lifecycle under
  failing removals and writes, and `UploadResults.dfy` what the calls answer and whose bytes an object holds.
- **Two code generator transformations**: the cfg-gated merge of two files (`Merge.dfy`,
  `MergeFiles.dfy`, `MergeLayout.dfy`) and the dependency closure behind the serialisation derives
  (`Serde.dfy`, `SerdeTable.dfy`).

`Bytes.dfy`, `Errors.dfy`, `Headers.dfy`, `Delimiter.dfy` and `Order.dfy` hold what these share.

Four results say that something does not hold in full, and exactly when it does:

- A suspension behind the transport padding of a boundary line makes the parser read the rest of the line
  afresh. `Resumptions.SuspensionIndependence` gives the exact condition on the bytes of a body under which no
  delivery changes its parse; `Deliveries.SuspensionCanMatter` shows a body for every boundary that is
  rejected in one piece and accepted when suspended. The condition is finer than that the strict and the
  lenient reading agree, as `Padding.ReadingsDifferUnreached` shows.
- A plain route that requires headers and exactly a shared tag with its member is compiled as a family rule
  that ignores the headers. `Routes.ExactWhen` proves that only then are the feature vectors inexact. The
  answer is still the chain's unless no earlier rule shadows that rule: `Resolver.AnswersExactWhen`.
- A base group that the minio file lacks is emitted without a gate, so minio sees it too.
  `MergeFiles.MinioSeesItsOwn` gives the exact condition.
- A struct can derive serialisation although a struct enum in its field cannot:
  `Serde.EnumFieldsDeriveWhen` says when it can.

Streams are sequences of events (a chunk, a suspension, an error; then the end). Bytes are integers below
256, sizes and counters unbounded integers. A bit mask is the set of its bit positions.

## Model

| member | source | states |
|---|---|---|
| `Walks.ChunkIndependence` | crates/s3s-multipart/src/multipart.rs:137-400 | For every body and every split of it into chunks without suspension, reading all parts gives the headers, data and final outcome of the one-shot parse of the concatenated bytes |
| `Walks.ResumeSafety` | crates/s3s-multipart/src/multipart.rs:172-321 | With any suspensions and empty chunks the outcome is that of the strict one-shot parse or of the lenient one, and it is the strict one unless that rejects the format |
| `Resumptions.SuspensionIndependence` | crates/s3s-multipart/src/multipart.rs:192-284 | Every delivery of a body, with suspensions and tolerated empty chunks anywhere, gives the strict one-shot parse if and only if the body has no exposed line within reach: padding before closing dashes on a boundary line that the strict parse comes to, malformed only by that padding, and not already held by a header block |
| `Resumptions.PausedParse` | crates/s3s-multipart/src/multipart.rs:214-218 | For every other body, pausing the stream right behind that padding makes the parse the lenient one |
| `Suspensions.InsensitiveParse` | crates/s3s-multipart/src/multipart.rs:262-284 | Without an exposed line within reach every delivery, also one that fails, gives the strict parse of what it delivers |
| `Padding.SensitiveIsRejected` | crates/s3s-multipart/src/multipart.rs:192-231 | Only bodies that the strict parse rejects for their format have an exposed line within reach, and their two readings differ |
| `Padding.ReadingsDifferUnreached` | crates/s3s-multipart/src/header.rs:154-165 | Different readings alone are not enough: a header block that a bare line feed ends for the header library, while it is read to its blank line past the dashes, keeps every suspension away from the padding |
| `Walks.ReadAllReads` | crates/s3s-multipart/src/multipart.rs:100-260 | The same from every reachable parser state: what the remaining reads give is what the grammar says of the bytes ahead |
| `Walks.ReadPartReads` | crates/s3s-multipart/src/part.rs:50-118 | Reading one part gives the fields of its header block, or fails at a name that is not UTF-8, and the bytes up to the leftmost delimiter, and leaves the parser behind that delimiter |
| `Walks.ReadDataReads` | crates/s3s-multipart/src/multipart.rs:323-400 | Repeated data reads give exactly the bytes before the leftmost delimiter of everything still to come, or the error the ending dictates |
| `Walks.AwaitPartAwaits` | crates/s3s-multipart/src/multipart.rs:100-170 | Waiting through suspensions hands out the next part, or ends, or fails, as the bytes ahead say |
| `Deliveries.DeliveryDoesNotMatter` | crates/s3s-multipart/src/buffer.rs:71-181 | Suspensions anywhere and runs of at most 1024 empty chunks anywhere leave the parse of a body without an exposed line within reach unchanged |
| `Deliveries.StalledStream` | crates/s3s-multipart/src/buffer.rs:64-110 | A longer run of empty chunks is a stream failure, wherever the run stands |
| `Padding.ReadingsDiffer` | crates/s3s-multipart/src/multipart.rs:192-231 | The strict and the resumed reading of a boundary line differ exactly on padding followed by dashes |
| `Deliveries.SuspensionBehindPadding` | crates/s3s-multipart/src/multipart.rs:214-218 | A suspension right behind the padding of such a line makes the resumed reading come true |
| `Deliveries.SuspensionCanMatter` | crates/s3s-multipart/src/multipart.rs:262-284 | For every boundary there is a malformed body that is rejected in one piece and accepted when the stream suspends behind the padding |
| `Tours.EachPartOnce` | crates/s3s-multipart/src/multipart.rs:137-170 | On every body that ends well each part is handed out exactly once and in order, whatever mix of headers and data the client reads before dropping each part, and whether or not the names it skips are readable; and the walk ends |
| `Tours.UseKeeps` | crates/s3s-multipart/src/header.rs:136-195 | A client's header or data read does not change what lies ahead; it fails only as the bytes ahead say |
| `Ledger.EveryReachableState` | crates/s3s-multipart/src/buffer.rs:79-92 | In every state that any calls reach, failed ones included: held headers, resumed searches and waiting parts are consistent with the buffer, the delivered bytes are the consumed prefix, the buffer and the chunks to come, with `consumed()` the prefix length, and the buffer is at most max(header limit, delimiter length - 1) plus one chunk |
| `Ledger.AttemptKeeps` | crates/s3s-multipart/src/multipart.rs:28-55 | Every single call, whatever it answers, consumes only a front part of what was left, counts it, and keeps the buffer bound |
| `Ledger.NextPartDrains` | crates/s3s-multipart/src/multipart.rs:137-170 | The part walk loses, repeats and miscounts no byte, also when it fails or suspends |
| `Ledger.DoneForGood` | crates/s3s-multipart/src/multipart.rs:137-170 | After the end every sequence of calls leaves the parser as it is, and the answer stays that there is no part |
| `Accounts.EveryUnfailedState` | crates/s3s-multipart/src/multipart.rs:28-55 | As long as no call fails, held headers are moreover the block the grammar has at this place, and the account is of the body up to the first stream failure |
| `Accounts.MakeKeeps` | crates/s3s-multipart/src/multipart.rs:301-434 | Every call that does not fail keeps that invariant and the buffer bound and moves on in the body |
| `Taken.ClosingsAgree` | crates/s3s-multipart/src/final_part_data_stream.rs:113-295 | At whatever point a taken stream is made strict, it drains successfully with data D only if, in every delivery, the parser yields D for the part and the next `next_part` answers that there is none; and exactly then, if the delivery does not suspend or leaves no exposed line within reach behind the part |
| `Taken.TwoClosings` | crates/s3s-multipart/src/final_part_data_stream.rs:174-235 | The strict trailer accepts exactly the bytes after which the part walk ends without another part |
| `Taken.PollNextAnswers` | crates/s3s-multipart/src/final_part_data_stream.rs:267-295 | Each poll of the strict stream yields the next bytes before the leftmost delimiter, or ends or fails as the remaining bytes say |
| `Taken.DrainAllDrains` | crates/s3s-multipart/src/final_part_data_stream.rs:113-172 | Draining the strict stream through suspensions gives the data and verdict of the remaining bytes |
| `Taken.PollSomeKeeps` | crates/s3s-multipart/src/part_data_stream.rs:84-157 | Polling the plain stream any number of times and then making it strict changes neither the total data nor the verdict |
| `Taken.FailedNeverSucceeds` | crates/s3s-multipart/src/part_data_stream.rs:84-157 | Once a poll of a taken stream has reported an error, draining it fails, however often it is polled before it is made strict |
| `Taken.OverForGood` | crates/s3s-multipart/src/final_part_data_stream.rs:267-295 | A strict stream that has reported an error or its end reports only its end, however often it is polled |
| `Taken.TakenLength` | crates/s3s-multipart/src/multipart.rs:412-434 | When any calls have led to a part's data and the strict stream taken there succeeds, the delivered body's length = bytes consumed before + data length + boundary length + 8 + closing padding |
| `Trailers.StrictExactly` | crates/s3s-multipart/src/final_part_data_stream.rs:113-295 | At whatever point a taken stream is made strict, it drains successfully exactly when the bytes ahead are the data without CR LF `--boundary`, those bytes, `--`, padding and CR LF up to the end of the stream, and it yields just those data |
| `Trailers.StrictVerdict` | crates/s3s-multipart/src/final_part_data_stream.rs:174-235 | Otherwise the bytes behind the first separator say how it fails: another part or bytes behind the closing line, a malformed line, or an incomplete one |
| `Trailers.NoSeparator` | crates/s3s-multipart/src/part_data_stream.rs:84-157 | Without a separator ahead the part is incomplete |
| `RoundTrip.AcceptedExactly` | crates/s3s-multipart/src/multipart.rs:176-260 | The strict parse of a whole body ends well with certain parts if and only if the body is, byte for byte, a preamble without `--boundary`, that boundary, and per part padding, CR LF, a readable header block, data without CR LF `--boundary`, and those bytes; then `--`, padding and CR LF (section 5.1.1 of RFC 2046) |
| `RoundTrip.PrintThenParse` | crates/s3s-multipart/src/multipart.rs:176-321 | Such a body, followed by any bytes and ended in any way, gives exactly its parts in both readings, and then the end, the complaint about the bytes behind it, or the stream's failure |
| `RoundTrip.PrintDeliverParse` | crates/s3s-multipart/src/delimiter.rs:65-77 | The same through the streaming parser, however the written body is delivered, with a preamble of whole lines |
| `Truncation.Truncated` | crates/s3s-multipart/src/multipart.rs:176-400 | Every proper front part of an accepted body fails, however the stream stops there: with the format error in front of the end of the first `--boundary`, as incomplete behind it; the parts given before are parts of the body |
| `Truncation.WrongLine` | crates/s3s-multipart/src/multipart.rs:192-231 | A boundary followed by anything but padding, CR LF or two dashes is a format error |
| `Truncation.TooLarge` | crates/s3s-multipart/src/buffer.rs:131-181 | A header block whose blank line does not end within the limit is reported as too large, with the limit |
| `Delimiter.HoldBackSafe` | crates/s3s-multipart/src/delimiter.rs:18-40 | For every continuation: a reported match is the leftmost of all bytes, no delimiter starts in emitted bytes, at least one byte is emitted, and less than a delimiter is retained |
| `Delimiter.HoldBackTight` | crates/s3s-multipart/src/delimiter.rs:18-40 | Above the threshold some continuation completes a delimiter at the first retained byte, so no shorter tail would do |
| `Delimiter.DelimiterPrefixSuffixLen` | crates/s3s-multipart/src/delimiter.rs:42-63 | The early-exit loop returns the longest proper delimiter prefix that is a suffix of the haystack |
| `Delimiter.DelimiterShape` | crates/s3s-multipart/src/boundary.rs:30-60 | In the delimiter of a valid boundary CR and LF stand only at the front; the first boundary holds neither |
| `Refinement.NextPartWalks` | crates/s3s-multipart/src/multipart.rs:137-170 | Each call of the part walk moves to what the one-shot parse has next, or stops as it does |
| `Refinement.StrictOrLenient` | crates/s3s-multipart/src/multipart.rs:192-231 | The two readings of a whole body agree unless the strict one rejects the format |
| `Refinement.AfterBoundaryStepped` | crates/s3s-multipart/src/multipart.rs:192-231 | Reading a boundary line agrees with the grammar; a suspension may only turn the strict reading into the lenient one |
| `Refinement.EnsureHeadersStepped` | crates/s3s-multipart/src/header.rs:167-195 | Reading a header block, through any suspensions and resumed searches, yields the block the grammar has at this place |
| `Refinement.SkipPartDataStepped` | crates/s3s-multipart/src/multipart.rs:402-410 | Skipping unread data, through suspensions, changes nothing about what lies ahead behind the part |
| `Stream.SearchOnReads` | crates/s3s-multipart/src/buffer.rs:131-181 | The resumed-cursor search finds the leftmost needle of all bytes, or fails as the size limit and the ending dictate, however the bytes arrive |
| `Stream.ReadHeaderBlockReads` | crates/s3s-multipart/src/buffer.rs:241-258 | The header block ends at its first blank line, or right away when the part has no header |
| `Stream.ReadToReads` | crates/s3s-multipart/src/buffer.rs:189-230 | Discarding all but a tail of the preamble still finds the leftmost first boundary of all bytes |
| `Stream.PollDelivers` | crates/s3s-multipart/src/buffer.rs:71-118 | One poll delivers the next bytes, or a suspension that used up an answer, or the end or failure of the stream exactly when no byte is left before it |
| `Lines.NextDataReads` | crates/s3s-multipart/src/multipart.rs:323-400 | Data is handed out up to the leftmost delimiter of all bytes to come, each item non-empty unless it is the last |
| `Lines.ConsumePaddingEnds` | crates/s3s-multipart/src/multipart.rs:262-284 | Padding and line end are consumed as the grammar reads them; a suspension may leave the padding consumed |
| `Lines.BoundaryReads` | crates/s3s-multipart/src/multipart.rs:192-231 | The boundary line is read as closing dashes or a line end exactly as the grammar does |
| `Lines.EpilogueReads` | crates/s3s-multipart/src/multipart.rs:241-260 | Only the end of the stream may follow the closing line |
| `Headers.ParseHeaderBlockFallback` | crates/s3s-multipart/src/header.rs:90-123 | Blocks with more fields than are kept: the line loop yields the first fields, trimmed, with every span inside the block |
| `FieldLines.FallbackReads` | crates/s3s-multipart/src/header.rs:90-132 | On any lines: if each of the first three holds a name without a colon, a colon, padding, a value and padding, the block has just these names and values, and the data start behind it; if one of the first three has no colon or no name, the block is malformed |
| `FieldLines.SurplusFields` | crates/s3s-multipart/src/header.rs:45-132 | A part that starts with more lines than the header library takes has the fields of the first three, and its data start behind the blank line |
| `FieldLines.FieldOrNot` | crates/s3s-multipart/src/header.rs:103-117 | Every line is one or the other |
| `Headers.ParsedBlockInside` | crates/s3s-multipart/src/header.rs:45-77 | All spans and the data start of a parsed block lie inside it |
| `Headers.TrimOws` | crates/s3s-multipart/src/utils.rs:18-34 | The two narrowing loops leave the span between the first and the last byte that is not optional whitespace |
| `StreamBuffers.StreamBuffer.PollStream` | crates/s3s-multipart/src/buffer.rs:71-118 | The new buffer state and answer are those of the pure poll, with both empty-chunk limits |
| `StreamBuffers.StreamBuffer.PollReadUntil` | crates/s3s-multipart/src/buffer.rs:131-181 | The in-place search loop equals the pure resumed search, with its cursor and active flag |
| `StreamBuffers.StreamBuffer.PollReadTo` | crates/s3s-multipart/src/buffer.rs:189-230 | The in-place preamble scan equals the pure one, with what it keeps of each chunk |
| `StreamBuffers.StreamBuffer.PollReadHeaderBlock` | crates/s3s-multipart/src/buffer.rs:241-258 | The in-place header block read equals the pure one |
| `StreamBuffers.StreamBuffer.PollEnsureLen` | crates/s3s-multipart/src/multipart.rs:301-321 | The buffer is filled to a length, or the pure outcome is reported |
| `StreamBuffers.StreamBuffer.PollConsumeCrlf` | crates/s3s-multipart/src/multipart.rs:286-299 | A CRLF is split off, or the pure outcome is reported |
| `StreamBuffers.StreamBuffer.PollConsumePaddingAndCrlf` | crates/s3s-multipart/src/multipart.rs:262-284 | The padding loop consumes what the pure function does, also when it suspends |
| `StreamBuffers.StreamBuffer.PollBoundaryLine` | crates/s3s-multipart/src/multipart.rs:192-231 | The branches on a boundary line change the buffer as the pure step does |
| `StreamBuffers.StreamBuffer.PollNextData` | crates/s3s-multipart/src/multipart.rs:323-400 | The data loop hands out and retains what the pure function does |
| `StreamBuffers.StreamBuffer.PollEpilogue` | crates/s3s-multipart/src/multipart.rs:241-260 | The epilogue check equals the pure step |
| `Multiparts.Multipart.constructor` | crates/s3s-multipart/src/multipart.rs:75-98 | A new parser is in its start state with a fresh buffer |
| `Multiparts.Multipart.PollNextPart` | crates/s3s-multipart/src/multipart.rs:137-170 | The looping method keeps the class invariant and equals the pure part walk; after the stream was taken it only fails |
| `Multiparts.Multipart.PollAdvanceAfterBoundary` | crates/s3s-multipart/src/multipart.rs:192-231 | State and buffer change as in the pure step |
| `Multiparts.Multipart.PollEnsureHeaders` | crates/s3s-multipart/src/header.rs:167-195 | Headers are held exactly as in the pure step |
| `Multiparts.Multipart.FinishHeaders` | crates/s3s-multipart/src/header.rs:154-165 | The block is split off and the data phase begins |
| `Multiparts.Multipart.NextHeaderInner` | crates/s3s-multipart/src/header.rs:136-152 | The next field is handed out, or the headers end |
| `Multiparts.Multipart.PollNextPartDataChunk` | crates/s3s-multipart/src/multipart.rs:323-400 | The next data chunk, with state and buffer as in the pure step |
| `Multiparts.Multipart.PollSkipPartData` | crates/s3s-multipart/src/multipart.rs:402-410 | The skipping loop equals the pure one |
| `Multiparts.Multipart.PollNextHeader` | crates/s3s-multipart/src/part.rs:50-54 | A client's header read equals the pure client step |
| `Multiparts.Multipart.PollNextData` | crates/s3s-multipart/src/part.rs:56-64 | A client's data read equals the pure client step |
| `Multiparts.Multipart.TakeDataStream` | crates/s3s-multipart/src/multipart.rs:412-434 | The buffer moves to the new stream with the consumed count, and the parser is left without buffer and finder; in any other state, also after the stream was taken, nothing is handed over |
| `Multiparts.PartDataStream.PollData` | crates/s3s-multipart/src/part_data_stream.rs:88-157 | The plain stream's poll equals the pure one |
| `Multiparts.PartDataStream.IntoFinal` | crates/s3s-multipart/src/part_data_stream.rs:84-86 | The strict stream takes over buffer, progress and failure |
| `Multiparts.FinalPartDataStream.PollNext` | crates/s3s-multipart/src/final_part_data_stream.rs:267-295 | The nested poll loops equal the pure strict stream, with its terminated flag |
| `Multiparts.FinalPartDataStream.PollTrailerStep` | crates/s3s-multipart/src/final_part_data_stream.rs:174-235 | Each turn of the trailer loop equals the pure step |
| `Clients.CollectPart` | fuzz/src/lib.rs:151-198 | The reading loop over one part equals the pure reading of it |
| `Clients.ParseBody` | fuzz/src/lib.rs:151-198 | The whole driver, on the mutable parser, returns the one-shot parse of the bytes delivered if the stream does not suspend or the body has no exposed line within reach, and otherwise that or the lenient one |
| `Disposition.ParseQuoted` | crates/s3s-multipart/src/content_disposition.rs:116-151 | The bulk scan and the escape-flag scan stop at the first quote with an even number of backslashes before it |
| `Disposition.ParameterOf` | crates/s3s-multipart/src/content_disposition.rs:92-114 | Whatever follows a parameter is strictly shorter, so the parameter loop ends |
| `Disposition.ParseParameter` | crates/s3s-multipart/src/content_disposition.rs:92-114 | The parameter reader equals its specification |
| `Disposition.ParseContentDisposition` | crates/s3s-multipart/src/content_disposition.rs:52-90 | The parameter loop keeps the first name and the first file name before the first malformed parameter |
| `Disposition.PrintThenParse` | crates/s3s-multipart/src/content_disposition.rs:52-158 | Any list of parameters with plain keys, printed with escaped quoted values, is read back as its first name and file name, byte for byte |
| `Disposition.FieldRoundTrip` | crates/s3s-multipart/src/content_disposition.rs:34-51 | A printed field name and file name come back verbatim and unescape to what was printed |
| `Parameters.WrittenReads` | crates/s3s-multipart/src/content_disposition.rs:52-158 | A value written with bare or quoted parameters and padding anywhere gives the first `name` and the first `filename`, in letters of any case, in front of anything without an equals sign, without a key or with an unclosed quote; any word but `form-data` is refused |
| `Parameters.ParameterRead` | crates/s3s-multipart/src/content_disposition.rs:92-114 | One written parameter gives its key and value, and what follows its semicolon |
| `Parameters.HopelessRead` | crates/s3s-multipart/src/content_disposition.rs:92-151 | Text without an equals sign, without a key or with an unclosed quote is no parameter |
| `Disposition.UnescapeEscape` | crates/s3s-multipart/src/content_disposition.rs:34-39 | Undoing the quoted pairs gives the text back |
| `Dispatcher.ExactActivation` | codegen/src/v1/fvr.rs:762-839 | For every well-formed rule list and request, bit i of the activation vector is set exactly when rule i's condition holds |
| `Dispatcher.ExactBit` | codegen/src/v1/fvr.rs:762-839 | The bit of a well-formed rule is exact whatever the other rules are |
| `Dispatcher.Resolve` | codegen/src/v1/fvr.rs:618-709 | All three emitted shapes return the first matching rule's operation or the fallback |
| `Dispatcher.FirstMatchAt` | codegen/src/v1/fvr.rs:663-679 | The first-match chain returns the operation of the first rule whose condition holds |
| `Dispatcher.BuildPlan` | codegen/src/v1/fvr.rs:187-211 | The plan's layers, bits and arms satisfy the plan invariant; the generator gives up exactly when rules and features need more than 128 bits |
| `Dispatcher.AllocateBits` | codegen/src/v1/fvr.rs:509-539 | Every member and every feature of a miscellaneous rule gets one bit of its own above the rule bits, and nothing else does |
| `Dispatcher.RuleBits` | codegen/src/v1/fvr.rs:542-577 | A feature's arm sets exactly the bits of the rules it makes candidates |
| `Dispatcher.Scan` | codegen/src/v1/fvr.rs:762-819 | The scan vector holds bit i exactly when some feature that holds has an arm setting it |
| `Dispatcher.Activate` | codegen/src/v1/fvr.rs:821-842 | The activation vector is the scan vector filtered by every layer |
| `Dispatcher.FoldSelects` | codegen/src/v1/fvr.rs:723-734 | The xor-folded keep masks select the true or the false mask |
| `Dispatcher.FeatureBitExact` | codegen/src/v1/fvr.rs:509-588 | A feature's bit is scanned exactly when the feature holds |
| `Dispatcher.OnlyRules` | codegen/src/v1/fvr.rs:700-706 | Only rule bits survive, so the operation array is indexed within bounds |
| `Dispatcher.LoneExact` | codegen/src/v1/fvr.rs:635-661 | Looking at the query string first changes nothing for a rule with a positive query condition |
| `Dispatcher.TrailingZeros` | codegen/src/v1/fvr.rs:700-706 | The lowest set bit of a non-zero mask |
| `Dispatcher.MaskType` | codegen/src/v1/fvr.rs:335-348 | The chosen width holds the bits and exists exactly up to 128 |
| `Router.ClassifyRules` | codegen/src/v1/fvr.rs:319-332 | Every rule gets the kind its tokens and its tag's member imply, and nothing else changes |
| `Router.BuildLayers` | codegen/src/v1/fvr.rs:396-474 | A rule bit survives all layers exactly when the rule's layer condition holds on the features that hold |
| `Router.GroupFamilies` | codegen/src/v1/fvr.rs:401-419 | Families are grouped by member, each rule on the side of carrying or lacking it |
| `Router.GroupShared` | codegen/src/v1/fvr.rs:440-458 | Miscellaneous rules are grouped by the features they share |
| `Router.RestLayers` | codegen/src/v1/fvr.rs:461-474 | One layer per rule for what it demands and forbids beyond its shared features |
| `Routes.ExactWhen` | codegen/src/v1/fvr.rs:249-332 | The vectors of a group are exact on every request if and only if no plain route with required headers requires just the tag and member of a shared tag |
| `Routes.HeadersIgnored` | codegen/src/v1/fvr.rs:319-332 | For such a route, a request with the two query strings and no header activates a rule whose condition fails |
| `Resolver.MostSpecificWins` | codegen/src/v1/ops.rs:1241-1263 | In every sorted group with duplicate-free requirements, the dispatcher's lowest bit stands before every conjunction rule that is less specific than a matching one, and names its operation only if the request does by x-id |
| `Routes.MoreSpecificFirst` | codegen/src/v1/ops.rs:1241-1263 | In a sorted group a rule whose key and header sets strictly include another's stands earlier |
| `Routes.SortRoutesSorts` | codegen/src/v1/ops.rs:1241-1263 | Sorting by the route key gives an ordered permutation |
| `Routes.SharedTagMembers` | codegen/src/v1/fvr.rs:226-246 | The member of every shared tag; the generator panics exactly when a shared tag has two routes naming one |
| `Routes.DisambiguationRules` | codegen/src/v1/fvr.rs:249-292 | The first pass yields one rule per tagged, patterned or x-id route, in order, and panics exactly on a tagged route with patterns of another name |
| `Routes.ConjunctionRules` | codegen/src/v1/fvr.rs:295-314 | The second pass yields one rule per plain route with requirements, in order |
| `Resolver.ResolveRequest` | codegen/src/v1/fvr.rs:187-314 | From routes to the answer: sorted, compiled and dispatched, the most specific rule wins, and the answer is the first-match chain's wherever every headered rule is shadowed; it fails exactly when the generator panics |
| `Chain.ResolveRoutes` | codegen/src/v1/fvr.rs:187-314 | From the fields of the routes: the answer is the operation of the first route in pass order whose tag, first pattern, shared member or x-id the request has, else of the first plain route all of whose query strings and headers it has, else of the first route without any condition; so wherever the routes naming a shared member are plain or every headered rule is shadowed |
| `Chain.PicksIs` | codegen/src/v1/fvr.rs:249-292 | The first-pass rule of every route holds of a request exactly when the request has the route's tag, and its first pattern once, or the shared tag's member just if the route names it; or its first pattern once; or, with several bare routes, its x-id once |
| `Chain.NeedsIs` | codegen/src/v1/fvr.rs:295-314 | The second-pass rule holds exactly when every required query string and header is there |
| `Chain.ChainAnswers` | codegen/src/v1/fvr.rs:663-679 | The first-match chain over the rules gives that answer in every group |
| `Chain.FirstFinalIs` | codegen/src/v1/fvr.rs:250-251 | The fallback is the operation of the first route without tag, patterns, required query strings and headers |
| `Chain.PassOrder` | codegen/src/v1/ops.rs:1241-1263 | The routes are gone over tagged first, then patterned, then by the number of patterns, query strings and headers, then by name |
| `Resolver.AnswersExactWhen` | codegen/src/v1/fvr.rs:319-332 | The answer is the first-match chain's on every request if and only if every headered rule is shadowed: an earlier rule already matches a request for just the rule's keys and what they entail |
| `Resolver.NamersShadow` | codegen/src/v1/fvr.rs:249-292 | That is so wherever no route that names a shared tag's member has patterns |
| `Resolver.UnshadowedDiffers` | codegen/src/v1/fvr.rs:681-709 | For an unshadowed rule the request for those keys, without the headers, is answered otherwise than by the chain |
| `Resolver.PatternedNamer` | codegen/src/v1/fvr.rs:249-292 | A sorted group that the generator accepts and whose answers differ: a shared tag whose member is named by a route with a pattern |
| `Resolver.BitOfRule` | codegen/src/v1/fvr.rs:396-588 | In every group a matching rule has its bit, and a bit without a match belongs to a headered rule whose two keys are there |
| `Pattern.MatchPattern` | crates/s3s-policy/src/pattern.rs:56-98 | The loop with one saved backtrack point terminates and returns true exactly when the recursive definition of star and question mark matches |
| `Pattern.DropStar` | crates/s3s-policy/src/pattern.rs:66-72 | Forgetting earlier stars loses no match |
| `Pattern.GiveUp` | crates/s3s-policy/src/pattern.rs:88-95 | Not retrying at the end of the input loses no match |
| `Pattern.Retry` | crates/s3s-policy/src/pattern.rs:88-93 | Restarting one byte further loses no match |
| `Pattern.StarIsTail` | crates/s3s-policy/src/pattern.rs:19-25 | A star matches exactly the inputs of which some tail matches the rest |
| `Pattern.MatchesSplits` | crates/s3s-policy/src/pattern.rs:19-25 | A concatenated pattern matches exactly the inputs that split between its halves |
| `Pattern.IsMatch` | crates/s3s-policy/src/pattern.rs:46-53 | True exactly when some pattern of the set matches |
| `Pattern.MatchesPieces` | crates/s3s-policy/src/pattern.rs:56-98 | A pattern matches exactly the inputs that can be cut into one piece per pattern byte: anything for a star, one byte for a question mark, else the byte itself |
| `Pattern.NewPatternSet` | crates/s3s-policy/src/pattern.rs:30-42 | A set is refused exactly when one of its patterns is empty |
| `Listing.ListEverything` | crates/s3s-fs/src/s3.rs:655-783 | Following the continuation tokens with any page sizes but zero ends, and the concatenated pages are the two halves of the whole listing after the start point |
| `Listing.ListObjectsV2` | crates/s3s-fs/src/s3.rs:655-783 | A page holds the first `max_keys` items after the later marker, split into contents and common prefixes, is truncated exactly when items are left, and names the last item as token |
| `Pages.RequestPage` | crates/s3s-fs/src/s3.rs:655-783 | From the request's fields: a page holds the first `max_keys` items, or 1000 if that is missing or negative, of all that files show whose keys start with the prefix behind its leading slashes, strictly behind both the token and `start_after` |
| `Pages.RequestAll` | crates/s3s-fs/src/s3.rs:655-783 | Following the tokens gives each such item once, in order, and nothing else |
| `Pages.FilesAre` | crates/s3s-fs/src/s3.rs:1661-1700 | The keys are the names on the paths to the files, joined by slashes |
| `Pages.ShowsIs` | crates/s3s-fs/src/s3.rs:1738-1767 | A file shows as itself if no delimiter follows the prefix in its key, else as the common prefix through the first one |
| `Listing.ListedFromExactly` | crates/s3s-fs/src/s3.rs:655-700 | A listing is strictly increasing and holds exactly the unrolled keys and the common prefixes after the start point |
| `Listing.MergePage` | crates/s3s-fs/src/s3.rs:702-757 | The interleaving loop takes the smallest remaining names first, up to the limit |
| `Listing.Resumes` | crates/s3s-fs/src/s3.rs:684-695 | With the last item's name as token the next page starts right behind it |
| `Listing.ListedExactly` | crates/s3s-fs/src/s3.rs:1738-1767 | The reference listing holds exactly what the files show; an object is never named like a common prefix |
| `Listing.KeysDiffer` | crates/s3s-fs/src/s3.rs:38-57 | Different files of a directory tree have different keys |
| `Listing.SortObjectsSorts` | crates/s3s-fs/src/s3.rs:676-681 | Sorting the objects gives an ordered permutation |
| `Tree.ListObjectsRecursive` | crates/s3s-fs/src/s3.rs:1661-1700 | The breadth-first walk collects exactly the files with the prefix, each once |
| `Tree.ListObjectsWithDelimiter` | crates/s3s-fs/src/s3.rs:1702-1773 | The pruned walk collects exactly the objects and common prefixes of all files, each object once |
| `Tree.PrunedShowsNothing` | crates/s3s-fs/src/s3.rs:1728-1737 | A skipped directory holds no file that the listing shows |
| `UploadRuns.EveryRun` | crates/s3s-fs/src/s3.rs:1481-1592 | Over every run with any failing removals and writes: nothing of an aborted upload is left, of a completed one only parts it did not list, and live uploads keep their identifier file |
| `UploadRuns.ObjectHistory` | crates/s3s-fs/src/s3.rs:1481-1592 | After every run an object is what it was, or the joined parts of some committed completion of that run |
| `UploadRuns.CompleteEffect` | crates/s3s-fs/src/s3.rs:1431-1592 | A completion changes the object exactly when it commits, to parts 1..n joined; it only removes files of the upload, and retires the identifier only when all listed files are gone |
| `UploadRuns.AssembleExact` | crates/s3s-fs/src/s3.rs:1482-1530 | The concatenation succeeds exactly when the parts are numbered 1..n, present, of accepted checksum, and all but the last at least 5 MiB; its bytes are the parts joined |
| `UploadRuns.AbortEffect` | crates/s3s-fs/src/s3.rs:1632-1652 | Abort retires the identifier only when no file of the upload is left, and does so whenever no removal fails |
| `UploadRuns.AbortFewer` | crates/s3s-fs/src/s3.rs:1632-1652 | Abort removes only files of the upload and changes no other |
| `UploadRuns.CreateEffect` | crates/s3s-fs/src/fs.rs:260-272 | Creation adds at most the identifier and attribute files, the latter only with the former |
| `UploadRuns.UploadEffect` | crates/s3s-fs/src/s3.rs:1084-1190 | A part upload touches only that part's two files, and nothing for an unknown upload or owner |
| `UploadResults.UploadExact` | crates/s3s-fs/src/s3.rs:1084-1190 | An upload succeeds exactly when the number is at most 10 000, the caller owns the upload, the digest agrees, and the temporary, part and record files can be written; the part then holds the uploaded bytes and the record its note; a failure before the rename leaves both, and every failure has its own answer |
| `UploadResults.CreateExact` | crates/s3s-fs/src/s3.rs:1039-1081 | A creation succeeds exactly when both files can be written, and they then hold the owner and the attributes |
| `UploadResults.CompleteExact` | crates/s3s-fs/src/s3.rs:1381-1592 | A completion succeeds exactly when the parts are usable, the checks pass and the object and its records can be written; the object then has the attributes of the upload and the record of its bytes, and nothing listed is left if no removal fails |
| `UploadResults.CompleteRefuses` | crates/s3s-fs/src/s3.rs:1395-1530 | Otherwise it answers with the first thing that is wrong, the first unusable part included |
| `UploadResults.PartHistory` | crates/s3s-fs/src/s3.rs:1084-1190 | After every run a part that is there holds the bytes of the last upload that stored it |
| `UploadResults.ObjectIsUploads` | crates/s3s-fs/src/s3.rs:1481-1592 | Over every run an object is what it was, or the bodies, end to end, of the uploads that last stored the parts of a completed upload |
| `UploadResults.WholeUpload` | crates/s3s-fs/src/s3.rs:1039-1592 | A creation, uploads of valid parts and a completion that meet no failing file succeed; the object holds the bodies end to end with the attributes given at creation, and the upload is gone |
| `UploadRuns.WriteFileEffect` | crates/s3s-fs/src/fs.rs:291-345 | An atomic write changes only its destination, and only when it succeeds |
| `UploadRuns.StepKeeps` | crates/s3s-fs/src/s3.rs:1481-1592 | Each call keeps the run invariant |
| `UploadRuns.ObjectStep` | crates/s3s-fs/src/s3.rs:1481-1592 | No call but the committing completion of its own key changes an object |
| `FileStore.FileSystem.CompleteMultipartUpload` | crates/s3s-fs/src/s3.rs:1381-1592 | The method, file by file, has the outcome and the new directory of the specification |
| `FileStore.FileSystem.WriteParts` | crates/s3s-fs/src/s3.rs:1482-1530 | The part loop leaves the temporary file and the error of the specification |
| `FileStore.FileSystem.CopyPart` | crates/s3s-fs/src/s3.rs:1505-1516 | Reads of any lengths up to 64 KiB append exactly the part's bytes |
| `FileStore.FileSystem.RemoveResidue` | crates/s3s-fs/src/s3.rs:1560-1592 | The cleanup keeps going after a failure and removes the identifier only if nothing was left behind |
| `FileStore.FileSystem.AbortMultipartUpload` | crates/s3s-fs/src/s3.rs:1625-1657 | The directory scan removes in order and stops at the first failure |
| `FileStore.FileSystem.PutPart` | crates/s3s-fs/src/s3.rs:1084-1190 | The part upload has the outcome and the new directory of the specification |
| `FileStore.FileSystem.CreateMultipartUpload` | crates/s3s-fs/src/s3.rs:1039-1081 | Creation has the outcome and the new directory of the specification |
| `FileStore.FileSystem.Save` | crates/s3s-fs/src/fs.rs:291-345 | A write goes through a numbered temporary file that is renamed or dropped |
| `FileStore.FileSystem.RemoveFileIfExists` | crates/s3s-fs/src/fs.rs:79-85 | Removing a missing file succeeds; a failing removal changes nothing |
| `Serde.CollectTypesNeedingSerde` | codegen/src/v1/dto.rs:525-536 | The shared-set recursion from the root types terminates on any type graph and returns exactly the names reachable from the roots |
| `SerdeTable.SerdeNames` | codegen/src/v1/dto.rs:525-629 | From the table's entries: exactly the names that field types other than the three unserialisable ones, list members and enum variants lead to from `Tag`, `Tagging` and the names ending in `Configuration` |
| `SerdeTable.DerivesWhen` | codegen/src/v1/dto.rs:1055-1113 | A struct derives exactly when these lead to it and no struct inside it, through fields or lists, has a sealed field other than `CachedTags`, an s3s field or an unserialisable one |
| `Serde.CollectTypeDependencies` | codegen/src/v1/dto.rs:598-629 | The recursion adds only what it reaches, and everything it adds has its dependencies in the set |
| `Serde.DerivingIsHereditary` | codegen/src/v1/dto.rs:1055-1113 | On acyclic struct graphs every struct that derives has its struct and list-of-struct field types in the closure and deriving too |
| `Serde.CanDeriveExactly` | codegen/src/v1/dto.rs:1076-1113 | The recursion succeeds exactly when every struct nested below has only serialisable fields of its own |
| `Serde.EnumFieldsDeriveWhen` | codegen/src/v1/dto.rs:973-998 | A deriving struct's enum fields, direct or in a list, are in the closure, and such an enum derives if and only if no variant is unserialisable or a struct with a bad field nested below it |
| `Serde.EnumFieldsAreNotChecked` | codegen/src/v1/dto.rs:1076-1113 | It can fail: a struct of the closure derives although the enum in its field, in the closure too, does not |
| `MergeFiles.MergeFiles` | codegen/src/v1/postprocess.rs:342-430 | The loops emit the merged file of the specification: every base group with what is attached to it, then what is left |
| `MergeFiles.MergedSeen` | codegen/src/v1/postprocess.rs:342-430 | The merged file shows the base configuration the base items in group order, and minio its own items, up to order, plus the items of base-only groups |
| `MergeFiles.MinioSeesItsOwn` | codegen/src/v1/postprocess.rs:385-410 | In the minio configuration the merged file shows exactly the minio items if and only if every base key is also a minio key |
| `MergeFiles.BaseOnlyItemShows` | codegen/src/v1/postprocess.rs:391-400 | It can fail: an item that only the base file has shows in the minio configuration too |
| `MergeFiles.EmitGroupSeen` | codegen/src/v1/postprocess.rs:243-270 | A merged group shows its base items in order to the base and its minio items to minio |
| `MergeFiles.EmitGroupMerged` | codegen/src/v1/postprocess.rs:243-270 | The two loops emit the pieces of the specification |
| `MergeLayout.GroupGated` | codegen/src/v1/postprocess.rs:243-270 | A merged group holds an item without a gate exactly if both sides have it, under one side's gate exactly if only that side has it and it is no version of an impl or trait of the other, and else the two versions merged |
| `MergeLayout.MembersGated` | codegen/src/v1/postprocess.rs:295-340 | A merged impl or trait holds a member without a gate exactly if both have it, and else under the gate of the side that has it |
| `MergeLayout.GroupsGated` | codegen/src/v1/postprocess.rs:385-410 | A group that only the base has, or that both have alike, is not gated; any other shared group is merged |
| `MergeLayout.Layout` | codegen/src/v1/postprocess.rs:377-430 | A base group's pieces stand behind those of the groups in front of it, followed by the minio-only groups attached to it, then the later groups, then the unanchored ones |
| `MergeFiles.EmitImplMerged` | codegen/src/v1/postprocess.rs:295-340 | The member loops emit shared members once, differing ones twice and the rest under their gate |
| `MergeFiles.MergedMembersKept` | codegen/src/v1/postprocess.rs:295-340 | The merged members are the base members in order for the base and, with unique keys, the minio members for minio |
| `MergeFiles.SameGroupSeen` | codegen/src/v1/postprocess.rs:192-200 | Groups found to be the same hold the same items |
| `MergeFiles.AttachGroups` | codegen/src/v1/postprocess.rs:359-375 | Every minio-only group is attached to the nearest preceding shared group, in order, or left unanchored |
| `MergeFiles.AttachedOnce` | codegen/src/v1/postprocess.rs:359-375 | The attached and the unanchored groups are exactly the minio-only groups, each once |
| `MergeLayout.AttachedInOrder` | codegen/src/v1/postprocess.rs:359-375 | The groups attached to a base group are exactly the minio-only ones behind it with no shared group in between, in the order of the minio file; the unanchored ones have no shared group in front |
| `Merge.GroupItems` | codegen/src/v1/postprocess.rs:157-169 | The grouping loop equals its specification |
| `Merge.GroupsKeepItems` | codegen/src/v1/postprocess.rs:157-169 | Groups have different keys and together hold every item once |
| `Merge.GroupsKeepOrder` | codegen/src/v1/postprocess.rs:157-169 | A group's items stand in the order of the file |
| `MergeLayout.GroupsInOrder` | codegen/src/v1/postprocess.rs:157-169 | Groups stand in the order of their first items |
| `Merge.MatchedAndRest` | codegen/src/v1/postprocess.rs:243-270 | With unique keys, matched and unmatched elements are everything, each once |

## Left out

- RoundTrip.AcceptedExactly: which bytes form a header block is said up to the header library's reading of them, which is a parameter; `FieldLines.SurplusFields` covers the blocks that the parser reads itself
- Walks.ChunkIndependence: assumes of `httparse` only that the spans and the data start it reports lie inside the block; `httparse`, `memchr`, `memmem` and UTF-8 validation are parameters or leftmost searches
- Ledger.EveryReachableState: counts consumed bytes in unbounded integers; saturation at 64 bits is not modelled
- Dispatcher.Resolve: the minio prologue, the sanitised constant names and the printed code are not modelled; a feature is identified by its token, and a lone rule's use of the query string is read off its conditions, not off the printed text
- Resolver.MostSpecificWins: compares conjunction rules only; rules of the disambiguation pass come first by design
- Resolver.ResolveRequest: a group with an unshadowed headered rule is outside its clause on the first-match chain, because there `Resolver.UnshadowedDiffers` gives a request with another answer
- Listing.ListObjectsV2: delimiters are single characters and names are valid text without symbolic links; time stamps are not carried
- Tree.ListObjectsWithDelimiter: entries are files and directories that do not change during the walk
- UploadRuns.EveryRun: sequential calls that name the upload's own bucket and key; identifiers are fresh and file names are identified by their parts, not by their spelling
- UploadRuns.AssembleExact: checksum algorithms and entity tags are uninterpreted predicates of the request; checksum type negotiation is not modelled
- Pattern.MatchPattern: a slice holds at most half of the 64-bit address range, as the language guarantees, so the sentinel never equals a position
- Serde.DerivingIsHereditary: on cyclic struct graphs the recursion does not terminate
- MergeFiles.MergedSeen: items, keys, kinds and members are given; parsing, comments and blank lines are not modelled, and impls merged by member are assumed to share their heads and to have unique member keys
- The guards that report a taken stream from inside the poll steps: unreachable while the class invariants hold
- Wakers, pinning, executors, buffer capacity and debug output
- `upload_part_copy`, `list_parts`, `get_object`, `put_object` and the other file system operations
- Custom `Default` implementations, cloning and equality derives, and the text of all generated code
- Signatures, dates, policy documents, HTTP/3, the proxy, the AWS conversions and the end-to-end tools: small parsers or plumbing over libraries that are not part of this model
