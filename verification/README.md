# Radar workstation: a verified model

The repository is a weather-radar workstation. It fetches volume chunks from a bucket over
a small HTTP/1.1 client, decodes and assembles them into sweeps and volumes, grids them,
derives products, and keeps the state a renderer shows; beside it stand a baker and a reader
for a compiled-in map, a config file, and a PNG writer for a developer's viewer.

This project states what those parts promise and proves it with Dafny's verifier. Code that
works by changing things step by step is modelled by classes and methods with the original's
loops and fields; each is proved against a definition on values, and the main results are
lemmas about those definitions, over every input, every run or every reachable state.
`dafny verify dfyconfig.toml` checks all of it.

| files | part | main results |
|---|---|---|
| `HttpResponse`, `HttpOptions`, `HttpConnection`, `HttpRoundTrip`, `HttpHeads`, `HttpLimits`, `HttpOverflow`, `HttpClient` | HTTP/1.1 framing and keep-alive (sections 2.1, 6.3 and 7.1 of RFC 9112) | how the socket splits the bytes never shows; responses printed back to back come back one by one with the rest of the stream untouched; exactly which responses close the connection, and none is taken for a shorter one; on all bytes, exactly which heads are accepted and which chunk sizes overflow |
| `Assembly`, `AssemblyRuns`, `VolumeContext` | volume assembler | no radial is lost or duplicated in any run; every closed volume is whole and under one identity, and says of itself what its radials say; exactly when the watchdog gives one up |
| `Grid`, `GridMeaning`, `GridTurns` | gridding of a sweep | every cell is the last consistent writer's gate, with conservation of radials; exactly when it shows that radial's own value, and which events are reported; a full turn fills every row once |
| `Compute`, `ComputeSends`, `DisplayState`, `Pipeline`, `PipelineShows` | retained tilts, shared state | exactly what is sent on; derived products come from one volume's own tilts; what is displayed was closed and what was closed is displayed; equal revisions mean equal data; exactly when a display can go back |
| `Poller`, `PollerRuns`, `PollerMoves` | bucket poller | ordered, gap-free, exactly-once delivery over every run with failures; exactly when a volume is left, and for which |
| `Calendar` | date conversion (ISO 8601:2004, section 3.2.1) | agrees with the Gregorian calendar for every integer; a bijection |
| `Simplify`, `LineDrawing` | Douglas-Peucker, Bresenham | the stack loop keeps what the recursive definition marks; tolerance of every dropped vertex, need of every kept one; exact pixels, half-pixel accuracy |
| `ConfigFile`, `ConfigGrammar`, `ConfigRoundTrip`, `ConfigBytes` | config file | exactly which lines are pairs; reading back a save, for every text; exactly when a saved value is read, when a second save is idle, and which lines keep their bytes |
| `Records`, `MapBundle`, `BundleWriter`, `BundleFits`, `BundleRoundTrip`, `BundleOctets`, `Projection`, `ProjectionMeaning`, `BundleDrawn` | map bundle: baker, reader, projector | whatever can be written is read back and drawn; exactly what can be written; every index pair is a segment, and every segment has one |
| `MessageStream`, `MessageCuts`, `Moments` | NEXRAD message framing, moments | laid-out messages are walked in order; exactly when a stream can be cut, and what that does to its radials |
| `Png` | PNG with stored deflate blocks (sections 2.2 and 8.2 of RFC 1950, section 3.2.4 of RFC 1951) | a decoder gets back every byte string and every image |

`Widths` compares the model's unbounded integers with the original's fixed widths.
`Wrappers`, `Bytes`, `Picking` and `Radar` hold what the others share.

Where the code and its own documentation differ, the model follows the code:

- an empty close is documented as "before any response byte", but bytes buffered by the
  previous call do not count (`HttpRoundTrip.ClosedEmptyIff`, `BufferedByteOverlooked`);
- a chunk size is any 64-bit number, and the sum that is compared with the body limit
  (connection.rs:260) can overflow, which the build turns into a panic (Cargo.toml:35)
  (`HttpOverflow.OverflowsIff`, `WideSizeOverflows`);
- the formula for physical values is documented as always holding (grid.rs:64-66), but the
  scale and offset are those of the first radial with the moment
  (`GridMeaning.EightBitExactIff`, `SecondScaleIsIgnored`);
- a degenerate gate geometry is documented as reported (grid.rs:180-182), but the gridder
  returns nothing and the event is dropped with it (`GridMeaning.ReportedIff`,
  `DegenerateIsSilent`);
- saving is documented as leaving every other line byte-identical (save.rs:1-5), but
  carriage returns before line feeds are dropped, so is a lone blank line, and a missing
  last line feed is added (`ConfigBytes.LineKeepsItsBytesIff`, `SavingNothingKeepsIff`,
  `BytesLost`); a second save can therefore change the file again
  (`ConfigRoundTrip.SaveIsIdempotentIff`, `ConfigBytes.SecondSaveDiffers`);
- saving rewrites the first of duplicate keys while reading takes the last
  (`ConfigRoundTrip.SavedValueReadIff`, `DuplicateHidesSave`);
- the staleness test of the shared state comes after clearing on a changed coverage pattern,
  so a display can go back to an older volume (`DisplayState.StepNeverOlderIff`,
  `OlderAcrossVcpChange`);
- a message stream cannot always be cut between records: a record shorter than the two
  headers is not seen at the end of a piece, and makes the radial reader refuse the whole
  (`MessageStream.SplitIff`, `MessageCuts.RadialsSplitIff`, `ShortRecordIsLost`);
- the date conversion is documented as valid for any 64-bit day count (time.rs:38-39), but
  its first addition overflows for the last 719 468 (`Widths.CivilFitsIff`), and the cast of
  the year changes it long before (`Widths.YearFitsIff`).

## Model
| member | source | states |
|---|---|---|
| HttpResponse.ScanLines | crates/http-ingest/src/response.rs:48-88 | the single pass over the buffer finds the lines that the recursive definition of a head finds, or the same first fault, or that the head is still open |
| HttpResponse.ScanHead | crates/http-ingest/src/response.rs:48-154 | the imperative head parser computes `ParseHead`: the same answer, the same error, the same head length, on every buffer and every limit |
| HttpResponse.ScanFields | crates/http-ingest/src/response.rs:96-130 | the header loop with its running variables settles the same framing facts, or stops at the same fault, as folding the lines one by one |
| HttpResponse.ParseContentLength | crates/http-ingest/src/response.rs:221-233 | an accepted length is a string of digits, and is their decimal value, which fits 64 bits |
| HttpResponse.TrimUndoesPadding | crates/http-ingest/src/response.rs:214-219 | trimming undoes any run of spaces and tabs put around a trimmed value |
| HttpResponse.HeadAnswerIsStable | crates/http-ingest/src/response.rs:48-154 | once the head parser has an answer for a buffer, no bytes appended to it change that answer |
| HttpResponse.ChunkLineAnswerIsStable | crates/http-ingest/src/response.rs:239-269 | the same for the chunk-size-line parser |
| HttpConnection.TakeChunk | crates/http-ingest/src/connection.rs:264-271 | a chunk that is read has exactly the announced size, and the stream gets shorter |
| HttpConnection.Dechunk | crates/http-ingest/src/connection.rs:223-273 | a chunked body that is read never exceeds the cap, and reading never lengthens the stream |
| HttpConnection.TakeBody | crates/http-ingest/src/connection.rs:178-195 | a body that is read is within the cap, for every framing |
| HttpConnection.Exchange | crates/http-ingest/src/connection.rs:102-145 | the meaning of one exchange on a whole byte stream, sums that do not fit 64 bits included: no body over the limit is returned, and the rest is never longer than the stream |
| HttpConnection.Connection.ReadMore | crates/http-ingest/src/connection.rs:32-50 | one socket read of any size the network picks leaves the logical stream (buffer, then unread bytes) unchanged |
| HttpConnection.Connection.ReadHead | crates/http-ingest/src/connection.rs:157-176 | however the bytes are split into reads, the head found is the head of the whole stream, or the error that stream calls for; no byte is lost |
| HttpConnection.Connection.FillTo | crates/http-ingest/src/connection.rs:197-209 | the buffer holds the bytes asked for, or the stream has fewer |
| HttpConnection.Connection.ReadChunkSize | crates/http-ingest/src/connection.rs:231-248 | the size line found incrementally is the one the whole stream starts with |
| HttpConnection.Connection.ReadChunk | crates/http-ingest/src/connection.rs:264-271 | a chunk read incrementally is the one the whole stream holds, and the stream is left right after its line end |
| HttpConnection.Connection.ReadChunkedBody | crates/http-ingest/src/connection.rs:223-273 | the incremental chunk loop gives the body, the error, the early end or the overflow that decoding the whole stream gives, and leaves the same rest |
| HttpConnection.Connection.ReadBody | crates/http-ingest/src/connection.rs:178-221 | the same for every framing |
| HttpConnection.Connection.FinishWithInternal | crates/http-ingest/src/connection.rs:147-155 | every early stop makes the connection unusable; an early end is reported as an empty close only if no byte was read in this call |
| HttpConnection.Connection.RoundTrip | crates/http-ingest/src/connection.rs:102-145 | without a network fault, the outcome, the reusability and the rest of the stream are those `Exchange` gives, whatever the read sizes, and an overflow of the 64-bit sums is one of these outcomes; with a fault nothing is returned and the connection is dropped; an empty close is reported only if nothing was read from the socket, fault or not |
| HttpOverflow.SizeLineIff | crates/http-ingest/src/response.rs:239-268 | a size line is read exactly when it is one to sixteen hexadecimal digits and a line end, and the size is their value |
| HttpOverflow.OverflowsIff | crates/http-ingest/src/connection.rs:223-273 | exactly which streams overflow the 64-bit sums over chunk sizes: an accepted chunked head, chunks that are all read, and a size line that takes the total, or with its line end itself, to 2^64 |
| HttpOverflow.WideSizeOverflows | crates/http-ingest/src/connection.rs:259-267 | an instance: one chunk of one octet and then the size FFFFFFFFFFFFFFFF |
| HttpRoundTrip.HeadReadsBack | crates/http-ingest/src/response.rs:48-154 | any printed head of well-formed lines is read back as exactly what its fields mean together, and ends where it was printed to end |
| HttpHeads.HeadAcceptedIff | crates/http-ingest/src/response.rs:48-154 | on all byte strings: a head is accepted exactly when the bytes start with the printed form of a well-formed head within the limits (CRLF line ends, token names, text values, no folding) whose framing is unambiguous (one decimal Content-Length or one chunked Transfer-Encoding and not both, or a status without a body), whose content coding is identity, whose status is not interim, and whose length, where it frames the body, is within the body limit |
| HttpHeads.HeadIsPrinted | crates/http-ingest/src/response.rs:48-154 | whatever is taken for a head is, byte for byte, the printed form of a well-formed one |
| HttpHeads.HeaderLineIff | crates/http-ingest/src/response.rs:189-219 | a line is read as this name and value exactly when it is the name, which is a token, a colon and the value, which is trimmed text, with spaces and tabs around it |
| HttpHeads.HeadDecided | crates/http-ingest/src/response.rs:48-88 | at the head limit the parser has decided, and asks for no more bytes |
| HttpHeads.SizeLineDecidedIff | crates/http-ingest/src/response.rs:239-250 | a size line is waited for exactly while there is no line feed among fewer than 256 octets |
| HttpOptions.NamesCloseIff | crates/http-ingest/src/response.rs:117-124 | the option is found exactly when the value has the word `close`, in any case, padded or not, between two commas or ends |
| HttpRoundTrip.ChunksReadBack | crates/http-ingest/src/connection.rs:223-273 | any partition of a body into chunks within the cap decodes to the body, and the stream is left right after it |
| HttpRoundTrip.ExchangeRecovers | crates/http-ingest/src/connection.rs:102-145 | a well-formed response followed by anything is answered with its own body for a status from 200 to 299 and with its status otherwise; the rest of the stream is exactly what followed; and the connection stays usable exactly when no `Connection` field, however spelled, lists `close` |
| HttpLimits.OverLimit | crates/http-ingest/src/connection.rs:121-144 | a body over the limit (8 KiB for one that is only discarded) is never returned and its connection is given up; exactly when the status is reported and when that the body is too large |
| HttpLimits.CutShortIsNoticed | crates/http-ingest/src/connection.rs:102-155 | a response that stops anywhere before its end is never taken for a shorter one |
| HttpRoundTrip.SessionRecovers | crates/http-ingest/src/connection.rs:102-145 | any list of kept-alive responses printed back to back comes back one by one, and what follows them is untouched |
| HttpRoundTrip.RunSession | crates/http-ingest/src/connection.rs:102-145 | successive calls on one connection give the answers of the whole stream and leave its exact rest, whatever the network buffers between calls |
| HttpRoundTrip.PlainIsWellFormed | crates/http-ingest/src/connection.rs:102-145 | every body within the limit can be sent as a plain response that is well formed and keeps the connection |
| HttpRoundTrip.ClosedEmptyIff | crates/http-ingest/src/connection.rs:147-155 | without a network fault, an empty close is reported exactly when the buffered bytes end before a whole response and nothing was left to read |
| HttpRoundTrip.BufferedByteOverlooked | crates/http-ingest/src/connection.rs:57-64 | a response byte left in the buffer by the previous call does not prevent that report, although its documentation says "before any response byte" |
| HttpClient.Client.MakeAttempt | crates/http-ingest/src/lib.rs:92-100 | without a fault the attempt is the one `Exchange` gives, the connection is kept exactly when the exchange leaves it reusable, and the rest of its stream is what the exchange left |
| HttpClient.Client.Send | crates/http-ingest/src/lib.rs:64-90 | each attempt without a fault is the one `Exchange` gives for its stream; at most two attempts; a second one only after a reused connection closed without anything being read from it, on a fresh connection; the last attempt alone decides the result; a body returned is within the limit |
| Assembly.VolumeAssembler.DoCloseSweep | crates/radar-workstation/src/assembly/mod.rs:299-306 | the object ends in the state, and emits the events, of closing the open sweep |
| Assembly.VolumeAssembler.DoFinishVolume | crates/radar-workstation/src/assembly/mod.rs:308-324 | the same for closing a volume: what was collected is announced with its status, and everything is cleared |
| Assembly.VolumeAssembler.DoBeginNewVolume | crates/radar-workstation/src/assembly/mod.rs:253-267 | the same for a new volume superseding the one in progress |
| Assembly.VolumeAssembler.DoIngestRadial | crates/radar-workstation/src/assembly/mod.rs:271-297 | the same for one radial: appended, or closing a sweep of another elevation first, or ending its own sweep |
| Assembly.VolumeAssembler.StartChunk | crates/radar-workstation/src/assembly/mod.rs:162-176 | the same for a start chunk with its coverage pattern |
| Assembly.VolumeAssembler.Chunk | crates/radar-workstation/src/assembly/mod.rs:178-229 | the same for a chunk of radials: start chunks give none, late radials are counted per elevation, an end chunk completes the volume |
| Assembly.VolumeAssembler.Tick | crates/radar-workstation/src/assembly/mod.rs:231-251 | the same for the watchdog |
| AssemblyRuns.EveryRun | crates/radar-workstation/src/assembly/mod.rs:178-324 | every run keeps the invariant that ties the event log to the open volume, and accounts for every radial of one elevation that was late |
| AssemblyRuns.RadialsConserved | crates/radar-workstation/src/assembly/mod.rs:178-324 | over every run the radials of all announced sweeps, then those of the open one, are the accepted radials in arrival order; accepted and late radials together are all radials fed |
| AssemblyRuns.VolumesAreWhole | crates/radar-workstation/src/assembly/mod.rs:299-324 | each closed volume lists exactly the sweeps announced since the previous close, all under the identity of its first radial, with distinct elevations, each complete exactly when its last radial and no earlier one has an end status |
| AssemblyRuns.OpenElevationIsNew | crates/radar-workstation/src/assembly/mod.rs:196-228 | in every reachable state the open sweep is of an elevation not closed in this volume and holds no ending radial |
| VolumeContext.VolumesDescribed | crates/radar-workstation/src/assembly/mod.rs:162-251 | after any run, exactly what the next input closes: a start chunk supersedes a volume with radials, an end chunk completes one, a tick gives one up exactly when no chunk has come for as long as the watchdog waits; and each volume carries the station and time of its first radial, the place of the last that names one, and the pattern of its own start chunk or else of its radials |
| VolumeContext.SweepsDescribed | crates/radar-workstation/src/assembly/context.rs:29-56 | a sweep is announced under the identity of the volume's first radial and the pattern known by then |
| VolumeContext.MissingIff | crates/radar-workstation/src/assembly/mod.rs:188-194 | a start chunk is reported missing exactly when another chunk comes with no volume in progress |
| Grid.ModalAzimuthCount | crates/radar-workstation/src/compute/grid.rs:122-146 | the azimuth count follows a spacing code that no other code outnumbers: 720 for code 1, 360 for code 2 |
| Grid.Scatter | crates/radar-workstation/src/compute/grid.rs:204-239 | the nested loops leave in every cell what the radials call for, and count repeats and skipped radials so that consistent radials are filled slots plus repeats |
| Grid.GridSweep | crates/radar-workstation/src/compute/grid.rs:183-274 | the whole gridder: when it answers and when it does not, the geometry it takes from the first radial with the moment, the content of every cell, the conservation of radials over slots, repeats and skips, and the events that go with them |
| GridTurns.RowsOfCode | crates/radar-workstation/src/compute/grid.rs:118-139 | rows times half a degree is a full turn for code 1, rows times one degree for code 2, and for other codes 540 radials decide and the code is reported |
| GridTurns.CodeTaken | crates/radar-workstation/src/compute/grid.rs:122-128 | a sweep whose radials all name one code is gridded by it |
| GridTurns.TurnFillsRows | crates/radar-workstation/src/compute/grid.rs:122-160 | radials of one geometry at the middles of different half-degree steps under code 1, or one-degree steps under code 2, each fill a row of their own, and no event is reported |
| GridTurns.TurnKeepsRadials | crates/radar-workstation/src/compute/grid.rs:204-239 | and the gates of each stand in the row of its own step |
| GridMeaning.FirstCarrierIs | crates/radar-workstation/src/compute/grid.rs:167-179 | geometry and scale are those of the first radial that has the moment |
| GridMeaning.GriddableIff | crates/radar-workstation/src/compute/mod.rs:55-80 | five products are gridded, each from the moment of its kind, when its geometry can be used; derived ones never |
| Grid.CellIsLastWriter | crates/radar-workstation/src/compute/grid.rs:204-239 | for decoded moments a cell is the encoded gate of the last consistent radial in its slot, and 0 where no such radial fell |
| GridMeaning.CellShowsOwnValue | crates/radar-workstation/src/compute/grid.rs:76-88 | the value of a cell is what the grid makes of the gate of the last consistent radial in the slot, and that radial's own value if its scale and offset are those of the grid |
| GridMeaning.EightBitExactIff | crates/radar-workstation/src/compute/grid.rs:204-239 | every 8-bit code of a radial reads in the grid as its own value exactly when its scale and offset are those of the first radial with the moment, which nothing compares |
| GridMeaning.SecondScaleIsIgnored | crates/radar-workstation/src/compute/grid.rs:204-239 | an instance: a second radial of another scale is taken as consistent and shows as 17 instead of 8.5 |
| GridMeaning.SixteenBitIsClose | crates/radar-workstation/src/compute/grid.rs:228-238 | under the same condition a 16-bit value in the display range is shown within 8/253 dB |
| GridMeaning.FlagsSurvive | crates/radar-workstation/src/compute/grid.rs:228-238 | flag codes of 16-bit moments stay flag codes, and a data code turns into one exactly when its value is not a number (zero over a zero scale) |
| GridMeaning.ReportedIff | crates/radar-workstation/src/compute/grid.rs:178-254 | which events reach the caller: a degenerate geometry never, an unknown spacing code, skipped radials and repeats exactly when there is a grid to go with them |
| GridMeaning.DegenerateIsSilent | crates/radar-workstation/src/compute/grid.rs:178-197 | an instance: a sweep of one radial whose gates have no width |
| GridMeaning.SlotCovers | crates/radar-workstation/src/compute/grid.rs:45-50 | a slot takes exactly the azimuths from its start up to the start of the next, modulo a full turn, also negative ones |
| Grid.ZdrTakesNearest | crates/radar-workstation/src/compute/grid.rs:113-120 | no other data level is nearer to the value than the one taken |
| GridMeaning.GatesReadBack | crates/nexrad-decoder/src/types/product.rs:135-146 | gates laid out as octets or as big-endian words are read back each at its own index |
| Grid.CellReads | crates/radar-workstation/src/compute/grid.rs:76-78 | reading a cell by azimuth and gate finds, in the flat layout, the content of that gate of that slot |
| Grid.ZdrDecodesClosely | crates/radar-workstation/src/compute/grid.rs:103-120 | 16-bit values within the display range come back within 8/253 dB |
| Grid.ZdrSaturates | crates/radar-workstation/src/compute/grid.rs:103-120 | values beyond the display range show as its nearer end |
| Compute.RetainedTilts.Offer | crates/radar-workstation/src/compute/mod.rs:153-163 | the list becomes the newest 40 reflectivity tilts, and the elevation reported as dropped is that of the oldest one |
| Compute.RetainedTilts.Take | crates/radar-workstation/src/compute/mod.rs:165-167 | everything held is handed over and nothing is left |
| Compute.ComputeStage.HandleEvent | crates/radar-workstation/src/compute/mod.rs:219-270 | the loops over products and tilts leave the tilts, updates and derivations that the event calls for |
| Compute.TiltsFollowLog | crates/radar-workstation/src/compute/mod.rs:219-270 | over any well-formed event log the held tilts are the newest 40 of the volume in progress, and what each completed volume derives from is its own tilts |
| Compute.DerivedFromOwnVolume | crates/radar-workstation/src/compute/mod.rs:142-172 | assembler and compute stage together, over every run: no tilt of a superseded or timed-out volume reaches a derivation |
| ComputeSends.AllIsSent | crates/radar-workstation/src/compute/mod.rs:219-270 | over every log, what is sent of each sort is exactly what the events call for, in order: one gridded sweep per closed sweep, one summary per closed volume, one derived set per complete volume from which something is derived, and every other event as it is |
| ComputeSends.HeldAreLast | crates/radar-workstation/src/compute/mod.rs:142-172 | what is held, and what each volume derives from, are the last forty reflectivity grids of that volume, told by their places among all its grids |
| DisplayState.RadarState.DoApply | crates/radar-workstation/src/state/apply.rs:22-93 | the object applies an update exactly as the value-level definition, in its order: clearing on a changed coverage pattern before the staleness test |
| DisplayState.RadarState.DoReset | crates/radar-workstation/src/state/mod.rs:142-150 | reset empties everything but the revision, which grows |
| DisplayState.SameRevisionSameData | crates/radar-workstation/src/state/mod.rs:190-208 | two snapshots of one run with the same revision hold the same radar data |
| DisplayState.AlwaysCoherent | crates/radar-workstation/src/state/apply.rs:22-93 | in every reachable state every displayed sweep stands under its own elevation and carries the current coverage pattern |
| DisplayState.DisplayIsNewest | crates/radar-workstation/src/state/apply.rs:22-93 | what is displayed is settled by the history alone: per elevation the newest sweep since the last reset or change of pattern, likewise the derived set, and the last complete volume since the reset |
| DisplayState.NeverOlder | crates/radar-workstation/src/state/apply.rs:48-80 | between changes of pattern and resets no elevation and no derived set goes back to an older volume |
| DisplayState.StepNeverOlderIff | crates/radar-workstation/src/state/apply.rs:34-58 | exactly which single steps can bring an elevation back to an older volume |
| DisplayState.OlderAcrossVcpChange | crates/radar-workstation/src/state/apply.rs:34-47 | an instance: a late sweep of an older volume with another pattern replaces a newer one |
| DisplayState.ByProductIsLast | crates/radar-workstation/src/state/apply.rs:60-78 | each derived product is shown by the last grid of it, and no other product is |
| DisplayState.SiteIsLastReset | crates/radar-workstation/src/state/mod.rs:142-150 | the station shown is the one last reset to |
| DisplayState.ReceivedWhenApplied | crates/radar-workstation/src/state/apply.rs:34-58 | a displayed sweep carries the angle it was sent with and the time it was applied at |
| Pipeline.DisplayComesFromRun | crates/radar-workstation/src/state/apply.rs:22-93 | end to end: after any run every displayed sweep is the gridding of a sweep the assembler closed, under its elevation, angle, volume and pattern, and derived products come from one completed volume |
| PipelineShows.ClosedIsShown | crates/radar-workstation/src/state/apply.rs:22-93 | and the other way: an elevation is displayed exactly when a sweep of it was closed since the last change of pattern, of one of the newest such volumes; derived products exactly when a volume completed since then has some; and the summary is that of the last volume completed |
| Poller.S3Poller.ListAllKeysAfter | crates/radar-workstation/src/ingest/s3_poll.rs:430-472 | paging collects all pages in order, or fails with the first page that fails |
| PollerMoves.CollectIff | crates/radar-workstation/src/ingest/s3_poll.rs:430-472 | a listing is the keys of all pages up to the first that is not truncated, and fails exactly when that one is not reached |
| Poller.S3Poller.ApplyRecovery | crates/radar-workstation/src/ingest/s3_poll.rs:328-386 | the object takes the recovery action that the poll state calls for |
| Poller.S3Poller.PollOnce | crates/radar-workstation/src/ingest/s3_poll.rs:250-326 | one poll leaves the state and delivers the chunks of the value-level definition, also when a listing or a fetch fails half-way |
| PollerRuns.EveryRun | crates/radar-workstation/src/ingest/s3_poll.rs:250-386 | every run against append-only sorted directories, with any failures, keeps the invariant relating deliveries to directories |
| PollerRuns.DeliveredInOrder | crates/radar-workstation/src/ingest/s3_poll.rs:296-324 | for every volume the delivered chunks are a gap-free, repeat-free, in-order prefix of its recognised keys |
| PollerRuns.NothingTwice | crates/radar-workstation/src/ingest/s3_poll.rs:250-386 | no object is delivered twice, across re-anchoring and recovery |
| PollerRuns.TargetAdvances | crates/radar-workstation/src/ingest/s3_poll.rs:328-386 | once anchored, the target never moves backwards |
| PollerRuns.VolumesInOrder | crates/radar-workstation/src/ingest/s3_poll.rs:250-326 | chunks are delivered in the order of their volumes, none beyond the target |
| PollerRuns.GivenUpForAReason | crates/radar-workstation/src/ingest/s3_poll.rs:328-386 | a volume is left only after its end chunk; or, once seen, after the longer silence; or, never seen and with nothing of it delivered, after the shorter one and when a volume at least two ahead is listed |
| PollerMoves.MovesOnIff | crates/radar-workstation/src/ingest/s3_poll.rs:328-386 | over every possible run, exactly when a turn without a key moves on: at the 60th in a row once something was seen, to the next volume; or from the 12th, when nothing was seen and a volume two ahead is listed, to just before the newest; with counters and last key fresh |
| PollerMoves.StaysOn | crates/radar-workstation/src/ingest/s3_poll.rs:328-386 | otherwise the turn is counted, or the count starts again after a relisting in vain; and exactly when the poll fails |
| PollerMoves.SilenceEnds | crates/radar-workstation/src/ingest/s3_poll.rs:512-532 | a volume that falls silent half-way is left after sixty such turns in a row, and no sooner |
| PollerMoves.DeliveryMovesOnIff | crates/radar-workstation/src/ingest/s3_poll.rs:280-324 | a turn with keys delivers exactly those that name chunks, in order, if all of them arrive, and nothing otherwise; and moves on exactly when one of them is an end chunk |
| PollerMoves.StartsAtNewest | crates/radar-workstation/src/ingest/s3_poll.rs:250-294 | a poller that is not anchored starts with the newest volume listed |
| PollerRuns.CatchesUp | crates/radar-workstation/src/ingest/s3_poll.rs:296-324 | a successful poll that finds keys leaves nothing recognised of that volume undelivered |
| Calendar.CivilSuccessor | crates/radar-workstation/src/render/time.rs:40-52 | day 0 is 1970-01-01 and, for every integer, the next day number gives the next day of the Gregorian calendar |
| Calendar.DaysOfCivil | crates/radar-workstation/src/render/time.rs:40-52 | counting days by the calendar rules gives back the day number |
| Calendar.CivilIsBijection | crates/radar-workstation/src/render/time.rs:40-52 | every valid date is the image of exactly one day number |
| Calendar.CivilIsMonotone | crates/radar-workstation/src/render/time.rs:40-52 | later day numbers are later dates |
| Calendar.RadarDays | crates/radar-workstation/src/render/time.rs:19-24 | radar day 1 is 1970-01-01, and each is followed by the next day of the calendar |
| Widths.CivilFitsIff | crates/radar-workstation/src/render/time.rs:38-52 | no step leaves 64 bits exactly up to 719 468 days before the last one, so it is not "valid for any `i64`" |
| Widths.YearFitsIff | crates/radar-workstation/src/render/time.rs:51-52 | the cast of the year to 32 bits keeps it exactly between two days |
| Widths.RadarDatesFit | crates/radar-workstation/src/render/time.rs:22-52 | every 16-bit radar date is inside both ranges |
| Calendar.TimeOfDay | crates/radar-workstation/src/render/time.rs:26-36 | hours, minutes and seconds are in range and are the whole seconds of the time given, or 23:59:59 beyond the day |
| Calendar.UtcFollowsVolumeOrder | crates/radar-workstation/src/assembly/mod.rs:43-47 | the displayed time follows the order of volume identities |
| LineDrawing.Raster.PutPixel | utility/radar-viz/src/png_out.rs:33-36 | exactly one pixel changes |
| LineDrawing.DrawLine | utility/radar-viz/src/overlay.rs:89-128 | the image afterwards has exactly the pixels of the segment inside the square painted, also when the segment is rejected at once |
| LineDrawing.Walk | utility/radar-viz/src/overlay.rs:98-127 | the loop takes max(dx, dy) + 1 turns and paints exactly the pixels of the segment inside the square |
| LineDrawing.WithinHalfAPixel | utility/radar-viz/src/overlay.rs:98-127 | every pixel is within half a pixel of the ideal line on the shorter side |
| LineDrawing.FromEndToEnd | utility/radar-viz/src/overlay.rs:98-127 | the pixels start at one end, stop at the other, reach it only then, and stay in the bounding box |
| LineDrawing.Rejected | utility/radar-viz/src/overlay.rs:93-97 | a segment beyond one edge has no pixel in the square |
| Widths.LineFits | utility/radar-viz/src/overlay.rs:98-127 | on every turn of a segment no longer than a third of the 32-bit range the error term and its double fit |
| Widths.LongLineOverflows | utility/radar-viz/src/overlay.rs:98-127 | where one side exceeds the other by more than 2^30 the first doubling does not fit |
| Simplify.SegDistIsLeast | utility/map-bake/bake.py:356-370 | the measured distance is the least distance to any point of the segment, and is attained |
| Simplify.Farthest | utility/map-bake/bake.py:360-373 | the inner loop finds the first farthest vertex of the range |
| Simplify.MarkKept | utility/map-bake/bake.py:348-378 | the loop over the explicit stack ends and keeps exactly the two ends and what the recursive definition marks between them |
| Simplify.GapsAreNear | utility/map-bake/bake.py:348-378 | every vertex passed over is within the tolerance of the segment between the marked ones around it |
| Simplify.EachSplits | utility/map-bake/bake.py:348-378 | every marked vertex is beyond the tolerance, and the first of the farthest, between two other marked ones |
| Simplify.NothingMarkedIff | utility/map-bake/bake.py:374-378 | nothing is marked between two vertices exactly when all there is within the tolerance |
| Simplify.SimplifyPart | utility/map-bake/bake.py:331-380 | the result is an ordered subsequence with both ends; every dropped vertex is within the tolerance of the segment between the kept ones around it; every one kept in between is beyond it, and the first of the farthest, between two other kept ones; if all are near the segment between the ends only these are left |
| ConfigFile.ParseText | crates/radar-workstation/src/config/parse.rs:23-57 | the loop that updates pairs in place computes the line-by-line definition |
| ConfigFile.ParseIsLookup | crates/radar-workstation/src/config/parse.rs:23-57 | of duplicate keys the last one wins |
| ConfigFile.LineKeyAgrees | crates/radar-workstation/src/config/parse.rs:59-71 | `line_key` names a key exactly for the lines that reading takes as a pair with that key |
| ConfigGrammar.MeaningIff | crates/radar-workstation/src/config/parse.rs:23-71 | for every line, told from its characters: it is a pair exactly when it is a key, an equals sign and a trimmed value with white space around each, and ignored exactly when it is blank or begins with a number sign after white space |
| ConfigGrammar.ValidKeyIff | crates/radar-workstation/src/config/parse.rs:73-80 | a key is letters, digits, underscores and dots, with no dot at an end and no two in a row |
| ConfigGrammar.PairsInOrder | crates/radar-workstation/src/config/parse.rs:23-57 | pairs are listed once for each key, in the order in which the keys first appear |
| ConfigGrammar.SkippedIff | crates/radar-workstation/src/config/parse.rs:23-57 | the lines reported, counted from 1, are those that are neither |
| ConfigFile.RewriteInPlace | crates/radar-workstation/src/config/save.rs:35-44 | rewriting lines in place leaves the lines and flags of the line-by-line definition |
| ConfigFile.AppendMissing | crates/radar-workstation/src/config/save.rs:46-50 | the changes without a line are appended in order |
| ConfigFile.SaveText | crates/radar-workstation/src/config/save.rs:32-55 | the whole text transformation |
| ConfigRoundTrip.WrittenReadsBack | crates/radar-workstation/src/config/save.rs:35-50 | a written change reads back as that key and value, on one line |
| ConfigRoundTrip.SaveThenParse | crates/radar-workstation/src/config/save.rs:32-55 | reading a saved file gives the old settings updated by the changes, with the same lines skipped, for every key on at most one line |
| ConfigRoundTrip.SavedValueReadIff | crates/radar-workstation/src/config/save.rs:32-55 | exactly when a saved value is read back: its key is on at most one line, or the last of its lines already had the value |
| ConfigRoundTrip.DuplicateHidesSave | crates/radar-workstation/src/config/save.rs:35-44 | an instance: a key on two lines keeps reading as its second value |
| ConfigRoundTrip.BothSavesSurvive | crates/radar-workstation/src/config/save.rs:32-55 | two saves of different keys both survive, with the same lines skipped |
| ConfigRoundTrip.LinesKeepTheirPlace | crates/radar-workstation/src/config/save.rs:32-55 | every line, as reading sees it, keeps its place, and its content less a final carriage return unless it is the first to define a changed key |
| ConfigBytes.LineKeepsItsBytesIff | crates/radar-workstation/src/config/save.rs:1-8 | byte for byte: a line that is not rewritten keeps its bytes, its end included, exactly when it ends in a line feed without a carriage return before it and is not the lone blank line of a save without changes |
| ConfigBytes.SavingNothingKeepsIff | crates/radar-workstation/src/config/save.rs:32-55 | a save without changes leaves the file as it is exactly when it is empty, or ends in a line feed, has no carriage return before one and is more than a blank line |
| ConfigBytes.BytesLost | crates/radar-workstation/src/config/save.rs:1-8 | instances: a carriage return before a line feed goes, and so does a lone blank line |
| ConfigRoundTrip.SaveIsIdempotentIff | crates/radar-workstation/src/config/save.rs:32-55 | saving the same changes again changes nothing exactly when every line ending in a carriage return is one that is rewritten |
| ConfigBytes.SecondSaveDiffers | crates/radar-workstation/src/config/save.rs:32-55 | an instance: a last line that ends in a carriage return and no line feed |
| ConfigBytes.NewSettingWritten | crates/radar-workstation/src/config/save.rs:40-50 | a new setting is written with a space on either side of the equals sign |
| Records.DecodeEncode | crates/radar-workstation/src/overlay/mod.rs:69-80 | every 16- or 32-bit field, signed or not, reads back as packed |
| Records.FieldReadsBack | crates/radar-workstation/src/overlay/mod.rs:155-216 | any field of any packed record, wherever the records stand, reads back as the value written |
| MapBundle.NothingPassedOver | crates/radar-workstation/src/overlay/mod.rs:155-202 | whatever bytes are accepted, no layer, part or point within the declared counts is passed over, and ranges are clamped to those counts |
| MapBundle.LabelPassedOverIff | crates/radar-workstation/src/overlay/mod.rs:204-229 | a label is passed over exactly when its name runs past the string table or is not text |
| BundleOctets.ParseIff | crates/radar-workstation/src/overlay/mod.rs:111-152 | octets are accepted exactly when they begin with the magic and version 1 and hold all that their five counts announce |
| BundleOctets.EntryOctets | crates/radar-workstation/src/overlay/mod.rs:155-190 | which octets of a layer and of a part are read as what |
| BundleOctets.PointOctets | crates/radar-workstation/src/overlay/mod.rs:192-202 | the same for a point: longitude, then latitude, in two's complement, seven decimals |
| BundleOctets.LabelOctets | crates/radar-workstation/src/overlay/mod.rs:204-229 | the same for a label and its name in the string table |
| BundleWriter.Round | utility/map-bake/bake.py:388-389 | fixed point is the nearest integer, and of two equally near ones the even one |
| BundleWriter.FixedIsClose | utility/map-bake/bake.py:388-389 | degrees come back within 0.5e-7 |
| BundleWriter.AddParts | utility/map-bake/bake.py:409-425 | running cursors over growing buffers write the index and points of exactly these parts, or fail where packing them fails |
| BundleWriter.AddLayers | utility/map-bake/bake.py:405-428 | the same for the geometry layers, with part and point cursors that count what was written |
| BundleWriter.AddLabels | utility/map-bake/bake.py:436-448 | the string table is all names in order, and each index entry points at its own name |
| BundleWriter.BuildBundle | utility/map-bake/bake.py:392-464 | the whole writer produces the bundle as rows, or fails exactly when that cannot be packed |
| BundleFits.BuildsIff | utility/map-bake/bake.py:392-464 | exactly which geometry and labels can be written |
| BundleRoundTrip.BuiltIsParsed | crates/radar-workstation/src/overlay/mod.rs:111-152 | whatever is written is accepted, with the counts and sections written |
| BundleRoundTrip.BundleReadsBack | crates/radar-workstation/src/overlay/mod.rs:111-229 | walking the layers, parts, points and labels of a written bundle gives exactly the fixed-point coordinates, boxes, ranks and names written, in order |
| BundleRoundTrip.StoredIsClose | utility/map-bake/bake.py:320-323 | every place read back is within 0.5e-7 degree of the original and inside the box stored for its part |
| BundleRoundTrip.BoxIsTight | utility/map-bake/bake.py:320-323 | each side of the stored box is touched by a stored place |
| Projection.Project | crates/radar-workstation/src/overlay/project.rs:65-110 | the nested loops produce the vertices, indices, ranges, labels and unknown kinds that the bundle calls for |
| Projection.PairsAreSegments | crates/radar-workstation/src/overlay/project.rs:86-103 | for any bundle each index pair is within the vertices and names the projected ends of one segment of one part |
| Projection.SegmentIsPair | crates/radar-workstation/src/overlay/project.rs:99-103 | and every segment of every drawn part has its pair |
| Projection.LayersTile | crates/radar-workstation/src/overlay/project.rs:86-106 | the layer ranges tile the index list, two indices per segment of the parts with at least two points |
| ProjectionMeaning.EverySegmentDrawn | crates/radar-workstation/src/overlay/project.rs:82-106 | for any bundle, every segment of every part of every layer of a known kind is drawn, in the range of a layer of that kind |
| ProjectionMeaning.OnlySegmentsDrawn | crates/radar-workstation/src/overlay/project.rs:82-106 | and every index pair is such a segment |
| ProjectionMeaning.LabelsShown | crates/radar-workstation/src/overlay/project.rs:70-81 | each label layer shows all labels in order at their projected places |
| ProjectionMeaning.UnknownIff | crates/radar-workstation/src/overlay/project.rs:78-84 | the kinds reported are those of layers that are neither lines nor labels |
| Widths.IndicesFitIff | crates/radar-workstation/src/overlay/project.rs:65-110 | for any bundle everything cast to 32 bits keeps its value exactly when the number of indices does |
| BundleDrawn.BakedIsDrawn | crates/radar-workstation/src/overlay/project.rs:65-110 | baker, reader and projector together: what is drawn are the lines given, in order, at their stored places, less those without a segment, and all labels |
| MessageStream.Cursor.ReadBytes | crates/nexrad-decoder/src/parse/cursor.rs:96-104 | the octets at the position, and the position past them; or nothing and no move |
| MessageStream.Cursor.ReadU16 | crates/nexrad-decoder/src/parse/cursor.rs:67-79 | the same for a big-endian number |
| MessageStream.ForEachMessage | crates/nexrad-decoder/src/parse/mod.rs:44-85 | the loop hands over exactly the records of the recursive definition, and stops where it stops |
| MessageStream.LayoutIsWalked | crates/nexrad-decoder/src/parse/mod.rs:44-85 | messages laid out with their padding are handed over whole and in order, and what follows is walked as it would be alone |
| MessageStream.SplitIff | crates/nexrad-decoder/src/parse/mod.rs:52-82 | for a walk that no message of it stops: a stream can be cut where a record ends and the pieces walked separately exactly when that record is no shorter than its two headers |
| MessageCuts.ShortRecordIsLost | crates/nexrad-decoder/src/parse/mod.rs:52-82 | an instance: a record of sixteen octets is handed over while twelve more follow it, and not seen at the end of a piece |
| MessageStream.ParseRadialStream | crates/nexrad-decoder/src/parse/mod.rs:96-107 | the radials of a chunk are those of its Message 31 records, or there are none when the framing or a radial is cut short |
| MessageCuts.RadialsSplitIff | crates/nexrad-decoder/src/parse/mod.rs:96-107 | the radials of the whole are those of the two pieces exactly when the record at the cut covers its two headers or a piece gives none either; a shorter one makes the whole fail |
| MessageCuts.PiecesSucceedAlone | crates/nexrad-decoder/src/parse/mod.rs:96-107 | an instance: the whole gives nothing while both pieces are read |
| MessageStream.EveryRadialIsParsed | crates/nexrad-decoder/src/parse/mod.rs:96-107 | each Message 31 laid out becomes one radial, at its own place in the order |
| Moments.ParseProduct | crates/nexrad-decoder/src/parse/product.rs:6-42 | reading field by field through the cursor gives the moment at that block, and nothing when the block is absent, cut short or unknown |
| Moments.ParsedMomentIsDecoded | crates/nexrad-decoder/src/parse/product.rs:24-42 | a moment has whole words for exactly its gates: every gate below the count can be read and none above |
| Moments.KindIff | crates/nexrad-decoder/src/types/product.rs:16-28 | the seven block names, and no other, are moments |
| Moments.MomentReadsBack | crates/nexrad-decoder/src/parse/product.rs:6-42 | a moment laid out anywhere in a body reads back as it was |
| Png.Adler32 | utility/radar-viz/src/png_out.rs:109-117 | the running sums are the closed-form Adler-32 of RFC 1950 |
| Png.SplitIsRight | utility/radar-viz/src/png_out.rs:82-96 | blocks of at most 65535 octets that hold the data in order, all full but the last, and only the last final |
| Png.ZlibStored | utility/radar-viz/src/png_out.rs:76-99 | the loop writes the stored stream |
| Png.UnzipZlib | utility/radar-viz/src/png_out.rs:76-99 | a decoder written from the RFCs gets back exactly the data, whatever it is |
| Png.ZlibLength | utility/radar-viz/src/png_out.rs:76-99 | the length of the stream and its number of blocks |
| Png.WriteScanlines | utility/radar-viz/src/png_out.rs:61-70 | each row after its filter octet |
| Png.EncodePng | utility/radar-viz/src/png_out.rs:43-57 | the whole file, chunk by chunk |
| Png.PngReadsBack | utility/radar-viz/src/png_out.rs:43-57 | the file decodes to the size and pixels it was written from, while the data chunk fits its length field |

## Left out
- HttpConnection.Connection.RoundTrip: sockets, TLS, connecting and timers are replaced by a network that picks the size of every read and may fail at any of them; the bytes of the request are not modelled
- HttpClient.Client.Connect: whether a connection opens, and what its peer will deliver, is arbitrary
- Assembly.VolumeAssembler.Chunk: the late-discard events of one chunk, which come out of a hash map, are one event holding an unordered map; decoding and the channels are left out
- Assembly.VolumeAssembler.DoIngestRadial: the sweep builder and the volume context are values held by the assembler, not objects of their own
- Grid.GridSweep: arithmetic is over reals, so a negative zero, NaN or an infinity in the input and the rounding of 32-bit floats are not modelled; a division by zero is
- Grid.ModalAzimuthCount: which of several equally frequent spacing codes is taken is left open, as the original's hash map does
- Compute.ComputeStage.HandleEvent: the values of derived products (echo tops, liquid water) and beam geometry are parameters
- DisplayState.RadarState.DoApply: locks, the event log and `VolumeSummary` formatting are left out; snapshots are taken between updates
- Poller.S3Poller.PollOnce: listings are honest views of append-only, sorted directories; XML parsing, the status channel and the back-off of `run` are left out; volume numbers do not wrap
- Poller.S3Poller.ListAllKeysAfter: a truncated page always has a continuation token
- Calendar.CivilSuccessor: day counts are unbounded; `Widths` says where 64 bits and the cast of the year agree
- LineDrawing.DrawLine: coordinates are unbounded; `Widths` says where the error term fits 32 bits, one way for short segments and one way for long ones; the square is no larger than the raster
- Simplify.SimplifyPart: distances are compared squared, over reals, and the two scale factors of the local projection (a cosine) are parameters
- ConfigFile.SaveText: reading the file, creating it and the atomic rename are left out
- BundleWriter.BuildBundle: degrees are reals; which of several unwritable values raises first is not distinguished; shapefile reading, filters and the manifest are left out
- MapBundle.Parse: offsets have no width; an offset that would overflow is one past the end, which is refused as well
- MapBundle.Labels: which octets are UTF-8 is a parameter
- Projection.Project: the map projection is a parameter; indices are unbounded, and `Widths` says when they fit 32 bits
- MessageStream.ForEachMessage: the callback is a test that stops the walk; `parse_metadata_stream` differs from `parse_radial_stream` only in the type it looks for and is left out
- Moments.ParseProduct: how four octets are a floating-point number is a parameter; the other blocks of a Message 31 are left out
- Png.EncodePng: the CRC of a chunk is a parameter; image sides fit 32 bits
- rendering, palettes, the window, sites, paths, command lines, BZ2 decompression, supervision and logging: user interface, libraries or lookups
