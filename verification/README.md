# KaRadio32: verified models of the streaming pipeline and its neighbours

A Dafny 4.11 project that models the parts of the firmware with the most state and proves what they are for.
Everything is checked with `dafny verify dfyconfig.toml`.

## What is modelled

The streaming pipeline (`main/hls.c`, `main/hls_fmp4.c`, `main/hls_ts.c`):

- Every resumable parser is described twice: as a *machine* that takes one byte at a time
  (`Machine.dfy`, `Fmp4Spec.dfy`, `TsSpec.dfy`, the decoder in `Chunked.dfy`) and as a class with the fields,
  fixed buffers and loops of the C structure, which takes a whole network read (`Fmp4.dfy`, `Ts.dfy`, `Chunked.dfy`).
  The methods are proved to be the machine; that cutting the input is harmless is then one lemma about all machines.
- On the machines stand the theorems about meaning: fragmented MP4 sample extraction by byte ranges
  (`Fmp4Theorems.dfy`), the round trips through muxers (`Fmp4Mux.dfy`, `TsMux.dfy`), conservation of the transport
  stream payload (`TsTheorems.dfy`), the program tables and the first segment of a transport stream (`TsTables.dfy`),
  the reading of a moov (`Moov.dfy`, with a writer in `MoovMux.dfy` and examples in `MoovExample.dfy`), the behaviour
  of init segments (`Fmp4Init.dfy`), ADTS framing (`Adts.dfy`), the audio configuration (`AudioConfig.dfy`) and chunked
  transfer coding (section 7.1 of RFC 9112). The theorems about the demuxer hold for every way of reading a moov.
- The playlist side splits lines in place (`Text.dfy`), analyses them (`Playlist.dfy`), schedules segments
  (`Schedule.dfy`), and refreshes from a tail of the playlist (`Tail.dfy`). `Runs.dfy` has the theorems about runs of
  refreshes, `Inits.dfy` those about joining and init segments, `TailMaps.dfy` and `LiveMaps.dfy` those about the map
  that a tail refresh inherits, `PlayerSpec.dfy`, `Live.dfy` and `Vod.dfy` the theorems about the control loop, and
  `HlsPlayer.dfy` the class with the manifest buffer whose methods are proved against all of these. `LiveExample.dfy`
  has live playlists and runs that meet the hypotheses. What the network does in a round is a parameter, so every
  statement is about all outcomes of all downloads.
- `Configs.dfy` joins scheduler and demuxer: with which configuration a segment is fed.

The self-contained algorithms:

- `Sha1Spec.dfy` is FIPS 180-4 written down; `Sha1.dfy` is the streaming code with its 16-word ring, unrolled rounds
  and two-word bit count.
- `Base64.dfy` has the resumable, line-wrapping encoder and the bounded one against RFC 4648.
- `Eeprom.dfy` has the station store on NOR flash, where erasing sets bits and programming can only clear them.
- `NvsSpec.dfy`, `NvsBlobs.dfy`, `Nvs.dfy` and `NvsImage.dfy` have the partition image builder: page format and
  reader, blob splitting, the page and builder classes, and whole runs.
- `Nec.dfy` has the two independent infrared decoders and the code word that joins them.

Conventions: bytes are `byte` (0 to 255) or `bv8`; C integers that can wrap are wrapped explicitly; `|=` and shifts on
bit fields that never overlap are written as sums, products and divisions; ghost fields hold what a sink or
callback has received, or what a buffer stands for.

## What the proofs found

- An init segment is parsed read by read, each from a reset state. Its moov box is lost when a read ends inside it,
  and also when a read ends inside a box in front of it, so that the read that holds the moov does not begin between
  boxes (`Fmp4Init.FtypCutLosesMoov`). `Fmp4Init.InitReadsExact` gives the exact condition for any reads, and
  `Fmp4Init.WholeBoxesAreSafe` says which cuts are harmless.
- A failed init download can change the configuration while the scheduler goes on as if it had not: a later segment
  under the old map is then fed to a demuxer configured for another one (`Configs.WrongConfiguration`).
  `Configs.FedExactly` and `Configs.FailedInitDisturbs` say exactly when this happens.
- The default sample size of a track is lost when its mvex stands in front of the track and an earlier moov had
  another track number, because that number is still in force (`Moov.DefaultSizeExact`, `MoovExample.DefaultSizeLost`).
  A track header of version 1 is read up to 4 bytes behind the checked length (`MoovMux.TrackIdExact`).
- The tail refresh casts the last sequence number to `int`: from 2^31-1 on the spliced playlist is numbered wrong
  (`Tail.SpliceNumbersExact`).
- `saveMultiStation` never returns for a position of 256 or more (`Eeprom.TrimmingEnds`). The only caller,
  main/webserver.c:837-865, passes an id below 255, so this program does not get there.
- Without a primary infrared code the wake stub also wakes for a frame of 32 zero bits: only the second comparison
  is guarded (`Nec.WakesExactly`).
- A blob written when the current NVS page is exactly full raises the assertion instead of turning the page, while
  primitive values and strings turn it (`NvsBlobs.BlobSucceedsIff`); strings of 3969 to 4000 bytes pass the
  documented limit and can never be stored (`NvsBlobs.LongStringsNeverFit`).

## Model

| member | source | states |
|---|---|---|
| Fmp4.Fmp4Demuxer.FeedRead | main/hls_fmp4.c:400-509 | one network read, handled in chunks inside the fixed buffers, has exactly the sink calls, the result and the new state of the byte-at-a-time demuxer started from the old state |
| Fmp4.Fmp4Demuxer.FeedReads | main/hls_fmp4.c:400-509 | split invariance: any number of reads, cut anywhere, acts as one read of the joined bytes, from every reachable state and up to a failure |
| Fmp4.Fmp4Demuxer.Turn | main/hls_fmp4.c:403-507 | each pass of the loop uses at least one byte and advances the byte-at-a-time demuxer by exactly the bytes it used |
| Fmp4.Fmp4Demuxer.HeaderTurn | main/hls_fmp4.c:407-452 | collecting 8 or 16 header bytes over several reads, the choice of the box treatment and the refusal of a size below the header |
| Fmp4.Fmp4Demuxer.StartBox | main/hls_fmp4.c:425-450 | which boxes are collected, passed on as media or skipped, where the samples start without a moof, and that an empty body returns to header state |
| Fmp4.Fmp4Demuxer.CollectTurn | main/hls_fmp4.c:453-474 | a collected box is parsed exactly when its last byte is there, however it was delivered |
| Fmp4.Fmp4Demuxer.ChooseMode | main/hls_fmp4.c:433-450 | the phase and the sample start that the remaining size and the type of a box select |
| Fmp4.Fmp4Demuxer.CloseMetaBox | main/hls_fmp4.c:462-472 | a moov replaces the configuration and fails without an AAC track, a moof replaces the sample plan |
| Fmp4.Fmp4Demuxer.ParseMoov | main/hls_fmp4.c:221-249 | the configuration left by a moov equals that of the plain reading of its boxes, starting without a format and a default size but with the old track number |
| Fmp4.Fmp4Demuxer.ParseMvex | main/hls_fmp4.c:233-241 | the default sample size left by an mvex is that of its last trex for the track, or for any track while none is known |
| Moov.FindBox | main/hls_fmp4.c:80-88 | the first box of a kind, up to the first malformed one |
| Moov.FollowPath | main/hls_fmp4.c:197-201 | the box at the end of a path of kinds |
| Moov.DescLen | main/hls_fmp4.c:136-152 | a descriptor length of one to four bytes, seven bits in each, or none |
| Moov.ParseEsds | main/hls_fmp4.c:154-186 | the format in the audio configuration behind three nested descriptors and their optional fields |
| Moov.ParseTrak | main/hls_fmp4.c:188-219 | format and number of a track whose first sample description is AAC, none otherwise |
| Moov.TrackExact | main/hls_fmp4.c:221-249 | for every moov: format and track number are those of its first AAC track, and without one there is no format and the old number stays |
| Moov.ForgetsTheOld | main/hls_fmp4.c:224-239 | if no mvex stands in front of the first AAC track, nothing of the old configuration survives |
| Moov.DefaultSizeExact | main/hls_fmp4.c:233-241 | finding: the default sample size of the track is adopted if and only if its mvex stands behind the track, or the old track number is 0 or the same; else it is 0 |
| MoovMux.LengthReadBack | main/hls_fmp4.c:136-152 | a descriptor length written in any of its four forms is read back |
| MoovMux.EsdsReadBack | main/hls_fmp4.c:154-186 | the audio configuration is found behind all forms of the descriptor lengths and all combinations of optional fields |
| MoovMux.TrackReadBack | main/hls_fmp4.c:188-219 | a written track is read back, whatever boxes stand around and between those on the path |
| MoovMux.TrackIdExact | main/hls_fmp4.c:192-194 | finding: the track number is a function of the track header if and only if the header is not of version 1 or has at least 24 bytes, while 20 are checked |
| MoovMux.MovieReadBack | main/hls_fmp4.c:221-249 | whatever configuration came before, a written moov sets format and number of its first AAC track |
| MoovMux.WrittenPlays | main/hls_fmp4.c:188-538 | init segment and media together: after a written init segment, read in pieces of whole boxes, a muxed segment of its track gives an ADTS receiver exactly the samples, in the announced format |
| MoovExample.DefaultSizeLost | main/hls_fmp4.c:224-241 | for every format, track and size there is a moov that shows it: with the mvex in front of the track the size read is 0 when another track was known |
| Fmp4.Fmp4Demuxer.SkipTurn | main/hls_fmp4.c:475-486 | skipping keeps the position and ends with the box, or never for an open-ended one |
| Fmp4.Fmp4Demuxer.MdatTurn | main/hls_fmp4.c:487-505 | media bytes without a configuration fail, others go through the sample cutter |
| Fmp4.Fmp4Demuxer.MdatChunk | main/hls_fmp4.c:351-389 | the chunk loop cuts the same samples at the same positions as the byte-at-a-time sampler and ends, zero-size samples included |
| Fmp4.Fmp4Demuxer.MediaTurn | main/hls_fmp4.c:354-387 | every turn uses bytes or passes a sample, and what is left to do stays the same |
| Fmp4.Fmp4Demuxer.TakeSample | main/hls_fmp4.c:367-386 | a sample is sent exactly once, when complete and of 1 to 8184 bytes; a longer one is counted and dropped |
| Fmp4.Fmp4Demuxer.EmitSample | main/hls_fmp4.c:378-382 | the sink gets the ADTS header and the sample kept in the frame buffer, nothing else |
| Fmp4.Fmp4Demuxer.ParseMoof | main/hls_fmp4.c:326-337 | the sample table and the start found equal those of the plain reading of the box tree; the previous fragment is forgotten |
| Fmp4.Fmp4Demuxer.ParseTraf | main/hls_fmp4.c:251-324 | the loop over tfhd and trun boxes, with their order and the default values in force at each of them |
| Fmp4.Fmp4Demuxer.ParseRun | main/hls_fmp4.c:302-321 | the table grows by the sizes of the run, at most to its capacity, and stops at a truncated entry |
| Fmp4.Fmp4Demuxer.ReadTrackHeader | main/hls_fmp4.c:262-282 | whether a track fragment is ours, its base and its default size, for every combination of flags and lengths |
| Fmp4.Fmp4Demuxer.SegmentEnd | main/hls_fmp4.c:391-398 | after it only the configuration survives: all other fields and buffer contents are dead |
| Fmp4.Fmp4Demuxer.PlaySegment | main/hls_fmp4.c:391-398 | segment independence: from any leftover state, even of an aborted segment, the output depends on the bytes of the segment and the configuration alone |
| Fmp4.Fmp4Demuxer.FeedInit | main/hls_fmp4.c:532-538 | each read of an init segment is parsed on its own from the reset state |
| Fmp4Spec.HeaderStretch | main/hls_fmp4.c:407-452 | header bytes only accumulate until the header is complete |
| Fmp4Spec.CollectStretch | main/hls_fmp4.c:453-474 | a stretch inside a collected box only accumulates, the last byte closes it |
| Fmp4Spec.SkipStretch | main/hls_fmp4.c:475-486 | a stretch inside a skipped box makes no output |
| Fmp4Spec.MediaStretch | main/hls_fmp4.c:487-505 | a stretch inside an mdat is what the sampler makes of it |
| Fmp4Theorems.FeedBox | main/hls_fmp4.c:407-451 | a box with an 8- or 16-byte header, encoded and fed, is the body fed in the phase its header opens |
| Fmp4Theorems.Extract | main/hls_fmp4.c:351-389 | an mdat that covers the planned samples yields sample i as exactly the segment bytes from the start plus the earlier sizes on |
| Fmp4Theorems.FragmentExtract | main/hls_fmp4.c:326-389 | the same for a fragment, that is a moof and an mdat with any ignored boxes in front of either, from any state between boxes; the state afterwards is again between boxes with the same configuration |
| Fmp4Theorems.SegmentExtract | main/hls_fmp4.c:251-509 | for a whole segment of fragments, with ignored boxes behind them or one more fragment whose mdat of size 0 reaches to the end, the sink gets the announced byte ranges in order, each once; oversize samples are left out without shifting later ones |
| Fmp4Boxes.FirstOfEncoded | main/hls_fmp4.c:55-78 | the in-memory box reader finds exactly the box that was encoded and where the next one starts |
| Fmp4Boxes.MoofBoxesFit | main/hls_fmp4.c:302-320 | no moof makes the sample table exceed its capacity or hold more than 65535 |
| Fmp4Mux.MoofReadBack | main/hls_fmp4.c:251-337 | the sizes and the data start a muxer writes into a moof are the ones read back from it |
| Fmp4Mux.MuxDemux | main/hls_fmp4.c:251-509 | demuxing undoes muxing: a muxed segment yields the ADTS frames of its samples in order and nothing else |
| Fmp4Mux.SamplesSurvive | main/hls_fmp4.c:339-389 | an ADTS receiver given the demuxer output for a muxed segment recovers exactly the samples and their format |
| Fmp4Init.DownloadInit | main/hls_fmp4.c:532-538 | the reads of an init segment through the real demuxer, until one fails |
| Fmp4Init.InitReadsExact | main/hls_fmp4.c:532-538 | finding: the reads of an init segment are not split invariant; for any number of reads, cut anywhere, and any bytes around the moov, its configuration is adopted if and only if no earlier read fails, one read holds the whole moov and that read, parsed from the reset state, is between boxes where the moov begins; else the old configuration stays |
| Fmp4Init.CutsBetweenBoxes | main/hls_fmp4.c:532-538 | any number of cuts between boxes does no harm |
| Fmp4Init.WholeBoxesAreSafe | main/hls_fmp4.c:532-538 | in particular reads that end with whole boxes in front of the moov act as one read |
| Fmp4Init.FtypCutLosesMoov | main/hls_fmp4.c:532-538 | a cut behind the fourth byte of a file type box makes the second read skip the moov that follows whole, and still report success |
| Fmp4Init.AnInitSegment | main/hls_fmp4.c:532-538 | there are init segments as these statements require them |
| Fmp4Init.InitCutExact | main/hls_fmp4.c:532-538 | for two reads with the cut at offset k of the moov box behind whole boxes, the configuration is adopted if and only if k is 0 or its length |
| Adts.HeaderLengthExact | main/hls_fmp4.c:339-349 | the 13-bit length field is exact if and only if the sample has at most 8184 bytes |
| Adts.FormatOfHeader | main/hls_fmp4.c:342-343 | profile, frequency index and channel configuration can be read back from the header |
| Adts.CutUndoesFraming | main/hls_fmp4.c:376-386 | ADTS output is self-delimiting: cutting any concatenation of frames by the length field gives back the samples and their configuration |
| AudioConfig.GetBits | main/hls_fmp4.c:90-101 | the bit reader returns the addressed bits as a 32-bit number, zeros behind the end, and up to 32 bits nothing wraps |
| AudioConfig.ParseAsc | main/hls_fmp4.c:103-134 | the audio config reader accepts exactly what the decision table accepts, SBR and PS wrappers included |
| AudioConfig.PlainAscRoundTrip | main/hls_fmp4.c:103-134 | every format the demuxer can hold is read back from its own two-byte configuration |
| AudioConfig.SbrAscRoundTrip | main/hls_fmp4.c:112-119 | and from the three-byte configuration that wraps it in explicit SBR, whatever the extension rate |
| Ts.TsDemuxer.FeedRead | main/hls_ts.c:224-262 | one read, with its fast path for whole packets, equals the byte-at-a-time reassembly in sink calls and state |
| Ts.TsDemuxer.HandlePacket | main/hls_ts.c:156-222 | a packet changes the PID table, the PES skip and the counters as specified and appends exactly its payload to the batch |
| Ts.TsDemuxer.Output | main/hls_ts.c:34-53 | batching cuts what is buffered plus the new bytes into full blocks of 3008 bytes and keeps the rest |
| Ts.TsDemuxer.ParsePat | main/hls_ts.c:55-72 | the PMT PID is that of the first program other than 0 within the section, else unchanged |
| Ts.TsDemuxer.ParsePmt | main/hls_ts.c:126-154 | the first AAC stream and the first metadata stream are adopted, earlier choices are kept |
| Ts.TsDemuxer.SegmentEnd | main/hls_ts.c:279-292 | the last partial block is flushed and only the PID table survives |
| Ts.TsDemuxer.PlaySegment | main/hls_ts.c:224-292 | for any cut of any input the sink gets, by the end of the segment, the payload of the packets that the plain scan finds in the joined input |
| TsTheorems.ScanRefines | main/hls_ts.c:224-262 | the demuxer handles exactly the packets of the specification that scans for 0x47, takes 188 bytes and repeats |
| TsTheorems.PayloadConserved | main/hls_ts.c:34-53 | at all times the delivered blocks and the batch together are the accepted payload, and every delivered block has 3008 bytes |
| TsSpec.BlocksCover | main/hls_ts.c:34-53 | full blocks and remainder together are the buffered bytes |
| TsMux.PacketFields | main/hls_ts.c:156-169 | a packet with any legal adaptation stuffing is read back: PID, unit start, counter and the payload at its end |
| TsMux.DemuxUndoesMux | main/hls_ts.c:156-222 | demultiplexing undoes multiplexing for any PES header lengths, stuffing, interleaved packets of other PIDs, tables that come or change in between, and audio packets without payload |
| TsMux.PlayMuxed | main/hls_ts.c:224-292 | the same through the real demuxer, reads of any size and the flush; the PID table left is the one behind the last packet |
| TsTables.PatReadBack | main/hls_ts.c:55-72 | a program association table as a multiplexer writes it gives the PID of its first program other than the network entry |
| TsTables.PmtReadBack | main/hls_ts.c:126-154 | a program map table with any descriptors gives the PIDs of its first AAC and its first metadata stream, unless known before |
| TsTables.OpeningLearned | main/hls_ts.c:156-197 | a demuxer that knows nothing learns the announced PIDs from a stream that opens with its tables, whatever packets come before and between them |
| TsTables.PlayFirst | main/hls_ts.c:224-292 | from the very first byte: a new demuxer hands the PES payloads of such a stream to the sink, for reads of any size |
| Machine.FeedSplit | main/hls.c:279-357 | one call on two pieces is two calls, for every machine of the pipeline, from every state |
| Machine.AnyCut | main/hls.c:279-357 | however an input is cut, outputs, result and final state are those of the whole |
| Chunked.Body.FeedIdentity | main/hls.c:281-293 | one read of an identity body delivers what it holds of the announced length and reports the end with its last byte |
| Chunked.ReadIdentity | main/hls.c:281-293 | for every cut into reads an identity body delivers exactly the announced length, and completion comes with the read that holds its last byte |
| Chunked.Body.ChunkedTurn | main/hls.c:294-355 | a turn of the loop equals the byte-at-a-time decoder on the bytes it uses |
| Chunked.Body.FeedChunked | main/hls.c:294-356 | a read equals the byte-at-a-time decoder; completion is reported exactly when the body is done |
| Chunked.DecodeUndoesEncode | main/hls.c:294-356 | decoding undoes encoding for any list of chunks, either hex case, any extensions and any blanks in front of them; one byte earlier it is not complete |
| Chunked.NotDoneEarly | main/hls.c:344-350 | no proper prefix of an encoded body counts as complete |
| Chunked.ReadBody | main/hls.c:279-357 | for every partition of an encoded body the callback gets exactly the data, and completion comes with the last piece |
| Text.NextLine | main/hls.c:606-623 | lines are cut and trimmed in place: the line found, the text that remains and the bounds of the buffer |
| Text.TrimInPlace | main/hls.c:619-622 | exactly the trailing carriage returns and spaces are cut off |
| Playlist.Analyze | main/hls.c:639-681 | what the in-place scan collects is the analysis of the original text |
| Playlist.ScanCounts | main/hls.c:667-668 | the segment count is the number of EXTINF lines |
| Playlist.PlainKeepsNumbering | main/hls.c:646-669 | lines that only describe segments leave sequence number and target duration alone |
| Playlist.SignedReadBack | main/hls.c:650-651 | a printed sequence number is read back |
| PlayerSpec.Flags | main/hls.c:652-666 | end mark, master and unsupported are set exactly by the presence of such lines |
| Schedule.WalkAchieves | main/hls.c:799-894 | whatever the downloads do, a walk completes a prefix of its plan in order, and all of it unless it ends early |
| Schedule.FetchKeeps | main/hls.c:843-892 | a fetched segment is recorded with its number and line, a failed one leaves the memory alone |
| HlsPlayer.Hls.ProcessSegments | main/hls.c:799-894 | the loop over the lines in the buffer has the requests, completed segments, memory and verdict of the specification |
| HlsPlayer.Hls.HandleLine | main/hls.c:821-893 | one line of the walk |
| HlsPlayer.Hls.FetchWanted | main/hls.c:847-892 | init segment, media segment, stop requests and failures of one wanted segment, in this order |
| Inits.InitExactly | main/hls.c:859-869 | an init segment is requested exactly when a map is in force and it is not the one initialised last or a discontinuity has come in between; the map is then initialised or the walk ends |
| Inits.RunInits | main/hls.c:843-869 | over every run of refreshes against one playlist URL, whatever fails, each media segment is requested without a map or after the last successful init request, which was for its own map |
| Inits.LiveInits | main/hls.c:843-1018 | the same for every run of the control loop from its start, with tail and full refreshes and master playlists in any mix |
| Inits.DiscontinuityForcesInit | main/hls.c:829-869 | the next new segment behind a discontinuity asks for the init segment again, even of an unchanged map |
| Inits.JoinsNearTheEnd | main/hls.c:805-817 | joining a live playlist leaves exactly two segments when it is small, and when it is big the least number, at least two, that lasts 45 seconds, or all of them |
| Runs.RefreshStep | main/hls.c:799-894 | one refresh: completed numbers are consecutive, the memory names the last, and each is the segment its number names |
| Runs.ExactlyOnce | main/hls.c:799-894 | over every run in which the end of the playlist never moves back, completed numbers strictly increase and none comes again, whatever fails |
| Runs.NoGap | main/hls.c:799-894 | if the player also stays within the window of the playlist, completed numbers have no gap and follow the last one |
| Runs.NothingNew | main/hls.c:840-846 | a playlist with nothing behind the last completed segment causes no request at all |
| HlsPlayer.Hls.FindAnchor | main/hls.c:734-747 | the text behind the last line that equals the anchor, whole lines only, the first line never |
| HlsPlayer.Hls.SpliceTail | main/hls.c:729-759 | the buffer is rewritten in place to the minimal playlist, or nothing happens when the anchor is missing or there is no room |
| Tail.SpliceFinds | main/hls.c:731-747 | from any suffix that holds the anchor line behind a line break, exactly what follows the anchor is kept |
| Tail.SpliceNumbersExact | main/hls.c:750-751 | finding: the new playlist numbers its segments right if and only if the next number fits in 31 bits with sign |
| Tail.Renumbered | main/hls.c:840-846 | once a segment was played only segment numbers matter, not how a playlist counts its lines |
| Tail.TailRefinesFull | main/hls.c:729-894 | a tail refresh is a full refresh: same requests, same completed segments, same memory, for every suffix and every outcome of the downloads, when both have the same map in force at the first segment behind the anchor |
| TailMaps.RememberedMap | main/hls.c:799-894 | for a refresh of the unchanged playlist they have: when a walk of it ends, in whatever way, with the anchor as its last completed segment, the map it remembers is one with which the next tail refresh is a full one |
| LiveMaps.TailTrace | main/hls.c:729-894 | for a playlist that has changed too: if it names and maps its segments as before, a tail refresh from any cut makes the requests, completes the segments and leaves the memory of a full refresh |
| LiveMaps.LiveTails | main/hls.c:896-1018 | over every run of the control loop in which the published playlists keep names, numbers and maps, every tail refresh does what a full refresh of the same playlist would do |
| LiveExample.ATailIsWalked | main/hls.c:896-1018 | there are such runs with a tail refresh, of two playlists that differ |
| Tail.TailPlansTheSame | main/hls.c:729-894 | without any assumption about maps both refreshes complete a prefix of the same list of segments, all of it if they get through, and then remember the same last one |
| Live.SplicedWalkable | main/hls.c:729-759 | whatever tail of a live playlist is spliced, the result lists what the playlist lists behind the segment played last, under the same numbers, and does not end later |
| Live.RoundProgress | main/hls.c:917-998 | one round, on whichever path, goes on behind the segment played last |
| Live.LiveOnce | main/hls.c:896-1018 | over every run of the control loop, with tail and full refreshes, failures and master playlists in any mix: while the playlist keeps its numbers and its end never moves back, completed numbers strictly increase and each is the segment its number names |
| Live.LiveRun | main/hls.c:896-1018 | the same for every run from the start of the player |
| Live.LiveNoGap | main/hls.c:896-1018 | if the player also stays within the window of the playlist in every round, completed numbers have no gap over the run and follow the last one |
| LiveExample.WindowsArePublished | main/hls.c:639-681 | any windows whose end never moves back, written out as playlists, are states of a live playlist as these statements require them |
| LiveExample.ARunPlays | main/hls.c:896-1018 | and there are runs of this kind that play a segment |
| Configs.FedExactly | main/hls.c:859-882 | scheduler and demuxer together: if of the transfers since the last successful init all but one leave the configuration alone, the next segment is fed with what that init left if and only if this one does so too |
| Configs.FailedInitDisturbs | main/hls.c:859-869 | an init download that fails changes the configuration if and only if its reads adopt the moov, by the condition of Fmp4Init.InitReadsExact, and the moov says something else |
| Configs.LiveConfigured | main/hls.c:843-1018 | over every run of the control loop in which only successful init downloads change the configuration, each segment under a map is fed with what a successful init download of its own map left |
| Configs.ConfiguredExactly | main/hls.c:859-882 | that configuration is the one in the init segment of the map if and only if the reads of that download adopted it; otherwise it is the one before |
| Configs.WrongConfiguration | main/hls.c:859-869 | finding: after an init download of another map that breaks off behind its moov, a segment under the old map is requested without initialising it again and fed with the configuration of the other map |
| HlsPlayer.Hls.GetManifest | main/hls.c:924-951 | which manifest a round works on: tail if it can be spliced, else full, and when the size decides |
| HlsPlayer.Hls.PlayManifest | main/hls.c:960-1003 | analysis on a copy, master playlists, unsupported ones, the walk and the end of the run |
| HlsPlayer.Hls.PlayTurn | main/hls.c:917-1009 | one turn of the control loop |
| HlsPlayer.Hls.Play | main/hls.c:896-1018 | the whole loop equals the run specification for everything the network can do |
| PlayerSpec.IncompleteCosts | main/hls.c:952-998 | a round without a fully processed media playlist uses up one retry, a complete one restores them |
| PlayerSpec.RetriesAreBounded | main/hls.c:912-1009 | from any state the loop can be in, rounds in a row that lack a fully processed media playlist and do not end the run are at most the retries left |
| PlayerSpec.SixRoundsAtMost | main/hls.c:912-1009 | in every run, anywhere in it, six rounds in a row without a fully processed media playlist end the run |
| Vod.FirstRound | main/hls.c:986-998 | a finished playlist is played from its first to its last segment when all downloads succeed |
| Vod.SecondRound | main/hls.c:999-1003 | the next refresh then ends the run, on the full path and on the tail path |
| Vod.PlayedOnceThenEnded | main/hls.c:896-1018 | both together: every segment exactly once, then HLS_ENDED |
| Vod.OneSegmentIsFinished | main/hls.c:896-1018 | for every URI line there is a finished playlist of one segment, so these results are not empty |
| Sha1.SwapLoaded | main/libsha1.c:32-34 | the rotate-and-mask byte swap of a little-endian load is the big-endian word |
| Sha1.ChForm | main/libsha1.c:44-45 | the three-operation form is Ch of FIPS 180-4 |
| Sha1.MajForm | main/libsha1.c:47 | the four-operation form is Maj of FIPS 180-4 |
| Sha1.Blk0 | main/libsha1.c:32-39 | the first sixteen schedule words, byte-swapped in the ring |
| Sha1.Blk | main/libsha1.c:40-41 | the ring of sixteen words holds the schedule: the word written is word i of the 80-word schedule and the last sixteen stay |
| Sha1.RoundDone | main/libsha1.c:44-48 | one macro expansion with renamed registers is one step of the loop of section 6.1.2 |
| Sha1.FirstTwenty | main/libsha1.c:78-82 | twenty unrolled rounds with their five register orders |
| Sha1.SecondTwenty | main/libsha1.c:83-87 | the same for rounds 20 to 39 |
| Sha1.ThirdTwenty | main/libsha1.c:88-92 | the same for rounds 40 to 59 |
| Sha1.FourthTwenty | main/libsha1.c:93-97 | the same for rounds 60 to 79 |
| Sha1.Transform | main/libsha1.c:53-109 | the state becomes the next hash value of FIPS 180-4 for every state and block |
| Sha1.CountsBits | main/libsha1.c:130-133 | the two count words with their carry count bits modulo 2^64 |
| Sha1.Sha1Context.Init | main/libsha1.c:113-122 | the context stands for the empty message |
| Sha1.Sha1Context.Update | main/libsha1.c:126-145 | for every length up to 2^32-64 the context then stands for the longer message |
| Sha1.Sha1Context.CountOctets | main/libsha1.c:172-175 | the two count words give the 64-bit big-endian length |
| Sha1.Sha1Context.PadOut | main/libsha1.c:177-182 | the padding loop ends with the least number of zeros that makes room for the length |
| Sha1.Sha1Context.Final | main/libsha1.c:149-191 | the digest is the hash of the message padded as in section 5.1.1, and the context is wiped |
| Sha1.HashParts | main/libsha1.c:113-191 | however a message below 2^61 bytes is cut into updates, the digest is that of the whole message |
| Sha1Spec.AbsorbNext | main/libsha1.c:138-140 | hashing block by block composes |
| Base64.AlphabetIsTable | main/cencode.c:24-29 | the alphabet string is table 1 of RFC 4648 |
| Base64.DecodeUndoesEncode | main/cencode.c:31-113 | the encoding of section 4 of RFC 4648 can be decoded |
| Base64.Base64Encoder.EncodeBlock | main/cencode.c:31-90 | the resumable block encoder writes what the byte-at-a-time encoder writes from the saved state on |
| Base64.Base64Encoder.EncodeBlockEnd | main/cencode.c:92-113 | padding and NUL for each of the three steps |
| Base64.EncoderWrites | main/cencode.c:31-90 | output and saved state after any input: full lines, whole groups and the begun group |
| Base64.EndingCompletes | main/cencode.c:92-113 | what was written plus the ending is the lined encoding and a NUL |
| Base64.LinedIsEncoding | main/cencode.c:80-85 | without its line feeds the output is the RFC 4648 encoding |
| Base64.LinedLength | main/cencode.c:80-85 | the length is 4*ceil(n/3) + floor(n/54) |
| Base64.LineFeeds | main/cencode.c:80-85 | line feeds are exactly the characters 73, 146, and so on |
| Base64.EncodePieces | main/cencode.c:31-113 | for every split into blocks the same lined encoding and NUL, of length 4*ceil(n/3) + floor(n/54) + 1 |
| Base64.EncodeShort | main/ota.c:83-118 | the bounded encoder writes the longest whole-group prefix of the encoding that fits, then a NUL, and nothing behind it |
| Base64.CompleteIffFits | main/ota.c:89-116 | the output is complete if and only if 4*ceil(n/3) is below the buffer size |
| Eeprom.Partition.RewriteSector | main/eeprom.c:67-81 | read, erase, overlay and write back: on NOR flash the sector changes in exactly the overlaid bytes |
| Eeprom.Partition.SetData | main/eeprom.c:57-103 | a successful call replaces exactly the addressed range across any number of sectors and keeps every other byte; a refused one changes nothing |
| Eeprom.Stations.SaveStation | main/eeprom.c:175-195 | ten attempts; then the record is stored or nothing has changed |
| Eeprom.Stations.SaveMultiStation | main/eeprom.c:196-219 | the records up to station 254 are stored, or nothing has changed after ten attempts |
| Eeprom.TrimmingEnds | main/eeprom.c:198-203 | finding: the trimming loop ends exactly for positions up to 255; from 256 on its guard never fails |
| Eeprom.Stations.GetStation | main/eeprom.c:221-243 | the record of the station, none for position 255 |
| Eeprom.SavedRecords | main/eeprom.c:206 | after a save every station has its new record or, outside the range, its old one |
| Eeprom.SaveThenGet | main/eeprom.c:196-243 | saving and reading any station back, whatever the flash held before and whatever memory the two calls get |
| Eeprom.Stations.EraseStations | main/eeprom.c:147-173 | all cells are zero afterwards although nothing is erased |
| Nec.NecParseItems | main/irnec.c:132-195 | return code, address and data of the awake decoder for every sequence of items |
| Nec.SameBit | main/irnec.c:100-127 | two measurements of one gap that differ by at most 381 us cannot be read as different bits |
| Nec.ToleranceIsTight | main/irnec.c:100-127 | with 382 us they can |
| Nec.StubParse | main/app_main.c:740-771 | word or stage of rejection of the wake stub for every sequence of pulses; its shift loop puts the first bit at position 0 |
| Nec.DecodersAgree | main/app_main.c:751-773 | whenever both decoders accept the same pulses the stub word is data<<16 or addr |
| Nec.BothDecode | main/app_main.c:751-773 | every 32-bit frame inside both sets of windows is decoded by both, to the two arrangements of its bits |
| Nec.FormatMatches | main/addon.c:186-197 | the stub format of a code equals the stub word if and only if the awake code word is the low 24 bits of the code and the last byte complements the command |
| Nec.WakesExactly | main/addon.c:198-222 | finding: the chip wakes exactly for the two configured codes, and also for a frame of 32 zero bits when there is no primary code |
| NvsSpec.BitmapMarks | boards/nvs_partition_gen.py:114-122 | the bitmap marks a slot as written if and only if it is used |
| Nvs.Page.WriteBitmaparray | boards/nvs_partition_gen.py:114-122 | clearing one bit turns the bitmap of n slots into that of n + 1 |
| Nvs.Page.WriteEntryToBuf | boards/nvs_partition_gen.py:211-227 | the data lands at the next free slot, as many slots are marked, nothing else changes |
| Nvs.Page.AddEntry | boards/nvs_partition_gen.py:293-296 | header and data become one more entry, the page stays readable and within 126 slots and 4096 bytes |
| NvsSpec.WalkFinds | boards/nvs_partition_gen.py:211-227 | reading a page by its bitmap and spans finds exactly its entries |
| Nvs.NvsBuilder.CreateNewPage | boards/nvs_partition_gen.py:501-515 | a page is added and the size reduced, or refused exactly when the size is used up |
| Nvs.NvsBuilder.StoreChunk | boards/nvs_partition_gen.py:252-305 | a chunk fills the room left in the page and the page is turned exactly when data remains or no slot is left |
| Nvs.NvsBuilder.WriteVarlenBinaryData | boards/nvs_partition_gen.py:240-337 | the loop ends, also when the first page has no room for data, with the pages and the exception of the specification |
| NvsBlobs.PutBlobAppends | boards/nvs_partition_gen.py:240-337 | success appends the chunk entries in index order and then the index entry, wherever the pages break |
| NvsBlobs.SizesCover | boards/nvs_partition_gen.py:251-261 | the chunk sizes add up to the blob |
| NvsBlobs.BlobSucceedsIff | boards/nvs_partition_gen.py:252-337 | a write succeeds if and only if the page has a free slot, at most 255 chunks are needed and the size covers the new pages; a full page is the only cause of the assertion |
| NvsBlobs.ReadsBack | boards/nvs_partition_gen.py:270-334 | the chunks read back in index order are the blob and agree with the size and count of the index entry |
| NvsBlobs.BlobRoundTrip | boards/nvs_partition_gen.py:240-337 | the same for a blob written into any store, whatever is written later |
| Nvs.NvsBuilder.WritePrimitive | boards/nvs_partition_gen.py:420-461 | a primitive value is stored on the current page, or on a new one when it is full |
| Nvs.NvsBuilder.WriteString | boards/nvs_partition_gen.py:363-415 | when a string is stored, and that it then is one entry |
| NvsBlobs.LongStringsNeverFit | boards/nvs_partition_gen.py:372-384 | finding: strings of 3969 to 4000 bytes pass the length check and can never be stored |
| Nvs.NvsBuilder.Finish | boards/nvs_partition_gen.py:482-499 | the image has the size of the partition and holds exactly the entries written |
| NvsImage.MakeImage | boards/nvs_partition_gen.py:471-562 | a whole run: exact image size, and every blob that is the first under its key is read back from the image bytes |

## Left out

- Sockets, TLS, DNS, redirects, connection reuse, tasks, delays and allocation: each download, stop request and allocation is a parameter of the model instead.
- Tail.TailRefinesFull: requires that both refreshes have the same map in force at the first segment behind the anchor; `LiveMaps.LiveTails` shows it over runs in which segments keep their maps, and `Tail.TailPlansTheSame` does without it.
- TailMaps.RememberedMap: speaks of the unchanged playlist only; `LiveMaps.TailTrace` speaks of changed ones.
- LiveMaps.LiveTails: speaks of playlists as `Live.LiveOnce` does, whose segments keep their maps, whose start never moves back, that have no map tag behind their last segment, and that are refreshed under one URL.
- Live.LiveOnce: speaks of playlists whose segment URIs differ and fit the URL buffer, with each URI line behind its EXTINF tag and numbers below 2^31.
- Fmp4.Fmp4Demuxer.ParseMoov: the four bytes that may be read behind a version 1 track header of fewer than 24 bytes are the same in every call; `MoovMux.TrackIdExact` shows when they matter.
- Configs.LiveConfigured: speaks of runs whose segments all go to the fragmented MP4 demuxer.
- `parse_url`, `url_resolve`, the file extensions in `ensure_demux` and the length limit of `attr_uri`: URL resolution is an arbitrary function, the choice of a demuxer an outcome of the environment.
- The sink and the chunk callback are assumed to accept everything they get.
- ID3 metadata in transport streams, log messages and the progress callbacks: they do not influence the audio path.
- Duplicate transport stream packets and sections longer than one packet: the source does not handle them either, and the mux side does not produce them.
- Trailers and chunk sizes of 2^32 or more in chunked bodies: the decoder takes the size modulo 2^32, as the source does, and the encoder side does not produce them.
- Segment positions wrap at 2^64 in the source; the demuxer model counts without bound, and the muxed segments are shorter than that.
- HlsPlayer.Hls.SpliceTail: models the overflow of the signed cast plus one as wrap-around, which C leaves undefined.
- Eeprom.Stations.GetStation: does not model the read into a null pointer after three failed allocations.
- Eeprom.Partition.SetData: a failed allocation returns false; newer versions of the source first print through the null pointer in the message. Errors of the flash driver abort the firmware and are not modelled.
- Eeprom.Stations.SaveMultiStation: does not model positions above 255, because the loop of the source does not end there; `Eeprom.TrimmingEnds` shows this.
- `eeEraseAll`, device settings and their copies: the same calls with fixed addresses.
- Sha1.Transform: the big-endian variant of the load and the wiping of local variables are not modelled.
- Sha1.Sha1Context.Update: lengths above 2^32-64 make the index arithmetic of the source wrap and are excluded.
- Nec.NecParseItems: the items behind the announced number are read as the source reads them, so at least 33 must be readable.
- Timing, watchdog and register loops of the wake stub, the queue and the ring buffer offsets of the receiver task: hardware.
- NVS encryption, version 1 images, namespaces above 255, keys beyond 16 bytes, non-ASCII strings (whose byte length the source does not count), the page state FULL (never written back) and CRC values (an arbitrary function).
- Displays, web pages, command line, Bluetooth, codecs, buttons, clock: input and output or thin wrappers.
