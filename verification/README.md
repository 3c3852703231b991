# Verified models of the obfs transports

Dafny models of the traffic-shaping connection, the REALITY-style handshake front end, the
listeners and the datagram codec of the obfs library, with proofs about their behaviour over
all inputs and all runs. `dafny verify dfyconfig.toml` checks everything.

## What is modelled

**The stream shaper** re-frames a byte stream into cells, mixes in cover cells, and undoes
this at the peer.

- `Framing` gives both cell layouts and the pure decoder of an arbitrary byte stream.
- `Streams`, `ShapedConn` and `CellWriter` are the code over byte arrays: the reader with its
  reused buffer that `pending` aliases, and the two framers.
- `DirectShaper` and `PacedShaper` are step relations. Every step is one atomic action of one
  goroutine, a run is any list of enabled steps, and histories record the wire, the calls and
  what the peer obtained. For paced mode, `PacedTheorems` holds the main theorems over runs,
  `PacedLosses` says what a base error does to the order of cells, `PacedWire` and `PacedCuts`
  what it does to the bytes of the wire and to the peer (with `CutCells` for the codec),
  `PacedEndings` where Close gets and which Writes it leaves behind, `PacedChoices` which branch
  a Write or the pacer takes, `PacedTiming` the schedule and its rates, and `PacedTies` its one
  race. `PacedRuns` puts runs together.
- `EndToEnd` puts the reader at the far end of either wire.
- `Sampler` is the weighted size sampler over exact reals.

**The ClientHello pipeline.** `ClientHello` holds the parser as functions and as the loops
that compute them. `HelloGrammar` is a printer for exactly the records it accepts, and
`HelloMeaning` says what the fields of a well-formed hello are. `RealitySni` is the second,
independent walker. `Auth` composes the parser with the sealed token, over cryptographic
functions of which only four laws are used: agreement commutes, opening inverts sealing, and
the lengths of public keys and sealed texts.

**The listeners.** `PeekReplay` covers peeking and replaying on every path; `FanIn` is one
step relation for the three listeners, whose handlers decide from what each connection brings,
and the fate of each connection.

**The datagram codec** is `Packet`: in-place XOR with a position-wise keystream, padding, and
the receiver's truncation.

Clocks, random draws, fills, the chunking of reads and the schedule are nondeterministic or
parameters.

## Hypotheses and negative results

- Nothing bounds the fixed cell size, and the length field is cast to 16 bits. The exact
  condition for a round trip is `Framing.FixedRoundTripExactly`; the two step relations assume
  a cell size of at most 65537.
- A Write that returns after Close began can report success with its cell left in the queue,
  although the comment at conn.go:399-401 speaks of any successful Write. From every state
  without a base error this can happen to every Write still running when Close begins
  (`PacedEndings.LateSuccessIsStranded`), so a Write is certain to be flushed exactly when it
  had returned (`PacedEndings.FlushedExactly`).
- A Write that begins on a closed connection can report success too, exactly when its cells fit
  into the channel: `PacedEndings.WriteAfterCloseExactly`.
- After a pacer error the flush still tries the remaining cells, so the wire can skip a cell:
  `PacedCuts.FlushAfterErrorSkips`. It does exactly when a data cell is written after the write
  of one failed (`PacedLosses.SkipsExactly`); order holds always (`PacedTheorems.NeverReordered`).
- A failed base write may leave a part of its cell on the wire, and what the flush writes behind
  it is then read out of step. Up to the first failed write the peer always decodes what was
  enqueued (`PacedWire.PeerDecodes`). Past it, it hears what follows if the part is empty or the
  whole cell, or if nothing follows (`PacedCuts.HeardPast`), and in general only then
  (`CutCells.CutExactly`, and over the continuations of a run `PacedCuts.HearsExactly`). A cut
  cover cell is enough, though no data cell is lost: `PacedCuts.CutCoverIsMisread`.
- In variable framing a stream cut right after a length field reads as a clean end:
  `Framing.CleanEofExactly` and `Framing.TruncatedBodyLooksClean`.
- Idle cover is promised after one interval (conn.go:202). It goes out at the first tick a full
  interval after the last write, so the promise is kept exactly when that write fell on a tick
  (`DirectShaper.CoverInstant`), and the silence can reach one instant less than two intervals
  (`DirectShaper.LateCover`).
- The parser calls itself strict, but ignores up to three bytes behind the last extension, one
  byte in place of an extension block, and anything behind the block, the message or the
  record. `HelloGrammar.ParserAcceptsExactly` has all of it.
- The two walkers can differ on a repeated server_name, on a cut name list, and on bytes behind
  a message without extensions: `RealitySni.WalkersAgreeExactly` says for every accepted record
  when they do, and `DuplicatesDisagree`, `CutListDisagrees` and `SlackDisagrees` are instances.
- A restart of the surge clock at the very instant of a wakeup is a race: there are two runs
  with the same restart times, and their traces differ exactly when the fresh and the decayed
  delay do (`PacedTies.TieRaces`, and `PacedTies.FreshTie` for every wakeup).
- A padded datagram can be 65543 bytes, longer than the receiver's buffer:
  `Packet.PaddedBeyondTheBuffer`; it still round-trips.
- The hop dialer's window is the floor its comment names exactly from the epoch on, and at the
  starts of windows before it: `FanIn.WindowIsFloorExactly`.

## Model

| member | source | states |
|---|---|---|
| Framing.DecodeConcat | conn.go:165-182 | Decoding is compositional at cell boundaries: after whole cells, the rest of the stream decodes as if it stood alone |
| Framing.DecodePrefix | conn.go:165-182 | Bytes arriving later never change what was already decoded |
| Framing.CleanEofExactly | morph.go:80-97 | A stream ends in a clean EOF if and only if it ended on a cell boundary or, in variable framing only, right after a length field |
| Framing.CorruptExactly | morph.go:80-103 | A receiver reports corruption if and only if what is left starts with a cell whose announced data does not fit it, or, in variable framing, with a cell too short to be one; both framings |
| Framing.TruncatedBodyLooksClean | morph.go:95-97 | Witness: a stream that lost a whole cell body reads as cleanly closed |
| Framing.DecodeCells | conn.go:165-182 | Any concatenation of well-formed cells decodes to the payload its length fields can express, then a clean EOF |
| Framing.SeenAllExactly | conn.go:153 | With every length below 65536 the receiver sees the payloads unchanged; with one longer it strictly loses bytes |
| Framing.ChunksCover | conn.go:142-160 | The chunks of a payload concatenate to it, none empty, none over the capacity |
| Framing.ChunkCount | conn.go:143 | The number of chunks is the rounded-up quotient the code allocates for |
| Framing.FixedRoundTripExactly | conn.go:142-182 | Fixed framing round-trips a payload if and only if the cell size is at most 65537 or the payload at most 65535 bytes |
| ShapedConn.Reader.constructor | conn.go:87-89 | A new reader owns its buffers, has nothing pending, and accounts for the whole incoming stream |
| ShapedConn.Reader.FixedPass | conn.go:169-178 | With nothing pending, one pass takes exactly the decoder's next cell off the stream and leaves its data pending in the reused buffer, or stops with the decoder's error |
| ShapedConn.Reader.ReadBody | morph.go:90-97 | The body buffer is reused or reallocated only while nothing is pending in it, and holds the bytes read |
| ShapedConn.Reader.MorphPass | morph.go:81-103 | The same as FixedPass, for length field and body of a variable cell |
| ShapedConn.Reader.Await | conn.go:169-178 | The skip loop ends with a byte pending or with the first error of the stream, everything before it delivered |
| ShapedConn.Reader.Take | conn.go:179-181 | A copy out delivers exactly the next pending bytes that fit, and nothing behind them in the caller's buffer changes |
| ShapedConn.Reader.Read | conn.go:165-182 | For any buffer sizes, in both framings: a success returns the next payload bytes, and the first error comes only after exactly the pure decoder's output, with the decoder's reason |
| ShapedConn.Reader.NeverMoreThanCarried | morph.go:80-107 | Before the first error, what was delivered is a prefix of the decoded stream and nonempty Reads do not outnumber its bytes |
| CellWriter.Writer.PutFixed | conn.go:148-155 | One cell is laid out in its slice of the shared buffer and nothing outside the slice changes |
| CellWriter.Writer.FixedCells | conn.go:142-160 | The buffer is exactly the returned cell slices back to back, one for each chunk of the payload, each carrying its chunk; up to a cell size of 65537 they are a framing of the payload as the step relations take it |
| CellWriter.Writer.FixedCover | conn.go:378-385 | A fixed cover cell is a well-formed cell carrying nothing |
| CellWriter.Writer.NewMorph | morph.go:67-71 | A variable cell of any clamped size has both length fields exact in 16 bits, its data, and nothing overwritten by the fill |
| CellWriter.Writer.MorphCells | morph.go:52-76 | The cell sizes are the clamped consecutive draws, none skipped, stopping at the first draw whose cumulative capacity covers the payload; the cells carry the payload, all but the last full |
| CellWriter.Writer.MorphCover | morph.go:110-122 | A variable cover cell takes one draw, has its clamped size and carries nothing |
| DirectShaper.FlushStep | conn.go:127-132 | Every step keeps: each call's flush is whole cells decoding to its payload |
| DirectShaper.StreamStep | conn.go:130-136 | Every step without a base error keeps: the wire carries what was sent, and what the peer got with what it has not read carries the same |
| DirectShaper.CallStep | conn.go:124-136 | Every step keeps: each call writes at most once, only under the lock, and has written once it returned success |
| DirectShaper.Transparency | conn.go:117-182 | In every interleaving of Writes, idle cover, FRONT cells and Close without a base error, what the peer read is a prefix of the payloads in lock order, and all of it once the wire is drained; both framings |
| DirectShaper.SentExactlyOnce | conn.go:117-137 | In every run, errors included: the sent stream has each successful call's payload exactly once and no failed call's |
| DirectShaper.LockIsFreed | conn.go:130-136 | In every run exactly the holder of the mutex is between taking it and giving it back, and has a step that frees it, errors included |
| DirectShaper.ClosedForGood | conn.go:387-397 | In every run both loops have ended before the base is closed, and from then on the wire is still |
| DirectShaper.CloseCanFinish | conn.go:387-397 | From every state with Close begun there is a continuation, without a base error or a further Write, in which both loops end and the base is closed |
| DirectShaper.FrontBudget | conn.go:228-265 | In every run FRONT sends no more cells than it drew times, its j-th not before the j-th of the sorted times, and all of them if its loop ended on an open connection without a base error |
| DirectShaper.CoverGaps | conn.go:204-265 | With ideal ticks, consecutive writes are strictly less than two intervals apart and an idle-cover cell follows at least one interval of silence, however other writes interleave |
| DirectShaper.TicksAreMultiples | conn.go:206 | The ticks are the multiples of the interval |
| DirectShaper.CoverInstant | conn.go:212-217 | An idle-cover cell goes out at the first tick that is a full interval after the write before it, so after exactly one interval if and only if that write fell on a tick |
| DirectShaper.LateCover | conn.go:202-217 | Witness run for every interval: a write followed by idle cover one instant less than two intervals later |
| PacedShaper.WithDefaults | obfs.go:142-153 | Each valid field is kept whatever happens to the others, each invalid one gets its default, and the result is valid |
| PacedShaper.QueueStep | conn.go:286-297 | Every step keeps: the channel is within its bound and is exactly what was enqueued and not yet received |
| PacedShaper.EntryStep | conn.go:314-328 | Every step keeps: a cell in hand or successfully written is the cell enqueued at its position, or cover |
| PacedShaper.OrderStep | conn.go:304-335 | Every step keeps: data cells are successfully written in enqueue order and at most once, and the dequeued ones are written, in hand or lost to a counted base error |
| PacedShaper.FailStep | conn.go:329-333 | Every step keeps: the sticky error is the pacer's base error and set before paceDead closes, and results of Writes agree with it |
| PacedShaper.CallsStep | conn.go:270-299 | Every step keeps: what a call enqueued is the first cells of its framing in order, all of them on success |
| PacedTheorems.Conservation | conn.go:270-335 | While the base write of no data cell failed: data cells written, then the one in hand, then the queue are all enqueued cells in order, and the queue is within its bound |
| PacedTheorems.NeverReordered | conn.go:304-413 | In every run, errors included: successful writes of data cells are never out of order or repeated, and at most two are missing; PacedLosses.SkipsExactly says when one is skipped |
| PacedWire.WireStep | conn.go:324-333 | Every step keeps: the wire is the cells written before the first failed write, the part that one left, the cells written after it, and the part a failed flush left at the end |
| PacedWire.PeerDecodes | conn.go:304-335 | In every run, from the wire up to its first failed write the peer decodes exactly the payloads of the cells that left, in enqueue order, from any part of it a prefix of that, and nothing behind takes them back; without a failed write this is the whole wire |
| CutCells.PartWhole | conn.go:165-182 | The start of a cell is whole cells exactly if it is empty or all of it, and otherwise carries nothing |
| CutCells.OneByteMisread | conn.go:165-182 | Behind a cell cut in the middle, a certain one-byte cell is not read as its byte; both framings |
| CutCells.CutExactly | conn.go:165-182 | The payload of whatever cells follow a failed write is received behind it if and only if it left nothing or its whole cell on the wire |
| PacedCuts.HeardPast | conn.go:324-413 | In every run the peer hears every cell written, before and after a failed write, if that left nothing or a whole cell, or if nothing follows it |
| PacedCuts.HearsExactly | conn.go:324-413 | When a base write fails on a drained queue, the peer hears every cell written in every continuation if and only if the write left nothing or its whole cell |
| PacedCuts.CutCoverIsMisread | conn.go:321-413 | Witness run: a cover write is cut after one byte, no data cell is lost, and the flushed payload of a successful Write is misread |
| PacedTheorems.WritesKeepOrder | conn.go:270-299 | The enqueue order merges the Writes at cell granularity: every item belongs to a call, and each call's items are the first cells of its own framing, all of them once it succeeded |
| PacedTheorems.SingleWriterStream | conn.go:270-299 | With one Write at a time the enqueued stream is the concatenation of the payloads, successful ones whole |
| PacedTheorems.RunLater | conn.go:286-297 | Later states keep the enqueue history, the results of returned calls, the close mark and the errors |
| PacedTheorems.FlushOnClose | conn.go:387-413 | In every run in which the base write of no data cell failed, each Write that returned success before Close began has all its cells written, once and in order, before the base is closed, wherever the pacer was |
| PacedEndings.LateSuccessIsStranded | conn.go:286-297 | From every state without a base error, any Write still running when Close begins can end in success with its last cell left in the queue of a closed connection |
| PacedEndings.FlushedExactly | conn.go:387-413 | When Close begins without a base error so far, a Write has all its cells written in every continuation in which it succeeds and no write of a data cell fails, if and only if it had returned by then |
| PacedLosses.LossStep | conn.go:324-333 | Every step keeps: the first data cell whose write fails is the next one due, and every data cell written later comes from behind it |
| PacedLosses.SkipsExactly | conn.go:329-413 | In every run, errors included: the data cells successfully written are the first ones enqueued, if and only if none was written after the write of one failed |
| PacedCuts.FlushAfterErrorSkips | conn.go:391-413 | Witness run for any two-cell Write: it reports success and only its second cell is on the wire |
| PacedEndings.CloseProgresses | conn.go:387-413 | While Close is under way, the pacer or Close has a step to take, whatever the Writes do |
| PacedEndings.CloseCanFinish | conn.go:387-413 | Those steps alone, with no help of Writes or the clock and no base error, bring every begun Close to its end |
| PacedEndings.WriteAfterCloseExactly | conn.go:283-297 | A Write begun on a closed connection without a base error can report success if and only if its cells fit into the channel, and neither the channel loses a cell nor the wire changes ever after |
| PacedTheorems.DeadPacerUnblocks | conn.go:286-293 | Once paceDead is closed every unfinished Write can move by its own step, one leaving through paceDead reports the base error, and neither the error nor paceDead is set again |
| PacedTheorems.ClosingUnblocks | conn.go:294-296 | Once Close has begun a Write blocked on the queue can leave it, and then reports a closed connection |
| PacedTheorems.ErrorsAreHonest | conn.go:274-296 | An error a Write returned is the pacer's base error, or net.ErrClosed with the connection closing |
| PacedTheorems.ErrorSetOnceAndFirst | conn.go:329-375 | The sticky error never changes once set, is set before paceDead closes, and paceDead stays closed |
| PacedChoices.ErrorIsSticky | conn.go:270-276 | Once the sticky error is set no later Write enqueues a cell, and each that returns reports that error, except an empty one |
| PacedChoices.BurstRestarts | conn.go:283-285 | A Write that looks at a queue holding cells never restarts the surge clock; one that finds it drained has done so before it enqueues or returns |
| PacedChoices.NoPadSendsNoCover | conn.go:314-322 | In every run with NoPad only data cells are written |
| PacedTiming.DelayExactly | conn.go:339-349 | Each delay is the whole nanoseconds of one cell at the rate Rate * Decay^elapsed, or at MinRate if that is larger, and at Rate without decay: delay times rate is at most a second and short of it by less than the rate |
| PacedTiming.DelaysNeverShrink | conn.go:339-349 | Where a longer decay is a deeper one, delays never shrink until the next surge |
| PacedTiming.IntervalBounds | conn.go:339-349 | Every delay lies between the truncated intervals of max(Rate, MinRate) (PacedTiming.TopRateExactly) and of MinRate |
| PacedTiming.TopRateExactly | conn.go:341-347 | The top rate of the bounds is the larger of Rate and MinRate |
| PacedTiming.DueSpan | conn.go:304-349 | Any m - k consecutive wakeups span between m - k shortest and m - k longest delays |
| PacedTiming.TimesAreDue | conn.go:304-335 | In either framing, with padding the k-th write happens at the k-th wakeup due |
| PacedTiming.TraceIsSchedule | conn.go:304-335 | In fixed framing with padding the (time, length) trace is the pacer's schedule, a function of the surge resets alone |
| PacedTiming.TraceIndependence | conn.go:304-355 | Two runs with any two application behaviours, at decay 1 or with equal resets: of their write times, and in fixed framing of their (time, length) traces, one is a prefix of the other, and they are equal at equal settled times |
| PacedTiming.SameTimesSameSurges | conn.go:283-285 | Equal reset times, none after time 0 tied with a wakeup, make the surge clock read the same at every delay |
| PacedTiming.TraceOfResetTimes | conn.go:339-355 | With decay, write times and fixed-framing traces are a function of the surge-reset times alone, no reset after time 0 being tied with a wakeup |
| PacedTies.TieRaces | conn.go:304-355 | From every ideal state with a wakeup due and the queue drained there are two runs that restart the surge clock at that instant, with equal reset times, whose write times and traces are equal if and only if the fresh and the decayed delay are |
| PacedTies.FreshTie | conn.go:304-355 | For every k there are two such runs with the (k+1)-th wakeup as their only reset time and k + 2 writes each |
| PacedTiming.CellsInWindow | conn.go:304-349 | With ideal timers and padding, a window with n cells lasts at least n - 1 shortest and at most n + 1 longest delays |
| PacedTiming.NeverFaster | conn.go:304-349 | In every run while open, timers ideal or late, padding or not, base errors included: a window with n cells lasts at least n - 1 shortest delays |
| PacedTiming.QueueDrains | conn.go:304-335 | More than q longest delays after q cells were queued, all q have left the queue, padding or not |
| Sampler.BuildTable | morph.go:145-162 | The table has one bucket per positive-weight key holding the weight up to and including it, and the total is theirs |
| Sampler.PositiveKeys | morph.go:157-162 | The table's keys are exactly those of positive weight |
| Sampler.PositiveIncreasing | morph.go:149-162 | They appear once each, in increasing order |
| Sampler.Draw | morph.go:166-174 | A point below the total returns the key owning it; the final fallback is reached only at or beyond the total |
| Sampler.OneOwner | morph.go:166-174 | The keys' intervals are disjoint: no point has two owners |
| Sampler.Sample | morph.go:144-175 | From weights and a random u in [0, 1): 512 exactly without positive weights, else the key whose interval, as long as its weight, holds u times the total |
| ClientHello.ParseSNI | xreality/clienthello.go:109-127 | The loop computes the first complete host_name of the list, or the empty name |
| ClientHello.ParseKeyShareX25519 | xreality/clienthello.go:131-150 | The loop computes the first 32-byte share of group X25519, other groups skipped |
| ClientHello.ScanExtensions | xreality/clienthello.go:88-104 | The loop computes the pure scan of the block, a repeated extension replacing the earlier one |
| ClientHello.ParseClientHello | xreality/clienthello.go:37-106 | For every byte string, without an index out of range, the result of the pure parser whose language ParserAcceptsExactly fixes |
| HelloGrammar.PrintedParses | xreality/clienthello.go:37-106 | The printed form of every shape parses to the shape's own fields |
| HelloGrammar.ScannedIsPrinted | xreality/clienthello.go:88-105 | Every accepted extension block is a printed list of extensions and fewer than four ignored bytes |
| HelloGrammar.AcceptedIsPrinted | xreality/clienthello.go:37-106 | Every accepted record is the printed form of some shape |
| HelloGrammar.ParserAcceptsExactly | xreality/clienthello.go:37-173 | A record parses to given fields if and only if it is the printed form of a shape with those fields |
| HelloGrammar.RefusedExactly | xreality/clienthello.go:37-106 | A record is no TLS exactly when it is short or of another type, and a bad hello exactly when it is a handshake record and no printed shape |
| HelloMeaning.NamesParse | xreality/clienthello.go:114-126 | Parsing a printed name list gives its first entry of type host_name |
| HelloMeaning.SharesParse | xreality/clienthello.go:136-149 | Parsing a printed share list gives its first 32-byte X25519 share |
| HelloMeaning.KeyShareExactly | xreality/clienthello.go:131-150 | A key_share extension of any bytes yields k if and only if its list starts with other entries, then k as a 32-byte X25519 share, then anything |
| HelloMeaning.MeaningLast | xreality/clienthello.go:98-103 | Of several server_name or key_share extensions the last decides its field |
| HelloMeaning.MeaningOnly | xreality/clienthello.go:98-103 | The only server_name or key_share decides its field wherever it stands among the extensions |
| HelloMeaning.HelloRoundTrip | xreality/clienthello.go:37-150 | A printed hello with one server_name and one key_share among any other extensions in any order yields its random, session id, first host name and first X25519 share |
| HelloMeaning.MissingFieldsAreEmpty | xreality/clienthello.go:80-105 | A hello without server_name or key_share is accepted with that field absent |
| RealitySni.SniFromExtension | reality/reality.go:390-413 | The loop computes the first host_name, a cut entry being an error |
| RealitySni.SniFromClientHello | reality/reality.go:339-388 | For every byte string, without an index out of range, the result of the pure walk |
| RealitySni.StrictSniExactly | reality/reality.go:390-413 | A server_name extension of any bytes yields a name if and only if its list starts with other names, then that host name and anything, or fewer than three bytes and the name is empty |
| RealitySni.WalkExtsExactly | reality/reality.go:373-387 | A block of any bytes walks to a name if and only if it starts with other extensions, then a server_name that yields it and anything, or fewer than four bytes and the name is empty |
| RealitySni.WalkExactly | reality/reality.go:339-388 | Any message walks to a name if and only if it is of type 1, has 37 more bytes and the three length-prefixed fields, and what follows them walks to it |
| RealitySni.StrictSniRefines | reality/reality.go:390-413 | Where the strict reading of a server_name succeeds the lenient one gives the same name, and where it fails the lenient one gives the empty name |
| RealitySni.WalkersAgree | reality/reality.go:339-413 | On every record the parser accepts with at most one server_name, and a block or nothing behind the message: the walker returns the same name, or rejects it and the name is empty |
| RealitySni.FirstAgainstLast | reality/reality.go:374-386 | On every accepted record with server_name extensions the walker reads the first and the parser the last |
| RealitySni.WalkersAgreeExactly | reality/reality.go:339-413 | On every accepted record: without a block they agree if and only if the rest of the record holds no name to the walker; without server_name always; else if and only if the first server_name read strictly has the name of the last |
| RealitySni.DuplicatesDisagree | reality/reality.go:383-384 | Among any extensions, a first and a last printed name list set the walkers at odds if and only if their first host names differ, a missing one included |
| RealitySni.CutListDisagrees | reality/reality.go:400-406 | A name list that breaks off before any host name is an error to the walker and an empty name to the parser |
| RealitySni.SlackDisagrees | reality/reality.go:343-373 | Any printed block with a name behind a message without extensions is read by the walker and not by the parser |
| Auth.SealAuth | xreality/auth.go:121-136 | The filled buffer is the time and the zero-padded shortId, sealed under the two parts of the random; the two refusals |
| Auth.OpenAuth | xreality/auth.go:140-159 | The time and shortId read out of the opened payload; the three refusals, and no index out of range |
| Auth.Int64OfU64 | xreality/auth.go:133-155 | A signed second survives the unsigned eight-byte field |
| Auth.SealOpens | xreality/auth.go:121-159 | Opening what was sealed gives back the second and the zero-padded shortId, and the sealed form fills a session id exactly |
| Auth.WindowExactly | xreality/auth.go:221-225 | The saturating window check means a true distance of at most the skew, except that the largest skew has no limit in the past |
| Auth.AcceptShortID | xreality/listener.go:147-156 | The loop decides whether the zero-padded form of some configured id equals the shortId |
| Auth.AuthenticatesExactly | xreality/server.go:45-60 | For every record: it is no hello exactly when it does not parse, and it yields key k if and only if it has a 32-byte share and session id, the share agrees to a secret whose derived key is k, k opens the session id, and the second and shortId inside are near the true clock and configured |
| Auth.HonestDecision | xreality/server.go:45-60 | For any honest hello, extensions in any order and other groups present, the server authenticates it with the client's own key if and only if the padded shortId is configured and the second is within the skew or the check is off; below the largest skew that is the true distance of the clocks |
| Auth.HonestClientGetsToken | xreality/auth.go:175-193 | The client obtains a token exactly when the server's agreement with its key succeeds and the shortId fits |
| Auth.ClientTokenExactly | xreality/auth.go:175-193 | From any inputs the client gets a token exactly with a 32-byte server key and random, a secret agreed and a shortId of at most 8 bytes, and it is the second and padded shortId sealed under the parts of the random with the derived key |
| PeekReplay.PeekRecord | xreality/listener.go:220-238 | On every branch the bytes returned and those left are the original stream, and never a byte past the record is taken |
| PeekReplay.PeekExactly | xreality/listener.go:220-238 | For every stream: the peek succeeds exactly on a whole handshake record of 4 to 16384 bytes and returns it; each error, and what was read by then, exactly |
| PeekReplay.PrefixConn.Read | xreality/listener.go:208-215 | For any buffer: what is read and what can still be read are what could be read before, and there is progress |
| PeekReplay.Copy | xreality/listener.go:174-176 | The destination receives a prefix of the client's stream, and all of it at the client's end, which is reached unless a write fails or the other direction closes both |
| PeekReplay.HandleX | xreality/listener.go:92-107 | On every branch TLS or the splice is given the client's stream from its first byte, and the route is that of the whole decision |
| PeekReplay.PassthroughX | xreality/listener.go:160-177 | The borrowed site receives a prefix of the probe's own stream from byte 0 |
| PeekReplay.PeekPrinted | xreality/listener.go:220-238 | Peeking a printed hello followed by anything takes exactly its record |
| PeekReplay.RoutedExactly | xreality/listener.go:92-107 | For every stream: TLS is terminated with key k if and only if its first record is whole, of a plausible length, and entitles it to k; else it is passed through |
| PeekReplay.HonestStreamRouted | xreality/listener.go:95-107 | An honest client's stream is terminated with its own key if and only if its shortId and time pass, else passed through |
| PeekReplay.PeekClientHelloSNI | reality/reality.go:312-335 | The name the walker finds, or an error, with every consumed byte returned for replay |
| PeekReplay.PeekNameExactly | reality/reality.go:312-335 | For every stream the name is what the walk finds behind the header of its first record, and an error without one |
| PeekReplay.PeekNameOfPrinted | reality/reality.go:312-388 | On a printed hello followed by anything it is the name in the first server_name |
| PeekReplay.SplicedExactly | reality/reality.go:195-202 | A printed hello is spliced away if and only if names are checked and its first host name, or the empty name without a server_name, is not allowed |
| PeekReplay.StageOne | reality/reality.go:188-204 | A connection is spliced exactly when a name was read and is not allowed; on both branches the stream is intact from byte 0 |
| PeekReplay.StageTwo | reality/reality.go:210-225 | A tunnel is handed over exactly when the decrypted stream starts with a nonempty token, and starts right after it; otherwise the fallback sees the decrypted stream from byte 0 |
| PeekReplay.ReverseProxy | reality/reality.go:230-252 | The fallback receives the consumed bytes and then the rest, or a prefix of that |
| FanIn.StepInv | hop/hop.go:94-110 | Every step keeps: each connection is still handled, or given to exactly one Accept, or closed, and never two of these |
| FanIn.OneFate | xreality/listener.go:78-124 | In every run of the three listeners a connection goes to at most one Accept, and only one whose own bytes, at the clock reading when it was judged, pass the whole decision of its listener; once all handlers returned it was delivered or closed and not both |
| FanIn.RefusedOnlyIf | xreality/listener.go:92-124 | In every run a connection closed or spliced by its handler did not pass the whole decision of its listener, and was spliced exactly if it is foreign to it, or its handler was cut short, or nobody took it before the listener was closed |
| FanIn.AuthenticIsOffered | xreality/listener.go:101-123 | In every run a connection that passes the decision is offered by its handler's own three steps and can then be handed to every waiting Accept |
| FanIn.LoopsEnd | hop/hop.go:94-110 | In every run the error of an accept loop goes to at most one Accept and ends that loop, and so does a dropped hop connection |
| FanIn.SplicedOnlyIfRefused | xreality/listener.go:95-105 | What xreality splices to the borrowed site is only what its decision on the record turned away |
| FanIn.DeliveredHonestClient | xreality/listener.go:92-124 | In every run an honest client delivered by xreality has a configured shortId and a time accepted when it was judged, and proved the key of its own token |
| FanIn.EndsForGood | hop/hop.go:94-130 | What each step brings about stays: connections and Accepts are there, Close closes, an inner error ends its loop, an Accept has one result, and a splice or a broken handler ends in a closed connection |
| FanIn.CloseUnblocks | xreality/listener.go:179-191 | After Close no offer, failing loop or Accept is stuck, and its way out leads to a closed connection, an ended loop and net.ErrClosed |
| FanIn.WindowIsFloorExactly | hop/hop.go:27-45 | The dialer's window is the floor of the time if and only if that is not before the epoch or is the start of a window, and one more otherwise |
| FanIn.DialIndexAt | hop/hop.go:45-47 | The index is the remainder of the window that is never negative, for negative windows too |
| FanIn.RotationReaches | hop/hop.go:44-48 | Any n consecutive windows reach every one of n addresses, for negative windows too |
| FanIn.RotationSpreads | hop/hop.go:44-48 | Two windows with the same address are at least n apart |
| Packet.XorTwice | packet.go:98-101 | XOR with the same keystream byte undoes itself |
| Packet.XorBitwise | packet.go:126 | Each bit of the XOR of two bytes is the sum modulo 2 of the two bits in its place |
| Packet.XorStreamTwice | packet.go:98-101 | The keystream of one salt undoes itself over any frame |
| Packet.XorInPlace | packet.go:126 | The stretch becomes its XOR with the keystream in place, and the rest of the buffer is unchanged |
| Packet.WriteTo | packet.go:104-132 | A payload is refused exactly above 65525 bytes and else fails exactly with the random source or the base; a datagram handed to the base is salt and a frame of the clamped size that decrypts to header and payload, for any pad, salt and fill |
| Packet.CarriesExactly | packet.go:104-132 | A datagram that carries a payload is, written out: its length by the three cases of the pad, each header byte and each payload byte XORed with the keystream of its salt and place |
| Packet.ReadFrom | packet.go:134-155 | Any datagram at all is classified without an index out of range; a payload is cut to the caller's buffer, the rest of which is untouched |
| Packet.ReceiveExactly | packet.go:139-154 | For every datagram: too short, of a bad length, or the payload, each exactly, from its first 65535 bytes written out |
| Packet.DatagramRoundTrip | packet.go:104-155 | Every payload sent is received, also when the datagram is longer than the receiver's buffer |
| Packet.PaddedBeyondTheBuffer | packet.go:109-116 | The largest pad gives 65543 bytes on the wire, and the payload still arrives |
| EndToEnd.ReadToEnd | conn.go:165-182 | Reads with nonempty buffers of any sizes until the first error collect exactly the pure decoding of the stream, and its error |
| EndToEnd.DirectDelivers | conn.go:117-182 | A reader at the end of a direct-mode wire, with any buffers and any cut of the wire, has a prefix of the payloads in lock order |
| EndToEnd.ReceiveDirect | conn.go:117-182 | Reading a direct-mode wire to its end collects all the payloads in lock order, and then a clean end |
| EndToEnd.PacedDelivers | conn.go:165-335 | A reader given no more than a paced wire up to its first failed write has a prefix of the payloads of the cells that left, in enqueue order |
| EndToEnd.ReceivePaced | conn.go:165-413 | Reading a paced wire to its end, whatever failed writes left on it, collects those payloads first, and without a failed write exactly those and then a clean end |

## Left out

- DirectShaper.Transparency: not claimed after a base write error, where the code makes no recovery promise; cell sizes above 65537 are excluded by FixedRoundTripExactly. In the step relation the peer takes whole cells off the wire; partial reads are those of ShapedConn.Reader.
- PacedCuts.HearsExactly: states its only-if half for a drained queue; for cells already queued behind the failed one CutCells.CutExactly is the statement, since their contents may by chance read on.
- ShapedConn.Reader.Read: makes no claim on data after the first error, where a partial cell is discarded.
- DirectShaper.CoverGaps: ideal ticks; a ticker that drops or delays ticks, and the time a base write takes, are not in the bound.
- PacedTiming.TraceIndependence: ideal timers, up to Close and the first base error; real scheduling delay is not modelled.
- PacedTiming.TraceOfResetTimes: resets after time 0 at the very instant of a wakeup are excluded, because their order is a race (TieRaces); equal positions (TraceIndependence) need no such condition.
- PacedTiming.IntervalBounds: reals in place of floating point, any decay function with values in (0, 1], and no overflow of the conversion to a 64-bit Duration at rates below about 1e-10.
- PacedShaper.OrderStep: the write mutex and lastWrite of paced mode are left out, as the pacer and the flush never write at the same time.
- Sampler.Sample: exact reals; with rounding the product can reach the total, which is what the code's fallback is for.
- DirectShaper.FrontBudget: how soon after its time a FRONT cell goes out is not bounded.
- PacedTiming.DelaysNeverShrink: the decay function is any function with values in (0, 1], and this needs it not to grow.
- Packet.ReadFrom: an error of the base socket, which is passed on, is not modelled.
- Auth.HonestDecision: the arithmetic of time.Unix at seconds beyond the range of a Time is not modelled, and cipher construction errors, impossible at these key lengths, are left out.
- FanIn.OneFate: the TLS handshake is the stream it decrypts to, or a failure, and the proof over the channel the set of keys it verifies under, both fixed for each connection; repeated Close calls on one connection by one splice count once.
- ClientHello.ParseClientHello: the partly filled result returned beside an error is not modelled.
- PeekReplay.StageOne: the comparison of names (case folding, trailing dot) is a parameter.
- Cipher, hash, key-derivation and agreement internals are uninterpreted functions; no secrecy claim is made.
- The exchange of channel-bound proofs after the TLS handshake and CertHMAC, which rest on MAC and exporter laws.
- Sockets, TLS handshakes, dialling, deadlines, logging and the return direction of a splice.
- The random draws themselves: fills, UniformSize, PoissonDelay, jitter, and the Rayleigh times of FRONT, which are any times here.
- Partial failure while MultiListener binds its addresses.
- The xrayreality, tlscamo, webrtc and examples packages, which wrap libraries outside the repository.
