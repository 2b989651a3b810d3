# Verified models of the Montreal Greek Times Unicorn Suite

This project models the parts of the suite that hold real algorithms, and proves what they promise for every
input, every run and every reachable state. The model keeps the form of the C sources: a struct whose functions
update it is a class, a buffer rewritten in place is an array, and each method is proved against a function of the
old state, about which the main results are then lemmas.

`dafny verify dfyconfig.toml` verifies the whole project.

## What is modelled

* **The in-process IBM PC** (`src/gwb_machine.c`, `src/gwbasic_module.c`).
  `KeyRing` is the keyboard ring shared by two threads, `PasteFeeder` types a listing into it, `Scheduler` is the
  timer tick with its instruction budget, skipped halts and programmable IRQ0, `Teletype` the text screen scrolled in
  place in display memory, `DosNames` and `DosPath` the 8.3 names and path resolution, `FcbFiles` record files through
  a file control block. Time is counted in guest instructions and doubles are reals. The CPU is abstract: asked for k
  instructions it executes between 1 and k of them, or leaves the program.
* **The CU-SeeMe decoders** (`src/cuseeme_video.c`, `src/cuseeme_deltamod.c`).
  `Digits` is arithmetic on numbers as digit strings, `VideoDecoder` the decoder with its packed rows, `VideoStream`
  what a stream of squares means, `VideoEncoder` the encoders the decoder undoes, `DeltaMod` the audio integrator.
* **Text framing and transport** (`src/arpamail_module.c`, `src/gopher_protocol.c`, `src/gophermap.c`,
  `src/archie_ardp.c`, `src/irc_client.c`, `src/irc_module.c`).
  `MailFraming` sanitizes and frames mail for the MAIL command of RFC 765; `GopherText`, `GopherUrl` and `GopherMap`
  are un-dotting (the TextFile rule in the Appendix of RFC 1436), URLs and menus; `ArchieReply` puts packets together;
  `IrcLines`, `IrcMessages`, `IrcSession`, `IrcTranscript` and `IrcLifecycle` are the IRC client from bytes to
  reconnections (section 2.3 of RFC 1459, IRCv3 Client Capability Negotiation); `SeenRing` is the viewer's memory of
  message IDs.

Inputs from outside, such as received buffers, arriving datagrams, keys of the other thread, the keyboard layout, drawn
nicknames and the moments at which a stop is seen, are parameters over which every result is quantified.

## Where the code and a claim about it part

* The level of the delta-modulation decoder never passes 126209, which it reaches; the 126464 that follows from the
  step size alone is not attained (`DeltaMod.PeakIsReached`).
* The `target <= now` fallback of the tick is unreachable in every run; the rescheduling of a late IRQ0 is unreachable
  from a reload value of 4 up, exactly when the period exceeds one instruction; below that IRQ0 does drift
  (`Scheduler.PhaseIsKeptIff`, with runs in `Scheduler.FastPeriodLosesPhase`).
* The header of the IRC client says that reconnects always suppress the banner (`src/irc_client.h:103-105`). The code
  suppresses it exactly when some earlier connection reached the end of the message of the day
  (`IrcLifecycle.BannerOfConnection`, with a run in `IrcLifecycle.ReconnectCanShowBanner`).
* A comment says an oversized IRC line is dropped (`src/irc_client.c:588`). It is dropped exactly when its length is a
  multiple of 16384, or the rest after the last full buffer starts with a NUL or is a lone CR; otherwise that rest is
  handled as a line (`IrcLines.OverlongIsDroppedIff`, with an input in `IrcLines.OverlongRunIsHandled`).
* Un-dotting undoes stuffing exactly for texts that are empty or end in LF (`GopherText.StuffingIsUndone`); any other
  text has a last line that swallows the terminator.
* An Archie reply counted complete can lack packets if totals differ (an input in
  `ArchieReply.DifferingTotalsLeaveAGap`). It is complete with all of them exactly when they all arrive before any
  packet whose number is beyond the total first announced (`ArchieReply.CompleteWithoutGapIff`).
* The current directory is cut to 79 characters, so a change of directory is faithful exactly when the path below the
  root fits them (`DosPath.ChangeIsFaithfulIff`, with a path it fails for in `DosPath.LongDirectoryIsNotKept`).
* A file of 128-byte records written sequentially is right exactly up to 2^23 records, where the position wraps
  (`FcbFiles.FileIsItsRecords`).
* The header of the video decoder promises -1 for a malformed block (`src/cuseeme_video.h:38-40`); the code always
  returns the number of whole squares (`VideoDecoder.Video.Decode`).
* A menu item survives printing and parsing exactly when its fields hold no tab or line end and its port is one
  (`GopherMap.MenuRoundTrip`).

## Model

| member | source | states |
|---|---|---|
| `KeyRing.Ring.Push` | src/gwb_machine.c:2255-2263 | a queue of 63 keys drops the key, any other gets it at its end; what has arrived stays |
| `KeyRing.Ring.Room` | src/gwb_machine.c:2265-2272 | the room is 63 less the keys stored, wherever head and tail are |
| `KeyRing.Ring.Count` | src/gwb_machine.c:211-218 | the number of keys that have arrived |
| `KeyRing.Ring.Deliver` | src/gwb_machine.c:221-231 | one more stored key arrives, and says so, exactly if one was waiting |
| `KeyRing.Ring.Peek` | src/gwb_machine.c:233-241 | the oldest key, only if it has arrived; nothing changes |
| `KeyRing.Ring.Pop` | src/gwb_machine.c:243-255 | takes the oldest key, only if it has arrived |
| `KeyRing.Ring.Clear` | src/gwb_machine.c:257-263 | empties the queue |
| `KeyRing.StepExact` | src/gwb_machine.c:211-263 | every operation of either thread keeps the ledger exact: keys numbered in order of acceptance, none lost, doubled, reordered or seen before it arrived, at most 63 stored |
| `KeyRing.RunExact` | src/gwb_machine.c:211-263 | the same over every interleaving of pushes, deliveries, peeks, pops and clears |
| `KeyRing.FifoWithoutClear` | src/gwb_machine.c:211-263 | without a clear, the keys popped are the first keys accepted, in order, and the rest is still stored |
| `PasteFeeder.KeysAreOneEnterPerLine` | src/gwbasic_module.c:215-237 | the keystrokes of a listing are those of the listing with CR LF made LF, one per character, so a CR LF is one Enter |
| `PasteFeeder.KeyWords` | src/gwbasic_module.c:215-225 | which bytes are typed, and the key word of each: its low half is the byte, 13 for a line end; its high half is 28 for Enter, 15 for Tab and otherwise the scan code of the layout |
| `PasteFeeder.Feeder.TypeNext` | src/gwbasic_module.c:232-237 | one character is consumed and its keystroke, if it has one, is the next of the listing and goes to the queue |
| `PasteFeeder.Feeder.TypeSome` | src/gwbasic_module.c:232-237 | what is typed is the next keystrokes of the listing; eight places stay free; with at most eight keys from the other thread, at any moments, the queue gets all keys of both |
| `PasteFeeder.Feeder.Feed` | src/gwbasic_module.c:227-246 | types as many keystrokes as leave the reserve, always moves on if there is room, loses nothing of either thread, and ends the paste at its end |
| `PasteFeeder.Do` | src/gwb_machine.c:211-263 | one operation of either thread on the queue: what it lets in goes to the end, what leaves comes from the front, and only a clear lets keys go unread |
| `PasteFeeder.Between` | src/gwb_machine.c:211-263 | over any operations of the two threads between feeds, the keys let in are those accepted, and keys leave in the order they entered |
| `PasteFeeder.Ticks` | src/gwbasic_module.c:418-431 | over any number of ticks, with both threads pushing, delivering, reading and clearing at will between the feeds: what was typed and what is left is the whole listing, in order and once; if no feed itself meets more than eight other keys, every key let into the queue leaves it in the order pushed, but for those still there, and without a clear it leaves by being read |
| `Scheduler.Machine.CpuRun` | src/gwb_machine.c:2225-2227 | the assumed CPU: between 1 and k instructions, unless the program leaves |
| `Scheduler.Machine.TakeBreak` | src/gwb_machine.c:2188-2195 | a Ctrl-Break clears the typed-ahead keys, leaves one zero word and asks for the interrupt, once |
| `Scheduler.Machine.StartTimer` | src/gwb_machine.c:2202 | only the first tick sets the first due time, one period ahead |
| `Scheduler.Machine.CheckTimer` | src/gwb_machine.c:2207-2211 | an IRQ0 is recorded exactly when it is due, and afterwards the next one always lies ahead |
| `Scheduler.Machine.RaiseInterrupt` | src/gwb_machine.c:2212-2220 | Ctrl-Break goes before the timer; at most one interrupt is raised, and only if the CPU can take it |
| `Scheduler.Machine.Halted` | src/gwb_machine.c:2228-2239 | a halted CPU skips to the target exactly when no interrupt can be delivered and no key has arrived or arrives now |
| `Scheduler.Machine.RunUntil` | src/gwb_machine.c:2225-2239 | the CPU runs up to the target, or halts before it: it then stops there if something can wake it, and otherwise sleeps exactly from there to the target |
| `Scheduler.Machine.NextStop` | src/gwb_machine.c:2221-2224 | a pass may go to the end of the tick, or to the first instruction past the next IRQ0; the fallback for a target that has passed is never taken |
| `Scheduler.Machine.Pass` | src/gwb_machine.c:2204-2240 | each pass takes guest time on to the end of the tick or to the instruction after the next IRQ0, unless the CPU halts with something to wake it, and then to where it halted; a CPU halted with nothing to wake it sleeps from there to the end of the pass; a CPU that can be interrupted gets what is pending or due |
| `Scheduler.Machine.RunTo` | src/gwb_machine.c:2204-2240 | the loop ends at the end of the tick exactly, its passes following one another without a gap; its guard of 200000 passes never cuts it short |
| `Scheduler.QuietTickSleeps` | src/gwb_machine.c:2221-2239 | a pass that ends with nothing to wake the CPU went on to the end of the tick or past the next IRQ0, and slept all of it from where the CPU halted |
| `Scheduler.Machine.RunTick` | src/gwb_machine.c:2175-2247 | executed and slept instructions of a tick add up to its budget; its passes cover it, each running and sleeping the CPU as far as a pass should, and what they slept is what the tick slept; idle (1) exactly if half was slept, 2 once the program has left; carry stays in [0,1); a Ctrl-Break asked for before the tick and one key are taken first |
| `Scheduler.Machine.GuestTimeIsExact` | src/gwb_machine.c:2178-2199 | after n ticks guest time is the integer part of n times 330000/18.2065 and the carry its fraction |
| `Scheduler.ChainExtend` | src/gwb_machine.c:2207-2211 | the record of IRQ0s, each noticed at most one instruction late, is kept by one more |
| `Scheduler.SlowMeansOverOneInstruction` | src/gwb_machine.c:2132-2136 | the period exceeds one instruction exactly for reload 0 and from 4 up |
| `Scheduler.PeriodIsRate` | src/gwb_machine.c:2124-2136 | the IRQ0s of a second at any reload value take the 330000 instructions of a second; from boot one period is within 0.02 instructions of a tick |
| `Scheduler.ResyncIffPeriodLate` | src/gwb_machine.c:2207-2211 | an IRQ0 loses its phase exactly when noticed a whole period late, which a period over one instruction excludes |
| `Scheduler.NoDrift` | src/gwb_machine.c:2202-2240 | every due time is the first one plus the periods in force when each earlier IRQ0 fired, across ticks and skipped halts |
| `Scheduler.FastPeriodLosesPhase` | src/gwb_machine.c:2202-2211 | for each reload value from 1 to 3, IRQ0s of a machine from boot, whose first is due one boot period after the start, that lose their phase |
| `Scheduler.PhaseIsKeptIff` | src/gwb_machine.c:2202-2240 | at one reload value, due times keep their phase in every run of IRQ0s from boot exactly when the period exceeds one instruction |
| `Scheduler.InterruptRate` | src/gwb_machine.c:2124-2136 | at a constant reload value the number of IRQ0s is the elapsed guest time over the period, to within one and an instruction |
| `Teletype.Display.PutCell` | src/gwb_machine.c:555-562 | one cell changes and no other byte of display memory does |
| `Teletype.CellsAreInOrder` | src/gwb_machine.c:488-491 | the cells of a page lie in one piece despite the wrap-around of addresses |
| `Teletype.Display.ScrollRow` | src/gwb_machine.c:583-587 | one row of the window becomes another or blank, and nothing else changes |
| `Teletype.Display.Scroll` | src/gwb_machine.c:567-588 | the in-place scroll, up or down, equals moving all rows of the window at once; no lines, or more than a screen, clear the window; cells outside the window and bytes outside the page stay |
| `Teletype.Display.ScrolledIs` | src/gwb_machine.c:567-588 | the scroll in terms of the edges asked for: rows below 24 and columns past the right edge are left out, cells come from so many rows below or above, and no lines, or more than the window has, blank it |
| `Teletype.Display.SettleCursor` | src/gwb_machine.c:656-661 | a cursor below the bottom row scrolls the page by one row of the attribute there, and stays in range |
| `Teletype.Display.TypeChar` | src/gwb_machine.c:641-662 | the page seen becomes the one the character should give; the rest of display memory stays |
| `Teletype.Display.TypeText` | src/gwb_machine.c:641-667 | the same over any run of characters |
| `Teletype.ControlsAre` | src/gwb_machine.c:641-662 | what codes 7, 8, 10 and 13 do: nothing, a step back that stops at the left edge, the row below, the start of the row; below row 24 all rows move up and blanks with the attribute under the cursor come in |
| `Teletype.LineAppears` | src/gwb_machine.c:649-662 | text that fits on a row appears there from the cursor on, its cells keeping their attributes unless one is given; nothing else on the page changes and the cursor stands behind it |
| `Teletype.EdgeWraps` | src/gwb_machine.c:649-661 | a character in the last column takes the cursor to the start of the next row, from the bottom row by moving all rows up |
| `Teletype.Display.SetMode` | src/gwb_machine.c:605-636 | any request sets the width of its mode, modes above 6 meaning 3, with the cursor home; it keeps every byte if its top bit is set, and otherwise gives a blank text page or, in a graphics mode, memory of zeros |
| `Teletype.TypedShows` | src/gwb_machine.c:641-662 | a screen that is the window on a sheet stays the window on that sheet, for each character |
| `Teletype.TypedAllShows` | src/gwb_machine.c:641-662 | the same over any text, from any screen |
| `Teletype.ScreenIsWindowOnSheet` | src/gwb_machine.c:605-662 | from a cleared screen, after any bytes, the 25 rows are the last 25 lines an unscrolled terminal would have, with the cursor at its place |
| `Teletype.GoneLinesStay` | src/gwb_machine.c:567-662 | lines that have left the screen are never changed by later output |
| `DosNames.ToFcb11` | src/gwb_machine.c:855-883 | the converted form, or none exactly for names that cannot be DOS names |
| `DosNames.ToNameLoop` | src/gwb_machine.c:885-895 | the name of a form, up to the first blank of each part |
| `DosNames.CanonFields` | src/gwb_machine.c:855-895 | the canonical name is the upper case of base and extension, cut to 8 and 3 characters, with the period only if an extension is left |
| `DosNames.ConvertsIff` | src/gwb_machine.c:861-882 | a name converts exactly if it is not empty, does not start with a period, and every character but its first period is an allowed one, in upper case, or a wildcard where those are allowed |
| `DosNames.AllowedCharacters` | src/gwb_machine.c:847-851 | the characters of DOS names, by their codes |
| `DosNames.CanonOf` | src/gwb_machine.c:855-895 | base and extension of allowed characters come out in upper case, cut to 8 and 3; no extension, no period |
| `DosNames.StarFills` | src/gwb_machine.c:864-868 | with wildcards '?' stands for itself and '*' fills the rest of its part; what follows a '*' adds nothing |
| `DosNames.CanonIsIdempotent` | src/gwb_machine.c:855-895 | putting a name in canonical form twice is the same as once |
| `DosNames.CanonicalShape` | src/gwb_machine.c:855-895 | a canonical name has at most 12 characters, no separator, and is neither "." nor ".." |
| `DosNames.PlainNameIsCanonical` | src/gwb_machine.c:855-895 | up to eight allowed upper-case characters are their own canonical form |
| `DosNames.CanonIsNoLonger` | src/gwb_machine.c:855-895 | a canonical name is never longer than what it came from |
| `DosPath.Drive.Resolve` | src/gwb_machine.c:930-981 | success gives the root followed by at most 16 canonical 8.3 components, within the path buffer of 260; every failure is error 3; which paths succeed is `DosPath.ResolvesIff` |
| `DosPath.Drive.ChangeDirectory` | src/gwb_machine.c:1673-1680 | changes the current directory exactly when the path resolves and the host calls it a directory; the text kept names that directory exactly if it was not cut |
| `DosPath.WalkKeepsSurvivors` | src/gwb_machine.c:945-959 | the result is the start, less the ".." that reach it, plus the canonical forms of the names no ".." cancels; at the root ".." does nothing |
| `DosPath.WalkAppend` | src/gwb_machine.c:945-959 | walking two lists of components is walking one from where the other ended |
| `DosPath.WalkSucceedsIff` | src/gwb_machine.c:945-959 | a walk succeeds exactly if every component is ".", "..", or a DOS name met at fewer than 16 directories, counted by the components alone: "." adds none, ".." takes one if there is one, any other adds one; that count is how many directories it ends with |
| `DosPath.HostPathFitsIff` | src/gwb_machine.c:966-979 | a host path fits exactly if 14 characters are free where its last component starts |
| `DosPath.ResolvesIff` | src/gwb_machine.c:930-981 | a guest path resolves exactly if its components can all be entered and the host path of the directories fits |
| `DosPath.UpResolves` | src/gwb_machine.c:938-951 | ".." names the directory above the current one, and at the root the root |
| `DosPath.SeparatorsAreAlike` | src/gwb_machine.c:945 | either slash cuts a path, wherever it stands, and separators may be repeated |
| `DosPath.DriveLetterIsIgnored` | src/gwb_machine.c:937 | any drive letter names the one drive |
| `DosPath.LongPathIsCut` | src/gwb_machine.c:935-942 | what is beyond 127 characters of an absolute path is not looked at |
| `DosPath.TokensOfText` | src/gwb_machine.c:945-947 | directories written out with backslashes split into themselves |
| `DosPath.RelativeIsJoined` | src/gwb_machine.c:937-942 | within the buffer, a relative path, drive letter or not, resolves as the absolute path of the current directory joined to it |
| `DosPath.RelativeContinues` | src/gwb_machine.c:937-959 | a relative path, drive letter or not, continues from the directories the current directory stands for |
| `DosPath.ChangeIsFaithfulIff` | src/gwb_machine.c:1677-1679 | the stored current directory names the directory changed to exactly if its text has at most 79 characters |
| `DosPath.NamedByItsText` | src/gwb_machine.c:930-981 | every directory whose text fits the path buffer can be named by it, under a root that leaves room |
| `DosPath.LongDirectoryIsNotKept` | src/gwb_machine.c:1677-1679 | ten nested directories AAAAAAAA: the path of 90 characters resolves, and the text kept of it does not name them |
| `FcbFiles.FcbFile.Open` | src/gwb_machine.c:1194-1209 | position 0, record size 128, the size field holding the file's size; a create empties the file |
| `FcbFiles.FcbFile.Close` | src/gwb_machine.c:1353-1370 | a file written to is cut or extended to its size field, any other is left alone |
| `FcbFiles.FcbFile.Transfer` | src/gwb_machine.c:1213-1254 | the file, the memory, the size field, the result code and the count after a transfer of any number of records of any size, either way, also when the host fails partway through a write; every byte of the file outside the records written stays, and a gap before them is zeros |
| `FcbFiles.FcbFile.WriteRecord` | src/gwb_machine.c:1229-1236 | one record chunk by chunk, as far as the host accepts it, over what the file holds there; every other byte of the file stays; the file counts as written to once a whole chunk is |
| `FcbFiles.FcbFile.ReadRecord` | src/gwb_machine.c:1229-1244 | one record chunk by chunk: the bytes there are, zeros to the end of the chunk the file ended in, and how many came |
| `FcbFiles.FcbFile.SequentialRead` | src/gwb_machine.c:1422-1432 | code 0, 3 or 1 by how much of the next record there is; the position moves unless there is nothing |
| `FcbFiles.FcbFile.Advance` | src/gwb_machine.c:1424-1429 | the position goes up by one: the record number counts to 127, and then starts over with the next block |
| `FcbFiles.FcbFile.SequentialWrite` | src/gwb_machine.c:1422-1432 | the record goes to its place in the file, with the file before and behind it kept, and the position and size field follow; if the host fails, the code is 1 and both stay |
| `FcbFiles.SplicedWrites` | src/gwb_machine.c:1225-1236 | byte for byte, what a write of some bytes at a position leaves of a file: the bytes there, the old ones before and behind them, zeros in a gap, and the larger of the two lengths |
| `FcbFiles.ReadInEnds` | src/gwb_machine.c:1225-1248 | how a read of any number of records of any size ends, by how many bytes there are: code 0 if all are there, else 3 after a partial last record or 1 without one, and how many came |
| `FcbFiles.ReadInBytes` | src/gwb_machine.c:1225-1244 | byte for byte, what such a read brings: as far as records were asked for, every byte of the file from its start on is at its place in memory |
| `FcbFiles.ReadInKeeps` | src/gwb_machine.c:1231-1240 | such a read changes no other memory |
| `FcbFiles.ReadBytesAre` | src/gwb_machine.c:1229-1243 | byte for byte, what a read brings: the bytes of the file, then zeros up to the end of the 512-byte chunk the file ends in |
| `FcbFiles.StoredIsFetched` | src/gwb_machine.c:1231-1240 | what is stored in memory at an address is found there, wrapping round the first megabyte |
| `FcbFiles.StoredKeeps` | src/gwb_machine.c:1231-1240 | storing changes no other byte of memory |
| `FcbFiles.PositionCountsRecords` | src/gwb_machine.c:1424-1429 | block times 128 plus record is the number of records passed, modulo 2^23 |
| `FcbFiles.FileIsItsRecords` | src/gwb_machine.c:1422-1432 | a fresh file is the records written to it, in order, exactly up to 2^23 of them |
| `FcbFiles.ClosedFileHasTheSizeSet` | src/gwb_machine.c:1353-1370 | closing with the size field S leaves exactly the first S bytes |
| `FcbFiles.ReadResult` | src/gwb_machine.c:1245-1247 | read number n gives all of a record, the zero-filled partial last record with code 3, or code 1 |
| `FcbFiles.SuccessfulReads` | src/gwb_machine.c:1422-1432 | of a file of S bytes, ceil(S/128) reads succeed, the last with code 3 exactly when it is partial |
| `FcbFiles.ArrivedIsTheFile` | src/gwb_machine.c:1229-1244 | the records read, joined, are the file with zeros to a whole record |
| `FcbFiles.SequentialRoundTrip` | src/gwb_machine.c:1353-1432 | write, set the size, close, read back: the first S bytes written arrive, and zeros |
| `VideoDecoder.Intra8` | src/cuseeme_video.c:49-56 | the spread byte has its k-th bit in the k-th nibble |
| `VideoDecoder.Intra16` | src/cuseeme_video.c:59-67 | the spread word has its k-th bit pair in the k-th nibble |
| `VideoDecoder.InterIsPixelOffset` | src/cuseeme_video.c:27-32 | each table constant is a signed pixel offset times 11111111h modulo 2^32 |
| `VideoDecoder.TablesInClosedForm` | src/cuseeme_video.c:27-38 | for every code the size of its row data and its offset, in closed form: code 0 takes four bytes, the others go in threes of 0, 1 and 2 bytes with growing offsets |
| `VideoDecoder.PackedArithmeticIsPerPixel` | src/cuseeme_video.c:104-122 | the 32-bit row has as its nibbles the pixels above less the offset plus the data bits, exactly when none of those leaves 0..15 |
| `VideoDecoder.PixelsOfRow` | src/cuseeme_video.c:104-122 | every pixel of a row of any code but 0: the one above, less the offset of the code, plus its bit of one data byte or its pair of bits of two, while all stay in 0..15 |
| `VideoDecoder.Video.PutRow` | src/cuseeme_video.c:70-79 | eight pixels of one line are set from the nibbles, those outside the picture are left out, all others stay |
| `VideoDecoder.Video.DecodeRows` | src/cuseeme_video.c:104-125 | a square whose data is there paints exactly its own 64 pixels |
| `VideoDecoder.Video.Decode` | src/cuseeme_video.c:81-130 | the frame is painted with the squares of the packet up to the first that is cut short or out of range, whose number is returned |
| `VideoDecoder.SquareLine` | src/cuseeme_video.c:99-102 | the pixels of one line of a square are those of its number and row, all in the picture |
| `VideoDecoder.SquareBytes` | src/cuseeme_video.c:83-97 | a square is read from its number, high byte first, its eight codes, high half first, and its data, exactly if the number is below 300 and the data is all there |
| `VideoStream.SquaresAppend` | src/cuseeme_video.c:83-129 | the squares of a whole block followed by anything are the squares of the two |
| `VideoStream.DecodeIsAFold` | src/cuseeme_video.c:81-130 | decoding a whole block and then another is decoding them joined; counts add |
| `VideoStream.WholePart` | src/cuseeme_video.c:83-97 | every block is a whole part and a tail that changes nothing |
| `VideoStream.LastSquareWins` | src/cuseeme_video.c:69-79 | a pixel shows the last square of its number; without one it keeps its value |
| `VideoStream.OrderDoesNotMatter` | src/cuseeme_video.c:99-125 | lists that agree on the last square of each number paint the same frame |
| `VideoStream.DisjointBlocksCommute` | src/cuseeme_video.c:81-130 | whole blocks without a square in common can be decoded in either order |
| `VideoStream.DecodedSquaresAreFull` | src/cuseeme_video.c:83-128 | every decoded square has a number below 300 and eight rows of eight pixels in 0..15 |
| `VideoEncoder.CodeZeroAlwaysCovers` | src/cuseeme_video.c:27-38 | code 0 can carry any row |
| `VideoEncoder.CoversIff` | src/cuseeme_video.c:34-38 | which rows any other code can carry: what is left for its data to add to each pixel is 0, one bit or two bits |
| `VideoEncoder.RowRoundTrip` | src/cuseeme_video.c:104-125 | whatever code covers a row, decoding its encoding gives the row |
| `VideoEncoder.RawRowPixels` | src/cuseeme_video.c:104-122 | a row sent as it is has its pixels in its four bytes, high half first |
| `VideoEncoder.RowsRoundTrip` | src/cuseeme_video.c:104-125 | the same for the eight rows of a square, each predicted from the one above |
| `VideoEncoder.SquareRoundTrip` | src/cuseeme_video.c:83-125 | an encoded square is one whole square and decodes to its rows |
| `VideoEncoder.RawIsCodable` | src/cuseeme_video.c:27-38 | code 0 throughout is a covering choice for any rows |
| `VideoEncoder.EveryImageCanBeEncoded` | src/cuseeme_video.c:27-38 | every image has a choice of covering codes |
| `VideoEncoder.ImageRoundTrip` | src/cuseeme_video.c:81-130 | for every image, every choice of covering codes and every earlier frame, decoding the encoding shows the image |
| `MailFraming.Sanitize` | src/arpamail_module.c:173-217 | a prefix of the clean text, and all of it if the buffer has two bytes per source byte and room for the NUL |
| `MailFraming.TidyBytes` | src/arpamail_module.c:194-210 | tidy text has CR and LF only as pairs, and no control byte but TAB |
| `MailFraming.CleanIsTidy` | src/arpamail_module.c:173-217 | sanitizing always gives tidy text |
| `MailFraming.CleanKeepsTidy` | src/arpamail_module.c:173-217 | it leaves a text alone exactly when it is tidy |
| `MailFraming.CleanIsIdempotent` | src/arpamail_module.c:173-217 | sanitizing twice is sanitizing once |
| `MailFraming.CleanOfPieces` | src/arpamail_module.c:178-214 | any text, piece by piece: printing bytes and TABs stay, CR LF, a lone CR and a lone LF become CR LF, and escape sequences up to their final byte, other escapes and other controls go |
| `MailFraming.NothingToClean` | src/arpamail_module.c:182-190 | an escape sequence that never ends takes the rest of the text with it |
| `MailFraming.FindPeriod` | src/arpamail_module.c:523-542 | the start of the first line that is one period, if there is one |
| `MailFraming.SendBody` | src/arpamail_module.c:544-569 | the bytes put on the wire after 354 |
| `MailFraming.WireOfLines` | src/arpamail_module.c:523-569 | a body of lines goes out as its lines before the first lone period, and then a period, CR and LF; nothing after that period is sent |
| `MailFraming.WireOfUnfinished` | src/arpamail_module.c:556-569 | a last line without its CR LF gets one before the period that ends the mail |
| `MailFraming.FramingIsExact` | src/arpamail_module.c:544-569 | for every body and whatever follows, a receiver reading to the first lone period gets the mail meant and leaves exactly what follows |
| `MailFraming.MailArrives` | src/arpamail_module.c:515-569 | from the typed text: the sanitized mail up to its first lone period arrives, tidy, and empty or ended by CR LF, with nothing left over to be read as commands |
| `GopherText.UndotInPlace` | src/gopher_protocol.c:200-232 | the buffer holds the un-dotted text, byte for byte the line-by-line specification; the write index never passes the line being read |
| `GopherText.ReplyLine` | src/gopher_protocol.c:207-228 | any reply, line by line: a line of one period, with or without a CR, ends the text; of two periods at the start of a line one goes; any other line is kept as it is |
| `GopherText.ReplyWithoutEnd` | src/gopher_protocol.c:207-228 | the same for a last line without LF |
| `GopherText.MoveDown` | src/gopher_protocol.c:221-227 | an overlapping move to lower addresses keeps the bytes moved and those beyond |
| `GopherText.Unstuffed` | src/gopher_protocol.c:195-232 | a stuffed text that is empty or ends in LF comes out as it was, whatever follows the terminator |
| `GopherText.LastLineSwallows` | src/gopher_protocol.c:205-219 | a last line without LF swallows the terminator |
| `GopherText.StuffingIsUndone` | src/gopher_protocol.c:195-232 | stuffing is undone exactly for texts that are empty or end in LF |
| `Decimal.AtoiPrint` | src/gopher_protocol.c:81 | a number printed and read back is itself |
| `Decimal.PrintIsShort` | src/gopher_protocol.c:76-80 | a number below 10^k prints in at most k digits, so ports fit the digit buffer |
| `Decimal.PrintDigit` | src/gopher_protocol.c:136 | digit k of a printed number, counted from its end, is that of 10^k |
| `Decimal.AtoiForms` | src/gopher_protocol.c:81 | what is read as a number: spaces, a sign or none, and digits up to the first character that is none; no digits are 0 |
| `GopherUrl.Parse` | src/gopher_protocol.c:48-119 | host, port, type and selector of a URL, or an error exactly without a host |
| `GopherUrl.SchemeIsOptional` | src/gopher_protocol.c:61-63 | the scheme, in small letters or capitals, may be left out |
| `GopherUrl.UrlWithoutPort` | src/gopher_protocol.c:65-104 | host and path of a URL without a port: port 70, type and selector those of the path, and type 1 with an empty selector for none |
| `GopherUrl.UrlWithPort` | src/gopher_protocol.c:65-104 | the same with a port: the number of its first fifteen digits, or 70 if that is none from 1 to 65535; the path starts after its digits |
| `GopherUrl.UrlWithoutHost` | src/gopher_protocol.c:106-107 | a URL that starts with a port or a path is error 3 |
| `GopherUrl.BuildParses` | src/gopher_protocol.c:121-147 | a built URL parses to its host and selector, its port if that is one and its type if that is not NUL |
| `GopherUrl.UrlIsPrinted` | src/gopher_protocol.c:121-147 | the text of a built URL; port 70 and no port are left out |
| `GopherUrl.HostComesBackIff` | src/gopher_protocol.c:65-67 | the host survives building and parsing exactly when it is not empty and has no ':' or '/' |
| `GopherUrl.ParseBuildParse` | src/gopher_protocol.c:48-147 | parsing, building and parsing again changes nothing, for every accepted URL |
| `GopherMap.ItemList.Push` | src/gophermap.c:40-54 | appends an item to the list, growing the array when it is full |
| `GopherMap.ReadItem` | src/gophermap.c:97-170 | the item a line stands for |
| `GopherMap.Parse` | src/gophermap.c:56-185 | the items of a menu, in order |
| `GopherMap.OneItemPerLine` | src/gophermap.c:71-95 | as many items as non-empty lines before the first lone period |
| `GopherMap.MenuLine` | src/gophermap.c:81-97 | any menu, line by line, with either line end: an empty line is passed over, a lone period ends it, any other line is an item |
| `GopherMap.LastMenuLine` | src/gophermap.c:81-97 | the last line may lack its line end |
| `GopherMap.ItemRoundTrip` | src/gophermap.c:97-170 | a printable item is read back from its line |
| `GopherMap.LineWithoutTab` | src/gophermap.c:100-123 | a line without a tab is an item of type i that shows it, port 70 |
| `GopherMap.ShortLine` | src/gophermap.c:126-170 | fields a line lacks are empty, its port then 70 |
| `GopherMap.PortField` | src/gophermap.c:159-170 | the port is the number in front of whatever else the field holds, or 70 if that is none from 1 to 65535 |
| `GopherMap.MenuRoundTrip` | src/gophermap.c:56-185 | a printed menu is read back exactly when its items are printable, whatever follows the terminator |
| `GopherMap.ParsedItemsArePrintable` | src/gophermap.c:81-170 | every item parsed from any input is printable |
| `GopherMap.ParsePrintParse` | src/gophermap.c:56-185 | parsing, printing and parsing again changes nothing, for every input |
| `ArchieReply.Reassembler.Take` | src/archie_ardp.c:509-536 | one datagram: the first payload of a number is kept, the first total stands, the count is that of the filled slots, and completeness is decided |
| `ArchieReply.DecodesPacket` | src/archie_ardp.c:514-523 | octet 7, two of an identifier, the number and the total, two octets each with the high one first, and the payload: read as that packet exactly if the number is from 1 to the total and the total at most 1024 |
| `ArchieReply.DecodesSingle` | src/archie_ardp.c:512-513 | octet 1 alone, or octet 3 and an identifier, before the payload of a reply that is one packet |
| `ArchieReply.IgnoresOthers` | src/archie_ardp.c:512-521 | any other datagram is ignored |
| `ArchieReply.Reassembler.Listen` | src/archie_ardp.c:503-537 | receives up to completeness or the time-out |
| `ArchieReply.Reassembler.Concatenate` | src/archie_ardp.c:547-561 | the payloads in order, missing ones adding nothing |
| `ArchieReply.Query` | src/archie_ardp.c:493-561 | a query depends only on the packets heard over its attempts, in order of arrival; what that means for datagrams off the wire is `ArchieReply.QueryGetsReply` |
| `ArchieReply.KeptIsFirst` | src/archie_ardp.c:522-535 | with one total throughout, what is kept is the first payload seen for each number |
| `ArchieReply.CompleteIffAllArrived` | src/archie_ardp.c:536 | with one total throughout, complete exactly when every number has arrived |
| `ArchieReply.FirstPayloadsInOrder` | src/archie_ardp.c:495-561 | for packets that announce one total, whatever their payloads, order and repetition: the body is the first payload seen for each number, in order, exactly when all have arrived, otherwise there is none |
| `ArchieReply.OrderDoesNotMatter` | src/archie_ardp.c:495-561 | packets of one reply, reordered, repeated, lost and sent again: the body is the reply exactly when all its packets came, otherwise there is none |
| `ArchieReply.QueryGetsReply` | src/archie_ardp.c:493-561 | from the wire: whatever a network delivers of the datagrams of a reply over the attempts, in any order, repeated, lost, between other datagrams, a query gets the reply exactly when every part of it came |
| `ArchieReply.PacketsRead` | src/archie_ardp.c:503-523 | the packets of one round of datagrams |
| `ArchieReply.CompleteWithoutGapIff` | src/archie_ardp.c:522-561 | with any totals, a reply is complete with all its packets exactly when all numbers up to the total first announced arrive before any number beyond it; the body is then their first payloads in order |
| `ArchieReply.DifferingTotalsLeaveAGap` | src/archie_ardp.c:522-536 | a concrete arrival with two totals that is taken for complete with a packet missing |
| `IrcLines.LineBuffer.Push` | src/irc_client.c:578-590 | after each byte the buffer holds what the stream so far leaves in it, and a line is handed over exactly when the stream completes a non-empty one |
| `IrcLines.StreamIsItsRuns` | src/irc_client.c:579-590 | the lines handed over are those of the LF-terminated runs, in order, and the rest is pending |
| `IrcLines.EveryStreamIsRuns` | src/irc_client.c:579-590 | every stream is such runs and a tail |
| `IrcLines.KeptWholeIffShort` | src/irc_client.c:585-589 | a run is kept whole exactly below 16384 characters |
| `IrcLines.OverlongKeepsItsTail` | src/irc_client.c:585-589 | a run that fills the buffer any number of times is handled as what comes after |
| `IrcLines.OverlongIsDroppedIff` | src/irc_client.c:579-590 | an oversized line is dropped exactly when it is a whole number of buffers, or what follows them starts with a NUL or is a lone CR; otherwise one line is handled, its tail |
| `IrcLines.OverlongRunIsHandled` | src/irc_client.c:585-589 | a line of 16388 characters of which the last four are handled as QUIT |
| `IrcLines.LinesArrive` | src/irc_client.c:579-590 | lines sent with CR LF arrive as they were, in order |
| `IrcLines.NulEndsLine` | src/irc_client.c:579-590 | a line ends at a NUL |
| `IrcLines.OneCrIsStripped` | src/irc_client.c:579-584 | of several CRs one goes |
| `IrcMessages.GetTag` | src/irc_client.c:256-279 | the value of a tag, cut to its field |
| `IrcMessages.TagsRoundTrip` | src/irc_client.c:256-279 | in a printed tag list each key has the value of its first tag, and absent or bare keys none |
| `IrcMessages.ParseLine` | src/irc_client.c:386-429 | the parts of a line, or none for tags or a prefix with nothing after |
| `IrcMessages.LineRoundTrip` | src/irc_client.c:405-429 | prefix, command and parameters come out of a printed line as they went in |
| `IrcMessages.TaggedLineRoundTrip` | src/irc_client.c:388-429 | the same for a line with tags, with its message ID and time |
| `IrcMessages.NickOfPrefix` | src/irc_client.c:407-420 | the nick of a full prefix is what precedes its '!', cut to 63 characters |
| `IrcMessages.NickOfOtherPrefix` | src/irc_client.c:407-420 | a prefix may also be a server's name, or a nick and a host behind '@' |
| `IrcMessages.PlainLine` | src/irc_client.c:425-429 | a line of a command and what follows it, any number of spaces on, or of a command alone |
| `IrcMessages.PrefixedLine` | src/irc_client.c:405-423 | a prefix in front of any line gives it a nick and changes nothing else |
| `IrcMessages.TaggedLine` | src/irc_client.c:388-403 | tags in front of any line give it their first msgid and time, and change nothing else |
| `IrcMessages.NothingAfter` | src/irc_client.c:391-412 | tags or a prefix with no space after them make a line nothing |
| `IrcSession.Session.HandleCap` | src/irc_client.c:440-469 | the flags and lines of one step of capability negotiation |
| `IrcSession.Session.HandleNumeric` | src/irc_client.c:504-518 | what a numeric shows and whether it closes the banner |
| `IrcSession.Session.HandleLine` | src/irc_client.c:375-543 | state and actions of any line in any state |
| `IrcSession.Session.Receive` | src/irc_client.c:574-591 | after each buffer, state and log are those of the lines the whole stream amounts to |
| `IrcSession.RunSession` | src/irc_client.c:547-593 | what a connection leaves behind depends on the bytes received, not on how they were cut into buffers |
| `IrcTranscript.LineSends` | src/irc_client.c:431-497 | which lines a line makes the client send, by verb, in any state |
| `IrcTranscript.EveryPingIsAnswered` | src/irc_client.c:431-483 | over any lines, from any state, each PING gets one PONG, in order, and JOIN is sent once for each 001 and never otherwise |
| `IrcTranscript.KindsAre` | src/irc_client.c:431-522 | which commands have which effect, by their text |
| `IrcTranscript.PingText` | src/irc_client.c:431-438 | the line PING and some text, in any state: PONG and that text, up to 594 characters, is sent and nothing else happens; a bare PING is answered with a colon |
| `IrcTranscript.WelcomeText` | src/irc_client.c:471-486 | the line 001: the client counts as registered and joins its channel; its text is shown while the banner is open |
| `IrcTranscript.NickInUseText` | src/irc_client.c:488-497 | the line 433: the next nickname is drawn and sent |
| `IrcTranscript.CapText` | src/irc_client.c:440-469 | the lines CAP LS, ACK and NAK: the last line of an offer is answered once with the three capabilities wanted, an answer to that once with CAP END; what is shown while the banner is open |
| `IrcTranscript.CapGoesOn` | src/irc_client.c:440-450 | a line of an offer that announces another is only noted |
| `IrcTranscript.ReplyText` | src/irc_client.c:499-518 | any other numeric and its text: refusals to join, by number, are always shown, others but 353 and 366 while the banner is open, which 376 and 422 close |
| `IrcTranscript.JoinErrorsAre` | src/irc_client.c:345-355 | the numerics that refuse a join, by number |
| `IrcTranscript.PrefixChangesNothing` | src/irc_client.c:405-518 | a prefix changes nothing about what such lines do |
| `IrcTranscript.GreetingText` | src/irc_client.c:561-572 | the three lines a connection starts with |
| `IrcTranscript.PongEchoesIff` | src/irc_client.c:432-436 | the PONG repeats what the PING carried exactly if that is not empty and has at most 594 characters |
| `IrcTranscript.CapIsNegotiatedOnce` | src/irc_client.c:440-451 | CAP REQ is sent once exactly if there was an offer, then CAP END once exactly if an ACK or NAK came after it, and no other CAP line |
| `IrcTranscript.BannerUntilClosed` | src/irc_client.c:510-516 | the banner is open until the first 376 or 422, for the connection and the client alike; registration is the arrival of a 001 |
| `IrcTranscript.QuietAfterBanner` | src/irc_client.c:454-518 | with the banner closed, all that the server says is kept from view but refusals to join, which are always shown |
| `IrcTranscript.NumericShownIff` | src/irc_client.c:474-518 | a numeric is shown exactly if it refuses a join, or the banner is open and it is no name list or nickname clash |
| `IrcTranscript.ChatArrives` | src/irc_client.c:521-539 | a relayed PRIVMSG or NOTICE reaches the viewer as sent, with its ID and time, in any state, and changes nothing |
| `IrcTranscript.NumericReads` | src/irc_client.c:360-367 | the readable part of a numeric is its trailing parameter |
| `IrcLifecycle.Worker.WaitBackoff` | src/irc_client.c:598-610 | sleeps in 200 ms slices until the wait is over or a stop is seen, and doubles the wait only if it is over |
| `IrcLifecycle.Worker.Step` | src/irc_client.c:617-669 | what one pass of the worker does and whether it is the last |
| `IrcLifecycle.Work` | src/irc_client.c:612-671 | the state and all the deeds of the worker over any rounds |
| `IrcLifecycle.RoundDeeds` | src/irc_client.c:617-669 | a round is its connection and then one of nothing, the failure, or the wait, and it is the last unless the wait ran out |
| `IrcLifecycle.Alive` | src/irc_client.c:612-671 | a worker that goes on registered in its first round; its banner and its next wait are those the rounds so far determine |
| `IrcLifecycle.AnnouncedIff` | src/irc_client.c:622-648 | the first round of a banner client says where it connects, and that it is connected, before it greets the server; any other round greets it at once |
| `IrcLifecycle.FailureText` | src/irc_client.c:634-664 | the reason a client that never registered gives up |
| `IrcLifecycle.FailureIsFinal` | src/irc_client.c:633-665 | FAILED is reported exactly when the first round ends without registering and with no stop seen; then once, as the last thing done |
| `IrcLifecycle.DelayIsCappedDoubling` | src/irc_client.c:607-608 | the k-th wait in a row is 2000 times 2^k milliseconds, at most 30000, and a whole number of slices |
| `IrcLifecycle.WaitsGrow` | src/irc_client.c:598-669 | the time slept after a round is the next wait in a row, starting over at 2000 after a registered connection, unless a stop cuts it short, which ends the worker |
| `IrcLifecycle.BannerOfConnection` | src/irc_client.c:560 | a connection has the banner exactly if it was asked for and no earlier connection closed it |
| `IrcLifecycle.ReconnectsStayQuiet` | src/irc_client.c:510-516 | once a banner was closed, every later round shows nothing of the server's but refusals to join |
| `IrcLifecycle.ReconnectCanShowBanner` | src/irc_client.c:560 | a run in which a reconnection is a banner session |
| `SeenRing.Viewer.Contains` | src/irc_module.c:146-152 | the scan of the ring finds exactly the last 4096 rendered IDs |
| `SeenRing.Viewer.Add` | src/irc_module.c:154-160 | the ID takes the place of the oldest |
| `SeenRing.Viewer.OnMessage` | src/irc_module.c:242-273 | a message is rendered exactly if its channel matches and its ID is empty or not among the last 4096 rendered |
| `SeenRing.SameNameIff` | src/irc_module.c:250-253 | two channel names are the same exactly if they differ in nothing but the case of ASCII letters |
| `SeenRing.RepeatsAreFarApart` | src/irc_module.c:242-273 | over any run no ID is rendered twice with fewer than 4096 others between |
| `SeenRing.WindowIsDistinct` | src/irc_module.c:88-91 | the IDs in the ring are all different |
| `SeenRing.ForgottenIff` | src/irc_module.c:255-262 | an ID is rendered again exactly once 4096 others have been since its last rendering |
| `SeenRing.ReplayIsDropped` | src/irc_module.c:255-262 | a replay is dropped, message by message, while no more than 4096 IDs have been rendered |
| `DeltaMod.Decoder.Decode` | src/cuseeme_deltamod.c:27-43 | four samples per byte, those of the codes in order, the level carried on, the rest of the output untouched |
| `DeltaMod.CodesBuildByte` | src/cuseeme_deltamod.c:29-35 | the codes of a byte are its bit pairs, the top pair first |
| `DeltaMod.FirstSamples` | src/cuseeme_deltamod.c:12-43 | the samples of two bytes from rest, worked out: one with each code in turn, and one going down four times |
| `DeltaMod.MirrorImage` | src/cuseeme_deltamod.c:36-37 | the opposite codes from the opposite level lead to the opposite level |
| `DeltaMod.NextFits` | src/cuseeme_deltamod.c:36-37 | a level within 126464 stays there, and no product or sum leaves 32 bits |
| `DeltaMod.LevelIsBounded` | src/cuseeme_deltamod.c:36-37 | on endless input the level stays within 126209 |
| `DeltaMod.PeakIsReached` | src/cuseeme_deltamod.c:36-37 | that bound is reached, and kept |
| `DeltaMod.DecodeInParts` | src/cuseeme_deltamod.c:27-43 | decoding two buffers in turn is decoding them joined |
| `DeltaMod.OrderIsKept` | src/cuseeme_deltamod.c:36-37 | two decoders fed the same bytes keep their order and never widen their gap |
| `DeltaMod.SamplesKeepOrder` | src/cuseeme_deltamod.c:21-38 | nor do their clamped samples |

## Left out

- Windows, drawing, fonts, layout, dialogs, clipboard, sound output, the x86 CPU and its opcodes: foreign calls and code with no deep invariant.
- Sockets, DNS, HTTP, FTP and Finger transport: only the byte streams and datagrams they deliver are inputs.
- Allocation failures, null arguments and the calling conventions around them: allocation is taken to succeed.
- Scheduler.Machine.RunTick: doubles are reals, so rounding of the carried fraction and of due times is not modelled; nor are 64-bit counters overflowing, nor the PCM samples of a tick.
- Scheduler.Machine.CpuRun: the CPU is a contract, not an emulator; what the guest does with memory and ports other than the keyboard and the timer reload is left open.
- Scheduler.Machine: the tick is modelled over the queue as a value, which `KeyRing.Ring` is proved to refine; keys pushed by the other thread during a tick are those the abstract CPU run allows.
- PasteFeeder.Feeder.Feed: a paste replaced or cancelled while it is typed is not modelled, nor is the layout table of the host, which is a parameter.
- Teletype.Display.TypeChar: characters drawn in the graphics modes, and a guest that writes the BIOS data area itself, for instance putting the cursor off the page, are not modelled.
- DosPath.Drive.Resolve: the variant that lets wildcards through in the last component is not modelled, since nothing calls it; the split-off last component is not returned; host characters are those of the guest.
- DosNames.ToFcb11: the lookup of directory entries by pattern is not part of this model.
- FcbFiles.FcbFile.Transfer: random-record calls, and a transfer area that overlaps the control block itself, are not modelled.
- FcbFiles.ReadResult: stated for records of 128 bytes; of longer records only the 512-byte chunk the file ends in is filled with zeros, as `FcbFiles.FcbFile.ReadRecord` states.
- VideoDecoder.Video.Decode: shifts and bitwise ORs are division, remainder and addition of digits that do not overlap; the conversion to gray levels is not modelled.
- GopherUrl.Parse: digits are read as a number of any size; the C library is not bound to give the same for one that overflows, but at most fifteen digits are looked at and anything above 65535 is rejected.
- ArchieReply.Query: building the request, the buffer limit of 2048 bytes and parsing the body into hits are not modelled; a datagram that is empty or in error reads as a time-out.
- IrcMessages.ParseLine: tag values are not unescaped, as in the code; turning the time tag into local time is not modelled.
- IrcSession.Session.HandleLine: nicknames are drawn from a parameter; failures to send are not seen by the client and are not modelled.
- IrcLifecycle.Worker.Step: how a connect attempt is made and timed, and the closing of the socket, are not modelled; a stop during a connection is its end followed by a stop seen.
- SeenRing.Viewer.OnMessage: the formatting of the rendered line is not modelled.
- DeltaMod.Decoder.Decode: the count of samples is a number of any size.
