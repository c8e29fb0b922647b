# Verification of the MBM radio interface layer, its NCM driver and the BUG20 GPS reader

A Dafny project that models the algorithmic core of the repository and proves what it is for. Every
algorithm has two forms. The first is a specification on values: functions, state machines and an
independent reference, with the theorems stated as lemmas. The second is the program's own form: classes
and methods that update fields, arrays and linked lists in place, each proved to do what the
specification says. `dafny verify dfyconfig.toml` checks everything.

## What is modelled

**CDC-NCM transmit and receive path** (`Bits`, `NcmSpec`, `NcmProofs`, `NcmRuns`, `NcmPacking`, `NcmFrames`,
`NcmDriver`). The packer keeps an open frame, a left-over packet and a datagram pointer table across calls. On
values a frame is a `Builder`: the datagrams packed, the buffer image, the table, the next offset and the end
of the last datagram. `Step` is one call of the packer, `Tick` one timer tick, `Run` any sequence of both with
allocation failures. `Encode` gives the bytes of a frame, `Decode` is the receiver. `NcmContext` does the same
in a byte array and a table array, with `ALIGN` and the power-of-two test written as word operations. Main
results: conservation and order over every run, layout and alignment of every frame (USB CDC NCM 1.0, sections
3.2.1, 3.3.1, 3.3.4 and 3.7), decode after encode with the exact condition, and the exact condition under
which a datagram is dropped. `NcmPacking` tells every call of a run as a queue of datagrams, and `NcmFrames`
reads every byte of every frame at its offset.

**AT line framing** (`AtFraming`, `AtFramingProofs`, `AtFramingSplits`, `AtFailures`, `AtReader`). The
reference splits the stream at CR and LF and drops empty pieces. `Readline` and `Drain` are the buffered
reader fed by an arbitrary script of reads, wake-ups and failures; `Reader` is the buffer of 8193 characters
itself.

**AT command protocol** (`AtRouting`, `AtContext`, `AtProtocol`, `AtProtocolProofs`, `AtCalls`,
`AtHandshake`). A transition system of any number of command threads and one reader thread, with both mutexes,
both condition variables, spurious wake-ups, timeouts, handshake retries and close. A step is what one thread
does between taking `commandmutex` and letting it go. A second final line, or more intermediate lines, may be
processed before the command thread wakes. `AtCalls` tells where every line goes and how every call ends by
the lines read and written, `AtHandshake` counts the attempts of a handshake. `Context` is the line routing on
the linked response list, with the reversal in place.

**Scheduler** (`EventQueue`, `LinkedFifo`, `RequestQueue`, `Scheduler`). The sorted doubly linked event list
whose head has an unreliable `prev`, the singly linked request list, both queues and their runners.

**Smaller cores.** The hex codec and the FCP transcoder (`HexCodec`, `Fcp`, `FcpFields`), SMS flow control
(`SmsFlow`), `mkgmtime` against a calendar counted month by month and day by day (`Calendar`), NMEA framing
and fields (`Nmea`), the AT tokenizer on values and in place and the worth of its numbers (`AtTok`,
`AtTokenizer`, `AtNumbers`), the +CGREG line (`Cgreg`, `CgregReader`).

## What turned out not to hold as hoped

- Parameter validation alone does not leave room for the NCM headers: `NcmDriver.ReplyNotUsable` gives a
  device's reply for which it does not. The theorems take "the first datagram starts within the transmit
  buffer" as a hypothesis, `Usable`; moduli of at most 512 imply it (`NcmProofs.SmallModuliUsable`). The
  driver's methods need only validated parameters and say when opening a frame would leave the buffer.
- A line of exactly 83 bytes makes the NMEA reader drop the line behind it (`Nmea.LineOf83LosesNext`); the
  exact condition is in `Nmea.FramingExact`.
- Tokenising an NMEA sentence loses an empty last field; the exact condition is in `Nmea.FieldsOfSentence`.
- `mkgmtime` is a day off for some dates before March 1968, because its divisions truncate; the exact
  condition is in `Calendar.MkGmTime`. For the same reason it is not increasing from 29 February of a leap
  year up to 1968 to 1 March at no later a time of day (`Calendar.LeapDayMeetsMarch`); of the valid dates
  whose year fits a short these are the only such pairs (`Calendar.IncreasingExact`). A later year is taken
  modulo 65536: 1 January 32769 comes out before 1 January 1970 (`Calendar.YearBeyondShort`). The order of
  the results of any two valid dates is in `Calendar.OrderExact`.
- A +CGREG line with three commas is misread if it has no `<n>` and its `<lac>` does not directly start with
  its quote, or if it has an `<n>` and its `<stat>` does (`Cgreg.MisreadLines`); the exact condition is in
  `Cgreg.DecodeExact`. A quote that is never closed leaves the decoder with a NULL cursor, which it then
  looks through (`Cgreg.LineWithNullCursor`); exactly when is in `Cgreg.NullCursorExact`.
- Which error an FCP template reports can depend on the order of its properties
  (`Fcp.ErrorCodeDependsOnOrder`): it does not if and only if all properties in error have the same one
  (`Fcp.ErrorOrderFree`). When the answer that is left does not is in `Fcp.AnswerOrderFree`. Whether a
  template is in error never depends on the order (`Fcp.InErrorInEveryOrder`).
- A line of 8192 characters is thrown away with the full AT buffer (`AtFramingSplits.LongLineLost`), and a
  read that leaves exactly "> " unterminated is taken for the prompt. Every split of a stream into reads
  frames exactly if and only if no prefix of the stream leaves exactly "> " unterminated and the stream
  passes the scan `Fits` (`AtFramingSplits.FramesIffFits`). If no run of line ends fills the buffer, the scan
  says that each line together with the line ends in front of it is shorter than 8192 characters
  (`AtFramingSplits.FramesIffShort`). A longer run can be harmless, because a buffer full of line ends is
  ditched without a loss (`AtFramingSplits.LongRunFrames`). All streams here are free of NUL characters.
- A prompt is not always answered: the PDU is not written on a closed channel
  (`AtProtocolProofs.ClosedSendsNothing`) or if the write fails, and either way the line is used up and the
  PDU given up (`AtProtocolProofs.PduSentAtMostOnce`).

## Conventions

Integers are unbounded except where the width matters: the NCM driver's 32-bit word operations, its 16-bit
sequence number and on-wire fields, `mkgmtime`'s 16-bit month and year, the 32-bit `long` and `int` of the
tokenizer. Bytes are integers from 0 to 255. A little-endian host is assumed where the NCM driver stores
`wFpIndex` without conversion. `ETH_HLEN` (14) and the least NDP alignment (4) are the values of the Linux
headers; the headers are not part of this model. Reads, clocks, the result of a write and the success of an
allocation are parameters or part of an action.

## Model

| member | source | states |
|---|---|---|
| Bits.PowerOfTwoTest | mbm/patches/0001-patch-for-adding-cdc_ncm-and-atomic_h.patch:274-289 | the driver's word test `val == (-val & val)` holds exactly for powers of two (and zero, which the lower bound excludes) |
| Bits.AlignMeaning | mbm/patches/0001-patch-for-adding-cdc_ncm-and-atomic_h.patch:671-683 | for a power of two, ALIGN's add-and-mask on 32-bit words is rounding up to a multiple |
| Bits.RoundUpIsMultiple | mbm/patches/0001-patch-for-adding-cdc_ncm-and-atomic_h.patch:671-683 | rounding up gives a multiple of the alignment |
| NcmDriver.AdjustedRemainder | mbm/patches/0001-patch-for-adding-cdc_ncm-and-atomic_h.patch:299-301 | subtracting the Ethernet header length with wrap-around and masking is the mathematical remainder of the difference, negative differences included |
| NcmDriver.NcmContext.Setup | mbm/patches/0001-patch-for-adding-cdc_ncm-and-atomic_h.patch:203-353 | without a reply the set-up fails and changes nothing; every reply yields validated parameters: valid device values are kept, each invalid one gets its default, the remainder is adjusted for the Ethernet header; the datagram size is clamped and the mtu follows it |
| NcmDriver.ReplyNotUsable | mbm/patches/0001-patch-for-adding-cdc_ncm-and-atomic_h.patch:203-301 | a device's reply after whose validation the first datagram would start behind the transmit buffer |
| NcmProofs.SmallModuliUsable | mbm/patches/0001-patch-for-adding-cdc_ncm-and-atomic_h.patch:264-301 | validated parameters with both moduli at most 512 leave the first datagram inside every transmit buffer |
| NcmProofs.ValidatedNotUsable | mbm/patches/0001-patch-for-adding-cdc_ncm-and-atomic_h.patch:264-301 | validated parameters for which the first datagram would start behind the transmit buffer |
| NcmDriver.ZeroFill | mbm/patches/0001-patch-for-adding-cdc_ncm-and-atomic_h.patch:619-628 | zeroes exactly the indices from first up to the smaller of end and max, nothing else |
| NcmDriver.NcmContext.OpenFrame | mbm/patches/0001-patch-for-adding-cdc_ncm-and-atomic_h.patch:662-688 | from validated parameters: a new buffer of tx_max bytes with zeroed header space represents the empty frame, and the zeroing stays in the buffer exactly if the first datagram starts inside it |
| NcmDriver.NcmContext.Append | mbm/patches/0001-patch-for-adding-cdc_ncm-and-atomic_h.patch:728-744 | copying a datagram, entering it in the table and zeroing up to the next place represents the frame with that datagram added |
| NcmDriver.NcmContext.PackOne | mbm/patches/0001-patch-for-adding-cdc_ncm-and-atomic_h.patch:690-747 | one turn of the packing loop on buffer, table, left-over packet and drop counter is one turn of the specification, every exit included |
| NcmDriver.NcmContext.Pack | mbm/patches/0001-patch-for-adding-cdc_ncm-and-atomic_h.patch:690-747 | the loop in place equals the specification's loop |
| NcmDriver.NcmContext.Pad | mbm/patches/0001-patch-for-adding-cdc_ncm-and-atomic_h.patch:782-809 | final padding and the forced short-packet byte only append zeros behind the last datagram; the length is the frame length |
| NcmDriver.NcmContext.EndTable | mbm/patches/0001-patch-for-adding-cdc_ncm-and-atomic_h.patch:811-815 | the table keeps its entries and ends with a null entry |
| NcmDriver.NcmContext.WriteHeaders | mbm/patches/0001-patch-for-adding-cdc_ncm-and-atomic_h.patch:817-845 | NTH16, NDP16 and n + 1 table entries are written at their places, nothing else changes, the sequence number advances modulo 2^16; what the bytes say is in `NcmFrames.FrameExact` |
| NcmDriver.NcmContext.Emit | mbm/patches/0001-patch-for-adding-cdc_ncm-and-atomic_h.patch:782-852 | padding and headers written in place over the open frame give exactly the encoded frame, whose bytes are in `NcmFrames.FrameExact` |
| NcmDriver.NcmContext.Conclude | mbm/patches/0001-patch-for-adding-cdc_ncm-and-atomic_h.patch:749-852 | a packet still in hand is dropped and counted; the frame waits, with the timer set, or goes out, as the specification decides |
| NcmDriver.NcmContext.FillTxFrame | mbm/patches/0001-patch-for-adding-cdc_ncm-and-atomic_h.patch:630-856 | one call on the driver's object, resumed or fresh, with or without a packet or memory, refines one step of the packer, and the buffer it returns holds the encoded frame; only opening a frame whose header space does not fit is told apart, and exactly when it happens |
| NcmDriver.NcmContext.TxTimeout | mbm/patches/0001-patch-for-adding-cdc_ncm-and-atomic_h.patch:869-887 | a timer tick counts down, or flushes the frame as a call without a packet |
| NcmDriver.RxFixup | mbm/patches/0001-patch-for-adding-cdc_ncm-and-atomic_h.patch:927-1047 | on any bytes the receiver accepts and delivers exactly what the decoder gives |
| NcmDriver.DeliverTable | mbm/patches/0001-patch-for-adding-cdc_ncm-and-atomic_h.patch:1012-1043 | the loop over the pointer table delivers the datagrams of the leading usable entries and fails exactly when there are none |
| NcmProofs.AlignedRemainder | mbm/patches/0001-patch-for-adding-cdc_ncm-and-atomic_h.patch:737-740 | an aligned offset plus the Ethernet header length leaves the payload remainder from before the adjustment |
| NcmProofs.AddPlaced | mbm/patches/0001-patch-for-adding-cdc_ncm-and-atomic_h.patch:728-744 | adding a datagram keeps every packed datagram in place, on the grid and apart, and places the new one so |
| NcmProofs.Disjoint | mbm/patches/0001-patch-for-adding-cdc_ncm-and-atomic_h.patch:690-845 | the datagrams of a frame do not overlap, lie behind the whole header region and inside the frame, which is at most 16384 bytes |
| NcmProofs.HeaderReadsBack | mbm/patches/0001-patch-for-adding-cdc_ncm-and-atomic_h.patch:817-845 | the receiver's header checks accept every encoded frame and find its table and its number of entries |
| NcmProofs.EntryReadsBack | mbm/patches/0001-patch-for-adding-cdc_ncm-and-atomic_h.patch:811-845 | each table entry read from an encoded frame points at its datagram, byte for byte: headers and padding overwrite no payload |
| NcmProofs.DecodeEncode | mbm/patches/0001-patch-for-adding-cdc_ncm-and-atomic_h.patch:927-1047 | decoding an encoded frame gives exactly its leading datagrams of acceptable length, in order |
| NcmProofs.RoundTrip | mbm/patches/0001-patch-for-adding-cdc_ncm-and-atomic_h.patch:630-1047 | decoding gives back the packed datagrams if and only if all are 14 to 2048 bytes long |
| NcmProofs.DecodeSafe | mbm/patches/0001-patch-for-adding-cdc_ncm-and-atomic_h.patch:927-1047 | on any bytes at all, what is delivered lies inside the frame, is 14 to 2048 bytes long, and there are 1 to 32 datagrams |
| NcmRuns.RunFrames | mbm/patches/0001-patch-for-adding-cdc_ncm-and-atomic_h.patch:630-856 | every frame of every run can be sent, has all datagrams in place, and the frames are numbered consecutively modulo 2^16 |
| NcmRuns.RunLayout | mbm/patches/0001-patch-for-adding-cdc_ncm-and-atomic_h.patch:673-746 | over every run, for every datagram of a frame: (index + 14) mod tx_modulus is the validated payload remainder, it lies behind the headers, ends within the block length and before every datagram behind it |
| NcmRuns.RunConserves | mbm/patches/0001-patch-for-adding-cdc_ncm-and-atomic_h.patch:630-856 | over every run, allocation failures and timeouts included: submitted = sent + open + pending + counted as dropped |
| NcmRuns.RunKeepsOrder | mbm/patches/0001-patch-for-adding-cdc_ncm-and-atomic_h.patch:630-856 | sent, open and pending datagrams together are an in-order subsequence of those submitted |
| NcmRuns.RunRoundTrip | mbm/patches/0001-patch-for-adding-cdc_ncm-and-atomic_h.patch:630-1047 | a frame of a run is accepted and delivers exactly its datagrams if and only if they have acceptable lengths; so every frame does when all submitted datagrams do |
| NcmRuns.RunDropsExactly | mbm/patches/0001-patch-for-adding-cdc_ncm-and-atomic_h.patch:690-754 | with memory and fitting datagrams, one is dropped exactly when a submission meets a pending packet behind a full open frame |
| NcmRuns.ThreeTicksFlush | mbm/patches/0001-patch-for-adding-cdc_ncm-and-atomic_h.patch:756-780 | an open frame goes out within three timer ticks, its datagrams in front, even without memory |
| NcmPacking.RunExactly | mbm/patches/0001-patch-for-adding-cdc_ncm-and-atomic_h.patch:630-780 | every event of every run, told as a queue of the pending and the submitted datagram: as many go into the frame as there is room and number (32) for; the frame goes out exactly if it holds anything and is full, nothing was submitted or the next datagram is too long for it; which datagram is then kept pending and which are dropped; an open frame of one or two waits for two more ticks; and what happens without memory |
| NcmFrames.FrameExact | mbm/patches/0001-patch-for-adding-cdc_ncm-and-atomic_h.patch:662-845 | frame number k of every run, every byte read at its offset: signatures, header length 12, sequence number k modulo 2^16, block length, place and length of the table, no next table, entries that point at the datagrams, the null entry behind them; each datagram stands as close behind the one in front as the alignment lets it; the length, with the rule for short packets; all other bytes are zero |
| NcmFrames.ReplyHonoured | mbm/patches/0001-patch-for-adding-cdc_ncm-and-atomic_h.patch:203-353 | from the device's reply to the bytes of every frame of every run: place of the payload modulo the divisor asked for, alignment of the table, greatest length; with the default for each value that is not valid |
| NcmFrames.ReceiverExact | mbm/patches/0001-patch-for-adding-cdc_ncm-and-atomic_h.patch:927-1047 | any bytes at all are accepted exactly if both signatures stand, the lengths are possible and the first entry points at a datagram; what is delivered are the datagrams of the leading usable entries, of at most 32 |
| AtFramingProofs.DrainFrames | mbm/mbm-ril/atchannel.c:436-561 | without loss and prompt, successive calls return exactly the non-empty pieces between CR and LF and keep the unterminated rest |
| AtFramingProofs.DrainConserves | mbm/mbm-ril/atchannel.c:436-561 | every character that is not a line end is in a returned line, still buffered, or thrown away with a full buffer |
| AtFramingProofs.FramingExact | mbm/mbm-ril/atchannel.c:436-561 | for one session that does not meet the prompt: framing is exact if and only if nothing was thrown away with a full buffer |
| AtFramingSplits.CallExact | mbm/mbm-ril/atchannel.c:436-561 | one call, with n characters of a stream buffered, loses nothing exactly if the stream's first line ends inside the buffer, at an index decided by n and the stream alone; and how much it can leave buffered |
| AtFramingSplits.FramesIffFits | mbm/mbm-ril/atchannel.c:436-561 | for every stream: every split into reads frames exactly if and only if the stream never leaves exactly "> " unterminated and passes a scan over its lines |
| AtFramingSplits.FramesIffShort | mbm/mbm-ril/atchannel.c:436-561 | if no run of line ends fills the buffer: if and only if the stream never leaves exactly "> " unterminated and every line together with the line ends in front of it is shorter than 8192 characters |
| AtFramingSplits.FramesUnlessPrompt | mbm/mbm-ril/atchannel.c:436-561 | for every stream that passes the scan and every split: either a read left exactly "> " unterminated, or framing is exact |
| AtFramingSplits.LongLineLost | mbm/mbm-ril/atchannel.c:483-489 | a line of 8192 characters is lost as a whole |
| AtFramingSplits.LongRunFrames | mbm/mbm-ril/atchannel.c:483-489 | a run of 8192 line ends in front of a line of one character loses nothing: every split frames exactly |
| AtFailures.WakeupsIgnored | mbm/mbm-ril/atchannel.c:503-560 | a wake-up changes nothing: the same line, prompt or NULL, the same text buffered, read and lost as without it |
| AtFailures.FailureEndsCall | mbm/mbm-ril/atchannel.c:503-560 | a failure, a closed channel or the end of the input: the line in front of it is returned as if it were not there; without one the call ends with NULL right there, with the text read so far still buffered |
| AtFailures.NothingToRead | mbm/mbm-ril/atchannel.c:503-560 | a failure with no line buffered: NULL, and the text stays |
| AtReader.Reader.SkipEols | mbm/mbm-ril/atchannel.c:459-461 | the cursor moves over leading line ends; a NUL stays at or behind it, inside the buffer |
| AtReader.Reader.FindNextEol | mbm/mbm-ril/atchannel.c:412-423 | finds the first line end of the buffered text, or the end of a lone prompt, or nothing |
| AtReader.Reader.MoveUp | mbm/mbm-ril/atchannel.c:465-474 | a partial line is moved to the start of the buffer unchanged |
| AtReader.Reader.ReadOnce | mbm/mbm-ril/atchannel.c:523-540 | a read stored at the fill level, the skip and the search together are one read of the specification |
| AtReader.Reader.ReadMore | mbm/mbm-ril/atchannel.c:479-560 | the reading loop, full buffer, wake-ups, end and failure included, ends as the specification says |
| AtReader.Reader.Readline | mbm/mbm-ril/atchannel.c:436-561 | a call on the buffer returns the line and leaves the text that the specification says; a NUL stays at or behind the cursor within bounds, except behind the prompt |
| AtContext.StrStartsWith | mbm/mbm-ril/misc.c:30-39 | the character loop decides whether the prefix is a prefix of the line |
| AtContext.StartsWithOne | mbm/mbm-ril/atchannel.c:267-278 | the table search decides whether some prefix of the table starts the line |
| AtContext.AtResponse.AddIntermediate | mbm/mbm-ril/atchannel.c:237-251 | puts exactly the new line in front of the list |
| AtContext.AtResponse.ReverseIntermediates | mbm/mbm-ril/atchannel.c:828-841 | the list is turned around in place: the same nodes in reverse order, nothing else changed |
| AtContext.Context.WriteCtrlZ | mbm/mbm-ril/atchannel.c:678-716 | nothing is written without a descriptor or once the reader is closed; otherwise the PDU is out if the writes succeed, and the result says so |
| AtContext.Context.ProcessLine | mbm/mbm-ril/atchannel.c:344-403 | a line changes the pending command and the unsolicited lines exactly as it is routed; at a prompt the PDU is used up, and it is written exactly if the channel is open and the write succeeds |
| AtProtocol.NextInv | mbm/mbm-ril/atchannel.c:850-928 | every step keeps: requestmutex is held exactly while its holder waits with its command pending, and no wake-up is lost |
| AtProtocolProofs.OneCommandOwnsTheChannel | mbm/mbm-ril/atchannel.c:850-928 | in every reachable state with commandmutex free, a response is pending exactly when one thread, its maker, holds requestmutex and waits on commandcond |
| AtProtocolProofs.NeverPendingNeverForeign | mbm/mbm-ril/atchannel.c:719-730 | AT_ERROR_COMMAND_PENDING is never returned and no thread frees a response it did not make |
| AtProtocolProofs.ResponsesAccounted | mbm/mbm-ril/atchannel.c:902-928 | every response ever made is exactly once freed, handed to its caller or pending |
| AtProtocolProofs.BlockedOnlyOnModem | mbm/mbm-ril/atchannel.c:862-900 | if no thread can move and not all are idle, one waits for a final response that has not come, on an open channel |
| AtProtocolProofs.CallContract | mbm/mbm-ril/atchannel.c:985-1085 | a call that returns 0 with an out-pointer hands over a final line, the success flag of its class, and exactly the intermediate lines routed to it in order of arrival: none, at most one or, for a successful single-line, numeric or SMS call, exactly one |
| AtProtocolProofs.PduSentAtMostOnce | mbm/mbm-ril/atchannel.c:358-362 | over every interleaving, at most one prompt is routed to a command, however many arrive; one PDU is written for it if the write succeeds, none if it does not, and none without a prompt |
| AtProtocolProofs.PduOfItsCall | mbm/mbm-ril/atchannel.c:358-362 | the PDU written is that of the very call, and it is written exactly if a prompt was routed to the command and the write succeeded, for every finished call and the pending one |
| AtProtocolProofs.ClosedSendsNothing | mbm/mbm-ril/atchannel.c:686-688 | from the close of the channel on no PDU is written, whatever lines still arrive |
| AtProtocolProofs.EveryLineRoutedOnce | mbm/mbm-ril/atchannel.c:344-403 | over every interleaving, each line given to processLine has one destination, and what the unsolicited handler got, the pending command's list and its final slot are exactly the lines routed there, in order, with one PDU for each prompt answered |
| AtCalls.LineGoesWhere | mbm/mbm-ril/atchannel.c:253-403 | over every interleaving, where each line goes, told by the lines routed before: unsolicited without a pending call; final if it starts like one of the eight final responses; the prompt if the call has a PDU and none has come; an intermediate line if it is a result of its type and none has come yet or several may; else unsolicited |
| AtCalls.CallEnds | mbm/mbm-ril/atchannel.c:850-928 | every step of every run, and exactly which call it ends and how: a timed-out wait with a timeout, a wake-up on a closed channel with that error, one behind a final line with success, both with the answer collected if it is wanted, a failed write with its error and no response; no other step ends one |
| AtCalls.SucceedsExactly | mbm/mbm-ril/atchannel.c:879-921 | a call ends with success exactly in a wake-up without a timeout, on an open channel, behind a final line routed to it |
| AtCalls.ReturnsError | mbm/mbm-ril/atchannel.c:985-1085 | the error of a finished call is returned as it is, except that a success without an intermediate line is an invalid response for single-line, numeric and SMS commands whose caller wants the response |
| AtCalls.ClosedByClose | mbm/mbm-ril/atchannel.c:563-576 | the channel is closed exactly from the first close on |
| AtHandshake.CallMadeOnce | mbm/mbm-ril/atchannel.c:1125-1163 | from its issue to its end a call is made once; a handshake of n attempts makes one to n, all but the last fail, and the last succeeds or is the n-th |
| AtHandshake.MutexOnlyInHandshake | mbm/mbm-ril/atchannel.c:1125-1163 | commandmutex is kept across steps only by a handshake between its attempts or in its pause |
| EventQueue.Due | mbm/mbm-ril/u300-ril.c:177-185 | the due time is the clock plus the relative time in nanoseconds, and tv_nsec ends in 0 to 10^9 |
| EventQueue.BeforeIsEarlier | mbm/mbm-ril/u300-ril.c:63-66 | on such times the field-wise comparison agrees with real time, a full second of nanoseconds included |
| EventQueue.Queue.Enqueue | mbm/mbm-ril/u300-ril.c:194-221 | the event is linked in place behind all that are due no later; the list invariant, with an arbitrary `prev` at the head, is kept, and only nodes of the list and the new one are written |
| EventQueue.Queue.InsertBehindHead | mbm/mbm-ril/u300-ril.c:204-220 | the search loop stops at the place of insertion and never follows the head's `prev` |
| EventQueue.Queue.PopDue | mbm/mbm-ril/u300-ril.c:1896-1901 | takes the head exactly if it is due; the rest is a valid list although the new head's `prev` refers to the node taken |
| Scheduler.InsertOrdered | mbm/mbm-ril/u300-ril.c:197-221 | insertion keeps the list sorted by due time and, for equal times, by order of insertion |
| Scheduler.PopsEarliestDue | mbm/mbm-ril/u300-ril.c:1889-1900 | over every run, a turn on an open queue takes an event exactly if one is due; it is due, nothing in its queue is due earlier in real time, and among equal stamps it was inserted first |
| Scheduler.TurnDispatches | mbm/mbm-ril/u300-ril.c:1881-1906 | over every run, a turn dispatches a request if and only if its queue is open and one waits: the first one, whether or not an event is taken too; the other queue stays |
| Scheduler.TurnsDispatch | mbm/mbm-ril/u300-ril.c:1862-1906 | n turns on an open queue dispatch the first n waiting requests |
| Scheduler.ClosedExact | mbm/mbm-ril/u300-ril.c:1608-1618 | a queue is closed until it is first reopened and from each close on |
| Scheduler.EventsAsAsked | mbm/mbm-ril/u300-ril.c:159-224 | over every run, exactly the events asked for a queue are inserted there, each due at the clock plus its relative time |
| Scheduler.EventsConserved | mbm/mbm-ril/u300-ril.c:194-221 | over every run, inserted events are the taken and the waiting ones, each once, and equal stamps are taken in insertion order |
| Scheduler.RequestsConserved | mbm/mbm-ril/u300-ril.c:1224-1256 | every accepted request is in exactly one queue, the one for its kind, dispatched once and in order of arrival or waiting, across close and reopen |
| LinkedFifo.Fifo.Append | mbm/mbm-ril/u300-ril.c:1243-1252 | the walk to the last node appends the value behind all others |
| LinkedFifo.Fifo.Take | mbm/mbm-ril/u300-ril-messaging.c:48-59 | takes the first value, or nothing from an empty list |
| RequestQueue.RequestQueue.EnqueueEvent | mbm/mbm-ril/u300-ril.c:159-224 | a new event with the normalised due time is inserted in order; the requests and the closed flag stay |
| RequestQueue.RequestQueue.OnRequest | mbm/mbm-ril/u300-ril.c:1224-1256 | the request is appended to the queue's list; the events and the closed flag stay |
| RequestQueue.RequestQueue.RunnerTurn | mbm/mbm-ril/u300-ril.c:1862-1906 | a turn of the runner on the linked lists takes exactly the due head event and the first request, and nothing from a closed queue |
| RequestQueue.SignalCloseQueues | mbm/mbm-ril/u300-ril.c:1608-1618 | closes every queue and changes nothing else |
| SmsFlow.FlowControl | mbm/mbm-ril/u300-ril-messaging.c:48-115 | in every reachable state arrivals are delivered ++ held in order and kind, held implies an outstanding acknowledge, an acknowledge is outstanding exactly while a delivery has none behind it, and between two deliveries there is one |
| SmsFlow.DeliveredAtOnce | mbm/mbm-ril/u300-ril-messaging.c:80-115 | in every reachable state an arrival is delivered at once if and only if every earlier delivery has been acknowledged; a status report with an empty service centre address in front |
| SmsFlow.AcknowledgeDelivers | mbm/mbm-ril/u300-ril-messaging.c:491-520 | an acknowledge delivers the first arrival not yet delivered, if and only if there is one; without one the wait is over |
| SmsFlow.Gate.OnNewSms | mbm/mbm-ril/u300-ril-messaging.c:80-94 | delivers the message or appends it to the held ones, as the state machine does |
| SmsFlow.Gate.OnNewStatusReport | mbm/mbm-ril/u300-ril-messaging.c:96-115 | the same for a status report, with the empty service centre address in front |
| SmsFlow.Gate.RequestSmsAcknowledge | mbm/mbm-ril/u300-ril-messaging.c:491-520 | delivers the first held PDU, or ends the wait |
| HexCodec.BytesRoundTrip | mbm/mbm-ril/misc.c:100-154 | reading back what was written out is the identity on every byte array |
| HexCodec.DigitsRoundTrip | mbm/mbm-ril/misc.c:100-154 | writing out what was read upper-cases every string of hex digits of even length |
| HexCodec.RoundTripIffDigits | mbm/mbm-ril/misc.c:100-154 | that holds for a string of even length if and only if it consists of hex digits |
| HexCodec.RoundTripExact | mbm/mbm-ril/misc.c:100-154 | every string of even length: digits come back in upper case, any other character as 0 |
| HexCodec.ByteDigits | mbm/mbm-ril/misc.c:100-154 | two digits, in either case, are 16 times the first plus the second; a byte is written as its two digits |
| HexCodec.StringToBinary | mbm/mbm-ril/misc.c:114-132 | fails exactly for an odd length; otherwise fills exactly half as many bytes with the values of the digit pairs |
| HexCodec.BinaryToString | mbm/mbm-ril/misc.c:134-154 | writes exactly two digits a byte and a NUL |
| HexCodec.ParseTlv | mbm/mbm-ril/misc.c:156-182 | a TLV that is accepted advances by at least four characters and stays within the stream |
| Fcp.ParseEncoded | mbm/mbm-ril/misc.c:156-182 | a TLV written anywhere in a stream reads back with its tag, data and end |
| Fcp.TranscodeEncoded | mbm/mbm-ril/fcp_parser.c:11-108 | transcoding an encoded template is the fold over its list of properties, whatever follows the template |
| Fcp.UnknownIgnored | mbm/mbm-ril/fcp_parser.c:46-95 | properties with other tags than the three known ones do not matter |
| Fcp.FoldAssembles | mbm/mbm-ril/fcp_parser.c:46-95 | when the known tags stand at most once each, the answer is put together from the three known properties |
| Fcp.OrderIrrelevant | mbm/mbm-ril/fcp_parser.c:36-97 | then the order of the properties does not matter: all orders succeed with the same answer, or all are in error |
| Fcp.InErrorInEveryOrder | mbm/mbm-ril/fcp_parser.c:36-97 | for every template, one order of its properties is in error exactly if every other is |
| Fcp.ErrorOrderFree | mbm/mbm-ril/fcp_parser.c:36-97 | for every template: all orders of its properties report the same error, or none, if and only if all its properties in error have the same one |
| Fcp.AnswerOrderFree | mbm/mbm-ril/fcp_parser.c:36-97 | when the known tags stand at most once each: all orders leave the same answer if and only if nothing is in error, or no good property sets anything and all in error have set the same |
| Fcp.FoldToFirstBad | mbm/mbm-ril/fcp_parser.c:36-97 | on an error the answer left is that of the properties in front, with what the one in error had already set on top |
| FcpFields.TemplateFields | mbm/mbm-ril/fcp_parser.c:36-97 | every template in which each known tag stands at most once: each field of the answer in arithmetic on the data bytes, up to the first property in error, and the error of that one; missing properties leave zeros |
| FcpFields.DescriptorExact | mbm/mbm-ril/fcp_parser.c:63-94 | a file descriptor, every byte value: type, status, data size, structure and record size, which descriptors are in error, and what these have set by then |
| FcpFields.ErrorExact | mbm/mbm-ril/fcp_parser.c:46-95 | exactly which properties are in error, and with which error |
| FcpFields.TornTemplate | mbm/mbm-ril/fcp_parser.c:36-44 | a template that breaks off in a property is refused; the answer shows the properties in front |
| FcpFields.NoTemplate | mbm/mbm-ril/fcp_parser.c:11-35 | a stream is refused, and the answer left alone, exactly if it does not start with a whole TLV of the template tag |
| Fcp.ErrorCodeDependsOnOrder | mbm/mbm-ril/fcp_parser.c:46-62 | two orders of the same properties that report different errors |
| Fcp.Ts51011Resp.SetDescriptor | mbm/mbm-ril/fcp_parser.c:63-94 | the file descriptor case sets the fields in place as the specification does, partly set answers on errors included |
| Fcp.Ts51011Resp.FcpToTs51011 | mbm/mbm-ril/fcp_parser.c:11-108 | on every input the loop ends and leaves in the answer's fields exactly what the specification gives, also when it stops at an error |
| Calendar.Normalise | bug20/gps/gps_bug20.c:272-278 | month and year in 16-bit variables with truncating division are the calendar's month index divided by twelve, for negative months too |
| Calendar.MkGmTime | bug20/gps/gps_bug20.c:265-294 | for every date, narrowed to 16 bits, the result is the calendar's seconds plus a day for each division that truncates wrongly; it is exact if and only if the year counted from March is one for which the divisions are harmless |
| Calendar.NarrowInRange | bug20/gps/gps_bug20.c:268-275 | dates whose month and year fit 16 bits are not narrowed |
| Calendar.ExactFrom1968 | bug20/gps/gps_bug20.c:265-294 | the divisions are harmless from March 1968 on, whatever the month field |
| Calendar.NotBeforeMarch1968 | bug20/gps/gps_bug20.c:265-294 | 29 February 1968 comes out a day late |
| Calendar.FloorDaysCount | bug20/gps/gps_bug20.c:279-284 | with divisions that round down, the formula counts the days month by month, for every month of every year |
| Calendar.ReferenceCountsDays | bug20/gps/gps_bug20.c:243-263 | the reference used here is counting days one by one from 1 January 1970 |
| Calendar.MonthLengths | bug20/gps/gps_bug20.c:270 | the months counted are those of the Gregorian calendar |
| Calendar.KnownDates | bug20/gps/gps_bug20.c:265-294 | the start of 2000 comes out as 946684800, the last second of a 32-bit time as 2147483647 |
| Calendar.IncreasingExact | bug20/gps/gps_bug20.c:265-294 | of two valid dates whose year fits a short, the earlier has the smaller result if and only if they are not 29 February of a leap year up to 1968 and 1 March of that year at no later a time of day |
| Calendar.StrictlyIncreasing | bug20/gps/gps_bug20.c:265-294 | so from March 1968 on the result is strictly increasing on valid dates, up to the last year that fits a short |
| Calendar.OrderExact | bug20/gps/gps_bug20.c:265-294 | for any two valid dates: which result is smaller is decided, with that exception, by the order of what is left of the dates when the year is taken modulo 65536, a 29 February without a leap year counting as 1 March |
| Calendar.YearBeyondShort | bug20/gps/gps_bug20.c:268-275 | 1 January 32769 has a smaller result than 1 January 1970 |
| Calendar.LeapDayMeetsMarch | bug20/gps/gps_bug20.c:265-294 | 29 February and 1 March 1968 have the same result |
| Nmea.RunExact | bug20/gps/gps_bug20.c:814-837 | for every byte stream, the lines handed to the parser and the state of the reader in terms of the lines of the stream |
| Nmea.FramingExact | bug20/gps/gps_bug20.c:814-837 | the parser gets exactly the lines of at most 82 bytes, whole and in order, if and only if none of them follows a swallowed newline |
| Nmea.FramingWithout83 | bug20/gps/gps_bug20.c:814-837 | in particular when no line is exactly 83 bytes long |
| Nmea.LineOf83LosesNext | bug20/gps/gps_bug20.c:820-824 | a line of 83 bytes takes the short line behind it along |
| Nmea.SplitJoin | bug20/gps/gps_bug20.c:163-180 | splitting undoes joining of comma-free fields, except for an empty last one |
| Nmea.FieldsOfSentence | bug20/gps/gps_bug20.c:141-184 | tokenising '$', joined comma-free fields, checksum and line end gives back exactly the fields if and only if there are at most 32 and the last is not empty |
| Nmea.FieldsOfText | bug20/gps/gps_bug20.c:141-184 | the same with or without the dollar sign, the checksum, and either line end, as long as what is missing cannot be mistaken for part of the fields |
| Nmea.NmeaReader.AddC | bug20/gps/gps_bug20.c:814-837 | one byte on the buffer, position and overflow flag is one step of the automaton |
| Nmea.NmeaTokenizer.Init | bug20/gps/gps_bug20.c:141-184 | the tokens in the array, at most 32, are the fields of the sentence, for every sentence |
| AtTok.FirstToken | mbm/mbm-ril/at_tok.c:70-87 | the first token of a line that starts with a quoted or bare field is the field's text, and the cursor stands behind its comma |
| AtTok.ClosedQuote | mbm/mbm-ril/at_tok.c:57-87 | what stands between a closing quote and the next comma is skipped |
| AtTok.OpenQuote | mbm/mbm-ril/at_tok.c:70-87 | a quote that is not closed: the token is all that follows, and the cursor becomes NULL |
| AtNumbers.DecimalValue | mbm/mbm-ril/at_tok.c:96-136 | white space, a sign, any decimal digits and anything behind them: the number they write, or the nearest that a 32-bit long holds |
| AtNumbers.NoDecimal | mbm/mbm-ril/at_tok.c:96-136 | without a digit behind white space and sign: the error return |
| AtNumbers.HexValue | mbm/mbm-ril/at_tok.c:96-147 | white space, a sign, an optional 0x, hexadecimal digits in either case and anything behind them: the number modulo 2^32 as an int, or -1 if it is too large |
| AtNumbers.NoHex | mbm/mbm-ril/at_tok.c:96-147 | without a hexadecimal digit: the error return |
| AtTok.TokenizerRoundTrip | mbm/mbm-ril/at_tok.c:28-181 | for every prefix and comma-joined list of quoted and bare fields, at_tok_start and one at_tok_nextstr per field return the fields in order |
| AtTokenizer.Cursor.Start | mbm/mbm-ril/at_tok.c:28-46 | moves the cursor behind the first colon, or to NULL, on the NUL-terminated line |
| AtTokenizer.Cursor.SkipWhiteSpace | mbm/mbm-ril/at_tok.c:48-55 | moves the cursor over white space and no further |
| AtTokenizer.Cursor.SkipNextComma | mbm/mbm-ril/at_tok.c:57-68 | moves the cursor behind the next comma or to the NUL |
| AtTokenizer.Cursor.NextTok | mbm/mbm-ril/at_tok.c:70-87 | writes a NUL behind the token in place and returns where it starts; the text in front of the old cursor is untouched |
| AtTokenizer.Cursor.NextInt | mbm/mbm-ril/at_tok.c:96-136 | the decimal value of the next token, or the error return, what is stored through the out-pointer in either case, and the cursor behind the token |
| AtTokenizer.Cursor.NextHexInt | mbm/mbm-ril/at_tok.c:96-147 | the same for hexadecimal values |
| AtTokenizer.Cursor.NextStr | mbm/mbm-ril/at_tok.c:172-181 | hands out the next token as a NUL-terminated string in the line; fails exactly on a NULL cursor |
| AtTokenizer.Cursor.StringsStay | mbm/mbm-ril/at_tok.c:172-181 | strings handed out earlier are not changed by later calls |
| AtTokenizer.Cursor.HasMore | mbm/mbm-ril/at_tok.c:184-187 | whether text is left |
| AtTokenizer.Cursor.CharCounter | mbm/mbm-ril/at_tok.c:190-208 | the number of occurrences of a character in the rest of the line |
| Cgreg.DecodeExact | mbm/mbm-ril/u300-ril-network.c:842-934 | every form of the line, any fields quoted or not, decodes to its stat, lac, cid and AcT if and only if it is not one of the forms with three commas that are taken for each other |
| Cgreg.DecodeFields | mbm/mbm-ril/u300-ril-network.c:842-934 | a line of any fields, numbers or not: what it decodes to, or that it is refused, by their number, their values and, with four, whether the second starts with its quote |
| Cgreg.NoColon | mbm/mbm-ril/u300-ril-network.c:842-860 | a line without a colon is refused |
| Cgreg.SolicitedOrNot | mbm/mbm-ril/u300-ril-network.c:842-934 | with a bare stat and a quoted lac behind its comma, the line decodes alike with and without the leading n |
| Cgreg.NullCursorExact | mbm/mbm-ril/u300-ril-network.c:892-898 | the second parameter is looked at through a NULL cursor exactly when the first is an unterminated quoted number and the line has three commas |
| Cgreg.MisreadLines | mbm/mbm-ril/u300-ril-network.c:892-916 | two forms with three commas that are misread: a lac without quotes, and a stat in quotes behind an n |
| Cgreg.LineWithNullCursor | mbm/mbm-ril/u300-ril-network.c:892-898 | a line at which the second parameter is looked at through a NULL cursor |
| CgregReader.ReadArea | mbm/mbm-ril/u300-ril-network.c:886-934 | reading lac, cid and AcT off the line fills the response entries and the result as specified |
| CgregReader.ReadRegistration | mbm/mbm-ril/u300-ril-network.c:842-934 | decoding in place with the tokenizer gives what the specification gives on the line, and the array holds the entries |

## Left out

- NcmDriver.NcmContext.FillTxFrame: says nothing about what follows a write behind the buffer, which opening a frame makes exactly when the header space does not fit (see `NcmDriver.ReplyNotUsable`).
- NcmDriver.RxFixup: the clone of the buffer for each datagram is taken to succeed, and reference counts are not modelled.
- AtReader.Reader.Readline: excludes reads with NUL characters, at which the string functions of the reader would stop.
- AtReader.Reader.ReadMore: excludes reads with NUL characters in the same way.
- AtReader.Reader.ReadOnce: excludes reads with NUL characters in the same way.
- AtContext.Context.WriteCtrlZ: a PDU of which a failing write got only a part out is not counted as written.
- Calendar.MkGmTime: says nothing about dates whose normalised year is below the range of a short, where the last subtraction wraps around; the result is unbounded, a 32-bit time_t is not modelled.
- AtTokenizer.Cursor.NextInt: strtol and strtoul are given by their meaning (C99, section 7.20.1.4) with a 32-bit long.
- RequestQueue.RequestQueue.OnRequest: the data of a request is an opaque token; copying and freeing it is not modelled.
- AtProtocolProofs.BlockedOnlyOnModem: is about states in which no thread can move; that the modem answers, and fairness of the scheduler, are not assumed, so no call is proved to end.
- Device I/O, poll, sockets, USB requests and the interface set-up of the drivers: reads and writes are arbitrary inputs and outputs.
- The older NCM driver in the other patch, which neither counts drops nor adjusts for the Ethernet header, and the usbnet, cdc-acm and tegra patches.
- The statistics counters other than `tx_dropped`, and the kernel's spin lock: each call of the packer is one step.
- `RIL_EVENT_QUEUE_ALL` in `enqueueRILEvent`: no caller uses it.
- The two-line path of the reader loop for +CMT, +CDS and +CBM: it passes both lines to the unsolicited handler.
- `at_open` re-initialising the context while threads wait, and calls made from the reader thread, which are refused at once.
- Completion of each request exactly once: not a property of all handlers.
- The +CGREG request beyond the line itself: what the network type queries behind it put in place of AcT, and `at_tok_nextbool`.
- `str2int`, `str2float`, the coordinate conversion, sentence parsing and the satellite tables of the GPS reader.
- The path cache of `simIOSelectPath`, the enumeration tables and the sensor library.
