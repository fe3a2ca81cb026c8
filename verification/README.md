# waynergy, modelled and verified

waynergy is a client for the Synergy and Barrier keyboard-and-mouse sharing protocol. This
Dafny project models the parts of it that hold state and logic of their own, independent of
the operating system, and proves what they keep:

- the protocol engine: the receive buffer and its packet loop, the reply buffer, the message
  dispatcher, and the two clipboards with their chunked transfers;
- the key ledger that remembers which keys are held, and the keymaps in front of it;
- the INI store that holds the configuration: scanner, printer, lookup, removal, merge;
- the option parser and the signal-safe decimal printer.

Code that works in place is modelled in place: arrays and classes whose methods are proved
against functions on values (a `View` of the object before and after), and what the program
promises is then proved about those functions. `dafny verify dfyconfig.toml` checks everything.

## The files

| file | what it holds |
|---|---|
| `basics.dfy`, `bytes.dfy` | options, octets and big-endian integers |
| `decimal.dfy` | decimal text, `atoi`, and the printers of `src/log.c` |
| `framing.dfy` | the length-prefixed frame format on octet strings |
| `ssp.dfy` | the bounds-checked reader |
| `clipboard.dfy` | one clipboard: encoding, state machine, buffer in place |
| `protocol.dfy` | the engine as a function on states |
| `messages.dfy` | message formats field by field, and what the engine makes of them |
| `branches.dfy` | what every kind of message does, by its letters, for any content |
| `reply.dfy`, `engine.dfy` | the reply buffer and the context, in place |
| `transport.dfy`, `receive.dfy` | reads of any size; the receive buffer, the packet loop, the poll loop |
| `buffering.dfy`, `streams.dfy`, `runs.dfy` | the receive buffer as a value, what whole streams come to, and runs read by read |
| `history.dfy` | all interleavings of connections, messages, local updates and failures |
| `transfer.dfy`, `relay.dfy` | a clipboard from one client to another |
| `keys.dfy`, `keymap.dfy`, `session.dfy` | the key ledger, the keymap loaders, the callbacks that join them to the engine |
| `ini_text.dfy`, `ini_lines.dfy`, `ini_store.dfy`, `ini_file.dfy`, `ini_remove.dfy`, `ini_merge.dfy`, `ini_union.dfy` | the INI store |
| `options.dfy` | the option parser |

## Main results

- However a stream is cut into reads, what the client does is determined by the stream as a
  whole: its packets are dispatched in order up to the one that disconnects, oversized ones are
  skipped, and the buffer holds exactly the incomplete rest (`Runs.WholeRun` for the run that
  `Receive.Receiver.Run` makes in place, `Streams.OutcomeOfPackets`, `Framing.FramesSplit`). Streams of bodies that fit never fill the
  buffer, so that no read of size zero is asked for (`Framing.CleanIsPrefix`,
  `Framing.CleanTail`). Without oversized packets any cut will do (`Streams.AnyCut`), because
  the first two octets of the buffer stay zero, so that a partial header never looks like a large
  one; with them, each read has to decide the header under way.
- Whatever history came before, what a client with a name of at most 1005 octets hands to its
  transport on leaving makes any other client announce exactly the texts last offered for the
  clipboards it holds, clipboard 0 before 1, in any segmentation (`Relay.Relay`,
  `Transfer.LeaveReaches`); the bound on the name is exact (`Transfer.ReachesIff`).
- In every history a clipboard is never both grabbed and in a transfer, chunk writes, END reads and
  COUT reads stay inside its allocation, and while grabbed its buffer is the encoding of the last local offer, even if
  that offer was dropped as a repeat (`History.After`, `History.GrabbedHoldsLastOffer`).
- Every octet handed to the transport belongs to a frame whose header is the length of its body
  (`Reply.ReplyBuffer.Send`, `Reply.WireDecodes`); nothing is ever left in the reply buffer
  between messages exactly when the client name has at most 1005 octets (`History.DraftEmptyIff`).
- Every kind of message has its whole effect stated by the letters it starts with, for any length
  and content: the new state, the replies in order, and the announcements (`Branches`).
- After the screen has been left no key is held at the backend, whatever was announced before
  (`Session.NoKeyHeldAfterLeave`, `Session.Deliver`).
- Every kind of line of an INI text adds to the store what it says, wherever it stands (`IniLines`).
- A key announced by the server reaches the backend as the code the configuration maps it to, and
  no other (`Session.KeyReaches`, `Keymap.ConfiguredIs`).
- Saving and loading an INI store keeps section names and, per section, the properties in order,
  for any number of properties exactly when no value is empty or edged with blanks (`IniText.LoadInvertsPrint`, `IniFile.Load`, `IniFile.Save`); merging is a right-biased union of
  lookups (`IniUnion.MergeIsRightBiasedUnion`); removal conserves all other properties
  (`IniRemove.SectionRemove`).

## Where the code and the expectation differ

The model follows the code. Each point names the lemmas that give the exact condition or an input.

- The check that keeps clipboard data from being offered back to where it came from
  (src/uSynergy.c:866-894) steps from header to header without skipping the data between them, and
  stops at the recorded length, which receiving does not raise. What it answers over any buffer is
  `Clipboard.HoldsIff`, and after any transfer `Transfer.FeedbackDroppedIff`. The data of the first
  format is recognised once the same clipboard has taken a local update
  (`Transfer.FirstEntryDropped`, `Transfer.LengthIffOffered`); that of a later one need not be
  (`Transfer.SecondEntryGrabbed`).
- The comparison in that check is not kept inside the allocation. It leaves it exactly when a header
  the search reaches announces as many octets as are offered and less is allocated behind it
  (`Clipboard.StaysInsideIff`), which can happen (`Transfer.OfferOverruns`), but not while the
  clipboard is grabbed (`History.GrabbedStaysInside`).
- A body of 65532 to 65535 octets fits neither the buffer nor the test for oversized packets: the
  buffer fills up, a read of size zero fails, and the connection is given up. A stream is followed
  to its end exactly when there is no such body in it (`Streams.FollowedIff`,
  `Streams.OutcomeOfPackets`).
- When a read leaves one to three octets of a header, the length field is completed by octets of
  earlier packets. If that makes it larger than the buffer, disposal starts at once, and alignment
  is lost unless those octets are the ones still to come (`Runs.AlignedIff`,
  `Buffering.SplitHeaderFails`, `Runs.SplitHeaderReached`, `Runs.StaleReached`). It cannot happen if the read left at least four octets in the
  buffer, or the octets not yet there are zero, and the header octets present do not exceed the
  buffer size (`Buffering.DisposalIff`). The zeros are there at the start and after every update
  without a disposal.
- A client name of more than 1005 octets makes the greeting fail, and its first 15 octets go out
  in front of the next reply (`History.DraftEmptyIff`); if that is the start of a transfer, the
  transfer is lost (`Transfer.ReachesIff`).
- No way of losing the connection lets go of held keys (`Session.LosingKeepsKeys`).
- A connection that is lost other than by a closing message leaves octets in the receive buffer, the
  packet that lost it included. The next stream is aligned behind them exactly when they are whole
  frames, which are then dispatched again (`Receive.Receiver.EatPacket`, `Framing.CarriesOverIff`).
- An INI line with nothing but blanks behind its equals sign gets all the rest of the text for its
  value, and that text is scanned as well (`IniLines.EmptyValueRead`); a line that starts with the
  equals sign, and empty brackets, get it for their name (`IniLines.EmptyNameRead`,
  `IniLines.EmptyBrackets`).
- INI values that are empty or have a blank at either end do not survive saving and loading
  (`IniText.ValueRoundTripIff`).
- `ini_find_property` runs over the capacity of the array. After a removal it can find the copy
  that stays behind the last property, exactly when no property left matches and the one that was
  last does (`IniRemove.StaleFoundIff`, `IniRemove.RemovedStillFound`, `IniStore.SlackHarmlessIff`).
  What the program reads from its configuration is not affected (`IniUnion.TryRead`).
- `ini_cat` searches by prefix: a name that starts another one takes over that one's value instead
  of being added (`IniUnion.PutPropertyValue`, `IniUnion.PrefixTakesPlace`), and so for sections
  (`IniUnion.PutSectionIff`, `IniUnion.PrefixSectionTaken`).
- A keymap value of -1, compared as an unsigned number, starts the length of the press table over;
  the table grows again on use (`Keymap.LoadRaw`).

## Model

| member | source | states |
|---|---|---|
| Bytes.StoreU32 | src/uSynergy.c:898-905 | the four shifted assignments put exactly the big-endian octets of the value at the place and leave every other octet alone |
| Bytes.ShiftedValue | src/uSynergy.c:49-56 | shifting and or-ing four octets gives the number they denote as a big-endian string |
| Bytes.BeValueOfOctets | src/uSynergy.c:115-126 | reading back n big-endian octets gives the value, if it fits n octets |
| Bytes.OctetsOfBeValue | src/ssp.c:15-35 | writing back the number read gives the same octets |
| Decimal.PrintU32 | src/log.c:162-179 | the buffer holds the decimal text of the number and its terminator at the given offset, nothing before the offset or after the eleven octets is written |
| Decimal.PrintI32 | src/log.c:180-193 | signed numbers, the least one included, are printed inside the twelve-octet buffer although the magnitude starts at offset 1 |
| Decimal.DecDenotes | src/log.c:162-179 | the printed text has no leading zero and denotes the number |
| Decimal.DecUnique | src/log.c:162-179 | a digit string without leading zero is the printed text of the number it denotes: the text is unique |
| Decimal.DecLength | src/log.c:161-173 | a 32-bit number has at most ten digits |
| Decimal.AtoiDec | src/uSynergy.c:627-630 | atoi reads back what the START message of a transfer prints |
| Decimal.AtoiText | src/uSynergy.c:627-630 | atoi skips blanks, takes one sign, and stops at the first character that is no digit |
| Decimal.SignedReadsBack | src/log.c:180-193 | the text of a signed number but the least one reads back as the number |
| Decimal.LeastNumber | src/log.c:180-193 | of the least number the name of its constant is printed instead |
| Framing.FramesSplit | src/uSynergy.c:758-783 | cutting a stream anywhere and carrying the incomplete rest over yields the frames, and the rest, of the whole stream |
| Framing.FramesPartition | src/uSynergy.c:758-783 | the frames taken out of a stream and its rest, framed again, are the stream |
| Framing.FramesOfFrameAll | src/uSynergy.c:146-164 | a framed list of bodies decodes to exactly that list |
| Framing.CleanIsPrefix | src/uSynergy.c:758-783 | the streams whose headers all fit the buffer are exactly the prefixes of framed bodies of at most 65531 octets |
| Framing.CleanTail | src/uSynergy.c:725-728 | the rest of such a stream leaves room for at least one more octet, so no read of size zero is asked for |
| Framing.ShortHeader | src/uSynergy.c:761-763 | a length fits the buffer size just when its first two octets are zero |
| Framing.HeadersSplit | src/uSynergy.c:758-783 | a bound on the lengths announced in a stream is a bound for both parts of any cut |
| Framing.CarriesOverIff | src/uSynergy.c:775-777 | octets left in the buffer when a connection is lost add their own frames to any later stream and change nothing else exactly when they are whole frames |
| Ssp.SspBuf.Seek | src/ssp.c:4-14 | the cursor moves if the octets are there, and stays otherwise |
| Ssp.SspBuf.NetInt | src/ssp.c:15-35 | all n octets are read as one big-endian number, or none is and the cursor stays |
| Ssp.SspBuf.MemMove | src/ssp.c:36-46 | the next n octets are copied to the place given and nothing else changes, or nothing changes at all |
| Clipboard.ReadAllInvertsEncode | src/uSynergy.c:641-672 | reading a buffer succeeds with exactly these (format, data) entries, in order, just when the buffer starts with their encoding |
| Clipboard.EncodeTextIsEncode | src/uSynergy.c:920-926 | the buffer of a local update is the one-entry case of the multi-format encoding |
| Clipboard.Start | src/uSynergy.c:623-633 | a transfer starts at position 0 within an allocation that holds the announced total, and the clipboard is no longer grabbed |
| Clipboard.Chunk | src/uSynergy.c:634-640 | a chunk that does not overrun the total keeps position, total and allocation in order |
| Clipboard.Grab | src/uSynergy.c:907-926 | a local update leaves the encoding of the data at the start of the buffer, inside the allocation, grabbed and in no transfer |
| Clipboard.HoldsTextIff | src/uSynergy.c:866-894 | over a buffer that starts with one encoded text the repeat check stays inside the allocation and says yes just for that text, when no transfer runs and the recorded length covers a header |
| Clipboard.HoldsIff | src/uSynergy.c:866-894 | over any buffer the repeat check says yes exactly when a header it steps to, every eight octets from the first within the recorded length, announces the length of the data and is followed by it |
| Clipboard.StaysInsideIff | src/uSynergy.c:885-890 | the comparisons of the repeat check leave the allocation exactly when a header it reaches announces the length of the data and less is allocated behind it |
| Clipboard.FirstEntryFound | src/uSynergy.c:866-894 | over a buffer that starts with any encoded entries, the data of the first one is recognised |
| Clipboard.ReadItemsStops | src/uSynergy.c:651-670 | when less is encoded than the count says, the entries before the first that does not fit are kept, and reading fails |
| Clipboard.ReadEntry | src/uSynergy.c:653-669 | one round of the format loop yields the entry at the cursor and moves past it, or reports that it does not fit |
| Clipboard.ReadEntries | src/uSynergy.c:651-670 | the format loop yields the entries up to the first that does not parse, and says whether it got through |
| Clipboard.Slot.Resize | src/uSynergy.c:631-633 | the common part of the buffer survives the reallocation, the rest is arbitrary |
| Clipboard.Slot.StartStream | src/uSynergy.c:623-633 | the fields and the buffer become those of a started transfer |
| Clipboard.Slot.TakeChunk | src/uSynergy.c:634-640 | the announced octets of the message are stored at the position, or the chunk is refused and nothing changes |
| Clipboard.Slot.EndStream | src/uSynergy.c:641-672 | the entries of the reassembled octets are announced, and the transfer is over just when all of them parsed |
| Clipboard.Slot.Contains | src/uSynergy.c:866-894 | the search over format headers, as it steps through the buffer, with comparisons that may leave the allocation and find whatever memory holds there |
| Clipboard.Slot.Compare | src/uSynergy.c:888 | the comparison agrees with the octets of the buffer and, past the allocation, of memory |
| Clipboard.Slot.TakeLocal | src/uSynergy.c:913-926 | the fields and the buffer become those of a grabbed clipboard that encodes the data; a buffer long enough is reused |
| Protocol.Process | src/uSynergy.c:320-711 | every message with defined behaviour keeps the engine state sound: reply cursor, sequence number and both clipboards (what each kind does is stated in `Branches`) |
| Protocol.Release | src/uSynergy.c:420-425 | the clipboard is no longer grabbed afterwards, the other one and all announcements are as before |
| Protocol.OnLeave | src/uSynergy.c:414-431 | after leaving the screen neither clipboard is grabbed, and the recorded lengths are unchanged |
| Protocol.Branch | src/uSynergy.c:398-711 | no branch leaves octets in the reply buffer if there were none before |
| Protocol.Greet | src/uSynergy.c:326-360 | whether or not the greeting fits or can be sent, the state stays sound |
| Protocol.TagIsNoWelcome | src/uSynergy.c:297-314 | a tag that starts with another letter than the greetings is not taken for one |
| Protocol.ChunkStep | src/uSynergy.c:268-280 | the chunks from any position are the next chunk followed by those from its end |
| Protocol.DispatchSplit | src/uSynergy.c:758-783 | dispatching a list of messages is dispatching its parts one after the other |
| Protocol.Offer | src/uSynergy.c:907-934 | a local update keeps the state sound, accepted or not |
| Protocol.UpdateRes | src/uSynergy.c:937-957 | a change of size keeps the state sound |
| Messages.KeyTold | src/uSynergy.c:496-507 | a key message built from its documented format is announced with its identifier, modifiers and key in their places and answered with CNOP; nothing else changes |
| Messages.RepeatTold | src/uSynergy.c:508-522 | so is a repeat, whose count is skipped |
| Messages.EnterTold | src/uSynergy.c:398-413 | an enter message sets the sequence number it carries, captures the screen, and is announced and answered |
| Messages.OwedFields | src/uSynergy.c:239-290 | every message sent for a clipboard carries the clipboard's number, the current sequence number and the true length of its payload |
| Messages.GrabPassesOn | src/uSynergy.c:582-598 | what an accepted local update announces makes another client let go of that clipboard and of nothing else |
| Messages.GreetingAnswered | src/uSynergy.c:326-360 | a greeting of either implementation is answered with the same word, version 1.6 and the length-prefixed client name |
| Messages.InfoFields | src/uSynergy.c:366-385 | a size report carries width and height third and fourth, and zeros elsewhere |
| Branches.InfoQueried | src/uSynergy.c:366-385 | a size query, by its letters, is answered with the 18 octets of "DINF": width at offset 8, height at 10, zeros elsewhere; the whole new state is given |
| Branches.ResizeTold | src/uSynergy.c:937-957 | a change of size is kept, and reported by the same message exactly if there is a connection |
| Branches.InfoAcknowledged | src/uSynergy.c:386-391 | "CIAK" says that the size is known, and changes nothing else |
| Branches.OptionsReset | src/uSynergy.c:392-397 | "CROP" changes nothing and is not answered |
| Branches.KeepAlive | src/uSynergy.c:571-581 | a keepalive is answered by two replies, the same four letters and then "CNOP", in that order |
| Branches.ConnectionClosed | src/uSynergy.c:674-688 | "CBYE", "EBAD" and "EBSY" disconnect with no error, a protocol error and a busy server in that order; every field after each is given, and no reply goes out |
| Branches.ReadFailed | src/uSynergy.c:728-738 | a failed read resets the same fields, with a timeout as the error |
| Branches.NothingAfterClosing | src/uSynergy.c:766-783 | what stands behind a closing message in the same buffer is not processed |
| Branches.Entered | src/uSynergy.c:398-413 | an enter message of at least 12 octets sets sequence number and capture, is announced and answered; a shorter one changes nothing |
| Branches.Left | src/uSynergy.c:414-431 | a leave message sends what is owed for clipboard 0, then 1, then the acknowledgement, lets both go and announces that the screen is left; nothing else changes |
| Branches.KeyTaken | src/uSynergy.c:496-534 | "DKDN" and "DKUP" of any content: identifier, modifiers and key are read in that order, and the key or the identifier is announced as configured; a short message changes nothing |
| Branches.RepeatTaken | src/uSynergy.c:508-522 | the same of "DKRP", whose key stands behind the count |
| Branches.PlainTaken | src/uSynergy.c:432-570 | each other message with fields needs as many octets as its format says, and is then answered; with fewer it changes nothing |
| Branches.UnknownIgnored | src/uSynergy.c:689-706 | a message that starts with none of the known identifiers changes nothing and is not answered |
| Branches.ShortGreetingIgnored | src/uSynergy.c:326-339 | a greeting without its two version numbers changes nothing |
| Branches.GrabTaken | src/uSynergy.c:582-598 | "CCLP" of any content: the flag of the clipboard it numbers falls, nothing else does |
| Branches.OfferTaken | src/uSynergy.c:907-934 | a local update that is no repeat fills the clipboard and announces its number and the sequence number; a repeat changes nothing |
| Branches.ShortDataIgnored | src/uSynergy.c:599-622 | clipboard data without its whole header changes nothing |
| Branches.StartTaken | src/uSynergy.c:623-633 | mark 1 starts a transfer for the number its text stands for; buffer, position, total and flags after it are given |
| Branches.ChunkTaken | src/uSynergy.c:634-640 | mark 2 moves the position by the announced length and stores the octets there, none if fewer came than announced; what would overrun the total changes nothing and is not answered |
| Branches.EndTaken | src/uSynergy.c:641-672 | mark 3 announces the entries of the octets received up to the first that does not parse; if all do, the transfer ends and is acknowledged, and else it goes on without an answer |
| Branches.StrayDataIgnored | src/uSynergy.c:634-672 | data outside a transfer, and any other mark, is only acknowledged |
| Branches.TransferEnds | src/uSynergy.c:239-290 | a transfer is one START with the decimal total, one chunk of 995 octets after another, and one END |
| Reply.ReplyBuffer.AddBytes | src/uSynergy.c:64-81 | octets are appended behind those added before if they fit the buffer, and else nothing is |
| Reply.ReplyBuffer.AddUInt8 | src/uSynergy.c:86-93 | one octet is appended if it fits |
| Reply.ReplyBuffer.AddUInt16 | src/uSynergy.c:99-109 | two big-endian octets are appended if they fit |
| Reply.ReplyBuffer.AddUInt32 | src/uSynergy.c:115-127 | four big-endian octets are appended if they fit |
| Reply.ReplyBuffer.AddHello | src/uSynergy.c:340-346 | only the client name of a greeting can fail to fit |
| Reply.ReplyBuffer.Send | src/uSynergy.c:146-164 | the transport gets one frame with the added octets as body, and the cursor is back behind the header |
| Reply.ReplyBuffer.SendChunks | src/uSynergy.c:268-280 | the chunk loop sends exactly the chunk messages of the text |
| Reply.ReplyBuffer.SendClipboard | src/uSynergy.c:239-290 | start, chunks and end are sent for the text, no construction error is taken, and nothing is left in the buffer |
| Reply.WireDecodes | src/uSynergy.c:146-164 | the octets handed to the transport decode to the replies intended, in order, with nothing left over |
| Transport.Socket.Receive | src/net.c:254-272 | a read stores a prefix of what is still to come, of a size it does not let the caller choose; a read of nothing is a failure |
| Engine.Context.constructor | src/uSynergy.c:824-831 | the engine starts unconnected, with empty buffers |
| Engine.Context.SetDisconnected | src/uSynergy.c:132-141 | a disconnect empties the receive and reply buffers and resets connection, capture and sequence number |
| Engine.Context.IsWelcome | src/uSynergy.c:302-314 | the first of the two greetings that stands at the start is found, and the cursor moves past it |
| Engine.Context.OnWelcome | src/uSynergy.c:326-360 | the greeting branch does what the model of it says; when the reply cannot be sent only the connection flag falls |
| Engine.Context.OnEnter | src/uSynergy.c:398-413 | the enter branch in place |
| Engine.Context.OnLeave | src/uSynergy.c:414-431 | the leave branch in place: clipboards are sent in order of their number before the announcement |
| Engine.Context.OnKey | src/uSynergy.c:496-534 | key press and release in place |
| Engine.Context.OnKeyRepeat | src/uSynergy.c:508-522 | key repeat in place |
| Engine.Context.OnClipGrab | src/uSynergy.c:582-598 | the grab branch in place: only the named clipboard's flag falls |
| Engine.Context.OnClipData | src/uSynergy.c:599-673 | the clipboard data branch in place, with the buffers it may reallocate |
| Engine.Context.ProcessMessage | src/uSynergy.c:320-711 | the whole dispatcher in place; the receive offset is reset just by the closing messages |
| Engine.Context.UpdateClipBuf | src/uSynergy.c:907-934 | the local update in place: a repeat changes nothing, anything else fills the buffer and announces the grab |
| Engine.Context.Resize | src/uSynergy.c:937-957 | the size report in place |
| Receive.Receiver.PeekLength | src/uSynergy.c:761-763 | the length read is that of the packet at the front if it is complete, and the comparison with the octets received tells just that, stale octets or not |
| Receive.Receiver.DropPacket | src/uSynergy.c:780-782 | what follows the first packet moves to the front and every octet behind it stays where it is |
| Receive.Receiver.EatPacket | src/uSynergy.c:766-782 | one packet is dispatched and dropped; if it loses the connection, the buffer stays as it is, and counts as empty only after a closing message |
| Receive.Receiver.EatPackets | src/uSynergy.c:758-783 | the packet loop dispatches exactly the complete frames in the buffer, in order, up to a disconnecting one; the whole buffer it leaves, stale octets included, and the length then believed in are stated |
| Receive.Receiver.DiscardOversized | src/uSynergy.c:785-811 | disposal takes exactly the octets of the announced length still missing, read by read, and leaves the buffer as those reads do, or ends in a timeout when one brings nothing |
| Receive.Receiver.Read | src/uSynergy.c:725-738 | what a read delivers is appended to the received octets and nothing else in the buffer changes |
| Receive.Receiver.UpdateContext | src/uSynergy.c:722-812 | one update after any read leaves state, buffer and transport as the update on values says: complete packets dispatched, and a disposal started exactly when the length field, stale octets included, exceeds the buffer size |
| Receive.Receiver.Run | src/uSynergy.c:722-812 | polling over any reads, also ones that bring nothing or leave a header undecided, ends as the run on values does |
| Runs.WholeRun | src/uSynergy.c:722-812 | if the reads decide every header, a run comes to the outcome of the stream as a whole, however it is cut, and leaves the incomplete packet in the buffer |
| Runs.FollowedStep | src/uSynergy.c:722-812 | one update of such a run leaves the outcome of the rest of the stream what it was |
| Runs.UpdateRemaining | src/uSynergy.c:722-812 | what is still to come of a stream after an update that keeps the connection |
| Runs.NothingRead | src/uSynergy.c:728-738 | a read that brings nothing costs the connection with a timeout |
| Runs.DisposalEager | src/uSynergy.c:785-811 | disposal succeeds exactly when the missing octets come, in a stated number of reads |
| Runs.AlignedIff | src/uSynergy.c:758-811 | when a read leaves one to three octets of a header, the client stays aligned with the stream exactly when no disposal starts or the stale octets are the header octets still to come |
| Buffering.SplitHeaderIff | src/uSynergy.c:758-811 | the same about the buffer as a value: what remains of the stream starts at the packet under way, or right behind it, exactly then |
| Buffering.DisposalIff | src/uSynergy.c:761-786 | if the read left at least four octets in the buffer, or the missing header octets read as zero, a disposal starts exactly when the header octets present already exceed the buffer size |
| Buffering.SplitHeaderFails | src/uSynergy.c:758-811 | two inputs at which alignment is lost: an oversized packet whose header is split over stale octets, and an ordinary one behind a stale octet that is not zero |
| Runs.SplitHeaderReached | src/uSynergy.c:722-812 | the first of these inputs comes about in two reads: a one-octet packet, then half a header |
| Runs.StaleReached | src/uSynergy.c:785-811 | the second comes about in a disposal and a read of one octet after it |
| Buffering.SettledTail | src/uSynergy.c:780-782 | after the packet loop the incomplete packet stands at the front of the buffer |
| Runs.HeaderDecides | src/uSynergy.c:761-786 | after a read that decides the header under way, a length that starts a disposal is the packet's own, and otherwise the first two octets of the buffer are zero again |
| Streams.OutcomeStep | src/uSynergy.c:722-812 | dispatching the first part of a stream and going on with its rest comes to the same as the whole |
| Streams.OutcomeOfClean | src/uSynergy.c:722-812 | if all bodies have at most 65531 octets, the outcome is that of dispatching the complete frames |
| Streams.OutcomeSkips | src/uSynergy.c:785-811 | an oversized packet whose header is there is skipped to its last octet, or ends the connection if the stream ends before it does |
| Streams.OutcomeOfPackets | src/uSynergy.c:722-812 | any stream of packets comes to the dispatch of the fitting ones in order, oversized ones skipped, up to the first that blocks the buffer, which costs the connection |
| Streams.AnyCut | src/uSynergy.c:722-812 | without oversized packets every segmentation meets the condition that runs ask of their reads |
| Streams.OutcomeStuck | src/uSynergy.c:725-734 | a full buffer without a whole frame ends in a timeout whatever follows |
| Streams.FollowedIff | src/uSynergy.c:761-786 | a stream of packets is followed to its end exactly when none has a body of 65532 to 65535 octets, which fits neither beside its header nor the test for oversized packets |
| History.After | src/uSynergy.c:824-957 | in every history both clipboards are sound: never grabbed and in a transfer at once, every chunk write, END read and COUT read inside the allocation |
| History.ProcessKeepsGrab | src/uSynergy.c:398-673 | a message never grabs a clipboard, never touches a grabbed one except to let it go, and never changes the recorded length |
| History.GrabbedHoldsLastOffer | src/uSynergy.c:866-934 | while grabbed, a clipboard's buffer is exactly the encoding of the data last offered locally, even if that offer was dropped as a repeat |
| History.GrabbedStaysInside | src/uSynergy.c:885-890 | while a clipboard is grabbed, the repeat check stays inside its allocation |
| History.DraftStaysEmpty | src/uSynergy.c:146-164 | with a name of at most 1005 octets the reply cursor is back at offset 4 between messages in every history |
| History.DraftEmptyIff | src/uSynergy.c:340-346 | that bound is exact |
| Transfer.DclpShape | src/uSynergy.c:257-263 | where the fields of a clipboard message stand |
| Transfer.ChunksArrive | src/uSynergy.c:634-640 | the chunk messages of a text put it into the receiver's buffer, octet for octet, without an announcement |
| Transfer.TransferArrives | src/uSynergy.c:599-673 | the messages that carry a text make any connected receiver announce exactly the entries it encodes, and nothing else, and leave the other clipboard alone |
| Transfer.LeaveSendsOwed | src/uSynergy.c:414-431 | leaving sends what is owed for clipboard 0, then 1, then the acknowledgement, and lets both go |
| Transfer.TransferFrames | src/uSynergy.c:239-290 | the frames of a transfer decode to its messages, and every one fits a reply buffer |
| Transfer.OwedArrives | src/uSynergy.c:239-290 | what a client owes for one clipboard makes any connected client announce once the text last offered to the first, or nothing if it does not hold it |
| Transfer.LeaveReaches | src/uSynergy.c:414-431 | after any history, everything the client hands to its transport on leaving, acknowledgement included, makes a connected client announce exactly the texts last offered for the clipboards held, 0 before 1 |
| Transfer.ReachesIff | src/uSynergy.c:340-346 | that holds for all histories and receivers exactly when the client name has at most 1005 octets |
| Transfer.LeaveFrames | src/uSynergy.c:146-164 | the octets of a leave decode to its messages with nothing left over |
| Transfer.FeedbackDroppedIff | src/uSynergy.c:909-912 | after a transfer of any number of formats, all announced, offered data is dropped exactly when a header of the search within the recorded length announces its length and is followed by it |
| Transfer.FirstEntryDropped | src/uSynergy.c:907-912 | in particular the data of the first format is dropped if this clipboard has taken a local update before |
| Transfer.TextDroppedIff | src/uSynergy.c:907-912 | after a transfer of one text only that text is dropped, and only then |
| Transfer.SecondEntryGrabbed | src/uSynergy.c:881-891 | an input at which it is not: a text that is the second of two formats is announced and grabbed again |
| Transfer.OfferOverruns | src/uSynergy.c:885-890 | an input at which the repeat check reads past the allocation |
| Transfer.LengthIffOffered | src/uSynergy.c:913-919 | the recorded length covers a header just when something was offered locally before |
| Relay.Deliver | src/uSynergy.c:722-812 | what a client sends on leaving, fed in any pieces to a second client's receive buffer, makes its callback fire once for each clipboard held, with the text last offered, and leaves nothing behind |
| Relay.Leave | src/uSynergy.c:414-431 | processing a leave message in place puts exactly those frames on the wire |
| Relay.Relay | src/uSynergy.c:239-290 | both in sequence, on two clients in place |
| Keys.RawKeepsBalance | src/wl_input.c:201-234 | every key's count stays equal to its presses less its releases, never negative at any time, also when the table grows |
| Keys.PressRelease | src/wl_input.c:201-234 | a release undoes a press: both reach the backend and every count is as before |
| Keys.ReleaseAllFrees | src/wl_input.c:261-270 | after releasing all, every count is zero and the backend holds no key |
| Keys.KeyInput.KeyRaw | src/wl_input.c:201-234 | the table is grown with zeros, a superfluous release is dropped, anything else is counted and passed on |
| Keys.PressEmits | src/wl_input.c:237-259 | a press reaches the backend as the code the identifier table holds, if the identifier is valid, and else as the one the raw table holds |
| Keys.PressDrops | src/wl_input.c:237-259 | outside both tables, or for a code of -1, nothing reaches the backend and no count changes |
| Keys.KeyInput.Key | src/wl_input.c:237-259 | the key code is the valid identifier entry, else the raw entry, else nothing; -1 is dropped |
| Keys.KeyInput.ReleaseKey | src/wl_input.c:265-268 | the inner loop ends and emits exactly as many releases as presses are outstanding |
| Keys.KeyInput.ReleaseAllKeys | src/wl_input.c:261-270 | exactly the outstanding releases are emitted, key by key, and every count is zero after |
| Keymap.TableCovers | src/wl_input.c:72-88 | the first pass sizes the table so that every key that parses is inside it |
| Keymap.LoadRaw | src/wl_input.c:61-118 | the raw table holds key plus offset for unmapped keys and the last value given, shifted or not as configured, for the others |
| Keymap.LoadIds | src/wl_input.c:120-175 | the identifier table holds the last value given and is valid just where one was given |
| Keymap.EntryIs | src/wl_input.c:90-112 | the entry of a key is the value of the last readable setting for it, with the offset if values are offset too, and the key plus the offset if there is no such setting |
| Keymap.TableExact | src/wl_input.c:72-88 | the table is no longer than the keyboard or the greatest key set needs |
| Keymap.PressLengthIs | src/wl_input.c:112-115 | without a value of -1 the press table covers every value given and is no longer than its start or the greatest value needs; a last value of -1 starts it over |
| Keymap.ConfiguredIs | src/wl_input.c:237-259 | which code a key and an identifier come to, from the settings alone |
| Keymap.TablesRefineSettings | src/wl_input.c:237-259 | looking keys up in the loaded tables gives what the settings say, for every key and identifier |
| Keymap.SetLayout | src/wl_input.c:177-199 | a configured layout starts with nothing held and answers every key and identifier as its settings say, for any offset |
| Session.FeedAllBalanced | src/main.c:69-73 | whatever is announced, the ledger stays balanced |
| Session.LeaveFreesKeys | src/uSynergy.c:414-431 | a leave message dispatched in any state leaves every count zero and no key held at the backend |
| Session.NoKeyHeldAfterLeave | src/main.c:123-131 | after a leave message is dispatched in any history, no key is held at the backend |
| Session.RepeatIgnored | src/main.c:69-73 | key repeats, whole or cut short, never change the ledger |
| Session.PressThenRelease | src/main.c:69-73 | a press and a release of the same key and identifier leave every count as it was, and the backend sees the pair for the mapped code, or nothing if there is none |
| Session.KeyReaches | src/main.c:69-73 | a key message comes to a stroke of the mapped code at the backend, pressed or released as its letters say |
| Session.OthersKeepKeys | src/main.c:69-73 | no other announcement moves a key |
| Session.LosingKeepsKeys | src/uSynergy.c:132-141 | no step that loses the connection, be it a closing message, a greeting that cannot be answered, a failed read or the network, releases a key |
| Session.ClosingLoses | src/uSynergy.c:674-688 | each of the three closing messages loses the connection |
| Session.Deliver | src/main.c:69-73 | the callbacks, run one by one over the key tables in place, come to the ledger computed from the announcements |
| IniText.LoadInvertsPrint | include/ini.h:500-643 | loading the saved text of a well-formed store gives the same section names in order and in each section the same properties in order |
| IniText.ValueRoundTripIff | include/ini.h:551-564 | a store with proper names and one-line values, of any size, survives saving and loading exactly when no value is empty or has a blank at either end |
| IniText.LoadedShape | include/ini.h:500-570 | any text loads to a store whose first section is the global one, with named sections and properties and no property outside the sections |
| IniLines.BlanksSkipped | include/ini.h:518-523 | blanks between items add nothing, wherever they stand |
| IniLines.CommentSkipped | include/ini.h:525-529 | a line that starts with a semicolon adds nothing, whatever it holds |
| IniLines.WordsSkipped | include/ini.h:545-551 | nor does a line without an equals sign |
| IniLines.SectionOpened | include/ini.h:531-543 | a name in brackets opens a section of exactly that name, and what follows on its line is read on its own |
| IniLines.OpenBracketSkipped | include/ini.h:531-543 | a bracket that is not closed on its line adds nothing |
| IniLines.PropertyRead | include/ini.h:545-565 | name, equals sign, blanks, value and blanks add a property of that name and that value to the current section, the name with any blanks before the equals sign |
| IniLines.EmptyValueRead | include/ini.h:551-564 | an equals sign with only blanks behind it gives a property whose value is all the rest of the text, which is then scanned as well |
| IniLines.EmptyNameRead | include/ini.h:545-564 | a line that starts with the equals sign gives a property whose name is all the rest of the text |
| IniLines.EmptyBrackets | include/ini.h:531-543 | empty brackets open a section named by all the rest of the text |
| IniLines.PrintedExample | include/ini.h:573-643 | the saved text of small stores, character by character |
| IniStore.Store.constructor | include/ini.h:482-497 | a new store has the global section and nothing else |
| IniStore.Store.SectionAdd | include/ini.h:777-810 | the name is appended and its index returned, also when the array has to double |
| IniStore.Store.PropertyAdd | include/ini.h:813-863 | the property is appended, also when the array has to double; a section that does not exist gets nothing |
| IniStore.Store.CountProperties | include/ini.h:682-698 | the number of slots of the section |
| IniStore.Store.PropertyIndex | include/ini.h:460-479 | the slot of a section's n-th property, or not found |
| IniStore.SlotsExact | include/ini.h:460-479 | numbers and slots of a section's properties correspond one to one and in order |
| IniStore.Store.SectionFind | include/ini.h:731-748 | the first section whose name starts with the query, ignoring case |
| IniStore.Store.PropertyFind | include/ini.h:751-774 | the search over the whole capacity |
| IniStore.MatchesIff | include/ini.h:731-774 | a query matches a name exactly when the name starts with it up to the case of the letters A to Z, and characters that differ otherwise do not match |
| IniStore.FindSectionFolds | include/ini.h:731-748 | changing the case of letters in the query or in the section names changes no search |
| IniStore.FindPropertyFolds | include/ini.h:751-774 | nor in the property names |
| IniStore.FindPropertyFirst | include/ini.h:751-774 | the number found is that of the first match of the section, and not found means there is none |
| IniStore.SlackHarmlessIff | include/ini.h:760-772 | looking past the slots in use makes no difference just when one of them matches or no slot past them does |
| IniStore.FoundIffHit | include/ini.h:751-774 | something is found exactly when a property of the section has a name that starts with the query, ignoring case |
| IniStore.StaleNumber | include/ini.h:760-772 | when a stale slot is found, the number given is one no live property of the section has |
| IniStore.SlackHarmless | include/ini.h:760-772 | zeroed slack is never found by a query that is not empty |
| IniFile.ReadSection | include/ini.h:531-543 | the section branch of the loader finds the name up to the closing bracket, or skips the line |
| IniFile.ReadEntry | include/ini.h:545-565 | the property branch of the loader, with the trimming that runs back from the end of the line |
| IniFile.Load | include/ini.h:500-570 | the loader builds the store its text denotes |
| IniFile.Save | include/ini.h:573-643 | the size returned is that of the whole text whatever the buffer, and what is written is exactly the prefix of the text that fits |
| IniRemove.SectionRemove | include/ini.h:866-891 | exactly the section's properties go; the multiset of (section name, name, value) of all others is conserved, and all section numbers stay in range |
| IniRemove.FillingConserves | include/ini.h:873-881 | moving the last slot into the hole loses and doubles nothing |
| IniRemove.RenumberedKeepsNames | include/ini.h:883-889 | renumbering keeps every property with its section's name |
| IniRemove.PropertyRemove | include/ini.h:894-909 | only the slot of that number goes, the last slot takes its place, and its old slot past the ones in use keeps a copy |
| IniRemove.StaleFoundIff | include/ini.h:894-909 | a lookup after a first removal differs from one among the properties left exactly when none of these matches and the one that was last does |
| IniRemove.RemovedStillFound | include/ini.h:894-909 | a store at which it happens: its only property is removed and still found |
| IniMerge.ValueSet | include/ini.h:964-990 | only that property's value changes, and none if there is no such property |
| IniMerge.PutPropertySoundIff | include/ini.h:964-990 | a step of the merge is one the store can carry out exactly when it adds, or when there is room and no long value is replaced by a short one |
| IniMerge.Cat | src/config.c:215-233 | the nested loops of the merge in place, as long as every replacement is one the store can carry out |
| IniMerge.MergeFits | src/config.c:215-233 | room in the array and values under 63 characters make every replacement one the store can carry out |
| IniUnion.MergeIsRightBiasedUnion | src/config.c:215-233 | with prefix-free names, every lookup after a merge gives the source's last value if it has one, and else the old one |
| IniUnion.PutPropertyValue | src/config.c:224-231 | one step and any query, without conditions on the names: which queries see the new value, and that no other changes |
| IniUnion.PrefixTakesPlace | src/config.c:225-230 | a name that starts another one overwrites that one's value |
| IniUnion.PutSectionIff | src/config.c:219-223 | a source section goes to one of its own name, found or added, exactly when no section of another name is the first its name starts |
| IniUnion.PrefixSectionTaken | src/config.c:219-223 | an input at which it does not: a section whose name starts another one is merged into that one |
| IniUnion.LookupExact | src/config.c:34-75 | with prefix-free names the prefix search finds exactly the name asked for |
| IniUnion.LookupIs | src/config.c:34-75 | with any names, a lookup gives the value of the first property that matches in the first section that does |
| IniUnion.ReadSplits | src/config.c:34-75 | what stands before the first slash is the section, the rest the property; without a slash the property is global |
| IniUnion.TryRead | src/config.c:34-75 | reading a setting in place gives what the live properties say, although the search runs past them |
| Options.NextAdvances | include/sopt.h:325-368 | every call that finds an option uses something up, so the caller's loop ends |
| Options.ClusterIsSeparate | include/sopt.h:348-372 | whatever words follow, a cluster means what its options mean one by one, the last one with the argument that follows |
| Options.ShortIsFirst | include/sopt.h:353-357 | the entry taken for a letter is the first with that letter, or there is none |
| Options.LongIsFirst | include/sopt.h:340-347 | the same of a long name |
| Options.ShortWord | include/sopt.h:348-380 | a dash and a letter: the first entry with that letter is found, with the next word if it takes an argument; if there is no entry, no next word or it does not convert, the option is invalid |
| Options.LongWord | include/sopt.h:340-380 | the same of a long option |
| Options.OptionsEnd | include/sopt.h:328-339 | the options end where there are no words, before a word without a dash, or behind two dashes |
| Options.LetterOfCluster | include/sopt.h:348-372 | a letter of a cluster that is not its last is found alone, or is invalid if it needs an argument; the rest of the cluster comes next either way |
| Options.LastOfCluster | include/sopt.h:358-380 | the last letter of a cluster takes its argument from the next word |
| Options.Cursor.TakeArg | include/sopt.h:368-533 | an option's argument is the next word, if there is one and it converts |
| Options.Cursor.Getopt | include/sopt.h:313-534 | the two positions move as the words and the cluster left over say, and at the end stand on the first operand |

## Left out

- Sockets, TLS, the poll loop, signals, process spawning and the clipboard helper processes (`src/net.c`, `src/sig.c`, `src/clip.c`, `src/clip-update.c`, `src/os.c`): a read delivers some octets or fails, a send succeeds or not, both chosen by an oracle.
- Wayland, KDE, uinput and xkb, idle inhibition, output tracking (`src/wayland.c`): the backend is a trace of key strokes; modifier tracking by xkb is not modelled.
- `src/mapper.c`, `include/ssb.h`, `include/fdio_full.h`, `include/xmem.h`: user interface and wrappers.
- Mouse, joystick and screen saver messages: parsed and answered, but their callbacks are not recorded, and the joystick state is not kept.
- Logging, sleeping, the idle timeout over successful reads of size zero (the transport reports such reads as failures), and the exit on errors configured as fatal.
- The callbacks are taken to be installed, as `src/main.c` installs them.
- Receive.Receiver.Run: what each read brings must have a meaning (`Runs.Meaningful`): messages of defined behaviour, and no length of 2^31 or more is believed in, beyond which the program computes with a C int out of range.
- Receive.Receiver.EatPackets: does not say what a lost connection leaves in the buffer; `Receive.Receiver.EatPacket` does, and `Receive.Receiver.Run` starts from any buffer, so that it covers the next connection too.
- Protocol.Process: messages on which the C program has no defined behaviour, or aborts, are excluded: clipboard numbers above 1; a START text that is not all there, stands for a number outside the range of int, or for a negative one, whose allocation fails.
- Clipboard.Slot.Compare: a comparison that runs past the allocation finds whatever an oracle puts there; that it may crash the program instead is not modelled.
- Protocol.Offer: data must stay below 2^31 octets with its header, the range of the C integers involved.
- Keymap.SetLayout: settings whose key is negative or whose value is below -1 are excluded: the program writes outside its table, or aborts when it allocates the press table. Parsing of numbers (`strtol`) is given as optional values, and integer widths are not modelled.
- Session.FeedAll: announced keys must not map to a code below -1, for which the press table cannot be allocated and the program aborts.
- Keys.KeyInput.KeyRaw: counts are unbounded; the program's wrap after 2^31 presses without a release.
- IniText.LoadInvertsPrint: text is 7-bit without NUL; names, values and section names as the predicate `WellFormed` says. What happens to other values is `IniText.ValueRoundTripIff`.
- IniMerge.ValueSet: inline and heap strings are not told apart in the store; a replacement that the program cannot carry out (an array exactly full, or a heap-stored value replaced by a short one, include/ini.h:975) is flagged by `sound` and excluded. `ini_property_name_set` and `ini_section_name_set` are not modelled.
- IniUnion.MergeIsRightBiasedUnion: reading the directory of INI files and choosing among them is left out.
- IniRemove.PropertyRemove: the order of the remaining properties is that of the slots, with the last one moved; no order is promised by the program.
- Options.Cursor.Getopt: conversions of arguments are a test per option; a dash alone where an option is looked for is excluded, since the program reads past its end.
