# Verified models of Legato platform components

Dafny models of seven components of the Legato application framework, with proofs about all inputs,
all runs or all reachable states. `dafny verify dfyconfig.toml` checks the whole project.

- **Binary patching** (`OffCodec`, `BsPatch`, `WindowedPatch`): the bsdiff patch loop over the whole
  old image, and the embedded variant that keeps one segment of it in a window. The window refines
  the simple loop.
- **SMS inbox** (`SmsNames`, `SmsStore`, `SmsInvariant`, `SmsRuns`, `SmsLeaks`, `SmsViews`,
  `SmsInbox`, `SmsBrowse`): message files shared by mailboxes with deferred deletion, eviction,
  restarts and browsing.
- **Tones and recordings** (`ToneGenerator`, `WavFile`): a resumable producer of tone samples, and a
  recorder that patches its header after every write.
- **HTTP client** (`HttpWire`, `HttpMachine`, `HttpClient`, `HttpAsync`): the request bytes, the
  event-driven state machine, its mutable session and the accounts of asynchronous requests.
- **Serial handshake** (`SerialPort`, `SerialLink`, `SerialSession`): two parties with retries over
  two byte lines.
- **Audio routing** (`AudioGraph`, `AudioRuns`, `AudioEffects`, `AudioPool`, `AudioService`): streams,
  connectors and paths as a graph, and the service whose pooled hash maps denote it.
- **Cellular requests** (`CellNet`): counted requests, a command queue and competing timers that
  drive the radio.

Each component has a value model with one function per operation, lemmas about that model over whole
runs, and, where the code changes state in place, classes whose methods are proved to do to their
fields exactly what the value model says, to keep its invariants, and to carry its theorems over
whole runs. What the operations of a value model do is stated a second time without them: by the
bytes before and after, by the contents of the state before and after a step, or by a simpler
machine that sees the same operations. `Basics` and `Bytes` hold shared definitions.

Where the code and a natural promise part ways, the code is followed, a concrete input shows the
difference, and an if-and-only-if says when the promise holds:

- The window refuses patches that read past the last segment of the old image
  (`SeekPastEndIsRefused`, `WindowSucceedsIff`).
- A message number from 2^31 on cannot be read back from its file name, so numbering restarts at 1
  (`LargeNumberRestarts`, `RestartKeepsInvIff`).
- A mailbox limit of zero leaks the file of an arriving message for good (`ZeroLimitLeaks`,
  `ArriveKeepsInvIff`, `StrandedForEver`).
- A limit lowered below the current length is not enforced, although the interface describes it as
  a maximum, until deletions bring the length down to the limit or the limit is raised to it
  (`LoweredLimitIsExceeded`, `BoundIff`, `AboveIff`).
- Whether a message is unread is answered with true for an identifier the mailbox does not list
  (`IsUnread`).
- A pair of streams that shares two connectors loses its path when one of them is left
  (`SharedTwiceLosesPath`, `DisconnectExactIff`).
- A tone of zero duration ends playback although pauses are still due (`ZeroDurationOwesPauses`,
  `PlayDtmf`).
- A radio that comes up after the last release was handled stays on (`LateRadioStaysOn`,
  `RadioMatchesIff`, `AttendedIff`).
- A request processed at a count of 2^32 - 1 wraps the count to zero although every request is live
  (`WrapLosesEveryRequest`, `ConservedStep`, `RequestConservation`).
- A line break in the URI, the host or a header field is copied as it stands and splits the line,
  so one value can become two header fields (`InjectedField`, `ServerReadsRequest`).
- A recording of 2^32 - 36 bytes or more has wrong sizes in its header (`SizesTrueIff`).
- A body callback that answers "unavailable" together with data ends the body, although only an
  empty chunk or the final status is documented to end it (`UnavailableCutsBody`,
  `BodyIsAnnouncedIff`).

## Model

| member | source | states |
|---|---|---|
| OffCodec.Offtin | 3rdParty/bsdiff-4.3/bspatch.c:46-62 | The accumulation loop computes the sign-magnitude little-endian number, and no intermediate value leaves the range of a 64-bit offset. |
| OffCodec.DecodeOfEncode | 3rdParty/bsdiff-4.3/bspatch.c:46-62 | Every number of magnitude below 2^63 is read back exactly from its encoding. |
| OffCodec.DecodeInRange | 3rdParty/bsdiff-4.3/bspatch.c:46-62 | Whatever the eight bytes, the number read has magnitude below 2^63. |
| OffCodec.EncodeOfDecode | 3rdParty/bsdiff-4.3/bspatch.c:46-62 | Encoding what was decoded gives the bytes back if and only if they are not the second encoding of zero. |
| OffCodec.EncodingUnique | 3rdParty/bsdiff-4.3/bspatch.c:46-62 | Two different encodings of one number exist for zero only. |
| OffCodec.DecodeValue | 3rdParty/bsdiff-4.3/bspatch.c:46-62 | The number eight bytes denote, written out: byte i counts 256^i, and the top bit of the last byte is the sign. |
| BsPatch.ControlsRoundTrip | 3rdParty/bsdiff-4.3/bspatch.c:307-322 | Every list of control triples of magnitude below 2^63, negative counts included, survives encoding and reading back through `offtin`. |
| BsPatch.SubtractOldMeans | 3rdParty/bsdiff-4.3/bspatch.c:349-352 | A produced diff byte is the new byte minus the old image byte mod 256, or the new byte outside the old image, and adding gives the new byte back. |
| BsPatch.RebuildExtends | 3rdParty/bsdiff-4.3/bspatch.c:307-410 | A patch either fails or extends what was there to exactly the announced size, so every byte is produced once. |
| BsPatch.RebuildIff | 3rdParty/bsdiff-4.3/bspatch.c:307-410 | A patch rebuilds an image if and only if it describes it byte by byte: in turn the bytes of each triple are diff byte plus old image byte mod 256 at the running old position, or the diff byte outside the old image, and then the extra bytes. |
| BsPatch.RebuildMeans | 3rdParty/bsdiff-4.3/bspatch.c:307-410 | What `Rebuild` computes is the one image of the announced size that the patch describes, and none exactly when it describes none. |
| BsPatch.KnownPatch | 3rdParty/bsdiff-4.3/bspatch.c:307-410 | A patch file of two triples with a step back and a sum that wraps, and the four bytes it makes of a two-byte image. |
| BsPatch.ReconstructFrom | 3rdParty/bsdiff-4.3/bspatch.c:307-410 | Streams that describe the new image byte by byte rebuild exactly it, also from any position in the middle of a patch. |
| BsPatch.Reconstruct | 3rdParty/bsdiff-4.3/bspatch.c:141-152 | For every old image, new image and list of non-negative add and copy lengths that covers it, the streams built as new minus old mod 256 rebuild exactly the new image from the encoded control list. |
| BsPatch.BzStream.Read | 3rdParty/bsdiff-4.3/bspatch.c:307-322 | A read delivers the next n bytes into the buffer and nothing else, or fails exactly on a negative count or a short stream. |
| BsPatch.ReadTriple | 3rdParty/bsdiff-4.3/bspatch.c:307-322 | Fails exactly with fewer than 24 control bytes left, and otherwise consumes 24 and decodes the three numbers. |
| BsPatch.AddOldInto | 3rdParty/bsdiff-4.3/bspatch.c:349-352 | Every byte of the range becomes the sum mod 256 of itself and the old image byte at its position, or stays as it is outside the old image, and no other byte changes. |
| BsPatch.ApplyTriple | 3rdParty/bsdiff-4.3/bspatch.c:324-409 | One triple succeeds exactly when its lengths fit the buffer and the streams, and then appends the added and the copied bytes. |
| BsPatch.Turn | 3rdParty/bsdiff-4.3/bspatch.c:307-410 | One turn of the loop keeps the meaning of what is left to do and consumes control bytes, or fails exactly when that meaning is failure. |
| BsPatch.PatchLoop | 3rdParty/bsdiff-4.3/bspatch.c:307-410 | The in-place loop computes `Rebuild`, and ends on every control stream although empty triples leave the position where it is. |
| BsPatch.PatchWhole | 3rdParty/bsdiff-4.3/bspatch.c:306-410 | The whole-file branch returns the one image of the announced size that the patch describes byte by byte, or fails exactly when it describes none. |
| WindowedPatch.ReachableInterval | 3rdParty/bsdiff-4.3/bspatch.c:355-369 | With truncating signed division, the positions the window can serve are an interval: less than one segment before the image up to the end of its last segment. |
| WindowedPatch.UnsignedReachableInterval | 3rdParty/bsdiff-4.3/bspatch.c:355-369 | With unsigned division, as where a position is no wider than the segment size, the interval begins at the image. |
| WindowedPatch.Window.ReadSegment | 3rdParty/bsdiff-4.3/bspatch.c:359-368 | A segment read moves the window to its offset, and a refused first read leaves it empty. |
| WindowedPatch.Window.Fetch | 3rdParty/bsdiff-4.3/bspatch.c:354-369 | After success every in-range position lies in the window and the byte there is the old image's own; over a strict reader success is exactly reachability. |
| WindowedPatch.AddOldThrough | 3rdParty/bsdiff-4.3/bspatch.c:349-375 | Every byte of the range becomes the sum mod 256 of itself and the old image byte at its position, read through the window, or stays as it is outside the old image; over a strict reader it succeeds exactly when every position is reachable. |
| WindowedPatch.ApplyTripleThrough | 3rdParty/bsdiff-4.3/bspatch.c:324-409 | One triple through the window appends the same bytes as with the whole image, calls corrupt only what is corrupt, and faults exactly when a position is out of reach. |
| WindowedPatch.TurnThrough | 3rdParty/bsdiff-4.3/bspatch.c:307-410 | One turn keeps the meaning of what is left to do for both branches. |
| WindowedPatch.PatchLoopThrough | 3rdParty/bsdiff-4.3/bspatch.c:307-410 | The loop through the window agrees with the whole-file loop whenever it succeeds or calls the patch corrupt. |
| WindowedPatch.PatchWindowed | 3rdParty/bsdiff-4.3/bspatch.c:282-410 | Window refinement: for every image, starting offset, segment size, way of rounding negative positions, honest reader and patch, success means the image the patch describes and the whole-file branch computes, and a corrupt verdict that it describes none; over a strict reader the outcome is exactly `StrictOutcome`. |
| WindowedPatch.WindowSucceedsIff | 3rdParty/bsdiff-4.3/bspatch.c:349-375 | The window succeeds if and only if the whole-file loop does and no byte is added outside the segments of the image, and then both give one image. |
| WindowedPatch.SeekPastEndIsRefused | 3rdParty/bsdiff-4.3/bspatch.c:359-367 | A patch the whole-file branch accepts and the window refuses, however it rounds: a seek past the end of the image. |
| WindowedPatch.WindowedReconstruct | 3rdParty/bsdiff-4.3/bspatch.c:282-410 | A patch that describes the new image byte by byte and whose adds stay in the segments gives that image through the window. |
| SmsNames.NamesOrdered | components/smsInboxService/smsInbox.c:479-489 | Fixed-width hexadecimal file names sort as their identifiers. |
| SmsNames.NameShape | components/smsInboxService/smsInbox.c:479-489 | A file name is eight small hexadecimal digits and the extension. |
| SmsNames.HexaToInteger | framework/liblegato/hex.c:290-328 | The digit loop gives the number in base 16 exactly when every character is a digit of either case and the number is below 2^31, and -1 otherwise. |
| SmsNames.ParsedIff | framework/liblegato/hex.c:290-328 | The same of the loop from any value read so far. |
| SmsNames.ParseDigits | framework/liblegato/hex.c:290-328 | Reading the digits of a number gives it back as long as it stays below 2^31. |
| SmsNames.NameRoundTrip | components/smsInboxService/smsInbox.c:1419-1442 | A file name gives its identifier back if and only if that is below 2^31. |
| SmsNames.LastIsLargest | components/smsInboxService/smsInbox.c:1473-1535 | The last name of the sorted directory is the file of the largest identifier. |
| SmsNames.InitSmsInBoxDirectory | components/smsInboxService/smsInbox.c:1473-1535 | Re-seeding takes one more than the largest identifier, or 1 for an empty directory or one whose largest identifier cannot be read back. |
| SmsStore.RemovalIff | components/smsInboxService/smsInbox.c:861-915 | The in-place removal loop removes every occurrence if and only if no two stand side by side. |
| SmsStore.RemovalOnIncreasing | components/smsInboxService/smsInbox.c:861-915 | On an increasing list the removal loop removes exactly the identifier. |
| SmsInvariant.ArriveKeepsInvIff | components/smsInboxService/smsInbox.c:1369-1408 | An arrival keeps the store invariant if and only if the identifiers do not run out and no mailbox of size zero is empty. |
| SmsInvariant.ArriveBoxes | components/smsInboxService/smsInbox.c:1085-1165 | On arrival every mailbox takes the new identifier as a bounded queue does, and the new file holds the content and, for every mailbox and no other name, that it is unread and not deleted. |
| SmsInvariant.ArrivalKeepsOthers | components/smsInboxService/smsInbox.c:1085-1165 | An arrival leaves the content and the unread flags of every older file that remains. |
| SmsInvariant.AddMsgKeeps | components/smsInboxService/smsInbox.c:1085-1165 | Adding to one mailbox, with the eviction of its oldest message, keeps the invariant of a half-finished arrival. |
| SmsInvariant.DeleteKeepsInv | components/smsInboxService/smsInbox.c:2019-2067 | Deleting through any mailbox keeps the store invariant. |
| SmsInvariant.MarkKeepsInv | components/smsInboxService/smsInbox.c:2920-3010 | Marking read or unread keeps the store invariant. |
| SmsInvariant.RestartKeepsInvIff | components/smsInboxService/smsInbox.c:1473-1535 | A restart keeps identifiers fresh if and only if every file number is below 2^31. |
| SmsRuns.StepIff | components/smsInboxService/smsInbox.c:1021-1165 | Every operation keeps the invariant if and only if a condition the caller can check holds before it. |
| SmsRuns.InvAlongIff | components/smsInboxService/smsInbox.c:1021-1165 | The invariant holds in every state of a run if and only if every operation is safe where it is taken: an arrival finds room in every mailbox and an identifier left, a restart finds identifiers below 2^31. |
| SmsRuns.RunKeepsInv | components/smsInboxService/smsInbox.c:1021-1165 | Room in the mailboxes and fewer than 2^31 arrivals are enough for every operation of a run to be safe and for the invariant to hold at its end. |
| SmsRuns.NoLeakNoDangling | components/smsInboxService/smsInbox.c:1021-1165 | From installation the invariant holds in every state of a run if and only if every operation is safe, as all are with room in the mailboxes and fewer than 2^31 arrivals. After a safe run a mailbox lists a message exactly when its file exists and is not flagged deleted for it, a file exists exactly when some mailbox lists it, and lists are increasing, positive and below the next identifier. |
| SmsRuns.FilesOnlyShrink | components/smsInboxService/smsInbox.c:1049-1077 | While the service runs, a file that is gone never comes back under its identifier. |
| SmsRuns.MailboxIsQueue | components/smsInboxService/smsInbox.c:1107-1142 | Each mailbox does what a bounded first-in-first-out queue with deletions does: a full one drops exactly its oldest. |
| SmsRuns.BoundIff | components/smsInboxService/smsInbox.c:3023-3070 | In any well-formed store within its limits, sound or not, an operation keeps mailboxes within their limits if and only if it does not set a limit below the current length. |
| SmsRuns.LengthsStayWithinLimits | components/smsInboxService/smsInbox.c:1107-1142 | In every run in which no limit is set below the current length, with limits of zero and any number of arrivals, lengths stay within the limits. |
| SmsRuns.OverLimitGrows | components/smsInboxService/smsInbox.c:1107-1107 | A mailbox above its limit grows with an arrival, because fullness is tested by equality. |
| SmsRuns.AboveIff | components/smsInboxService/smsInbox.c:1107-1142 | A mailbox above its limit leaves that state exactly by a deletion of its own that brings it to the limit or by a limit of at least its length, and is full again, so that the limit is enforced again, exactly when length and limit then agree. |
| SmsRuns.FullEvicts | components/smsInboxService/smsInbox.c:1107-1142 | A full mailbox of positive size drops exactly its oldest message on arrival and stays full. |
| SmsLeaks.RefusedIsStranded | components/smsInboxService/smsInbox.c:1107-1130 | A message that arrives while an empty mailbox has size zero is neither listed nor flagged there. |
| SmsLeaks.StrandedForEver | components/smsInboxService/smsInbox.c:1049-1077 | Such a message is never unlinked in any later run, with any deletions, limits and restarts, until its number is given out again. |
| SmsLeaks.ZeroLimitLeaks | components/smsInboxService/smsInbox.c:1107-1130 | A concrete sound store with a limit of zero in which the arriving message is listed nowhere. |
| SmsLeaks.LoweredLimitIsExceeded | components/smsInboxService/smsInbox.c:3023-3070 | A concrete sound store that holds three messages against a lowered limit of one. |
| SmsLeaks.LargeNumberRestarts | framework/liblegato/hex.c:290-328 | A concrete sound store with message 2^31 whose numbering begins again at 1 after a restart. |
| SmsRuns.Isolation | components/smsInboxService/smsInbox.c:609-688 | From any sound store, deleting, marking or reading through one mailbox changes neither the list of another nor the content and flags of any message it lists. |
| SmsViews.ViewStep | components/smsInboxService/smsInbox.c:1021-1165 | Every operation does to the messages a mailbox sees, with content and unread flag, exactly what it does to a private bounded inbox that knows no files and no other mailbox. |
| SmsViews.MailboxIsPrivate | components/smsInboxService/smsInbox.c:1021-1165 | So after every safe run what a mailbox sees is what a private inbox holds after the same operations, although files are shared and deleted by the last mailbox to let go. |
| SmsInbox.Inbox.constructor | components/smsInboxService/smsInbox.c:1473-1535 | Start-up takes lists and limits as stored and re-seeds the next identifier. |
| SmsInbox.Inbox.DeleteMsgInAppCfg | components/smsInboxService/smsInbox.c:861-915 | The removal loop changes one mailbox list as `RemoveFrom` says and no other. |
| SmsInbox.Inbox.CheckMessageIdInMbox | components/smsInboxService/smsInbox.c:924-971 | Finds an identifier exactly when the mailbox lists it. |
| SmsInbox.Inbox.IsDeleted | components/smsInboxService/smsInbox.c:1021-1042 | Answers the flag, counts a missing key as deleted, and drops the identifier from the list when the file is missing. |
| SmsInbox.Inbox.PerformDeletionOf | components/smsInboxService/smsInbox.c:1049-1077 | Asks every mailbox and unlinks the file exactly when all have flagged it. |
| SmsInbox.Inbox.AddMsgInAppCfg | components/smsInboxService/smsInbox.c:1085-1165 | Done in place, the mailbox afterwards is `AddMsg` of the one before: a full box flags, unlists and possibly unlinks its oldest message first, and an empty box of size zero refuses. |
| SmsInbox.Inbox.CreateMsgEntry | components/smsInboxService/smsInbox.c:1369-1408 | The loop over all mailboxes leaves the store `Arrive` says; a sound store stays sound exactly when the identifiers do not run out and every mailbox takes the message; the new file is unread and not deleted for every mailbox, older files keep content and unread flags, and every mailbox sees what a private inbox would. |
| SmsInbox.Inbox.DeleteMsg | components/smsInboxService/smsInbox.c:2019-2067 | The store afterwards is `Delete` of the one before; a sound store stays sound and no longer lists the message in this mailbox, every mailbox sees what a private inbox would, and an unlisted identifier changes nothing. |
| SmsInbox.Inbox.MarkMessage | components/smsInboxService/smsInbox.c:2920-3010 | A sound store stays sound, the flag of this mailbox in a listed message is what was asked for, every mailbox sees what a private inbox would, and an unlisted identifier changes nothing. |
| SmsInbox.Inbox.IsUnread | components/smsInboxService/smsInbox.c:2865-2909 | Answers the flag this mailbox sees; an unlisted identifier answers true, the code of a bad parameter, and a missing file false, dropping the identifier. |
| SmsInbox.Inbox.GetText | components/smsInboxService/smsInbox.c:2414-2481 | Succeeds exactly for a listed message with a file whose payload is there, fits and decodes, returns that payload and marks it read; an unlisted one is a bad parameter, a payload of more than two digits a byte of the buffer overflows, a missing file drops the identifier, and a payload that overflows or does not decode changes nothing. |
| SmsInbox.Inbox.SetMaxMessages | components/smsInboxService/smsInbox.c:3023-3070 | A sound store stays sound, and mailboxes within their limits stay so if and only if the accepted limit is not below the length; more than 100 and unknown mailboxes are refused. |
| SmsBrowse.NextExisting | components/smsInboxService/smsInbox.c:2805-2843 | The first position from the current one whose file exists, with none skipped that exists. |
| SmsBrowse.Session.GetFirst | components/smsInboxService/smsInbox.c:2680-2770 | Takes the snapshot and returns its first identifier, or 0 for an empty mailbox. |
| SmsBrowse.Session.GetNext | components/smsInboxService/smsInbox.c:2782-2851 | Returns the next snapshot identifier whose file exists, or 0 at the end; the index advances only past positive identifiers, and the skip loop ends because all are. |
| SmsBrowse.WalkEnds | components/smsInboxService/smsInbox.c:2782-2851 | A walk over n identifiers ends within n calls. |
| SmsBrowse.WalkIsExact | components/smsInboxService/smsInbox.c:2782-2851 | With any set of files at each call, the results until 0 are exactly the visited identifiers whose file existed when visited. |
| SmsBrowse.WalkVisitsAll | components/smsInboxService/smsInbox.c:2782-2851 | A walk that ends visited every later identifier of the snapshot once, in order. |
| SmsBrowse.BrowseIsExact | components/smsInboxService/smsInbox.c:2680-2851 | Both together for one `GetFirst` and `GetNext` until 0. |
| SmsBrowse.SurvivorsAreReturned | components/smsInboxService/smsInbox.c:2680-2851 | When files only disappear, every message that outlives the walk is returned and none that was gone before it. |
| SmsBrowse.BrowsingInRuns | components/smsInboxService/smsInbox.c:2680-2851 | The same inside runs of the store with arbitrary safe operations between the calls. |
| SmsBrowse.BrowsingEnds | components/smsInboxService/smsInbox.c:2680-2851 | In such runs one `GetFirst` and as many `GetNext` calls as the mailbox held messages reach the end and return every message that is still there. |
| ToneGenerator.KeypadFrequencies | components/audio/le_media.c:296-380 | Every key has the low frequency of its row and the high frequency of its column. |
| ToneGenerator.AcceptedHaveTones | components/audio/le_audio.c:730-747 | The accepted characters are exactly those with a low and a high frequency. |
| ToneGenerator.KeySounds | components/audio/le_media.c:490-509 | A key sounds as the sum, cut off at 16 bits, of the wave of its row and the wave of its column. |
| ToneGenerator.SaturateAdd16 | components/audio/le_media.c:390-410 | The sum of two samples, clamped to 16 bits. |
| ToneGenerator.MelodySounds | components/audio/le_media.c:419-530 | Sample by sample: the turn of digit number d begins after d tones and gaps, and x samples into it its two frequencies are heard, summed and cut off, or silence once the tone is over. |
| ToneGenerator.ChunkThenRest | components/audio/le_media.c:419-530 | A chunk followed by what is left after it is what was left before it, for every position. |
| ToneGenerator.OneCallLess | components/audio/le_media.c:419-530 | Every non-empty chunk uses up exactly one of the calls left. |
| ToneGenerator.CallsBound | components/audio/le_media.c:419-530 | The number of calls is bounded by the chunks of a tone and a pause per digit. |
| ToneGenerator.DtmfCalls | components/audio/le_audio.c:3305-3309 | Within the 5000 ms limits ten calls a digit suffice. |
| ToneGenerator.DtmfParams.FillSilence | components/audio/le_media.c:450-470 | Fills the announced number of samples with zeros. |
| ToneGenerator.DtmfParams.PlayPause | components/audio/le_media.c:450-470 | Produces exactly the next chunk of a pause and moves the sample count on. |
| ToneGenerator.DtmfParams.PlayDigit | components/audio/le_media.c:480-518 | Produces exactly the next chunk of a tone and moves the sample count and the digit on. |
| ToneGenerator.DtmfParams.FillTone | components/audio/le_media.c:499-509 | The sample loop writes the samples of the tone from the current index to the end of the second or of the tone. |
| ToneGenerator.DtmfParams.PlayTone | components/audio/le_media.c:419-530 | Returns exactly the next chunk, fault when the buffer is too small and underflow exactly at the end; no chunk exceeds the buffer and no unsigned subtraction wraps. |
| ToneGenerator.MediaThread | components/audio/le_media.c:855-909 | Chunking is invisible: unbroken, the pipe receives exactly the melody after exactly one read per chunk and a last one; it ends broken only by the write that breaks the pipe, never goes beyond it, and what it wrote is a prefix of the melody. |
| ToneGenerator.AreDtmfValid | components/audio/le_audio.c:730-747 | Accepts exactly the strings of DTMF characters. |
| ToneGenerator.PlayDtmf | components/audio/le_audio.c:3289-3329 | The refusals are exact, with limits of 5000 ms and 100 characters; for a positive duration what is played sounds, sample by sample, as the digits in order with their pauses, after at most ten reads a digit; with a zero duration nothing is played, which is what is owed if and only if there are no pauses or no digits. |
| ToneGenerator.EmptyTones | components/audio/le_media.c:878-900 | A melody of empty tones owes nothing exactly when it has no pauses or no digits left. |
| ToneGenerator.ZeroDurationOwesPauses | components/audio/le_media.c:878-900 | A concrete call with a zero duration that owes sixteen samples of silence. |
| WavFile.MediaFile.WriteFd | components/audio/le_media.c:244-285 | Short writes are repeated until all is written at the position; -1 is returned exactly when one of the write calls made fails. |
| WavFile.MediaFile.ReadFd | components/audio/le_media.c:181-233 | Short reads are repeated until the buffer is full or the file ends. |
| WavFile.DecodeOfEncode | components/audio/le_media.c:540-574 | The header structure survives its byte order. |
| WavFile.KnownHeader | components/audio/le_media.c:540-574 | The header of a four-byte recording at 8000 samples a second, byte by byte. |
| WavFile.DerivedFields | components/audio/le_media.c:1222-1226 | Byte rate and block size are the bits a second and a frame divided by eight, as long as the bits fit 32 and 19 bits. |
| WavFile.PatchSizes | components/audio/le_media.c:694-718 | Overwriting the two size fields turns the header for one size into the header for another and leaves the data alone. |
| WavFile.WavRecorder.SetWavHeader | components/audio/le_media.c:540-574 | Writes the header of an empty recording. |
| WavFile.WavRecorder.Append | components/audio/le_media.c:683-692 | Appends the buffer behind the data and adds to the 32-bit counter. |
| WavFile.WavRecorder.PatchHeader | components/audio/le_media.c:694-718 | The two seeks back make the header that of all the data; beyond 32 bits they leave both sizes modulo 2^32. |
| WavFile.WavRecorder.WavWriteFd | components/audio/le_media.c:668-725 | A successful write leaves a complete recording of all data so far with the position at its end. |
| WavFile.Record | components/audio/le_media.c:1214-1240 | Succeeds exactly when no write call fails; then with total N the header holds N and N + 36 modulo 2^32, and with N + 36 below 2^32 the first 44 + N bytes are the header for N followed by all data in order. |
| WavFile.SizesTrueIff | components/audio/le_media.c:694-718 | The two sizes in the header are true if and only if N + 36 is below 2^32. |
| WavFile.PlayWavFile | components/audio/le_media.c:1000-1039 | Accepts exactly the files that begin with the bytes of a PCM header and leaves the position at the data, or gives a whole but unrecognized header back. |
| WavFile.RecognizedIff | components/audio/le_media.c:1000-1039 | A header is recognized if and only if its bytes at the five places are RIFF, WAVE, fmt, 16 and 1, and then channels, rate and resolution are the numbers at their places. |
| WavFile.PlayerAcceptsRecording | components/audio/le_media.c:1000-1039 | Every recording is accepted and gives back rate, channels and resolution, with the two sizes it should have. |
| HttpWire.SuspensionsAddNothing | components/httpClientLibrary/le_httpClientLib.c:579-713 | Answers that suspend the machine add no bytes to the request. |
| HttpWire.BodyIsAnnouncedIff | components/httpClientLibrary/le_httpClientLib.c:671-713 | The body sent is the one the callback announces if and only if no chunk comes with the status unavailable while more data would follow. |
| HttpWire.UnavailableCutsBody | components/httpClientLibrary/le_httpClientLib.c:963-966 | A concrete body of two chunks of which only the first is sent. |
| HttpWire.ServerReadsRequest | components/httpClientLibrary/le_httpClientLib.c:441-713 | A reader of lines per section 3 of RFC 7230 finds the request line, host, at most one Authorization line and the header fields in callback order, one empty line, and the body only for POST or PUT, if and only if none of those lines has a CRLF inside; a carriage return alone does no harm. |
| HttpWire.BrokenValueIsTwoLines | components/httpClientLibrary/le_httpClientLib.c:620-655 | A field value with a CRLF in it is read as two lines of the head. |
| HttpWire.InjectedField | components/httpClientLibrary/le_httpClientLib.c:620-655 | Such a value gives the server a header field that no callback gave. |
| HttpWire.MethodTexts | components/httpClientLibrary/le_httpClientLib.c:176-183 | The request lines of the five methods. |
| HttpWire.OneSlash | components/httpClientLibrary/le_httpClientLib.c:455-463 | One leading slash of a URI makes no difference and is the only one that goes. |
| HttpWire.DecimalReads | components/httpClientLibrary/le_httpClientLib.c:466-491 | The port is read back from its digits, which have no leading zero. |
| HttpWire.BodyGoesLast | components/httpClientLibrary/le_httpClientLib.c:920-931 | With POST and PUT, and no other method, the body follows everything else. |
| HttpWire.KnownGet | components/httpClientLibrary/le_httpClientLib.c:441-508 | A request without credential, fields and body, character by character. |
| HttpWire.KnownPut | components/httpClientLibrary/le_httpClientLib.c:441-713 | A request to an IPv6 address with credential, two fields and a body in two chunks, character by character. |
| HttpMachine.RestartLowersRank | components/httpClientLibrary/le_httpClientLib.c:880-1050 | Every restart of the loop strictly lowers the rank of the state, so the loop ends. |
| HttpMachine.AcceptedOwesWire | components/httpClientLibrary/le_httpClientLib.c:441-508 | An accepted request has sent its request line and owes exactly the rest of its wire form. |
| HttpMachine.CredentialKeepsOwed | components/httpClientLibrary/le_httpClientLib.c:518-570 | The credential step moves its line from what is owed to what is sent. |
| HttpMachine.ResourceKeepsOwed | components/httpClientLibrary/le_httpClientLib.c:579-662 | So does every header field step, whatever the callback answers, and the last one leaves exactly the body owed. |
| HttpMachine.BodyKeepsOwed | components/httpClientLibrary/le_httpClientLib.c:671-713 | So does every body step, and the last one leaves nothing owed. |
| HttpMachine.EventKeepsOwed | components/httpClientLibrary/le_httpClientLib.c:830-1058 | Any socket event keeps what was sent plus what is still owed constant, or the request is lost. |
| HttpMachine.ScheduleIndependence | components/httpClientLibrary/le_httpClientLib.c:830-1058 | Every schedule of socket events and timeouts that reaches response parsing has sent exactly the wire form of the request. |
| HttpMachine.HandleRules | components/httpClientLibrary/le_httpClientLib.c:830-1058 | What any event or timeout does to a running request: it goes on with nothing delivered, or ends and its callback gets exactly the verdict: success for a complete response, the code of a failed read, a fault for a hang-up, a failed send or a line that does not fit, a timeout, or the code of the callback. |
| HttpMachine.FirstVerdictIsDelivered | components/httpClientLibrary/le_httpClientLib.c:830-1058 | Over every schedule the callback gets the first verdict, once, or nothing while there is none. |
| HttpMachine.AskRules | components/httpClientLibrary/le_httpClientLib.c:1834-1882 | A request is refused as a bad parameter, busy or at fault exactly when its method is unknown, another runs, or its line does not fit or cannot be sent, and its own callback gets that code; any other is accepted and delivers nothing. |
| HttpMachine.OneResultPerRequest | components/httpClientLibrary/le_httpClientLib.c:1834-1882 | Over every run of asynchronous requests, events, timeouts and stops no request gets two results, and each but the running one has had exactly one unless a stop or a refused request gave it up. |
| HttpMachine.OnlyStopsGiveUp | components/httpClientLibrary/le_httpClientLib.c:1529-1543 | A request is given up only by a stop or a refused overlapping request, and only while it runs. |
| HttpClient.HttpSession.StateMachine | components/httpClientLibrary/le_httpClientLib.c:830-1058 | The do-while machine on mutable state computes `Machine` and ends; a running request goes on or ends with exactly the verdict of the event. |
| HttpClient.TurnAdvances | components/httpClientLibrary/le_httpClientLib.c:1591-1597 | With both events every turn uses an answer of a callback, moves on, or waits for more of the response. |
| HttpClient.HttpSession.SendRequest | components/httpClientLibrary/le_httpClientLib.c:1557-1600 | For every finite script of the outside world the call returns the reason of its refusal or the first verdict of its turns; a success means exactly the wire form was sent; a call still looping has sent a part of it, and after enough turns waits for its response only. |
| HttpClient.SmoothCallSucceeds | components/httpClientLibrary/le_httpClientLib.c:1557-1600 | A call whose callbacks give no error, whose sends succeed and whose response is read to its end returns success. |
| HttpClient.SmoothRequestSucceeds | components/httpClientLibrary/le_httpClientLib.c:1591-1597 | From any state such a request never ends otherwise, and ends with the first complete response after it is sent. |
| HttpAsync.AsyncClient.Ask | components/httpClientLibrary/le_httpClientLib.c:1834-1882 | A request, accepted or refused, keeps the accounts, and delivers the reason to its own callback exactly when it is refused. |
| HttpAsync.AsyncClient.Handles | components/httpClientLibrary/le_httpClientLib.c:394-430 | An event or a timeout keeps the accounts, gives no request up and delivers exactly the verdict to the running one. |
| HttpAsync.AsyncClient.StopAll | components/httpClientLibrary/le_httpClientLib.c:1529-1543 | A stop gives up exactly the running request, without a result. |
| HttpAsync.AsyncClient.Drive | components/httpClientLibrary/le_httpClientLib.c:830-1058 | The session object over a whole run: no request has two results, and when it is idle each has one unless it was given up. |
| SerialPort.SerialHandle.ReceiveData | components/serialComm/serialComm.c:535-548 | Delivers the oldest waiting bytes, as many as there are and fit. |
| SerialPort.HandlersHaveEffect | components/serialComm/serialComm.c:120-286 | What connection requests, timer expiries and readable bytes do to a port of either side, written out: hello, five retries, answer, and what is thrown away. |
| SerialSession.Link.ClientActs | components/serialComm/serialComm.c:138-172 | The client handle takes its connection requests, timer expiries and read events as the protocol says. |
| SerialSession.Link.ServerActs | components/serialComm/serialComm.c:120-136 | The server handle does the same. |
| SerialSession.Link.Take | components/serialComm/serialComm.c:203-286 | Every step taken by the two handles keeps the protocol invariant and the safety of the handshake. |
| SerialSession.Link.Play | components/serialComm/serialComm.c:203-286 | The two handles over a whole run: a connected client has a connected server, and each side has read what the other sent, but for leftover HELLO bytes. |
| SerialLink.InvStep | components/serialComm/serialComm.c:138-172 | Every step of either side or of a line keeps the protocol invariant. |
| SerialLink.HandshakeSafety | components/serialComm/serialComm.c:203-286 | Over every run: a connected client has a connected server, the client reads a prefix of what the server sent, and the server reads a prefix of leftover HELLO bytes and the client data, with a bound on the leftovers. |
| SerialLink.SingleSessionLeftovers | components/serialComm/serialComm.c:203-286 | With one connection request the leftovers are at most five. |
| SerialLink.HandshakeCompletes | components/serialComm/serialComm.c:203-286 | From any reachable state in which both sides wait and a HELLO is under way, delivering and reading completes the handshake. |
| SerialLink.ClientDataArrives | components/serialComm/serialComm.c:512-548 | From any reachable state with a connected client, data it sends, delivered and read, leaves the server with everything the client ever sent, in order, behind the leftovers. |
| SerialLink.ServerDataArrives | components/serialComm/serialComm.c:512-548 | The other way the client has exactly what the server sent. |
| SerialLink.FiveLeftoversHappen | components/serialComm/serialComm.c:138-172 | The bound is met: a run in which the server takes five HELLO bytes for data. |
| AudioGraph.ConnectKeeps | components/audio/le_audio.c:1899-1969 | Connecting keeps the invariant, whichever paths the platform refuses. |
| AudioGraph.DisconnectKeeps | components/audio/le_audio.c:1979-2026 | Disconnecting keeps the invariant. |
| AudioGraph.DeleteKeeps | components/audio/le_audio.c:1859-1883 | Deleting a connector keeps the invariant. |
| AudioGraph.DestroyedKeeps | components/audio/le_audio.c:964-998 | Destroying streams keeps the invariant. |
| AudioGraph.DetachedFromAll | components/audio/le_audio.c:442-463 | Disconnecting a stream from each connector on its list takes it off every list and closes every path it had. |
| AudioGraph.WithoutFirstCounts | components/audio/le_audio.c:1197-1200 | Closing removes exactly one node of the session. |
| AudioGraph.SessionEnds | components/audio/le_audio.c:1211-1243 | Closing a session leaves no node of it on any stream; a stream survives exactly when another session holds it, with the other nodes in order. |
| AudioRuns.StepKeeps | components/audio/le_audio.c:1044-2026 | Every operation keeps the routing invariant. |
| AudioEffects.Interfaces | components/audio/le_audio.c:60-71 | Which interfaces are inputs, which have one stream only, and which the platform must set up. |
| AudioEffects.StepHasEffect | components/audio/le_audio.c:1044-2026 | What every operation changes, told by the graph before and after it: holders, counts, lists, sides and paths, and that nothing else changes. |
| AudioEffects.NodesFollow | components/audio/le_audio.c:1044-1243 | The nodes of a session on a stream: its own opening adds one, its own closing takes one, its end takes all, and nothing anybody else does takes any. |
| AudioEffects.HolderKeepsStream | components/audio/le_audio.c:964-1243 | Over every run a stream stays open as long as a session that holds it neither closes it nor ends, whatever the other sessions do. |
| AudioRuns.RoutingIsConsistent | components/audio/le_audio.c:333-618 | In every state of every run membership is two-way and on the side the direction demands, every open path joins an input and an output that share a connector, counts are the numbers of session nodes, and a physical interface has one stream at most. |
| AudioRuns.ConnectExactIff | components/audio/le_audio.c:333-377 | Connecting keeps the open paths exactly the joined pairs if and only if the platform refuses only paths that are open already. |
| AudioRuns.DisconnectExactIff | components/audio/le_audio.c:389-434 | Disconnecting does so if and only if the stream meets none of the streams across elsewhere. |
| AudioRuns.DeleteExactIff | components/audio/le_audio.c:471-492 | Deleting a connector does so if and only if no two streams across it meet elsewhere. |
| AudioRuns.DestroyedExact | components/audio/le_audio.c:964-998 | Destroying streams always does so. |
| AudioRuns.PathsAreExact | components/audio/le_audio.c:1830-2026 | In every run in which no path is refused and no pair ever shares two connectors, the open paths are exactly the pairs that share one. |
| AudioRuns.SharedTwiceLosesPath | components/audio/le_audio.c:1979-2026 | A run from start-up with nothing refused in which a pair that shares two connectors loses its path when disconnected at one. |
| AudioService.Serve | components/audio/le_audio.c:333-618 | The service over a whole run from start-up: the tables denote a graph the run leads to, the routing invariant holds, and no pooled map is the list of two owners, every list is a used map and every used map a list. |
| AudioService.Service.GetHashMapElement | components/audio/le_audio.c:501-542 | Takes the first unused map, or a new one when all are used; it is empty, and no other map changes. |
| AudioService.Service.OpenStreamPaths | components/audio/le_audio.c:333-377 | Opens the path to every stream of the list but those refused, and returns the answer to the path asked for last. |
| AudioService.Service.CloseStreamPaths | components/audio/le_audio.c:389-434 | Closes exactly the paths to the streams of the list. |
| AudioService.Service.CreateConnector | components/audio/le_audio.c:1830-1849 | The tables then denote the graph with one new empty connector of the session and nothing else changed. |
| AudioService.Service.ConnectStream | components/audio/le_audio.c:1899-1969 | Both entries are made and exactly the paths across that are not refused opened, with nothing else changed; bad parameter and busy are exact, and the answer is a success when no path is refused and a fault when all are. |
| AudioService.Service.DisconnectStream | components/audio/le_audio.c:1979-2026 | Both entries go and exactly the paths across are closed, with nothing else changed; a stream not on the connector changes nothing. |
| AudioService.Service.CloseAllConnectorPaths | components/audio/le_audio.c:471-492 | The nested loops close exactly the paths across the connector. |
| AudioService.Service.ClearMembers | components/audio/le_audio.c:584-618 | Both loops take the connector off the lists of its members and off no other. |
| AudioService.Service.DeleteConnector | components/audio/le_audio.c:1859-1883 | The connector goes off every list, exactly the paths across it are closed, and its maps go back to the pool. |
| AudioService.Service.OpenAudioStream | components/audio/le_audio.c:1044-1156 | An open physical interface gets the session at the end of its holders and a count of one more, with nothing else changed; any other opening adds exactly one stream with this holder and a count of one, unless the platform refuses one it must set up. |
| AudioService.Service.DisconnectFromAll | components/audio/le_audio.c:442-463 | The loop that walks the live list it removes from detaches the stream from all its connectors. |
| AudioService.Service.DestructStream | components/audio/le_audio.c:964-998 | The tables then denote the graph without the stream, its memberships and its paths. |
| AudioService.Service.ReleaseAudioStream | components/audio/le_audio.c:1164-1203 | Removes one or all nodes of the session with their references, destroys the stream with the last, and never looks at a destroyed stream. |
| AudioService.Service.CloseStream | components/audio/le_audio.c:1591-1605 | Exactly the first node of the session goes, and with the last node the stream, its sides and its paths; a session that does not hold the stream changes nothing. |
| AudioService.Service.CloseSession | components/audio/le_audio.c:1211-1243 | The two passes take exactly the nodes of the session, the others staying in order, and destroy exactly the streams only it held, in whatever order the streams are visited. |
| CellNet.Server.RequestNetwork | components/cellNetService/cellNetServiceServer.c:627-637 | Returns a reference that was not live, and keeps the balance of count, queue and references, the fit of the commands and the attention to the radio. |
| CellNet.Server.ReleaseNetwork | components/cellNetService/cellNetServiceServer.c:645-665 | Ends a live reference and keeps the same; any other reference changes nothing. |
| CellNet.Server.ProcessCommand | components/cellNetService/cellNetServiceServer.c:477-508 | Keeps the balance if and only if it does not process a request at a count of 2^32 - 1, keeps every power command fitting the count if and only if it does not power the radio on there, and keeps an attended radio attended to if and only if such a wrap finds a stop timer or leaves the radio off. |
| CellNet.Server.StartCellularNetwork | components/cellNetService/cellNetServiceServer.c:358-396 | Afterwards the radio is on or a start timer runs, whatever the query answers and whether the command is obeyed; with a positive count the command fits it. |
| CellNet.Server.StopCellularNetwork | components/cellNetService/cellNetServiceServer.c:440-467 | Afterwards the radio is off or a stop timer runs; with a count of zero the command fits it. |
| CellNet.Server.StartCellNetTimerHandler | components/cellNetService/cellNetServiceServer.c:311-348 | While the network is wanted and the radio not known to be on, powers it on again once and keeps the timer; otherwise commands nothing and deletes the timer; keeps the balance and leaves an attended radio attended to. |
| CellNet.Server.StopCellNetTimerHandler | components/cellNetService/cellNetServiceServer.c:406-430 | The same for stopping, while the network is not wanted and the radio not known to be off. |
| CellNet.Operate | components/cellNetService/cellNetServiceServer.c:477-508 | The service thread over a whole run: it ends where the run leads, with the balance kept when no step wraps the count, every command fitting the count if and only if no step powers the radio on as it wraps, and an attended radio attended to when every step meets its condition. |
| CellNet.StepHasEffect | components/cellNetService/cellNetServiceServer.c:311-508 | What every step changes, written out: the 32-bit count, the queue, the references, the timers, and each power command with the count it is given at. |
| CellNet.ConservedStep | components/cellNetService/cellNetServiceServer.c:477-508 | A step keeps the balance of count, queue and references if and only if it does not process a request at a count of 2^32 - 1; there count and references no longer add up. |
| CellNet.RequestConservation | components/cellNetService/cellNetServiceServer.c:627-665 | From start-up the count plus queued requests minus queued releases is the number of live references in every state of a run if and only if no step wraps the count, and then the guard at zero is never needed. |
| CellNet.FewRequestsNeverWrap | components/cellNetService/cellNetServiceServer.c:477-508 | A run of fewer than 2^32 requests never wraps the count, however many were released in between. |
| CellNet.WrapLosesEveryRequest | components/cellNetService/cellNetServiceServer.c:477-508 | The run that wraps: after 2^32 requests, each processed, the count is zero although all of them are live. |
| CellNet.PowerFollowsCount | components/cellNetService/cellNetServiceServer.c:311-467 | A step commands the radio as the count demands if and only if it does not power it on as the count wraps. |
| CellNet.RadioSafetyFromBoot | components/cellNetService/cellNetServiceServer.c:311-467 | In a run from start-up the radio is never powered off while the count is positive nor on while it is zero, if and only if no step powers it on as the count wraps; so in every run that does not wrap. |
| CellNet.StaleStartTimerIsHarmless | components/cellNetService/cellNetServiceServer.c:311-348 | Whatever runs after the expiry of a start timer that is not wanted any more runs without it too, and leads to the same state but for the timer. |
| CellNet.StaleStopTimerIsHarmless | components/cellNetService/cellNetServiceServer.c:406-430 | The same of a stop timer. |
| CellNet.MatchIff | components/cellNetService/cellNetServiceServer.c:358-467 | From a radio that is where the count says, a step leaves it there if and only if a command that starts or ends the demand is obeyed, the count does not wrap and the radio does not move by itself. |
| CellNet.RadioMatchesIff | components/cellNetService/cellNetServiceServer.c:311-467 | From start-up the radio is where the count says in every state of a run if and only if it started off and every step meets that condition. |
| CellNet.AttendedIff | components/cellNetService/cellNetServiceServer.c:311-467 | Every step keeps a radio that is elsewhere watched by a timer, whether commands are obeyed or not, but two: a drift does if and only if it goes where the count wants it or a timer watches, and a wrap if and only if a stop timer runs or the radio is off and stays off. |
| CellNet.SteadyRadioIsAttended | components/cellNetService/cellNetServiceServer.c:311-467 | From start-up every state of a run has the radio where the count says or a timer that attends it, if and only if the radio started off and every step meets that condition; so with a radio that moves only on command in every run that does not wrap the count. |
| CellNet.ExpirySettles | components/cellNetService/cellNetServiceServer.c:311-430 | From any attended state in which the radio is elsewhere, the timer that attends it can expire, and once the radio obeys it is where the count says, whatever the query answers. |
| CellNet.TimersSettleRadio | components/cellNetService/cellNetServiceServer.c:311-430 | In every run of expiries, however often the radio does not obey, one obeyed expiry of the right timer is enough for the radio to end up where the count says. |
| CellNet.LateRadioStaysOn | components/cellNetService/cellNetServiceServer.c:358-467 | With a radio that comes up late there is a run after which it stays on with no request, command or timer left. |

## Left out

- The bzip2 streams are finite byte sequences; decompression, checksums, the patch header and flash access are not part of this model.
- `pa_patch_ReadSegment` is a parameter: it answers anything that agrees with the image. Offsets are unbounded integers after decoding, so overflow of the running old position and of the sum in the check at bspatch.c:325 is not modelled: a length that overflows it is refused here. `BZ2_bzRead` takes an `int`, so in C an add or copy of 2^31 bytes or more is refused as corrupt; here it is read whole. How a negative position is divided by the unsigned segment size depends on the widths of the C types and is a parameter, with signed and unsigned division as instances.
- WindowedPatch.PatchWindowed: does not promise success wherever the whole-file branch succeeds, because a segment read past the end of the image is refused; WindowSucceedsIff gives the exact condition.
- JSON encoding, failures of file calls and crashes between creating and writing a message file; a message file is one value with its flags, and its payload kinds, sender and timestamp are one content string.
- Looking a payload up in a message file and its hexadecimal coding are functions given to the getter; the getters not modelled differ only in the field they return.
- SIM storage, receive handlers and session bookkeeping of the SMS inbox.
- Interrupted calls in `ReadFd` and `WriteFd`, which the code counts as -1 bytes, and the AMR and PCM threads.
- The sine of the tone generator is any function of frequency and sample index.
- WavFile.Record: says only what the header holds for totals of 2^32 - 36 bytes and more, where the 32-bit position wraps and new data overwrites old, and stops at a failed header write, which the source ignores.
- Parsing of HTTP responses, sockets, TLS and Base64: the parser may give any of its results, and the encoded credentials are a parameter. User callbacks are finite scripts; a script that has run out answers with an empty key or chunk.
- HttpMachine.OneResultPerRequest: synchronous requests after asynchronous ones are excluded, because the old result callback stays registered; callbacks do not call back into the session.
- Disconnecting and reopening a serial handle, descriptor errors, and lines that lose or reorder bytes.
- Connector clean-up at the end of a session: the loop in the code starts at the end of the stream map and reaches no connector, so none is deleted; only the stream half is stated.
- The platform always closes a path it is asked to close; it may refuse to open any. Gains, filters, formats, event handlers and media playback of streams are left out.
- Hash map iteration is a choice of any key still in the map; that removing the current key leaves the iterator usable is a property of the hash map library.
- References of the audio service are numbers never given out twice, and a pointer is identified with its reference.
- Network state events, SIM PIN handling and the translation of registration states in the cellular service.
- Threads, wake locks and logging throughout.
