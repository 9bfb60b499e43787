# spmfilter: a verified model of the mail filter's core

spmfilter is an SMTP content filter. A parent process forks children that accept
connections; each child speaks SMTP, spools the message, completes its headers, runs the
configured modules over it and hands it to a nexthop. This project models that core and
proves what it guarantees, and, where the code does less than its documentation or a first
reading suggests, exactly when it holds.

| file | component |
|---|---|
| `Server.dfy`, `ServerLimits.dfy` | shared counters and pid tables, the parent/child protocol as a step system over all interleavings, and the exact limits of that server |
| `Md5Spec.dfy`, `Md5Rounds.dfy`, `Md5.dfy`, `Md5Known.dfy` | RFC 1321 in one shot; the unrolled rounds; the streaming digest; a digest in numbers |
| `LineReader.dfy` | buffered line reading over arbitrary results of `read()` |
| `DataReader.dfy`, `LongLines.dfy` | the DATA loop, dot removal, transparency for lines that fit and for lines of any length |
| `HeaderCompletion.dfy`, `CompletedFile.dfy` | insertion of missing headers, and what a reader finds in the result |
| `Commands.dfy`, `CommandHistory.dfy` | the command machine, and what every run of it guarantees |
| `ModuleChain.dfy` | which modules run, what is delivered, what the client is told |
| `QueueFile.dfy` | change detection on headers and the rewrite of the queue file |
| `Dict.dfy` | the dictionary as a refinement of a map |
| `Core.dfy`, `Text.dfy`, `Options.dfy` | string helpers, template expansion, C strings and lines |

## How the code is modelled

Code that updates state in place is a class over fields and arrays (`Server.Counters`,
`Md5.State`, `LineReader.Reader`, `Commands.Client`, `Dict.Dictionary`, `QueueFile.Source`,
`QueueFile.Sink`) or a method with loops, each proved equal to a function of its inputs or of
the old state; the properties are lemmas about those functions. The prefork protocol is a
step system: every section under the semaphore is one step, the three unlocked reads of the
refill test are three steps, the parent has a program counter and every child a phase.
`Server.Counters` refines the memory part of each step. The fields `failed`, `torn`,
`twice`, `registered`, `removed` and `decrements` of that system only record history.

Bytes of text are `char` values and bytes of the digest are numbers below 256. A message
digest word is a number below 2^32, the two count words wrap around explicitly, and the hash
of the dictionary widens a signed byte. Process ids, module results, delivery results,
generated ids and dates, the results of `read()`, `fwrite()` and of replacing a file, and the
envelope that modules and nexthop leave behind are arbitrary inputs.

## Where the code differs from what one would expect

- `module_fail` 1 is documented as "proceed and ignore" (`man/spmfilter.conf.5:79-83`). The
  code stops the chain, delivers nothing and sends no reply at all (`src/smf_smtpd.c:88`,
  `src/smf_modules.c:301-305`): `ModuleChain.IgnoredFailureIsSilent`.
- A failed `fork` is registered like a child and never given back (`src/smf_server.c:466-479`,
  `Server.FailedForkDrifts`). The waiting parent can come to another fork exactly if the failed
  forks are fewer than `max_childs` and, less what was or can be subtracted twice, fewer than
  `spare_childs` (`ServerLimits.RefillExactly`); a server without children for which this does
  not hold never has one again (`ServerLimits.EmptyServerExactly`). With the defaults 10 and 2
  two failures are enough (`ServerLimits.FailedPreforksKill`), and with `spare_childs` 0 none is
  needed: the server is dead once its only child is gone (`ServerLimits.NoSpareServesOnce`).
- A child may decrement the spare counter before it is registered, so the counter reaches -1
  (`Server.SpareCanBeNegative`; `ServerLimits.NegativeExactly` says exactly when, and
  `ServerLimits.NegativeInGeneral` what decides in any run). A child that dies between its two
  sections is subtracted twice (`Server.SubtractedTwice`). `Server.SpareCountExact` is the exact
  condition for the counter to be right; with room in the tables it says that as many forks
  failed as children died between their sections (`Server.SpareCountTorn`).
- The tables have `max_childs` slots, but `spare_childs` children are preforked. If these are
  more, and only then, some run without any failure finds no free slot, and ends with a wrong
  spare counter (`ServerLimits.CrowdedExactly`, `Server.CrowdedTableDrifts` for 1 and 2).
- An empty HELO renews the session but stays in the transaction, so DATA can run without a
  sender (`CommandHistory.EmptyHelloLosesSender`; the exact condition is
  `CommandHistory.EnvelopeSetExactly`). MAIL does not clear the recipients
  (`CommandHistory.MailKeepsRecipients`). Delivery over SMTP then writes an empty sender into the
  session's envelope; envelopes with a sender and recipients it leaves alone
  (`Commands.AddressedExactly`, `CommandHistory.DeliveryFindsEnvelope`).
- The message size is only reset with the session, so messages are judged by the size of all
  messages since the renewal together, and after one refusal all are refused
  (`CommandHistory.RefusedForSize`, `CommandHistory.OnceTooBig`).
- At end of file the line reader stores the last byte twice, and a full buffer without a line
  feed is reported one byte too long (`LineReader.ReadingConserves`, `LineReader.NoPiece`, `LineReader.PieceIsRead`).
- A line longer than the buffer is read in pieces and each piece is treated as a line, so dots
  in the middle of a long line can be lost or end the message. A NUL hides the rest of its
  piece, the line feed included. `LongLines.TransparentIff` says that a body arrives unchanged
  exactly without both.
- A connection that ends inside DATA ends the message: what has arrived is completed, judged by
  its size and passed to modules and nexthop as if the terminator had come
  (`DataReader.EndOfFileEndsMessage`, `Commands.CutMessageIsProcessed`).
- A colon anywhere, in the body too, counts as a header when the separator line is decided
  (`HeaderCompletion.FoundExactly`).
- The DATA loop takes flags and line break from the pieces its reader returns. If the first
  piece with a carriage return or a line feed has no line feed, the inserted headers and the
  old first line become one line; if a later piece of a long line starts with a header name,
  that header is taken to be there; and so is a header in a line that is stored behind the rest
  of a line with a NUL. `CompletedFile.CompletedExactly` is the exact condition for whatever
  arrives, `CompletedFile.StraddlingBreak`, `CompletedFile.HeaderInsideLine` and
  `CompletedFile.NulHidesHeader` show the three ways to fail, and for NUL-free lines that fit the
  buffer only an empty message fails (`CompletedFile.ShortLinesComplete`).
- The result of `fwrite` is tested for being negative, which it cannot be: text can be lost
  while the completion reports success (`HeaderCompletion.LostUnnoticed`). A file whose old
  version was removed and whose new one could not be renamed is gone.
- The change detection compares with the first header of a name. A change can go unnoticed if
  a name is repeated with equal values (`QueueFile.RepeatedNameHidesLoss`), and an unchanged
  list looks changed if a name is repeated with different ones (`QueueFile.UnchangedIsClean`).
- A nexthop result other than 0, 1 and -1 makes the client see two replies:
  `ModuleChain.AtMostOneReply`.
- Template expansion reallocates the buffer to its final size before it moves the tail. When
  the inserted text is shorter than two characters the move reads behind the new size; the
  model keeps the old block then, as `realloc` usually does, and reports the case as
  `inBounds == false`. That flag compares the moved range with the size of the block, and is
  false exactly as `Core.NeverShrinks` says.
- An XFORWARD address that mentions `IPv6:` anywhere loses its first five characters:
  `Commands.AddressTag`.
- `md5_append` adds the partial block to the length in a C `int`. Its caller owes that the sum
  fits, which is the precondition of `Md5.State.Append`.

## Model

| member | source | states |
|---|---|---|
| `Slots.ReplaceCounts` | src/smf_server.c:249-262 | A slot search exchanges one copy of a pid for another value and leaves every other count alone |
| `Slots.ReplaceFirst` | src/smf_server.c:211-216 | The search loop changes the first matching slot only and tells whether there was one |
| `Server.Counters.constructor` | src/smf_server.c:148-155 | All slots in use are free and both counters are zero |
| `Server.Counters.AddChild` | src/smf_server.c:204-219 | The registration step of the protocol on the shared memory |
| `Server.Counters.DecrementSpare` | src/smf_server.c:221-227 | The decrement step |
| `Server.Counters.AddActive` | src/smf_server.c:229-241 | The activation step |
| `Server.Counters.RemoveActive` | src/smf_server.c:243-264 | The removal step, and whether the pid had been active |
| `Server.RunInv` | src/smf_server.c:461-517 | Inductive invariant of every interleaving, failed forks and torn deaths included: both counters in terms of children, failures and double subtractions, and the active table sound |
| `Server.RunTables` | src/smf_server.c:204-262 | With max_childs at least 1 and spare_childs, `childs` holds each registered child once and `childs_active` each active child, in every interleaving |
| `Server.CountersBalance` | src/smf_server.c:490-517 | num_procs is registrations minus removals and at most max(max_childs, spare_childs, 1); num_spare is registrations minus decrements, with a lower bound |
| `Server.SpareCountExact` | src/smf_server.c:264-270 | With nothing in flight num_spare is the number of waiting children if and only if failed forks and double subtractions balance |
| `Server.TwiceIffTorn` | src/smf_server.c:243-270 | With room in the tables, a removed child is subtracted twice if and only if it died between its two sections |
| `Server.SpareCountTorn` | src/smf_server.c:264-270 | Then num_spare is the waiting children plus failed forks minus deaths between sections, hence exact if and only if those are equally many |
| `Server.CleanRun` | src/smf_server.c:204-271 | Without failed forks and torn deaths nothing is ever counted wrongly |
| `Server.CleanCounters` | src/smf_server.c:204-271 | In clean runs num_procs counts the registered children, and num_spare is at least -1 and exact when nothing is in flight |
| `Server.CleanChildTable` | src/smf_server.c:211-262 | In clean runs `childs` holds exactly the registered, unreaped pids, once each |
| `Server.SlotsNeverRunOut` | src/smf_server.c:211-216 | Unless more children are preforked than there are slots, registration and activation always find a free one, in every run |
| `ServerLimits.CrowdedExactly` | src/smf_server.c:204-271 | A clean run finds no free slot in `childs`, or none in `childs_active`, or ends with a wrong spare counter and nothing in flight, if and only if more children are preforked than there are slots |
| `Server.SecondTestNeverForks` | src/smf_server.c:511-511 | The second disjunct of the refill test is never true |
| `Server.PreforkCompletes` | src/smf_server.c:490-497 | The prefork loop ends exactly when spare_childs forks, or one if that is 0, are registered |
| `Server.FailedForksStarve` | src/smf_server.c:509-509 | Sufficient for a dead refill loop: failed forks have reached max_childs |
| `ServerLimits.ForkDecision` | src/smf_server.c:511-512 | The refill test forks if and only if children without a client plus failed forks less double subtractions are fewer than spare_childs |
| `ServerLimits.RefillExactly` | src/smf_server.c:499-517 | From any state in which the parent waits, some continuation comes to another fork if and only if failed forks are fewer than max_childs and, less what was or can be subtracted twice, fewer than spare_childs |
| `ServerLimits.EmptyServerExactly` | src/smf_server.c:499-517 | Without children: if and only if failed forks leave room in both limits; otherwise no continuation ever has a child |
| `ServerLimits.FailedPreforksKill` | src/smf_server.c:490-497 | If all preforks fail the server never has a child, in every configuration that preforks |
| `ServerLimits.NoSpareNoRefill` | src/smf_server.c:509-515 | With spare_childs 0 no clean run refills |
| `ServerLimits.NoSpareServesOnce` | src/smf_server.c:490-515 | Then a run without any failure loses its only child, and no continuation ever has another |
| `Server.RefillTerminates` | src/smf_server.c:509-515 | Every parent step of the refill loop lowers a rank, or leaves the loop by a test that fails: max_childs is reached, or the second disjunct is read; no child step raises the rank |
| `ServerLimits.RefillForksExactly` | src/smf_server.c:509-515 | In every run, a waiting parent that is woken and works without interference forks until a limit is reached, and no further: both counters grow by the smaller of what max_childs and spare_childs leave room for, failed forks included |
| `ServerLimits.WaitEntered` | src/smf_server.c:490-515 | With the children's steps in between, the parent only starts to wait behind the prefork loop, on a first test that finds max_childs reached, or behind the second disjunct |
| `ServerLimits.SpareWasTested` | src/smf_server.c:511-511 | The second disjunct is only read behind a first one that found spare_childs reached, with children's steps at most in between |
| `Server.SpareCanBeNegative` | src/smf_smtpd.c:498-499 | A run in which the counter is -1 |
| `ServerLimits.NegativeExactly` | src/smf_server.c:204-227 | In clean runs with room in the tables the counter is negative if and only if a child is being registered and every child has taken a client |
| `ServerLimits.NegativeInGeneral` | src/smf_server.c:204-271 | In every run it is negative if and only if double subtractions and a registration in flight outweigh waiting children, failed forks and a removal in flight |
| `Server.FailedForkDrifts` | src/smf_server.c:466-479 | A quiet run with no child and both counters at 1 |
| `Server.SubtractedTwice` | src/smf_server.c:264-270 | Any child that is missing from the active table after its decrement can be subtracted again |
| `Server.CrowdedTableDrifts` | src/smf_server.c:229-270 | With one slot and two preforked children a clean, quiet run ends at -1 with no child waiting |
| `Md5Rounds.Set` | src/smf_md5.c:203-205 | One macro step with its registers in rotated roles is the table-driven step of section 3.4 of RFC 1321 |
| `Md5Rounds.Round1` | src/smf_md5.c:199-223 | The first sixteen unrolled lines are steps 1 to 16 of the RFC loop |
| `Md5Rounds.Round2` | src/smf_md5.c:225-249 | The same for steps 17 to 32 |
| `Md5Rounds.Round3` | src/smf_md5.c:251-275 | The same for steps 33 to 48 |
| `Md5Rounds.Round4` | src/smf_md5.c:277-301 | The same for steps 49 to 64 |
| `Md5Spec.AssembleIsImage` | src/smf_md5.c:158-192 | Assembling four bytes gives exactly the word whose little-endian image they are, so both load branches agree |
| `Md5.Load` | src/smf_md5.c:177-192 | The assembled block is the sixteen little-endian words of section 3.4 |
| `Md5.State.Process` | src/smf_md5.c:131-310 | One call is one compression of the RFC for every state and block |
| `Md5.CountOffset` | src/smf_md5.c:327-327 | The low count word alone gives the fill of the carry buffer, at any message length |
| `Md5.CountAdvance` | src/smf_md5.c:334-337 | Two-word addition with carry is addition of bit lengths modulo 2^64 |
| `Md5.State.Append` | src/smf_md5.c:322-358 | Any append leaves registers, buffer and counter as one append of the concatenation would |
| `Md5.State.AppendPartial` | src/smf_md5.c:339-349 | Filling the carry buffer keeps the digested prefix, with the block processed if it is completed |
| `Md5.State.AppendBlocks` | src/smf_md5.c:351-357 | The block loop folds the compression over the whole blocks and keeps the rest |
| `Md5.StateIsDetermined` | src/smf_md5.c:322-358 | However a message is cut, count, registers and buffered tail are the same |
| `Md5.PadIsLeast` | src/smf_md5.c:375-375 | The modular formula gives the least padding of section 3.1, 1 to 64 bytes |
| `Md5.CountBytes` | src/smf_md5.c:372-373 | The eight saved bytes are those of the bit length modulo 2^64 |
| `Md5.LengthBytes` | src/smf_md5.c:371-373 | They are the length before padding, low-order byte first |
| `Md5.State.Finish` | src/smf_md5.c:360-380 | The digest is that of RFC 1321, and what has been processed is exactly the padded message |
| `Md5.DigestChunks` | src/smf_md5.c:312-380 | Init, any sequence of appends and finish give the RFC digest of the concatenation |
| `Md5.Md5Sum` | src/smf_core.c:135-150 | The hex form of the RFC digest of the string |
| `Md5.HexInjective` | src/smf_core.c:145-147 | The hex form loses nothing |
| `Md5.DigitIs` | src/smf_core.c:146-146 | A digit is '0' to '9' or 'a' to 'f' |
| `Md5Known.KnownDigest` | src/smf_core.c:135-150 | The digest of "Test string" is the one the unit test expects (test/test_core.c:125-129) |
| `Md5Known.SixtyFourSteps` | src/smf_md5.c:194-301 | The registers behind all 64 steps on its block, as numbers |
| `Md5Known.PaddedText` | src/smf_md5.c:360-375 | Its padding, byte by byte |
| `LineReader.Reader.constructor` | src/smf_internal.c:281-288 | A fresh buffer has everything still to be read |
| `LineReader.Reader.ReadChar` | src/smf_internal.c:306-323 | Takes the next byte of the stream, whatever the pieces it arrives in and whatever interruptions; the caller's byte stays at end of file |
| `LineReader.Reader.ReadLine` | src/smf_internal.c:275-304 | Result, stored text and remaining stream are those of the piece-wise reading of the stream, independent of chunking |
| `LineReader.LineIsRead` | src/smf_internal.c:290-303 | A line that fits is returned with its length and nothing behind it is touched |
| `LineReader.PieceIsRead` | src/smf_internal.c:290-303 | A full buffer without a line feed is returned as one piece, with a length that is one too large |
| `LineReader.NoPiece` | src/smf_internal.c:291-303 | What is left at end of file is returned with its last byte twice; a failing read loses it |
| `LineReader.LinesAreRead` | src/smf_internal.c:275-304 | A stream of lines that fit comes back as these lines |
| `LineReader.ReadingConserves` | src/smf_internal.c:290-303 | For lines of any length nothing is lost or reordered; the last byte is repeated if and only if the stream stops inside a piece |
| `LineReader.LineFeedEndsEvenly` | src/smf_internal.c:294-296 | A stream that ends in a line feed never stops inside a piece |
| `LineReader.ReadLines` | src/smf_internal.c:275-323 | Repeated calls return a function of the bytes that arrive, not of how they are cut |
| `LineReader.StreamIsRead` | src/smf_internal.c:275-323 | For lines that fit, in any partition with any interruptions, they are the lines |
| `DataReader.Stuffing` | src/smf_smtpd.c:183-194 | In place, the first dot is taken out and everything else kept |
| `DataReader.UnstuffAt` | src/smf_smtpd.c:183-194 | The dot taken out is the first one, wherever it stands |
| `DataReader.TakeNotes` | src/smf_smtpd.c:410-436 | The flag updates of the loop body with their conditions on the header part |
| `DataReader.BlankIs` | src/smf_smtpd.c:420-421 | The header part ends at a line that starts with a line feed or a carriage return |
| `DataReader.LineBreakOf` | src/smf_internal.c:346-357 | A line that ends in CRLF gives CRLF, one that ends in a bare LF gives LF, a carriage return without a line feed gives CR, and a line without either nothing |
| `DataReader.ReceiveData` | src/smf_smtpd.c:406-437 | The loop over the connection is the line-by-line reading of the stream, and stops behind the terminator |
| `DataReader.TerminatorIs` | src/smf_smtpd.c:407-407 | The loop ends at a piece that starts with a dot and LF or CRLF, and at no other |
| `DataReader.StuffRoundTrip` | src/smf_smtpd.c:407-408 | A stuffed line is never the terminator and dot removal restores it |
| `DataReader.Transparency` | src/smf_smtpd.c:406-437 | A stuffed body whose lines fit is stored unchanged, reading stops right behind the terminator, and the size is the body plus the removed dots |
| `LongLines.TransparentIff` | src/smf_smtpd.c:406-437 | For lines of any length the body arrives unchanged if and only if no later piece of a stuffed line starts with a dot and there is no NUL |
| `DataReader.EndOfFileEndsMessage` | src/smf_smtpd.c:406-437 | If the connection ends behind a line feed, the spool is the one the terminator would have left |
| `DataReader.ReceiveNotes` | src/smf_smtpd.c:406-437 | For any input the loop notes exactly the pieces its reader returns up to the terminator, and adds their bytes to the size |
| `DataReader.LinesAreNoted` | src/smf_smtpd.c:406-437 | Lines that fit the buffer are noted as they were before stuffing |
| `HeaderCompletion.AppendMissingHeaders` | src/smf_smtpd.c:214-299 | For every outcome of creating, opening, writing, removing and renaming: success, the new content, and whether the old file stays or is gone |
| `HeaderCompletion.CopiedExactly` | src/smf_smtpd.c:272-285 | The copy is the whole old file if and only if every block was taken whole, and is shorter otherwise |
| `HeaderCompletion.LostUnnoticed` | src/smf_smtpd.c:272-299 | Success is reported for a file that lacks text if and only if all checked steps went well and a block was not taken whole |
| `HeaderCompletion.CopyOld` | src/smf_smtpd.c:272-285 | The block copy appends what the writes took of the old file |
| `HeaderCompletion.FoundExactly` | src/smf_smtpd.c:410-428 | A flag is set if and only if such a header stands in front of the first blank line; the separator flag if and only if any line has a colon |
| `HeaderCompletion.FoundByName` | src/smf_smtpd.c:410-416 | Which flag stands for which header name |
| `HeaderCompletion.InsertedLines` | src/smf_smtpd.c:227-264 | Reading the inserted lines finds every header that was missing |
| `HeaderCompletion.InsertedText` | src/smf_smtpd.c:227-257 | The text that is inserted if all four are missing, in its order and to the byte |
| `HeaderCompletion.NothingKnown` | src/smf_smtpd.c:227-233 | Without a line break the word (null) is inserted in its place |
| `HeaderCompletion.FlagsPersist` | src/smf_smtpd.c:410-428 | What has been found stays found |
| `HeaderCompletion.FlagsFollow` | src/smf_smtpd.c:410-428 | A reader that is ahead in flags stays ahead over the same lines |
| `CompletedFile.ReceivedReads` | src/smf_smtpd.c:406-437 | The spool of any connection is what noting these pieces leaves |
| `CompletedFile.BreaksExactly` | src/smf_smtpd.c:418-418 | The line break is LF or CRLF if and only if the first piece with a carriage return or a line feed has a line feed |
| `CompletedFile.ProperBreak` | src/smf_smtpd.c:227-287 | With such a line break, or nothing to insert, a reader of any buffer size that holds the inserted lines finds all four headers if and only if it finds again those that were found |
| `CompletedFile.ImproperBreak` | src/smf_smtpd.c:227-287 | Without one, the file read by whole lines shows all four if and only if all but the first that was missing stand behind its old first line |
| `CompletedFile.CompletionIsIdempotent` | src/smf_smtpd.c:443-444 | For whatever arrived and a reader of any buffer size, the completed file ends in the spooled text, and a second completion leaves it alone if and only if all four headers are found in it |
| `CompletedFile.CompletedExactly` | src/smf_smtpd.c:406-444 | For whatever arrived, with lines of any length, the completed file shows all four headers if and only if a condition on the spool and its lines holds |
| `CompletedFile.WireToQueueFile` | src/smf_smtpd.c:406-444 | A stuffed message with lines of any length ends the completed file, unchanged if and only if its lines are safe and NUL-free, and the file shows all headers if and only if that condition holds |
| `CompletedFile.ShortLinesComplete` | src/smf_smtpd.c:406-444 | If its lines are NUL-free and fit the buffer, it is kept unchanged and all four headers are found if and only if it is not empty |
| `CompletedFile.StraddlingBreak` | src/smf_smtpd.c:418-418 | A first line whose CRLF straddles the end of the buffer arrives unchanged and spoils the completed file |
| `CompletedFile.HeaderInsideLine` | src/smf_smtpd.c:414-416 | A header name at the start of a later piece of a line is taken for a header, and none is inserted |
| `CompletedFile.NulHidesHeader` | src/smf_smtpd.c:430-430 | So is a header in the line behind one with a NUL, which is stored as one line with what is left of that one |
| `Commands.BracketedAddress` | src/smf_internal.c:218-230 | An address in angle brackets is taken out of whatever surrounds it |
| `Commands.PlainAddress` | src/smf_internal.c:231-234 | Without a complete pair of brackets the string is left alone |
| `Commands.AddressTag` | src/smf_session.c:120-125 | The IPv6 tag is taken off correctly if and only if it stands in front or nowhere |
| `Commands.TaggedAddress` | src/smf_session.c:120-125 | In front it is taken off, in any case |
| `Commands.FindIs` | src/smf_smtpd.c:576-576 | The case-insensitive search gives the first occurrence, and none only if there is none |
| `Commands.ArgumentIs` | src/smf_smtpd.c:167-180 | The argument is what stands between the white space behind the verb and at the end |
| `Commands.MailLine` | src/smf_smtpd.c:587-611 | MAIL FROM with a bracketed address, in any case and spacing, names that address |
| `Commands.RcptLine` | src/smf_smtpd.c:619-631 | The same for RCPT TO |
| `Commands.HelloLine` | src/smf_smtpd.c:539-556 | HELO and EHLO with a name, in any case and spacing |
| `Commands.EmptyHelloLine` | src/smf_smtpd.c:539-558 | HELO and EHLO without one |
| `Commands.DataLine` | src/smf_smtpd.c:639-639 | DATA is recognised in any case and with anything behind it |
| `Commands.ResetLine` | src/smf_smtpd.c:652-652 | RSET is recognised, and not taken for RCPT |
| `Commands.QuitLine` | src/smf_smtpd.c:534-534 | QUIT is recognised in any case and with anything behind it |
| `Commands.NoopLine` | src/smf_smtpd.c:661-661 | So is NOOP |
| `Commands.XforwardLine` | src/smf_smtpd.c:573-578 | XFORWARD names the stripped text behind its first ADDR=, in any case |
| `Commands.XforwardNothing` | src/smf_smtpd.c:573-585 | Without ADDR= it names nothing |
| `Commands.VerbsExactly` | src/smf_smtpd.c:534-669 | Every request is what its verb says, for all ten verbs, and unrecognised if and only if it starts with none of them |
| `Commands.OtherAnswers` | src/smf_smtpd.c:584-668 | NOOP, an unknown verb, XFORWARD without an address and MAIL and RCPT without an argument change nothing, and with which code they are answered |
| `Text.SameLetter` | src/smf_smtpd.c:534-534 | Verbs are compared without regard to the case of the letters A to Z, and of nothing else |
| `Commands.AddressedExactly` | src/smf_nexthop.c:50-56 | Delivery over SMTP leaves exactly those envelopes alone that have a sender and, unless the message names nobody, recipients; otherwise it sets the empty sender, or the addresses the message names |
| `Commands.Client.Handle` | src/smf_smtpd.c:534-669 | One turn of the loop, a DATA phase with its reading included, makes the transition that the run properties are proved about |
| `Commands.Client.ProcessData` | src/smf_smtpd.c:406-471 | The DATA phase adds the bytes it reads to the size of the session |
| `Commands.CutMessageIsProcessed` | src/smf_smtpd.c:406-470 | A DATA phase whose connection ends is carried out like one whose message was complete |
| `Commands.HandleClient` | src/smf_smtpd.c:528-670 | The loop over a connection, in any chunking, is the run over its lines up to QUIT |
| `Commands.AfterQuit` | src/smf_smtpd.c:534-538 | Nothing behind QUIT has an effect |
| `CommandHistory.SinceRenewalIs` | src/smf_smtpd.c:547-553 | What follows the last RSET, or HELO outside the initial state |
| `CommandHistory.RunInv` | src/smf_smtpd.c:528-670 | History invariant of every run, tying the state variable and the session to the log |
| `CommandHistory.StateExactly` | src/smf_smtpd.c:534-653 | The state variable, the greeting and the forwarded address of every run, as functions of its log |
| `CommandHistory.RenewalExactly` | src/smf_smtpd.c:547-553 | A HELO renews the session if and only if it is not in the initial state |
| `CommandHistory.QuitExactly` | src/smf_smtpd.c:534-538 | A run has ended if and only if one of its request lines starts with quit, in any case |
| `CommandHistory.SessionHistory` | src/smf_smtpd.c:602-661 | Since the renewal, or since a DATA phase that changed the envelope: the recipients are, in order, the stripped arguments of the RCPTs accepted, the sender that of the last MAIL; the size is that of all messages since the renewal, and the initial state has a fresh session |
| `CommandHistory.UntouchedRecipients` | src/smf_smtpd.c:626-631 | If no DATA phase changed the envelope they are those arguments and nothing else |
| `CommandHistory.LogPrefix` | src/smf_smtpd.c:528-670 | Every logged event comes from the run up to it |
| `CommandHistory.DataRunsExactly` | src/smf_smtpd.c:639-651 | DATA runs if and only if a MAIL and then an RCPT were accepted with no other state change since the MAIL |
| `CommandHistory.DataNeedsTransaction` | src/smf_smtpd.c:639-651 | Every DATA phase of every run has such a transaction in front of it |
| `CommandHistory.SecondDataNeedsNewMail` | src/smf_smtpd.c:639-651 | Between two DATA phases a new MAIL and then a new RCPT were accepted |
| `CommandHistory.RefusalsExactly` | src/smf_smtpd.c:602-646 | Each refusal of MAIL, RCPT and DATA if and only if the log lacks what the command needs |
| `CommandHistory.EnvelopeSetExactly` | src/smf_smtpd.c:547-570 | Sender and recipients are set if and only if a command or a DATA phase gave them and neither a renewal nor a DATA phase has taken them away since |
| `CommandHistory.TransactionIsComplete` | src/smf_smtpd.c:602-651 | Without an empty HELO, MAIL and RCPT imply a sender, and RCPT implies recipients |
| `CommandHistory.DeliveryFindsEnvelope` | src/smf_nexthop.c:45-56 | Then every DATA phase starts with an envelope that delivery over SMTP leaves alone |
| `CommandHistory.EmptyHelloLosesSender` | src/smf_smtpd.c:547-560 | With one, four request lines make a run in which DATA has no sender |
| `CommandHistory.MailKeepsRecipients` | src/smf_smtpd.c:602-615 | A transaction has exactly its own recipients if and only if none were left from before its MAIL |
| `CommandHistory.SenderHasNoLineFeed` | src/smf_smtpd.c:606-611 | The sender of any run over request lines has no line feed and makes a header line that fits the buffer |
| `CommandHistory.LinesAreRequests` | src/smf_internal.c:275-304 | What the reader returns are such lines, whatever arrives |
| `CommandHistory.SenderOfConnection` | src/smf_smtpd.c:528-619 | So it is for every connection |
| `CommandHistory.SizeExactly` | src/smf_smtpd.c:436-436 | A message is judged by its own bytes and those of all messages since the renewal |
| `CommandHistory.RefusedForSize` | src/smf_smtpd.c:448-450 | It is refused for its size if and only if these exceed the limit together |
| `CommandHistory.OnceTooBig` | src/smf_smtpd.c:448-450 | After one such refusal every message is refused until the session is renewed |
| `ModuleChain.ProcessQueue` | src/smf_modules.c:276-346 | Invocations, replies, flush, delivery, result and added header of the loop are those the properties below are proved about |
| `ModuleChain.ProcessModules` | src/smf_smtpd.c:137-165 | The engine's own reply comes behind all of that, unless the chain failed or stopped |
| `ModuleChain.ModulesRunInOrder` | src/smf_modules.c:286-321 | Modules run in list order, each at most once, and none after a result other than 0 |
| `ModuleChain.NexthopExactly` | src/smf_modules.c:326-342 | The nexthop is called, once, if and only if all results are 0, or zeros then a 2, and the flush succeeded and a nexthop is configured |
| `ModuleChain.ReplyCount` | src/smf_smtpd.c:85-165 | The number of final replies in every case |
| `ModuleChain.AtMostOneReply` | src/smf_smtpd.c:128-165 | At most one reply if and only if the nexthop is not called or gives 0, 1 or -1 |
| `ModuleChain.ExactlyOneReply` | src/smf_smtpd.c:85-165 | With module_fail 2 or 3 and a successful flush, exactly one if and only if the nexthop is not called or gives 0, 1 or -1, and two otherwise |
| `ModuleChain.OwnReplyMeansDelivered` | src/smf_smtpd.c:143-164 | The engine reports success if and only if the nexthop gave 0 or none is configured, or gave a result other than 1 and -1 |
| `ModuleChain.DeliveredThenAnswered` | src/smf_smtpd.c:150-164 | Success is reported behind the flush and the delivery |
| `ModuleChain.StoppedChain` | src/smf_modules.c:293-305 | A chain that stops early neither flushes nor delivers, and which reply it ends in: 552 or 451 for a failed module with module_fail 2 or 3 and none otherwise, 250 for result 1, and any other result as the code |
| `ModuleChain.PhaseReplies` | src/smf_smtpd.c:85-165 | All replies of the module phase with their codes, in every case |
| `ModuleChain.FinalReplies` | src/smf_smtpd.c:388-471 | All replies behind a DATA phase with their codes: 552 without a path and for a message that is too big, 451 without a file and for an unreadable message, and otherwise those of the module phase |
| `ModuleChain.QueueResult` | src/smf_modules.c:293-346 | The result of the loop in every case |
| `ModuleChain.IgnoredFailureIsSilent` | src/smf_smtpd.c:88-88 | With module_fail 1 a failure gives no reply and no delivery |
| `ModuleChain.HeaderLists` | src/smf_modules.c:314-320 | The added header lists the modules that finished; after a result of 2 it ends in a separator |
| `ModuleChain.HeaderText` | src/smf_modules.c:314-320 | The whole header for three modules that finish, to the byte |
| `ModuleChain.DataAnswers` | src/smf_smtpd.c:388-471 | For all settings and outcomes a message that is not spooled, too big or unreadable is answered once and reaches no module, and any other is answered as often as its module phase replies |
| `ModuleChain.SilentExactly` | src/smf_smtpd.c:388-471 | A DATA command gets no final reply if and only if the flush failed behind the modules, or a module failed and module_fail is neither 2 nor 3 |
| `ModuleChain.DataAnsweredOnce` | src/smf_smtpd.c:388-471 | With module_fail 2 or 3 and a successful flush, a DATA command is answered once if and only if it is refused or the nexthop's result does not make it twice |
| `QueueFile.BodyIs` | src/smf_message.c:393-406 | Behind header lines and a blank line (LF or CRLF) the body is everything that follows |
| `QueueFile.NoBody` | src/smf_message.c:393-406 | Without a blank line there is none |
| `QueueFile.BodyBehind` | src/smf_message.c:393-406 | The line that is skipped is a bare LF or CRLF: behind lines that are neither, both put everything that follows into the body |
| `QueueFile.BodyNowhere` | src/smf_message.c:393-406 | And nothing else does |
| `QueueFile.Sink.WriteAll` | src/smf_message.c:414-426 | Any pattern of short non-zero writes writes all |
| `QueueFile.WriteSkipHeader` | src/smf_message.c:383-432 | Writes and counts exactly the body for every file; after a failed write a prefix of it |
| `QueueFile.IsDirty` | src/smf_modules.c:369-404 | The nested scan decides whether each current header is kept in the initial list |
| `QueueFile.CleanIffPermutation` | src/smf_modules.c:369-404 | With distinct current names and no missing values it finds no change if and only if the lists are permutations of each other |
| `QueueFile.UnchangedIsClean` | src/smf_modules.c:376-393 | A list that did not change looks unchanged if and only if headers of the same name are equal |
| `QueueFile.LostValuesUnnoticed` | src/smf_modules.c:380-388 | A list that looks unchanged still does so when values have gone missing |
| `QueueFile.RepeatedNameHidesLoss` | src/smf_modules.c:376-394 | A change from some initial list goes unnoticed if and only if a name is repeated and all headers of the same name are equal |
| `QueueFile.ExactIffDistinct` | src/smf_modules.c:369-404 | The scan is exact against every initial list if and only if no name is repeated |
| `QueueFile.FlushDirty` | src/smf_modules.c:406-458 | The queue file stays, or becomes the message text followed by exactly the old body; after a failure it is the old one, or gone if removing succeeded and renaming failed |
| `Dict.ComputeHash` | src/smf_dict.c:46-61 | The loop is the recursive definition the cached hashes are compared with |
| `Dict.KnownHashes` | src/smf_dict.c:46-61 | The hash of three keys, one of them with a byte that is negative as a char |
| `Dict.ContentsIs` | src/smf_dict.c:152-172 | With unique keys the map is read off slot by slot |
| `Dict.SetSlot` | src/smf_dict.c:110-147 | Overwriting the key's slot, or a free one when there is none, is a map update |
| `Dict.ClearSlot` | src/smf_dict.c:222-229 | Freeing the key's slot is a map removal |
| `Dict.GrowSlots` | src/smf_dict.c:34-44 | Doubling keeps the map and the uniqueness of keys |
| `Dict.Dictionary.constructor` | src/smf_dict.c:63-74 | The empty map |
| `Dict.Dictionary.Search` | src/smf_dict.c:160-170 | The slot of the key, or the proof that no slot has it, although only equal hashes are compared |
| `Dict.Dictionary.Get` | src/smf_dict.c:152-172 | Map lookup |
| `Dict.Dictionary.Set` | src/smf_dict.c:94-150 | Map update, also when the table has to grow |
| `Dict.Dictionary.Grow` | src/smf_dict.c:125-136 | Twice the slots, the same map, and room for the key |
| `Dict.Dictionary.Probe` | src/smf_dict.c:141-143 | The wrapping search ends, on a free slot |
| `Dict.Dictionary.Remove` | src/smf_dict.c:198-230 | Map removal |
| `Dict.Dictionary.GetKeys` | src/smf_dict.c:232-249 | Each key of the map once, as many as are counted |
| `Dict.CopyUserData` | src/smf_internal.c:89-109 | An equal map in a new dictionary, empty for none |
| `Dict.OnDictionary` | src/smf_dict.c:63-249 | Any sequence of set, get and remove answers as on a map and leaves its keys |
| `Core.StripIs` | src/smf_core.c:40-51 | What is left when white space is taken off both ends |
| `Core.SpaceIs` | src/smf_core.c:42-44 | White space is what isspace accepts in the C locale |
| `Core.StripParts` | src/smf_core.c:40-51 | Only white space is removed, and all of it; stripping again changes nothing |
| `Core.StrStrip` | src/smf_core.c:40-51 | The in-place version on a C string |
| `Core.StrSplit` | src/smf_core.c:85-109 | The cursor loop gives the tokens between separators, the last one included |
| `Core.SplitJoins` | src/smf_core.c:97-101 | Joining the tokens gives the string back and no token has the separator |
| `Core.ExpandConcat` | src/smf_core.c:195-242 | Substitution is single-pass: each part of a format contributes its text and its count, and inserted text is never scanned |
| `Core.DirectiveExpands` | src/smf_core.c:199-220 | %s stands for the address, %u for its first part, %d for its second part or the error -1 if there is none, and anything else for the error -2; a text counts once |
| `Core.DirectivesMean` | src/smf_core.c:199-220 | %s is the address, %u what stands in front of its at sign, or all of it without one, %d what stands behind it, and -1 if and only if there is none; every other character, and a percent sign at the end, gives -2 |
| `Core.DomainEnds` | src/smf_core.c:203-213 | With several at signs %d ends in front of the second one |
| `Core.FirstBadDecides` | src/smf_core.c:206-219 | The first bad directive decides between -1 and -2, whatever follows |
| `Core.PlainText` | src/smf_core.c:241-241 | Text without a percent sign is copied and counts nothing |
| `Core.ExpandString` | src/smf_core.c:173-247 | The growing buffer ends with the single-pass result, its count and its exact size, for every format; and for which formats every moved range lies inside the reallocated block |

## Left out

- LDAP, SQL and Berkeley DB lookups, libesmtp delivery and loading of modules: foreign calls; a module and a nexthop are arbitrary results and an arbitrary envelope left behind, and the reload of a module's modified message is not modelled.
- libcmime's parser and serialiser: a message is its text, a header a name with values.
- Configuration parsing, settings, logging, daemonising, user switching, sockets, signals and alarms. A wake-up of the parent may happen at any time.
- Allocation failure, and death of a process while it holds the semaphore.
- Liveness of the spare pool: the wake-up is sent before the counter changes, so only safety holds.
- Pipelining: DATA reads through a buffer of its own, so bytes already buffered by the command loop are lost to it. DATA starts on a fresh stream here.
- Reply texts and the code table; a reply is a code from the session's response text or a standard one. A code without a text is answered with that of 451 by the original.
- Sizes beyond 2^31, apart from the digest's counters; `write_skip_header` returns its count in an int.
- The shared segment as an object that several processes alias: methods of `Server.Counters` are atomic, and interleaving is modelled on values.
- The parsing of a request line is one function used by the method and its specification; `Commands.VerbsExactly` and the line lemmas beside it say what it recognises.
- `smf_internal_readn`, `smf_internal_writen`, `smf_core_copy_to_fd`, dates, ids, random host choice, list and string setters: easy or environment-dependent.
- Commands.HandleClient: the stream a DATA command reads from is separate from that of the request lines, as the original has separate buffers.
- CompletedFile.CompletionIsIdempotent: generated ids, dates and the sender are arbitrary strings without line feeds; `CommandHistory.SenderOfConnection` gives the premise for the sender.
- CompletedFile.ImproperBreak: for a reader whose buffer holds the completed file; with a smaller one a header name can come to stand at the start of a piece by chance.
- HeaderCompletion.AppendMissingHeaders: failures of reading are not modelled, and a failed `fputs` is seen at once.
- QueueFile.CleanIffPermutation: missing header values compare equal to everything in the original and are excluded here; `QueueFile.LostValuesUnnoticed` says what they do.
- Md5.State.Append: requires that the partial block plus the length fits a C int, since the original adds them as ints.
