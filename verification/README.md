# A verified model of WebServ and its copy of siege

WebServ is a small HTTP server built around one `poll` loop; the repository
also carries siege 4.1.7, a load generator in C. This project models the parts
of both in which mutable state has to agree with something much simpler, and
proves that it does.

- `Crew`, `CrewEnds`, `CrewCalls`, `CrewQueue`: the thread pool. `Crew` is a transition
  system with a program counter per thread, wait sets, a lock owner and
  spurious wake-ups; a run is any interleaving of the workers and any number of
  callers. `CrewEnds` proves that calls return, `CrewCalls` what their answers
  mean. `CrewQueue` is the linked list that one thread at a time changes under
  the lock.
- `Md5Spec`, `Md5Block`, `Md5Ctx`, `Md5Laws`, `Md5Vector`: streaming MD5.
  `Md5Spec` is RFC 1321 (padding, length, table-driven rounds); the next two are
  the unrolled block function and the lazily buffered context. `Md5Laws` says
  what the operations on words are in numbers, and `Md5Vector` takes a test
  vector of the RFC through the definition.
- `GetoptSpec`, `Getopt`, `GetoptLaws`: GNU getopt in PERMUTE mode.
  `GetoptSpec` reads the argument vector from left to right and permutes
  nothing; `Getopt` is the scanner that rotates argv in place across calls.
  `GetoptLaws` writes command lines, and proves that reading gives back what was
  written.
- `ChunkedSpec`, `ChunkedPush`, `Uploads`, `ChunkedPull`, `Sock`: one encoder
  of the chunked transfer coding (section 7.1 of RFC 9112), the server's two
  push decoders, what becomes of several uploads that share their static
  buffers, and siege's pull decoder over its buffered reader.
- `HashTable`: the resizing chained hash table against a map.
- `UrlEscape`, `UrlLaws`: the two-pass URL escaper against percent-decoding, and
  byte by byte in the terms of RFC 1738.
- `PathCanon`: `removeslashes` and `out_root_dir` over `ft_split`.
- `PollSpec`, `PollLaws`, `PollServer`: the poll loop, its four parallel vectors and the
  life of a connection. `PollSpec` says what becomes of the vectors, and keeps
  an account of bytes and rounds for every connection; `PollLaws` says what that
  means for a single entry; `PollServer` is the server.
- `Options`, `Powers`: a value that may be missing, and powers of two.

Code that updates state in place is a class or a method with loops, proved
against a function; the properties are proved of that function, among them laws
that do not use its definition and fix what it answers. What the
operating system answers is arbitrary: sizes returned by `read` and `fread`,
descriptors from `socket` and `accept` (fresh or -1), events from `poll`, data
from `recv` and what the request handler makes of it, and which thread moves.

## Where the code is not what one would expect

Each of these comes with its exact condition and an input that meets it.

- `handleClientWrite` takes a `send` of zero bytes for a failure, and an empty
  response, which a CGI program that prints nothing leaves, is one: the client
  is erased, and the caller goes on with a reference to whatever stands in its
  place (`PollSpec.LooksAtItsClient`, `PollSpec.MuteRound`,
  `PollSpec.LooksBehindExactly`). It cuts off another client
  (`PollSpec.EmptyResponseCutsOffAnother`) or reads behind the vector
  (`PollSpec.EmptyResponseReadsBehind`).
- `http_read` keeps the free space of its buffer in an `int`. It is right for
  contents of up to 2^31 bytes and for no others: then a negative length
  becomes a huge one, and what is left of the stream is stored whole or leaves
  the allocation (`ChunkedPull.HttpRead`, `ChunkedPull.BigBody`).
- The carry test of `md5_process_block` compares with the whole length, so one
  aligned call of 2^32 bytes or more can count 2^32 bytes too many
  (`Md5Ctx.CountUpExact`, `Md5Ctx.PiecesClaimTruth`, `Md5Ctx.LongCallMiscounts`).
- `hash_remove` frees the whole chain: other keys of the bucket go as well
  (`HashTable.RemovesAlone`, `HashTable.RemovingLosesAnother`). Its comment
  promises to remove an element.
- `__url_has_method` returns an index, and the index of " GET" is 0, which is
  `NOMETHOD`: URLs that name GET are escaped, also when they name another
  method (`UrlEscape.UrlHasMethod`, `UrlEscape.GetHidesPost`).
- `chunked_for_cgi` lets `substr` throw when a read ends between the data of a
  chunk and the end of the line end behind it (`ChunkedPush.FeedCgi`,
  `ChunkedPush.CutThrows`), and both push decoders drop what follows the last
  chunk in the same buffer (`ChunkedPush.DrainDropsTheRest`,
  `ChunkedPush.CgiDropsTheRest`).
- The buffers of both push decoders are static variables of their functions,
  shared by all clients. Uploads stay apart exactly as long as the reads pass
  from one to another only where a chunk (for `chunked_for_cgi`, a body) ends
  (`Uploads.UploadsApart`, `Uploads.CgiUploadsApart`); otherwise they mix
  (`Uploads.UploadsMix`).
- siege reads a size line of more than 1021 digits in parts: the chunk is taken
  for the last one, or the rest of its line for data
  (`ChunkedPull.SizeLineFits`, `ChunkedPull.HttpRead`,
  `ChunkedPull.LongSizeLine`, `ChunkedPull.LongChunkLine`).
- A blocking pool without room, and a pool without workers but with room, can
  hold a caller up for ever (`Crew.NoDeadlockExactly`, `Crew.NoRoomDeadlocks`,
  `Crew.NoWorkerDeadlocks`).

## Model

| member | source | states |
|---|---|---|
| Crew.RunInv | siege-4.1.7/src/crew.c:97-286 | Every state of every interleaving of the workers, any number of crew_add callers and crew_join callers satisfies the whole protocol invariant: one lock owner, at most one closer, counters that describe the list, and a reason for every sleeping thread. |
| Crew.NoLostWakeups | siege-4.1.7/src/crew.c:104-145 | In every reachable state a thread asleep on not_empty faces an empty queue and, after shutdown, a broadcast still owed to it; one asleep on not_full a full queue or an owed broadcast; the joiner asleep on empty a non-empty queue or an owed signal. |
| Crew.QueueAccounts | siege-4.1.7/src/crew.c:119-194 | Over every run the accepted jobs in order are the jobs taken in order followed by the queue; cursize and total count them whenever the lock is free, and cursize stays within maxsize. What crew_add answers is the matter of CrewCalls.AddAnswers. |
| Crew.JoinDrains | siege-4.1.7/src/crew.c:224-286 | When crew_join is about to return TRUE every worker has exited and every job taken has run exactly once; with finish, that is every job accepted. |
| Crew.CanMoveExactly | siege-4.1.7/src/crew.c:97-286 | A thread has a step of its own (not the start of a call, not a spurious wake-up) exactly when it is not asleep, not blocked on the lock and not waiting in pthread_join for a running worker. |
| Crew.NoDeadlock | siege-4.1.7/src/crew.c:104-286 | With a worker, and room or no blocking, a reachable state in which nobody can move is a finished one: all callers are back, and the pool is idle with an empty queue or has shut down with all workers gone. |
| Crew.NoRoomDeadlocks | siege-4.1.7/src/crew.c:165-169 | For every number of workers, a blocking pool with maxsize 0 has a run that ends with the first crew_add asleep for ever. |
| Crew.NoWorkerDeadlocks | siege-4.1.7/src/crew.c:243-263 | Without workers but with room there is a run that ends with crew_join(finish) asleep for ever. |
| Crew.NoDeadlockExactly | siege-4.1.7/src/crew.c:51-286 | No reachable state without moves holds a caller up if and only if the pool has a worker and (room or no blocking), or has neither workers nor room and does not block. |
| CrewEnds.SteadyLowers | siege-4.1.7/src/crew.c:97-286 | Every move of any thread that neither starts a call nor is a spurious wake-up lowers the measure of the state, whatever it wakes. |
| CrewEnds.SteadyRunsEnd | siege-4.1.7/src/crew.c:97-286 | From any state, a run without new calls and spurious wake-ups takes at most as many steps as the measure of that state. |
| CrewEnds.AtRest | siege-4.1.7/src/crew.c:97-286 | Where no such move is left nobody can move, and no call has only to return. |
| CrewEnds.CallsReturn | siege-4.1.7/src/crew.c:51-286 | Every call returns: from any reachable state of a lively pool, a run without new calls and spurious wake-ups is bounded, under any schedule, and when it can go on no further all callers are back. |
| CrewCalls.AddAnswers | siege-4.1.7/src/crew.c:150-197 | Over every run, for every crew_add from its start to its return: it answers TRUE if and only if the call had its job accepted, and then exactly once; it answers FALSE if and only if the call found the pool full and not blocking on entry, or closed or shut down behind its wait. |
| CrewCalls.JoinAnswers | siege-4.1.7/src/crew.c:222-286 | Over every run, for every crew_join from its start to its return: it answers TRUE if and only if this call closed the pool, and FALSE if and only if it found it closed or shut down on entry. |
| CrewCalls.ClosedPoolsLullNobody | siege-4.1.7/src/crew.c:165-169 | Nobody goes to sleep on not_full once the pool is closed or shut down. |
| CrewCalls.ClosedAcceptsNothing | siege-4.1.7/src/crew.c:170-175 | Over every run, no job is accepted once the pool is closed. |
| CrewCalls.ShutTakesNothing | siege-4.1.7/src/crew.c:113-117 | Over every run, no worker takes a job once the pool is shut down, whatever is left in the queue. |
| Crew.InHandUpdate | siege-4.1.7/src/crew.c:119-143 | A step of one worker changes what the workers have in hand by exactly what that worker takes up or puts down. |
| CrewQueue.Queue.Add | siege-4.1.7/src/crew.c:176-194 | The linked list gains the work at its end, and nothing else changes; head and tail stay the ends of the list. |
| CrewQueue.Queue.Take | siege-4.1.7/src/crew.c:119-126 | The linked list loses its first work; the last one leaves head and tail null. |
| CrewQueue.Queue.Destroy | siege-4.1.7/src/crew.c:288-299 | Every node left in the list is freed exactly once, from the head on. |
| Md5Block.FFIsF | siege-4.1.7/src/md5.c:271-273 | The optimised FF is the function F of RFC 1321. |
| Md5Block.FGIsG | siege-4.1.7/src/md5.c:271-273 | The reuse of FF for FG is the function G of RFC 1321. |
| Md5Block.StepIsOp | siege-4.1.7/src/md5.c:315-364 | One OP in place is one table-driven step of section 3.4 of RFC 1321: word index, shift and constant included. |
| Md5Block.RoundStep | siege-4.1.7/src/md5.c:315-426 | Step s of round r of the RFC is an OP with the function, the shift and the constant of that round. |
| Md5Block.StepsCompose | siege-4.1.7/src/md5.c:335-426 | Steps i to j and then j to k are steps i to k, so that the four rounds in turn are all 64 steps. |
| Md5Block.FourSteps | siege-4.1.7/src/md5.c:335-426 | Four OPs with the registers in turn are four steps of the RFC, after which the roles are back where they were. |
| Md5Block.Round1 | siege-4.1.7/src/md5.c:335-351 | The unrolled round 1 takes any registers to where steps 1 to 16 of the RFC take them. |
| Md5Block.Round2 | siege-4.1.7/src/md5.c:366-384 | The unrolled round 2 takes any registers to where steps 17 to 32 of the RFC take them. |
| Md5Block.Round3 | siege-4.1.7/src/md5.c:387-405 | The unrolled round 3 takes any registers to where steps 33 to 48 of the RFC take them. |
| Md5Block.Round4 | siege-4.1.7/src/md5.c:408-426 | The unrolled round 4 takes any registers to where steps 49 to 64 of the RFC take them. |
| Md5Block.OneBlock | siege-4.1.7/src/md5.c:300-433 | One pass of the block loop is the compression of section 3.4 applied to that block. |
| Md5Ctx.AbsorbAppend | siege-4.1.7/src/md5.c:300-433 | Compressing the whole blocks of a concatenation is compressing those of its parts in turn. |
| Md5Ctx.CountUpExact | siege-4.1.7/src/md5.c:295-296 | The two-word byte counter is right modulo 2^64 if and only if the call is below 2^32 bytes or its low word wraps anyway; otherwise it is 2^32 too high. |
| Md5Ctx.TrailerIsBitLength | siege-4.1.7/src/md5.c:117-123 | The two words written behind the padding are the 64-bit little-endian bit length of the counted bytes. |
| Md5Ctx.Context.constructor | siege-4.1.7/src/md5.c:64-74 | A new context stands for the empty message. |
| Md5Ctx.Context.ProcessBlock | siege-4.1.7/src/md5.c:280-440 | The registers absorb every block of the argument; the counter moves as the carry test has it. |
| Md5Ctx.Context.FillBuffer | siege-4.1.7/src/md5.c:210-229 | The buffer is topped up to at most 128 bytes and keeps at most one block unprocessed; registers, counter and buffer describe the longer message. |
| Md5Ctx.Context.WholeBlocks | siege-4.1.7/src/md5.c:231-257 | In either alignment branch blocks of the source are absorbed until at most 64 bytes are left, in order; it says exactly when the counter miscounts. |
| Md5Ctx.Context.ProcessBytes | siege-4.1.7/src/md5.c:205-265 | Whatever is in the buffer, the context afterwards describes the message so far followed by the new bytes; it says exactly which calls miscount. |
| Md5Ctx.Context.Finish | siege-4.1.7/src/md5.c:101-129 | The digest is that of everything fed, padded as RFC 1321 has it, with a length field 2^32 too high for every miscounting call. |
| Md5Ctx.ClaimIsTrue | siege-4.1.7/src/md5.c:117-123 | The padded message is that of RFC 1321 if and only if the number of miscounts is a multiple of 2^29. |
| Md5Ctx.LongCallMiscounts | siege-4.1.7/src/md5.c:295-296 | A single aligned call of 2^32 + 1 bytes is counted as lost, and the blocks hashed are not those of RFC 1321. |
| Md5Ctx.DigestOfPieces | siege-4.1.7/src/md5.c:64-265 | For every way of cutting a message into calls, aligned or not, the result is the digest of its bytes with a length field 2^32 too high for each of `Lost` calls, a number computed from the sizes and alignments of the calls; it is the digest of RFC 1321 if that number is a multiple of 2^29, in particular if every aligned call is below 2^32 bytes. |
| Md5Ctx.ShortCallsLoseNothing | siege-4.1.7/src/md5.c:205-296 | Only aligned calls of 2^32 bytes or more can miscount. |
| Md5Ctx.PiecesClaimTruth | siege-4.1.7/src/md5.c:101-129 | For any sequence of calls, the blocks hashed are those of RFC 1321 if and only if the number of calls lost is a multiple of 2^29. |
| Md5Ctx.DigestOfStream | siege-4.1.7/src/md5.c:134-183 | md5_stream returns the digest of RFC 1321 of the file, however fread delivers it. |
| Md5Laws.LittleEndianAt | siege-4.1.7/src/md5.c:76-92 | Byte k of a number as the digest writes it is the number divided by 256^k, modulo 256. |
| Md5Laws.WordIsLittleEndian | siege-4.1.7/src/md5.c:318 | The words of a block are loaded low-order byte first: writing a word as the digest does gives back its four bytes. |
| Md5Laws.RotlRotates | siege-4.1.7/src/md5.c:327 | Rotation by k bits in numbers: high * 2^(32-k) + low becomes low * 2^k + high. |
| Md5Vector.Md5OfAlphanumeric | siege-4.1.7/src/md5.c:300-433 | The digest of the 62 letters and digits, which fill two blocks, is the one listed in appendix A.5 of RFC 1321. |
| GetoptSpec.MatchIsUnique | siege-4.1.7/src/getopt.c:643-700 | At most one outcome of a long-option lookup satisfies the rule: an exact name wins, otherwise the only abbreviation, otherwise ambiguous. |
| GetoptSpec.Lookup | siege-4.1.7/src/getopt.c:643-700 | The lookup satisfies that rule for every table and name. |
| GetoptLaws.FoundByName | siege-4.1.7/src/getopt.c:660-700 | An option is found by its whole name, at the first place that has it, and by the beginning of its name if no other name begins that way. |
| GetoptLaws.NotFoundByName | siege-4.1.7/src/getopt.c:643-691 | A name is unknown if and only if no option begins with it, and ambiguous if two do and none is called that. |
| GetoptSpec.ParsePartitions | siege-4.1.7/src/getopt.c:550-625 | What the left-to-right reading consumes and what it leaves are together, as multisets, exactly the elements read. |
| GetoptSpec.ParseKeepsOrder | siege-4.1.7/src/getopt.c:550-625 | There is one marking of the elements read such that those consumed are the marked ones and those left the unmarked ones, each in their original order. |
| Getopt.BottomIsShort | siege-4.1.7/src/getopt.c:331-349 | When the bottom segment is the shorter one, swapping it with the far end of the top segment leaves a smaller exchange that completes the original one. |
| Getopt.TopIsShort | siege-4.1.7/src/getopt.c:350-371 | When the top segment is the shorter one, swapping it with the near end of the bottom segment does likewise. |
| Getopt.BlockSwap | siege-4.1.7/src/getopt.c:307-371 | The in-place loop terminates and leaves the two adjacent segments exchanged, each in its order, and everything else untouched. |
| Getopt.Scanner.Exchange | siege-4.1.7/src/getopt.c:307-385 | exchange rotates argv between first_nonopt and optind, and the new bounds describe the moved non-options. |
| Getopt.FindLong | siege-4.1.7/src/getopt.c:660-700 | The loop over the long options finds what the lookup rule says, and stops early only on an exact name. |
| Getopt.Scanner.DoubleDash | siege-4.1.7/src/getopt.c:580-596 | `--` joins the consumed elements and everything behind it the skipped ones. |
| Getopt.Scanner.Advance | siege-4.1.7/src/getopt.c:550-625 | Up to the next option element the scanner moves, extends or rotates its groups so that the run as a whole still comes to the same parse; at the end, argv and optind are final. |
| Getopt.Scanner.DecodeOne | siege-4.1.7/src/getopt.c:643-961 | One option is decoded out of the current element, with its argument from the same element, the next one or nowhere, as the specification has it, and optind and nextchar move accordingly. |
| Getopt.Scanner.Next | siege-4.1.7/src/getopt.c:520-961 | One call returns the next report of the parse, or -1 exactly at its end. |
| Getopt.Run | siege-4.1.7/src/getopt.c:520-961 | For every argv and every option string that asks for permutation (no leading `-` or `+`) and has no `W;`, calls until -1 return the reports of the left-to-right parse and leave argv as argv[0], everything consumed in order, everything else in order, with optind at the first of the rest. |
| GetoptLaws.LongRead | siege-4.1.7/src/getopt.c:701-749 | Reading the element that was written for a long option, with its value behind `=`, in the next element or without one, reports the val of the option, or 0 if it has a flag, with exactly that value and the place of the option, and takes exactly its elements. |
| GetoptLaws.WrongRead | siege-4.1.7/src/getopt.c:683-763 | An unknown or ambiguous long option is reported as `?` with optopt 0, and one given a value that it does not take as `?` with its val in optopt. |
| GetoptLaws.FlagsRead | siege-4.1.7/src/getopt.c:769-791 | The short options of one element are reported one by one in order, an unknown character as `?` with itself in optopt. |
| GetoptLaws.ValueDecoded | siege-4.1.7/src/getopt.c:924-961 | A short option with an argument reports the rest of its element, or else the next element if it needs one, or none if its argument is optional. |
| GetoptLaws.EndRead | siege-4.1.7/src/getopt.c:580-961 | At the end of the vector `--` ends the options, and a missing argument is reported as `:` if optstring begins with a colon and as `?` otherwise, with the option in optopt. |
| GetoptLaws.CommandLineIsRead | siege-4.1.7/src/getopt.c:520-961 | For every configuration and every list of items that can be written for it (words, long options by whole or abbreviated name, mistakes, groups of short options, values joined or apart, and an end), reading the vector written gives back one report for every option of every item, in order and with its own value, consumes the elements of the options and leaves the words. With getopt_long_only the items include names behind a single dash. |
| ChunkedPush.HexToInt | request/post_request.cpp:60-74 | The loop computes the hexadecimal number of the digits of the line, skipping every other character. |
| ChunkedSpec.DigitValues | request/post_request.cpp:60-74 | The sixteen digits have their values in either case, and there are no others. |
| ChunkedPush.OthersSkipped | request/post_request.cpp:60-74 | A character that is no digit changes nothing, wherever it stands in the line. |
| ChunkedPush.DrainOfPrefix | request/post_request.cpp:95-130 | For every prefix of a body in the sense of section 7.1 of RFC 9112, the decoder hands over some first chunks whole, keeps a rest that starts at a size line, and is complete if and only if nothing is yet to come. |
| ChunkedPush.DrainAppend | request/post_request.cpp:95-130 | For any bytes, two calls hand over and keep what one call on both reads would, until a body ends; what follows its end is thrown away. |
| ChunkedPush.RestEmptyExactly | request/post_request.cpp:95-130 | After any part of a body nothing is left in the buffer if and only if the part ends where a chunk or the body ends, or is empty. |
| ChunkedPush.DrainDropsTheRest | request/post_request.cpp:113-118 | Whatever follows a whole body in the same buffer is thrown away. |
| ChunkedPush.Decoder.Chunked | request/post_request.cpp:95-130 | One call hands the sink the chunks that the buffer and the read complete, in order, and keeps the rest. |
| ChunkedPush.FeedAll | request/post_request.cpp:95-130 | However a body is cut into reads, the handler gets exactly its chunks in order, the client is complete after exactly those calls that have received the whole body, and the static buffer is left empty, as it was found. |
| ChunkedPush.UploadAlone | request/post_request.cpp:95-130 | A body of one byte in one read is handed over whole and is complete. |
| ChunkedPush.CgiOfPrefix | request/post_request.cpp:3-36 | For every prefix of a body: chunked_for_cgi throws if and only if the prefix ends between the data of a chunk and the end of its line end; it ends, with the content, as soon as the last size line is there; otherwise it waits with the content so far. |
| ChunkedPush.CgiAppend | request/post_request.cpp:3-36 | For any bytes, two calls of chunked_for_cgi come to what one call on both reads would, unless the first one throws. |
| ChunkedPush.CgiDecoder.ChunkedForCgi | request/post_request.cpp:3-36 | One call does to the two static strings what the prefix specification says, also when substr throws: then the line of the size is gone and the data already belongs to the result. |
| ChunkedPush.FeedCgi | request/post_request.cpp:3-36 | Over any cutting of a body, the first result is an exception if and only if some read ends inside such a line end, and otherwise exactly the content, with both static strings left empty, as they were found. |
| ChunkedPush.CutThrows | request/post_request.cpp:30-34 | A body of one byte in two reads, cut before the line end of its chunk, is one on which FeedCgi ends with the exception. |
| ChunkedPush.CgiDropsTheRest | request/post_request.cpp:3-36 | Whatever follows a whole body in the same buffer is thrown away here too. |
| Uploads.SharingExactly | request/post_request.cpp:3-130 | For any decoder that keeps something in static variables, and any sequence of calls for any number of uploads: every call works on what its own upload would have left if and only if nothing is kept whenever the calls pass from one upload to another. |
| Uploads.UploadsApart | request/post_request.cpp:95-130 | For any calls on behalf of any number of bodies, whole or not: every call of chunked works on the buffer that its own upload would have left, if and only if at every change of the upload the bytes received of the one before end where one of its chunks or its body ends. |
| Uploads.FeedShared | request/post_request.cpp:95-130 | Under that condition every handler gets exactly the chunks of its own body and every upload is complete after exactly those calls that end with its whole body received, with one static buffer for all. |
| Uploads.UploadsMix | request/post_request.cpp:95-130 | The condition fails when a body arrives between two reads of another: its handler is given the data of the other one, and neither is ever complete. |
| Uploads.CgiUploadsApart | request/post_request.cpp:3-36 | Where no call throws, every call of chunked_for_cgi works on the strings that its own upload would have left, if and only if the calls change the upload only when nothing of the one before has been received or it has been returned. |
| Uploads.FeedSharedCgi | request/post_request.cpp:3-36 | Under that condition every upload is returned with its own content, by exactly the call that brings its last size line. |
| ChunkedPull.HttpChunkSize | siege-4.1.7/src/http.c:552-580 | The size of the next line of the stream, or of the 1023 bytes of it that the buffer holds, taken off it; -1 for a blank or non-hexadecimal line, and the value truncated to an int. |
| ChunkedPull.ChunkSizes | siege-4.1.7/src/http.c:565-580 | A line without hexadecimal digits at its front gives -1; any other line the number of these digits as an int, also behind 0x, or 0 if that number has more than 64 bits. |
| ChunkedPull.SizeLineFits | siege-4.1.7/src/http.c:559-563 | A size line is read as one line if and only if it has at most 1021 digits. |
| ChunkedPull.LongSizeLine | siege-4.1.7/src/http.c:559-563 | An empty body whose last size line has 1022 zeros is one on which HttpRead leaves the line end of the body in the stream. |
| ChunkedPull.LongChunkLine | siege-4.1.7/src/http.c:559-563 | A chunk of one byte with 1023 leading zeros is one that HttpRead takes for the last one. |
| ChunkedPull.StrayBytesStay | siege-4.1.7/src/http.c:618-658 | What is stored at a size line that is too long can be continued to the content if and only if the data of that chunk begins with the same bytes as the rest of its line. |
| ChunkedPull.StrayLineEnd | siege-4.1.7/src/http.c:618-658 | A chunk of one byte with 1021 leading zeros is stored as a newline, which is its data or is not. |
| ChunkedPull.Page.SpaceInBuf | siege-4.1.7/src/http.c:636-638 | The int that measures the free space is right up to 2^31 bytes of content and negative at 2^31, since sizes are powers of two. |
| ChunkedPull.Page.Append | siege-4.1.7/src/http.c:639-654 | The bytes read join the page, and a full buffer is doubled, so that there is room for more at every loop head. |
| ChunkedPull.ReadData | siege-4.1.7/src/http.c:635-656 | The inner loop stores exactly the chunk data and takes exactly that off the stream if and only if the content stays within 2^31 bytes; otherwise the first 2^31 bytes of content are stored, and the next read has a negative length. |
| ChunkedPull.ReadBeyond | siege-4.1.7/src/http.c:636-641 | The read with a negative length asks for 2^64 - 2^31 bytes: it takes what is left of the stream, up to that many, and writes it behind the text, or behind the allocation if it is more than 2^31 bytes. |
| ChunkedPull.HttpRead | siege-4.1.7/src/http.c:618-658 | On a stream that begins with any body, http_read stores exactly the content and leaves exactly what follows the body, without going astray, if and only if the content has at most 2^31 bytes and every size line at most 1021 digits. Beyond 2^31 bytes one read leaves the allocation, or stores more than the content and everything behind the body together and empties the stream. At the first size line of a chunk that is too long the page ends early or takes the rest of the line for data; a last one of up to 2044 zeros leaves the final line end in the stream. |
| ChunkedPull.ReadChunk | siege-4.1.7/src/http.c:635-656 | The chunk is stored as it is, or, behind a size line that was read in part, as many bytes as that part says from the rest of the line on; or the read with a negative length comes. |
| ChunkedPull.BigBody | siege-4.1.7/src/http.c:618-658 | There is a body with short size lines whose content passes 2^31 bytes. |
| Sock.Conn.Refill | siege-4.1.7/src/sock.c:618-640 | Shifting and refilling lose, repeat and reorder nothing of the stream; nothing is buffered beyond 4096 bytes, and only the end of the stream reads as such. |
| Sock.Conn.SocketRead | siege-4.1.7/src/sock.c:610-658 | The result is the next min(len, remaining) bytes of the stream for any sizes that read(2) returns, and between calls the buffer is never full. |
| Sock.Conn.SocketReadline | siege-4.1.7/src/sock.c:665-696 | For every maxlen from 1 on, the result is the stream up to its first newline, or maxlen - 1 bytes of it; the return value is below 1 if and only if the stream has ended and maxlen leaves room for a byte. |
| Sock.LineTaken | siege-4.1.7/src/sock.c:665-696 | A line that fits is taken with its newline, of a longer one as much as fits, and a last one without newline whole. |
| HashTable.SpreadMultiplies | siege-4.1.7/src/hash.c:386-399 | The shifts and additions multiply by the FNV prime modulo 2^32, for every 32-bit value. |
| HashTable.FnvAppend | siege-4.1.7/src/hash.c:386-399 | The hash of a longer string is one more octet mixed into the hash of the shorter. |
| HashTable.Hash.constructor | siege-4.1.7/src/hash.c:64-79 | A new table stands for the empty map. |
| HashTable.Hash.Lookup | siege-4.1.7/src/hash.c:421-435 | True if and only if the map has the key. |
| HashTable.Hash.Get | siege-4.1.7/src/hash.c:151-165 | The value the map has for the key, or none. |
| HashTable.Hash.Insert | siege-4.1.7/src/hash.c:134-142 | A key that was not there is added to map, chain and count, and every node sits in the bucket of its key. |
| HashTable.Hash.Resize | siege-4.1.7/src/hash.c:323-350 | The same nodes, relinked in place into a table at least twice as large, hold the same map; the load is below a quarter. |
| HashTable.Hash.Nadd | siege-4.1.7/src/hash.c:122-144 | The map keeps what it had and gains the key only if it was missing; the size grows when the load reaches a quarter. |
| HashTable.Hash.EntriesCount | siege-4.1.7/src/hash.c:84-88 | The field entries is the number of keys of the map. |
| HashTable.Hash.Remove | siege-4.1.7/src/hash.c:174-202 | Exactly the keys that share the removed key's bucket leave the map, and none when the key is missing. |
| HashTable.RemovesAlone | siege-4.1.7/src/hash.c:189-201 | A key is removed alone if and only if no other key of the table shares its bucket. |
| HashTable.RemoveExactly | siege-4.1.7/src/hash.c:174-202 | Removing a missing key changes nothing; removing a key of the table takes exactly the keys of its bucket, and every other key keeps its value. |
| HashTable.AddExactly | siege-4.1.7/src/hash.c:122-144 | Inserting a key of the table changes nothing; inserting another one adds it alone, and the table grows, to between two and four times its size, if and only if it is a quarter full. |
| HashTable.GrownDoubles | siege-4.1.7/src/hash.c:90-101 | A new size is the first power of two times the start that reaches the size asked for. |
| HashTable.RemovingLosesAnother | siege-4.1.7/src/hash.c:189-201 | In a new table, removing "qy" also loses "awd". |
| HashTable.Hash.KeysOfChain | siege-4.1.7/src/hash.c:240-246 | The keys of one chain are written behind those already written, within the allocation. |
| HashTable.Hash.GetKeys | siege-4.1.7/src/hash.c:227-249 | The result lists each key of the map exactly once. |
| HashTable.FirstWriteWins | siege-4.1.7/src/hash.c:122-144 | After any sequence of insertions, whatever the resizes, the table holds for every key the first value written for it. |
| HashTable.Replay | siege-4.1.7/src/hash.c:122-202 | After any sequence of insertions and removals on a new table, map and size are those of the fold over the sequence, with at most a quarter of the size in entries. |
| UrlEscape.MacroIsHexDigit | siege-4.1.7/include/joedog/defs.h:33-35 | The arithmetic macro ISXDIGIT accepts exactly the hexadecimal digits, for all 256 bytes. |
| UrlEscape.OctetOfDigits | siege-4.1.7/include/joedog/defs.h:41-44 | The two digits written for a byte are hexadecimal and read back as that byte. |
| UrlLaws.OctetIs | siege-4.1.7/include/joedog/defs.h:41-44 | Two hexadecimal digits in either case stand for sixteen times the value of the first plus that of the second. |
| UrlLaws.Written | siege-4.1.7/include/joedog/defs.h:42 | The digits written are the upper-case digits of the two halves of the byte. |
| UrlLaws.Tables | siege-4.1.7/src/url.c:1164-1192 | Outside the reserved characters, letters, digits and the marks ! $ ' ( ) * , - . _ are safe and all other bytes are not: control characters, space, double quote, percent sign, angle brackets, backslash, caret, backquote and everything from 0x7B on. |
| UrlLaws.EscapesExactly | siege-4.1.7/src/url.c:1203-1225 | One step through a path: a triplet for a letter, a digit or a mark becomes that byte and any other triplet stays; of the bytes outside triplets letters, digits, marks and delimiters stay and all others become triplets. |
| UrlEscape.EscapeKeepsMeaning | siege-4.1.7/src/url.c:1203-1225 | Percent-decoding the escaped path gives what percent-decoding the path gives, for every path. |
| UrlEscape.EscapeTwice | siege-4.1.7/src/url.c:1203-1225 | Escaping an escaped path changes nothing. |
| UrlEscape.EscapedIsWellEscaped | siege-4.1.7/src/url.c:1309-1325 | Every percent sign of an escaped path is followed by two hexadecimal digits, and every other byte is safe or reserved. |
| UrlEscape.CountsPredictLength | siege-4.1.7/src/url.c:1279-1302 | The length predicted from the byte-by-byte counts is the length written, although the writer skips three bytes at a time. |
| UrlEscape.NothingToDo | siege-4.1.7/src/url.c:1294-1295 | Both counts are zero if and only if escaping changes nothing. |
| UrlEscape.UrlHasMethod | siege-4.1.7/src/url.c:1227-1242 | The index of the first name found in table order, which is NOMETHOD for GET: a method is reported if and only if GET is not named and another one is. |
| UrlLaws.MethodNames | siege-4.1.7/src/url.c:1232-1234 | The nine names looked for, letter by letter. |
| UrlLaws.OnlyThePath | siege-4.1.7/src/url.c:1264-1277 | In scheme://host/path exactly the path is escaped, unless the URL is left alone for a method name. |
| UrlLaws.NoPath | siege-4.1.7/src/url.c:1272-1277 | A URL without a slash is left as it is. |
| UrlEscape.GetHidesPost | siege-4.1.7/src/url.c:1227-1260 | A URL that names GET and POST is escaped and changed, although it names POST. |
| UrlEscape.CountingPass | siege-4.1.7/src/url.c:1281-1292 | The counts of the path, reading nothing behind its terminator. |
| UrlEscape.WritingPass | siege-4.1.7/src/url.c:1304-1326 | The second pass fills exactly the room asked for, with the prefix, the escaped path and a terminator, and never reads behind the string. |
| UrlEscape.UrlEscape | siege-4.1.7/src/url.c:1244-1328 | The result is the URL itself when it is left alone or has no path, and else its prefix and its escaped path. |
| UrlEscape.EscapeUrlTwice | siege-4.1.7/src/url.c:1244-1328 | Escaping a whole URL twice is escaping it once, also where the path begins anew and where escaping hides a method name. |
| UrlEscape.EscapeUrlKeepsMeaning | siege-4.1.7/src/url.c:1244-1328 | Percent-decoding the escaped URL gives what percent-decoding the URL gives. |
| PathCanon.WordSize | c_tools/tools.cpp:3-20 | The count is the number of maximal runs of other characters. |
| PathCanon.Split | c_tools/tools.cpp:71-98 | Every word gets a slot of its own in order, and the table has exactly the slots counted before and the final null. |
| PathCanon.SplitJoined | c_tools/tools.cpp:71-98 | Splitting joined words gives the words back. |
| PathCanon.WordsApart | c_tools/tools.cpp:71-98 | A separator anywhere parts the words before it from those behind it and makes none of its own. |
| PathCanon.RemoveSlashes | request/request.cpp:94-109 | The loop leaves one slash for every run of slashes. |
| PathCanon.SqueezedIsSingle | request/request.cpp:94-109 | The result has no two slashes in a row, and a string is unchanged if and only if it had none. |
| PathCanon.StaysInside | request/request.cpp:179-190 | The check passes if and only if no prefix of the segments has more ".." than other segments. |
| PathCanon.Stack | request/request.cpp:192-202 | The stack never underflows and ends as the resolved segments. |
| PathCanon.PairCancels | request/request.cpp:192-202 | A segment and the ".." behind it can be left out anywhere without changing acceptance or result. |
| PathCanon.NoUpIsNormal | request/request.cpp:192-202 | Segments without ".." are accepted and stay as they are; with PairCancels this fixes the result for every path. |
| PathCanon.ResolvedKeeps | request/request.cpp:192-202 | What is left are segments of the path other than "..". |
| PathCanon.OutRootDir | request/request.cpp:170-224 | A path is accepted if and only if its segments stay inside, and then becomes the root and the resolved segments; a refused path is left alone. |
| PathCanon.CanonicalWords | request/request.cpp:203-214 | The segments of the result are the resolved segments, none of them empty or "..". |
| PathCanon.CanonicalIsSingle | request/request.cpp:203-214 | The result has no two slashes in a row. |
| PathCanon.CanonicalIsRooted | request/request.cpp:203-214 | The result begins with a slash, has no two in a row, and ends in one only if it is the root. |
| PathCanon.RootedUnique | request/request.cpp:203-214 | A string of that form is determined by its segments. |
| PathCanon.CanonicalExactly | request/request.cpp:170-224 | A path is accepted and left as it is if and only if it has that form and no segment "..". |
| PathCanon.WrittenPaths | request/request.cpp:170-224 | In paths written from segments: one that begins with ".." is refused, a segment and ".." behind it can be left out, and without ".." the path stays as written. |
| PathCanon.CanonicalTwice | request/request.cpp:170-224 | A result is accepted again and unchanged by a second application. |
| PathCanon.SqueezingDecidesNothing | request/request.cpp:94-109 | Calling removeslashes first changes neither acceptance nor result, also for strings with a NUL inside. |
| PollSpec.RoundsSendAll | server/server.cpp:313-359 | Over its rounds a response is sent once and then the whole file in order, in floor(F / 4096) + 1 rounds; without a file, in one. |
| PollSpec.AgreeAccept | server/server.cpp:119-127 | A new descriptor at the end of three vectors keeps them in agreement. |
| PollSpec.AgreeErase | server/server.cpp:157-173 | Erasing a client from three vectors keeps them in agreement. |
| PollSpec.LooksAtItsClient | server/server.cpp:295-306 | After the round of a polled client, the reference of line 295 still stands for that client if and only if its response was sent before, or is not empty, or the connection is kept alive. |
| PollSpec.MuteRound | server/server.cpp:295-337 | Otherwise the client is erased and the code goes on with the next client: that one stays if it has an open file, and else is reset or closed in its place; after the last client there is none. |
| PollSpec.LooksBehindExactly | server/server.cpp:295-337 | The code looks behind the end of the vector of clients if and only if the client with nothing to send is the last one and not kept alive. |
| PollSpec.EmptyResponseCutsOffAnother | server/server.cpp:295-337 | Of two clients that a server has accepted and that wait to be written to, one with an empty response is closed and takes the other, with its response unsent, along. |
| PollSpec.EmptyResponseReadsBehind | server/server.cpp:295-337 | With a server and a single client with an empty response the code reads behind the end of the vector. |
| PollSpec.RoundSettles | server/server.cpp:283-359 | A round with something to send keeps the vectors in agreement and all books exact: sent plus pending is due, and rounds had plus rounds to come are rounds needed. |
| PollSpec.RequestKeeps | server/server.cpp:248-281 | Whatever the request handler makes of a client that has been read, the vectors stay in agreement, and the books stay exact unless its request is complete with an empty response. |
| PollServer.Server.InitializeServers | server/server.cpp:32-52 | Every configuration gets the descriptor answered for it, and the polled descriptors are those of the servers that could be opened, in order and different. |
| PollServer.Server.AcceptClient | server/server.cpp:100-132 | A new connection is one client and one entry more at the end of three vectors, and all vectors still agree. |
| PollServer.Server.CloseClientConnection | server/server.cpp:134-178 | In any state of the vectors: nothing for a bad index, an entry less for an unknown client, a reset for a client kept alive, and else the client is gone from all three. |
| PollServer.Server.HandleClientWrite | server/server.cpp:313-359 | In any state of the vectors: nothing for a bad index; an entry less for an unknown client; a client with an empty response not yet sent is closed; else one round sends the response if it was not sent, and the next 4096 bytes of the file or what is left of it, and closes the file when a read comes short. |
| PollServer.Server.SendChunk | server/server.cpp:341-358 | At most 4096 bytes of an open file are sent, in order; the file is closed exactly when the read comes short. |
| PollServer.Server.OnWritable | server/server.cpp:283-308 | Exactly the vectors and books that a round comes to, for any client that waits, also when the client at the old index is another one by then; it is broken off exactly where there is no client at that index. |
| PollServer.Server.OnReadable | server/server.cpp:232-282 | A server entry calls accept exactly when its configuration names a server block, and a descriptor is one client more; a client entry calls recv, is closed without data, and otherwise becomes what the request handler answers, empty responses included, waiting for POLLOUT exactly when the request is complete. |
| PollServer.Server.ProcessRequest | server/server.cpp:248-281 | The client at the descriptor becomes what the request handler makes of it; if that is complete, the entry asks for POLLOUT and a response, a file and their rounds are due. |
| PollServer.Server.HandleEntry | server/server.cpp:216-308 | One pass of the loop body does what the events reported ask for; the books stay exact as long as every complete request has a non-empty response. |
| PollServer.Server.OnError | server/server.cpp:216-231 | An error closes a client and leaves a server alone. |
| PollLaws.HasBlockExactly | server/server.cpp:234-246 | The entry of a server leads to its own configuration, and to accept if and only if the block this names is one of those that exist, the first one included. |
| PollLaws.AcceptBrings | server/server.cpp:232-246 | Where every configuration names a block that exists, handling a readable entry of a server calls accept once; a descriptor is one new client and one entry waiting for POLLIN at the end, and nothing else changes. |
| PollLaws.ReadBrings | server/server.cpp:248-281 | Handling a readable entry of a client calls recv once; 0 or less ends the connection; otherwise the client is what the request handler made of it, and waits for POLLOUT if and only if its request is complete. |
| PollLaws.FailureEnds | server/server.cpp:216-231 | An error ends the connection of a client, leaves a server alone, and calls neither accept nor recv. |
| PollLaws.CloseEnds | server/server.cpp:134-178 | A connection that ends is gone from all vectors, its descriptor included, or, if it is kept alive, is as newly accepted and waits for POLLIN; nothing else changes. |
| PollLaws.RoundEnds | server/server.cpp:283-359 | After a round of a client with something to send: if its open file had at least 4096 bytes left the client goes on with the rest of them, and otherwise its connection ends. |
| PollSpec.OutcomeOwnEntry | server/server.cpp:211-309 | Handling an entry leaves all entries below it where and as they are, and those above it in order. |
| PollServer.Server.Sweep | server/server.cpp:211-309 | The entries handled are those present at poll time, each exactly once and as it was polled, from the last to the first, the guard on idx never skipping one, unless the code looks behind the vector of clients; and that does not happen while all responses are non-empty. Where every configuration names a block that exists, the sweep calls accept once for every readable entry of a server and recv once for every readable entry of a client. |
| PollServer.Server.Download | server/server.cpp:283-307 | The rounds of any waiting connection, with or without a file, kept alive or not, send what is pending of the response and the whole file, and close or reset it in round floor(F / 4096) + 1. |
| PollServer.Server.DownloadRound | server/server.cpp:283-307 | One such round sends the next bytes and leaves the client with the rest, or closes or resets it after the last. |
| PollServer.Server.StartServer | server/server.cpp:203-311 | After any number of rounds, whatever the system answers, the four vectors agree and all descriptors differ, unless the code has looked behind the vector of clients. If no complete request was given an empty response, it has not, and for every client sent plus pending is due and rounds had plus rounds to come are rounds needed, however the rounds of the clients interleave; the configured servers keep the descriptors first answered. |

## Left out

- Getopt.Run: does not model the orderings REQUIRE_ORDER and RETURN_IN_ORDER, so it takes option strings without a leading `-` or `+` and an environment without POSIXLY_CORRECT; nor the `W;` extension, a program that sets optind itself, argc 0, or the text of error messages.
- Crew.JoinDrains: does not model the 60-second time-out of crew_join, crew_cancel, crew_set_shutdown, pthread errors or a pthread_create that fails; all of them bypass the lock protocol.
- CrewEnds.CallsReturn: counts the steps taken without spurious wake-ups and new calls; that a thread that can move is scheduled at all, and that a work routine returns, is taken for granted.
- Md5Ctx.DigestOfPieces: does not say that different lengths give different digests, which is a property of the compression and not of the code.
- Md5Ctx.DigestOfStream: does not model read errors of the stream.
- ChunkedPull.HttpRead: takes a well-formed body, and realloc is taken to succeed; what the loop does after a read with a negative length, or after it has stored the wrong bytes for a chunk, is not modelled (the page only grows, so what has been stored stays), nor that at the end of a truncated stream it does not end.
- ChunkedPush.FeedAll: takes chunk sizes that an int can hold, as `hex_to_int` overflows on longer digit strings; so does Uploads.FeedShared.
- ChunkedPush.FeedCgi: what the server does after the exception is not modelled.
- Uploads.FeedSharedCgi: takes calls none of which throws and none of which comes for an upload that has been returned; the string in which the caller collects results is not modelled.
- Uploads.UploadsApart: is about the buffer a call works on; a call on the wrong buffer may still happen to hand over the right bytes.
- ChunkedPush.HexToInt: does not model the overflow of the int result.
- Sock.Conn.SocketRead: does not model time-outs, read errors and the SSL branch.
- HashTable.Hash.Resize: does not model the overflow of the int size beyond 2^30 buckets, and memory is not freed; the destroyers are left out.
- HashTable.Hash.GetKeys: returns an empty sequence where the source returns NULL.
- UrlEscape.UrlEscape: does not model the overflow of the int lengths; the result is the string, not the pointer that may be shared with the argument.
- PathCanon.OutRootDir: does not model failing allocations or the memory that a refused path leaves behind.
- PollServer.Server.HandleClientWrite: takes every send to send its whole buffer; partial and failing sends are not modelled. A failing send closes the client as an empty response does.
- PollServer.Server.StartServer: says nothing of what happens after the code has looked behind the vector of clients.
- PollServer.Server.ProcessRequest: what check_request does to a client is arbitrary, except that it gives it no other descriptor and does not mark its response as sent.
- Chunk extensions and trailer fields, the content-length and read-to-end branches of http_read, gzip and HTTP parsing.
- `boundary` and `create_file` of the server, which rewrite line ends and empty the buffer on a read without a boundary.
- Configuration parsing, response texts, CGI processes, cookies, logging, statistics and dates.
- OpenSSL, zlib, NTLM and DES.
- `array.c`, `page.c`, `perl.c`, `util.c`, `creds.c`, getters and setters.
