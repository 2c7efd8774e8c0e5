# rp-lib-utils, modelled in Dafny

rp-lib-utils is a C toolbox: small protocols, index structures and two-way codecs. This project
models the ones whose code decides something hard, and proves what the code promises about them,
for all inputs, all runs and all interleavings.

`dafny verify dfyconfig.toml` checks everything. One module follows one source file, or one part
of it:

| module | models |
|---|---|
| `WebSockFrame`, `WebSock` | the resumable frame reader and the writer of `src/sandbox/websock.c`, against the one-shot definition of sections 5.2 and 5.3 of RFC 6455 |
| `LockAny` | the per-item reader/writer lock of `src/sandbox/lockany.c`, as a transition system of atomic sections and as methods that are these sections |
| `Sha1`, `Sha1Example` | `src/misc/sha1.c` against FIPS 180-4, and its example |
| `Json`, `Unpack`, `UnpackProofs` | the format scanner of `src/json/rp-jsonc.c`, against a recursive reading of format trees |
| `Pack`, `PackProofs`, `PackBack` | the packer of `src/json/rp-jsonc.c`, against a recursive making of shapes, and what the scanner gives back of what it packs |
| `JsonMerge` | comparison, containment, merge and array insertion of `src/json/rp-jsonc.c` |
| `JsonClone` | cloning to a depth in `src/json/rp-jsonc.c`, on nodes with an identity |
| `U16Id` | the packed id map of `src/sandbox/u16id.c`, down to the 64-bit words of its one block |
| `GlobMatch`, `GlobSet` | `src/sandbox/globmatch.c` and `src/sandbox/globset.c` |
| `Expand` | the `$ref` expander of `src/json/rp-jsonc-default-expand.c` over `src/json/rp-jsonc-expand.c` |
| `EvTimer` | the timers and the loop states of `src/sandbox/ev-mgr.c` |
| `PathSearch` | the shared search paths of `src/misc/rp-path-search.c` |
| `JsonText`, `JsonStr`, `JsonExact` | the recogniser and the escapers of `src/json/rp-jsonstr.c`, against the grammar of RFC 8259 and the larger one that is accepted |
| `Escape` | `src/http/rp-escape.c` against RFC 3986 |
| `Base64` | `src/misc/rp-base64.c` against RFC 4648 |
| `JsonPath` | `src/json/rp-jsonc-path.c` |
| `Bytes`, `Bounded`, `Sets`, `Wrappers` | octets and numbers, writing in a buffer that may be too short, sizes of sets, values that may be missing |

What the source changes step by step is a class or a method over arrays, proved against a
specification function; what the source promises is then proved about that function, by laws
that do not call it: what it keeps, what reads it back, what it is on the examples of a standard.
Where the code falls short of a promise, a lemma or a method gives the input, and the exact
condition is proved:

- `LockAny.Room`: the 15-bit counters are right if and only if fewer than 32767 tickets claim the item; `LockAny.NullItem`: two items share a locker when one of them is the null pointer; `LockAny.TryWrite`: the try-lock for writing keeps exclusion if and only if it is refused or nobody holds the item, and `LockAny.TryWriteBreaks` is a run where it does not; `LockAny.Overflow`: the state where the counters are full is reached; `LockAny.StaleFlag`: a writer may have to sleep in front of a free item, as the flag of readers outlives them.
- `Sha1.PaddingRoom`: the local buffer of the padding is one byte short for the messages whose last block has 56 bytes.
- `U16Id.Packed.Add`: with 65535 pairs the count wraps, and `U16Id.Packed.AddNew` and `U16Id.Packed.Set` associate a new id if and only if there are less; `U16Id.FewWords`: sets of ids never come near.
- `JsonMerge.NullHides`: strings that differ after a null are equal; `JsonMerge.EqualIsStructural` and `JsonMerge.ClippedSame` say exactly what equality is and when it is that of values.
- `JsonMerge.JoinIdempotent`: joining twice is joining once if and only if no array grows, for both ways to join; `JsonMerge.JoinTwice` gives an input on which only one of them is idempotent.
- `EvTimer.LostWakeUp`: a timer added in the millisecond the alarm went off for is never armed; `EvTimer.Mgr.TimerSet` and `EvTimer.Mgr.AddTimer` say exactly when.
- `PathSearch.NotFirst`, `PathSearch.FirstOfAll`: prepending directories does not always put them first, and the condition is exact; `PathSearch.Paths.AddRef`: the counts are exact if and only if the 16-bit count does not wrap.
- `Escape.ArgsRoundTrip`, `Escape.UrlBack`: the list of one empty key without value is the only one that does not come back; `Escape.ReservedEnough`, `Escape.Unescape`: the text reserved, and the length given, are those of the meaning if and only if no percent is malformed.
- `JsonExact.Exact`, `JsonExact.PlusOne`: the recogniser accepts more than the JSON texts its header speaks of, and exactly the texts of a looser grammar; `JsonExact.LeadingZero`: numbers with leading zeros are some of them.
- `GlobMatch.DoubledLoses`: a pattern with two stars in a row always loses a text of its usual language; `GlobMatch.Usual`: a pattern without them loses none.
- `JsonPath.TextBack`: the text of a path tells the path if and only if no key has a period or an opening bracket.
- `JsonStr.Test`: the size given for a refused empty text of limit 0 is the largest size.

The header of `src/sandbox/globmatch.c` speaks of a matching score without defining it; the model
follows the code, where the character right after a star is literal, even if it is a star.

## Model

| member | source | states |
|---|---|---|
| `WebSockFrame.MaskedTwice` | src/sandbox/websock.c:502-535 | Masking is its own inverse for every key and payload (section 5.3 of RFC 6455) |
| `WebSockFrame.MaskedAppend` | src/sandbox/websock.c:502-556 | A payload unmasked in two pieces, the second with the key rotated by the length of the first, is the payload unmasked at once |
| `WebSockFrame.WireHeadFields` | src/sandbox/websock.c:128-148 | The length and the key read from a written header are those that were written, for the three length encodings |
| `WebSockFrame.ScanAfterWhole` | src/sandbox/websock.c:313-491 | Reading whole frames and then more bytes is the same as reading them in a row: the meaning of a stream does not depend on where a frame ends |
| `WebSockFrame.ScanWireAll` | src/sandbox/websock.c:103-156 | Any sequence of data frames, masked or not, is read back as the same opcodes, fin bits and payloads |
| `WebSockFrame.WireAllSnoc` | src/sandbox/websock.c:103-156 | Sending one more frame appends its header and its masked payload to the stream, and to nothing before it |
| `WebSockFrame.Shortest` | src/sandbox/websock.c:128-148 | Among all the headers that announce a payload and a mask, the one written is the shortest (section 5.2 of RFC 6455) |
| `WebSockFrame.OnlyHead` | src/sandbox/websock.c:128-148 | It is the only header of that size with that first octet and that key |
| `WebSockFrame.WireHeadSize` | src/sandbox/websock.c:128-148 | The extended length takes 0, 2 or 8 octets, by the bounds 126 and 65536, and the key takes 4 |
| `WebSockFrame.FirstByteIs` | src/sandbox/websock.c:319-340 | The first octet is worth 128 for fin, 16 for each reserved value, and its opcode |
| `WebSockFrame.FirstByteOk` | src/sandbox/websock.c:407-483 | The first octets that are not refused are exactly those that a sender of data writes; control frames are the opcodes 8, 9 and 10 |
| `WebSockFrame.Judged` | src/sandbox/websock.c:407-483 | A whole header is too long, accepted, or a protocol error, by its length first and then by its first octet |
| `WebSockFrame.ScanCut` | src/sandbox/websock.c:272-556 | A stream that is cut inside a frame gives nothing of its header, and then the payload received so far, in clear |
| `WebSockFrame.SmallHeads` | src/sandbox/websock.c:128-148 | The short headers of the examples of section 5.7 of RFC 6455 |
| `WebSockFrame.LongHeads` | src/sandbox/websock.c:128-148 | The headers of 256 and 65536 octets of the examples of section 5.7 |
| `WebSockFrame.Hello` | src/sandbox/websock.c:502-535 | The frames of the examples of section 5.7, masked, unmasked and in two fragments |
| `WebSock.Endpoint.constructor` | src/sandbox/websock.c:313-323 | A new endpoint satisfies the invariant |
| `WebSock.Endpoint.ReadHeader` | src/sandbox/websock.c:272-282 | A short, empty or failed read keeps the bytes of the header already read; never more than szhead bytes are held |
| `WebSock.Endpoint.ComputeLength` | src/sandbox/websock.c:373-392 | The length is the big-endian number of the header, for 7, 16 and 64 bits |
| `WebSock.Endpoint.ComputeMask` | src/sandbox/websock.c:398-405 | The key is the last four bytes of the header, or null |
| `WebSock.Endpoint.Accept` | src/sandbox/websock.c:373-483 | A complete header is announced or refused as the one-shot reading of all consumed bytes says |
| `WebSock.Endpoint.Begin` | src/sandbox/websock.c:319-363 | The first two bytes fix the size of the whole header; incomplete headers deliver nothing |
| `WebSock.Endpoint.Dispatch` | src/sandbox/websock.c:313-500 | In every state and for every behaviour of the transport, what was delivered so far is the one-shot reading of the consumed bytes; lenhead <= szhead <= 14 is kept |
| `WebSock.Endpoint.Leave` | src/sandbox/websock.c:485-489 | A frame with nothing left to read is left |
| `WebSock.Endpoint.Unmask` | src/sandbox/websock.c:502-535 | The byte and word loops compute payload[i] xor key[i mod 4] in place, touch nothing else, and leave the key rotated for the next piece, whatever the alignment |
| `WebSock.Endpoint.Read` | src/sandbox/websock.c:537-556 | At most what remains of the frame is read, in clear, and it extends the last delivered part |
| `WebSock.Endpoint.Pump` | src/sandbox/websock.c:313-556 | However the transport cuts, delays or fails, the frames delivered over a whole run are those of the one-shot definition of sections 5.2 and 5.3 of RFC 6455 |
| `WebSock.SendV` | src/sandbox/websock.c:103-156 | What is sent is one header, the shortest that section 5.2 allows for the total size, followed by the buffers, or EINVAL for a negative count or more than 31 buffers |
| `WebSock.SendOne` | src/sandbox/websock.c:103-156 | One message is sent as the bytes of its frame, which the reader accepts under the same limit |
| `WebSock.SendAll` | src/sandbox/websock.c:103-156 | What the sender gives to writev, message after message, is the stream of the frames of these messages |
| `WebSock.Receive` | src/sandbox/websock.c:272-556 | Any stream, even malformed, is read through any transport and any buffer as its one-shot reading, verdict included |
| `WebSock.MakeHeader` | src/sandbox/websock.c:128-148 | The header is the shortest of all those that section 5.2 of RFC 6455 allows for the size, with the first octet given and no mask |
| `WebSock.Exchange` | src/sandbox/websock.c:103-556 | End to end: messages sent one after the other, and read through any transport with any buffer, are received in order and in clear |
| `LockAny.Where` | src/sandbox/lockany.c:59-67 | The search that remembers a free locker still finds the locker of the item if there is one |
| `LockAny.Get` | src/sandbox/lockany.c:50-92 | A locker of the item is always obtained, found, recycled or created |
| `LockAny.NextOk` | src/sandbox/lockany.c:116-194 | Every enabled atomic section, in any interleaving, keeps the invariant of flags, counts and holders; the try-lock for writing is enabled when it is refused or the item is free |
| `LockAny.ReachableOk` | src/sandbox/lockany.c:116-194 | The invariant holds in every reachable state |
| `LockAny.NextEffect` | src/sandbox/lockany.c:116-194 | Each enabled section has exactly its effect: who holds, who sleeps, who is signalled, on that item only, with nothing else changed |
| `LockAny.LockEffect` | src/sandbox/lockany.c:116-154 | A call that locks holds at once if its mode is free to take the item, and sleeps otherwise |
| `LockAny.TryReadEffect` | src/sandbox/lockany.c:128-142 | After a try-lock for reading, the ticket holds the item for reading if and only if nobody holds it for writing; all other claims are unchanged |
| `LockAny.TryWriteEffect` | src/sandbox/lockany.c:156-170 | After a try-lock for writing, the ticket holds the item unless it is refused, and that is when both flags are up |
| `LockAny.WakeEffect` | src/sandbox/lockany.c:106-154 | A signalled ticket that wakes up holds its item or sleeps again |
| `LockAny.UnlockEffect` | src/sandbox/lockany.c:172-194 | Unlocking removes the claim of the ticket only, and signals the sleepers of the item when the last holder leaves |
| `LockAny.UnlockUsed` | src/sandbox/lockany.c:172-194 | The locker stays used exactly when a call on the item is left |
| `LockAny.SignalsLast` | src/sandbox/lockany.c:172-194 | Signals are sent by a writer, or by the only reader of the item, when others are left |
| `LockAny.ReadFlagMeans` | src/sandbox/lockany.c:128-154 | A reader that holds is seen by the flag, and the flag is only up while some reader claims the item |
| `LockAny.StaleFlag` | src/sandbox/lockany.c:106-194 | A run after which the flag of readers is up on an item that nobody holds: a writer then has to sleep |
| `LockAny.Exclusion` | src/sandbox/lockany.c:116-194 | In every reachable state, who holds an item for writing is its only holder |
| `LockAny.Counters` | src/sandbox/lockany.c:116-194 | cntr and cntw are the numbers of readers and writers that hold or wait, and an item has one locker at most |
| `LockAny.Recycling` | src/sandbox/lockany.c:50-104 | A locker changes of item only when it has no holder and no waiter |
| `LockAny.NoLostWakeUp` | src/sandbox/lockany.c:106-154 | Who sleeps without having been signalled still sees its item locked against it |
| `LockAny.NoDeadlock` | src/sandbox/lockany.c:106-194 | When nobody holds an item that is waited for, some signalled waiter of it gets it by waking up |
| `LockAny.Room` | src/sandbox/lockany.c:42-43 | The 15-bit counters are right as long as, and only as long as, fewer than 32767 readers or writers claim the item |
| `LockAny.CrowdReached` | src/sandbox/lockany.c:42-43 | Any number of readers of one item below 32768 is reached by as many calls |
| `LockAny.Overflow` | src/sandbox/lockany.c:42-43 | The state with 32767 readers is reached, and one more reader makes its counter 0 |
| `LockAny.NullItem` | src/sandbox/lockany.c:59-103 | The null item is not a usable item: its locker is taken by another item and the two then share it |
| `LockAny.TryWrite` | src/sandbox/lockany.c:156-170 | The try-lock for writing is granted unless both flags are up; exclusion, then and in all later states, is kept if and only if it is refused or nobody holds the item |
| `LockAny.TryWriteBreaks` | src/sandbox/lockany.c:156-170 | The run that breaks exclusion: a reader, then a try-lock for writing, and both hold the item |
| `LockAny.Pool.LockerGet` | src/sandbox/lockany.c:50-92 | The two loops over the list compute the specified locker |
| `LockAny.Pool.LockerRelease` | src/sandbox/lockany.c:94-104 | A locker without holder or waiter is freed |
| `LockAny.Pool.LockRead` | src/sandbox/lockany.c:116-126 | The method is the atomic step, with its effect: the ticket holds for reading exactly when no writer holds, and sleeps otherwise |
| `LockAny.Pool.LockWrite` | src/sandbox/lockany.c:144-154 | The method is the atomic step, with its effect: the ticket holds for writing exactly when neither flag is up, and sleeps otherwise |
| `LockAny.Pool.TryLockRead` | src/sandbox/lockany.c:128-142 | It returns 0 exactly when the ticket then holds the item for reading, and X_EAGAIN exactly when the item is locked for writing; no other claim changes |
| `LockAny.Pool.TryLockWrite` | src/sandbox/lockany.c:156-170 | It returns 0 exactly when the ticket then holds the item for writing, and X_EAGAIN exactly when both flags are up; no other claim changes |
| `LockAny.Pool.Unlock` | src/sandbox/lockany.c:172-194 | The claim of the ticket is removed, and no other; it tells if a call on the item is left |
| `Sha1.MacrosAre` | src/misc/sha1.c:52-56 | The boolean expressions of the round macros are Ch and Maj of section 4.1.1 of FIPS 180-4 |
| `Sha1.Roots` | src/misc/sha1.c:52-56 | The constants are the square roots of 2, 3, 5 and 10 to thirty binary places (section 4.2.1) |
| `Sha1.RoundsUndone` | src/misc/sha1.c:52-100 | For a given block the rounds are one to one: the variables come back from the result |
| `Sha1.Forward` | src/misc/sha1.c:89-95 | What the rounds make is added to the hash value before the block, so that the value is found back by subtraction |
| `Sha1.BlocksInTurn` | src/misc/sha1.c:116-139 | Blocks are hashed from the first to the last, each from the value after those before it, and nothing else of them matters |
| `Sha1Example.Abc` | src/misc/sha1.c:104-169 | The digest of the three bytes abc is the one that FIPS 180 gives as an example |
| `Sha1.SwapLoad` | src/misc/sha1.c:39-41 | Swapping a little-endian load gives the big-endian word |
| `Sha1.Blk0` | src/misc/sha1.c:39-43 | The first sixteen words are those of the schedule |
| `Sha1.Circular` | src/misc/sha1.c:48-49 | The slots of the circular buffer are those of the words t-3, t-8, t-14 and t-16 |
| `Sha1.Blk` | src/misc/sha1.c:48-49 | Each word written in the circular buffer is the word of the schedule of section 6.1.2 |
| `Sha1.R` | src/misc/sha1.c:52-56 | One macro, with its renamed variables, is one round |
| `Sha1.FiveRounds` | src/misc/sha1.c:70-89 | Five macros bring the variables back to their names |
| `Sha1.Transform` | src/misc/sha1.c:59-100 | The unrolled rounds over sixteen words equal the 80-word schedule and the 80 rounds of section 6.1.2 |
| `Sha1.Context.constructor` | src/misc/sha1.c:104-113 | A new context stands for the empty message |
| `Sha1.Context.Update` | src/misc/sha1.c:116-139 | Updating appends to the message, whatever the split of the data |
| `Sha1.Context.Final` | src/misc/sha1.c:143-169 | The digest is that of the message padded as in section 5.1.1 |
| `Sha1.MakePadding` | src/misc/sha1.c:147-162 | The padding loop writes the padding of section 5.1.1 |
| `Sha1.FewestZeros` | src/misc/sha1.c:147-162 | The zero bytes are the fewest that complete a block (section 5.1.1) |
| `Sha1.PaddedApart` | src/misc/sha1.c:147-162 | Two different messages are never padded to the same blocks |
| `Sha1.PaddingRoom` | src/misc/sha1.c:147-162 | The 71 bytes of the local buffer hold the padding if and only if the last block of the message has not exactly 56 bytes |
| `Sha1.BitLengthExact` | src/misc/sha1.c:154-162 | The length field is exact for all messages under 2^61 bytes |
| `Sha1.HashAll` | src/misc/sha1.c:116-169 | Any cut of a message into updates gives the digest of the whole message |
| `Unpack.Vunpack` | src/json/rp-jsonc.c:386-675 | The loop over the explicit stack is the iteration of its step on every format text, even malformed; what the step does with a value is pinned by Stored, StoredString, StoredSized, StoredBytes, CallMember and CallItem |
| `UnpackProofs.RunStripped` | src/json/rp-jsonc.c:412-421 | Blanks between the characters of a format change nothing |
| `UnpackProofs.RunValue` | src/json/rp-jsonc.c:414-675 | Scanning the text of a sub-format does what reading its tree does, and goes on after it; a skipped sub-format leaves the depth of ignoring as it was |
| `UnpackProofs.RunItems` | src/json/rp-jsonc.c:656-665 | The scan of the inside of an array is the reading of its items in order |
| `UnpackProofs.RunFields` | src/json/rp-jsonc.c:423-452 | The scan of the inside of an object is the reading of its fields; a missing optional key skips exactly its own sub-format |
| `UnpackProofs.RunTail` | src/json/rp-jsonc.c:621-645 | The end marks ! and * accept or refuse by the number of items or members that were read |
| `UnpackProofs.Unpacked` | src/json/rp-jsonc.c:386-675 | For every well-formed format and value, the scan gives the same code, the same stores and the same remaining arguments as the recursive reading of the format |
| `UnpackProofs.Stored` | src/json/rp-jsonc.c:471-555 | Which values n b i I f F o O accept, and what goes to the place: the value itself, the real of an integer for F, the converted integer for i and I; nothing to a null place |
| `UnpackProofs.StoredString` | src/json/rp-jsonc.c:454-470 | s takes a string and stores it |
| `UnpackProofs.StoredSized` | src/json/rp-jsonc.c:454-470 | s% stores the string in one place and its length in the next |
| `UnpackProofs.StoredBytes` | src/json/rp-jsonc.c:557-587 | y and Y take a text that decodes, and store its octets and their number when both places are given; a null value stores no octet |
| `UnpackProofs.Checked` | src/json/rp-jsonc.c:454-587 | In check mode no argument is taken, nothing is stored, and the code tells the type |
| `UnpackProofs.CallMember` | src/json/rp-jsonc.c:423-452 | One member of an object: it is unpacked as it would be alone, is required unless marked optional, and is the only one in a closed object |
| `UnpackProofs.CallItem` | src/json/rp-jsonc.c:589-665 | One item of an array: the first, or out of range, or incomplete when the array is closed and has others |
| `UnpackProofs.Skipped` | src/json/rp-jsonc.c:423-452 | The places of a value that is absent are passed over and get nothing |
| `UnpackProofs.Deepest` | src/json/rp-jsonc.c:589-594 | Thirty-two nested arrays are unpacked, and thirty-three are too deep |
| `Pack.Vpack` | src/json/rp-jsonc.c:99-372 | The loop of the packer over its explicit stack is the iteration of its step on every format text, even malformed |
| `PackProofs.GatherIs` | src/json/rp-jsonc.c:133-187 | The loop over the texts of one s, with + between them, % after those that have a length and a mark at the end, joins those that are not null, and tells if all are |
| `PackProofs.RunMake` | src/json/rp-jsonc.c:122-332 | Packing the text of a sub-format does what the recursive making of its shape does, and goes on after it, for all the marks: null refused, ? null welcome, * null or empty left out |
| `PackProofs.RunStripped` | src/json/rp-jsonc.c:92-97 | Separators between the characters of a format of the packer change nothing |
| `PackProofs.Packed` | src/json/rp-jsonc.c:99-332 | For every shape, of any nesting, with joined texts and marks, the call makes the value that the recursive making makes, or fails as it fails; a * at the end of the whole is an invalid character |
| `PackBack.Back` | src/json/rp-jsonc.c:99-675 | What a sub-format packs, at any depth and among other arguments, is unpacked into the places of its arguments |
| `PackBack.RoundTrip` | src/json/rp-jsonc.c:99-675 | What a call packs with a format, a call with the same format unpacks: the places then hold the arguments that were packed, all of them and in order |
| `PackBack.Base64Faithful` | src/json/rp-jsonc.c:246-259 | The base 64 of the library, in both alphabets, meets what the round trip asks of the encoding of octets |
| `UnpackProofs.DeepEnough` | src/json/rp-jsonc.c:589-594 | A format nested at most 32 deep never overflows the stack |
| `UnpackProofs.SameCode` | src/json/rp-jsonc.c:386-675 | Check mode and store mode take the same decisions, whatever the sub-format and the context |
| `UnpackProofs.CheckIsUnpack` | src/json/rp-jsonc.c:719-754 | Checking returns the code of unpacking, except that only unpacking decodes base64; all arguments are consumed on success |
| `UnpackProofs.NoBytes` | src/json/rp-jsonc.c:557-587 | Without y or Y in the format, no base64 error is possible |
| `JsonMerge.EqualIsStructural` | src/json/rp-jsonc.c:1288-1291 | Two values are equal, whatever the order of members, if and only if they are the same once their strings are cut at their first null |
| `JsonMerge.ClippedSame` | src/json/rp-jsonc.c:1272-1276 | Cutting the strings of a value changes nothing if and only if no string has a null |
| `JsonMerge.EqualExactly` | src/json/rp-jsonc.c:1288-1291 | Without null in strings, equality is structural equality |
| `JsonMerge.NullHides` | src/json/rp-jsonc.c:1272-1276 | Two strings that differ after a null are equal, and contain each other |
| `JsonMerge.ContainsPlaces` | src/json/rp-jsonc.c:1294-1297 | A value contains another if and only if every place of the other, by keys and indexes, is a place of it with a container of the same kind or the same scalar |
| `JsonMerge.ContainsReflexive` | src/json/rp-jsonc.c:1294-1297 | Every value contains itself |
| `JsonMerge.ContainsTransitive` | src/json/rp-jsonc.c:1294-1297 | Containment is transitive |
| `JsonMerge.ContainsAntisymmetric` | src/json/rp-jsonc.c:1294-1297 | Two values that contain each other are equal, up to what follows a null in a string |
| `JsonMerge.Jcmp` | src/json/rp-jsonc.c:1191-1279 | Without sorting, the comparison is 0 exactly on equal, or contained, values |
| `JsonMerge.JcmpObjects` | src/json/rp-jsonc.c:1235-1257 | The walk over the members of the second object decides the match |
| `JsonMerge.KeepContainsDest` | src/json/rp-jsonc.c:1033-1088 | Keeping, or joining and keeping, gives an object that contains the old destination |
| `JsonMerge.ReplaceContainsMerged` | src/json/rp-jsonc.c:1045-1048 | Replacing gives an object that contains the merged one |
| `JsonMerge.Idempotent` | src/json/rp-jsonc.c:1033-1088 | Merging the same object twice is merging it once, when keeping or replacing |
| `JsonMerge.JoinIdempotent` | src/json/rp-jsonc.c:1063-1072 | For both ways to join, merging twice is merging once if and only if no array grows: no array of the merged object, under objects, meets an array or, with join_or_replace, takes the place of another value |
| `JsonMerge.JoinTwice` | src/json/rp-jsonc.c:1063-1076 | The input where join_or_replace is not idempotent and join_or_keep is: a number replaced by an array, which then meets itself |
| `JsonMerge.ObjectCell.Merge` | src/json/rp-jsonc.c:1033-1088 | The loop over the members of the merged object, in any order of iteration, computes the merge in place |
| `JsonMerge.ObjectCell.MergeItem` | src/json/rp-jsonc.c:1044-1085 | One member is kept, replaced or joined |
| `JsonMerge.Join` | src/json/rp-jsonc.c:1060-1076 | Joining merges objects, appends arrays, and falls back to keep or replace |
| `JsonMerge.AlongMore` | src/json/rp-jsonc.c:1033-1088 | Following a path is following its first part and then the other |
| `JsonMerge.MergedAlong` | src/json/rp-jsonc.c:1033-1088 | What a merge leaves at the end of any path of keys: what is on one side only as it was, two objects united, two arrays put end to end when joining, and otherwise the side that the option chooses |
| `JsonMerge.InsertedMirror` | src/json/rp-jsonc.c:1112-1120 | Inserting at index -1 - j is inserting at j in the mirrored array, whatever the sign and the size of j |
| `JsonMerge.Inserting` | src/json/rp-jsonc.c:1112-1120 | The first item inserted gets the index asked; a negative index leaves -idx - 1 of the old items after it; beyond an end, the items go to that end |
| `JsonMerge.ArrayCell.PutIdx` | src/json/rp-jsonc.c:1126-1128 | Writing after the end fills with nulls |
| `JsonMerge.ArrayCell.InsertArray` | src/json/rp-jsonc.c:1100-1138 | Insertion gives dest[..k] + added + dest[k..] for every signed index, even when the array is inserted in itself |
| `JsonMerge.ArrayCell.MoveEnd` | src/json/rp-jsonc.c:1122-1129 | The end of the array is moved without loss, from its last item |
| `JsonMerge.ArrayCell.CopyAdded` | src/json/rp-jsonc.c:1130-1136 | The hole is filled with the added items |
| `JsonClone.CloneDepth` | src/json/rp-jsonc.c:999-1012 | The recursion clones containers down to the depth |
| `JsonClone.CloneArray` | src/json/rp-jsonc.c:986-996 | Items are cloned from the last one, in an array that the first write makes large enough |
| `JsonClone.CloneObject` | src/json/rp-jsonc.c:963-974 | Members are cloned in their order, under their keys |
| `JsonClone.SameContent` | src/json/rp-jsonc.c:999-1012 | A clone of any depth has the content of the original |
| `JsonClone.Shares` | src/json/rp-jsonc.c:999-1012 | From the depth on, every path of the clone leads to the very node of the original |
| `JsonClone.Renews` | src/json/rp-jsonc.c:999-1012 | Above the depth, every container of the clone is a new node, and leaves are shared |
| `JsonClone.NewApart` | src/json/rp-jsonc.c:999-1012 | No new node serves twice in a clone |
| `U16Id.Capacity` | src/sandbox/u16id.c:61-69 | The capacity is the smallest 4k-1 that is large enough, and fits 16 bits |
| `U16Id.MapAppend` | src/sandbox/u16id.c:178-183 | A new pair at the end adds one association |
| `U16Id.MapUpdate` | src/sandbox/u16id.c:323-343 | Writing the pointer of a pair changes the association of its id only |
| `U16Id.MapWithout` | src/sandbox/u16id.c:194-200 | Moving the last pair over the removed one removes one association |
| `U16Id.Packed.Search` | src/sandbox/u16id.c:143-151 | The index found is null exactly when the id has no association |
| `U16Id.Packed.Grow` | src/sandbox/u16id.c:165-177 | Growing keeps every pair |
| `U16Id.Packed.MoveUp` | src/sandbox/u16id.c:171-176 | The descending copy of the pointers over themselves loses nothing |
| `U16Id.Packed.MoveDown` | src/sandbox/u16id.c:205-213 | The ascending copy of the pointers over themselves loses nothing |
| `U16Id.Packed.Add` | src/sandbox/u16id.c:156-184 | One more pair; at 65535 pairs the count wraps and the new id is written over it |
| `U16Id.Packed.Drop` | src/sandbox/u16id.c:189-222 | The last pair takes the place of the removed one, also when the block shrinks |
| `U16Id.Packed.Create` | src/sandbox/u16id.c:251-260 | An empty map |
| `U16Id.Packed.DropAll` | src/sandbox/u16id.c:227-234 | All associations are removed |
| `U16Id.Packed.Has` | src/sandbox/u16id.c:285-291 | An id is known exactly when it has an association |
| `U16Id.Packed.AddNew` | src/sandbox/u16id.c:294-310 | Adding is refused for a known id; otherwise it adds that association only, if and only if there were less than 65535 pairs |
| `U16Id.Packed.AddUnknown` | src/sandbox/u16id.c:156-184 | A new id becomes the only new association, in a sound map, if and only if there were less than 65535 pairs |
| `U16Id.Packed.Set` | src/sandbox/u16id.c:313-331 | The id gets the value and nothing else changes, if and only if the id was known or there were less than 65535 pairs |
| `U16Id.Packed.PutPtr` | src/sandbox/u16id.c:334-345 | Putting changes the association of a known id only |
| `U16Id.Packed.Get` | src/sandbox/u16id.c:348-359 | Getting reads the association |
| `U16Id.Packed.Remove` | src/sandbox/u16id.c:362-381 | Dropping removes that association only and gives its pointer |
| `U16Id.Packed.Count` | src/sandbox/u16id.c:384-387 | The count is the number of associations |
| `U16Id.Packed.At` | src/sandbox/u16id.c:390-400 | Pairs by rank, EINVAL outside |
| `U16Id.Packed.ForAll` | src/sandbox/u16id.c:403-412 | Every pair is given once, the last first |
| `U16Id.BoolChange` | src/sandbox/u16id.c:454-491 | Changing one bit of a word, storing or removing the word, changes one id of the set only and stores no null word |
| `U16Id.SetBitAt` | src/sandbox/u16id.c:466-470 | Setting a bit of a word leaves the others |
| `U16Id.FewWords` | src/sandbox/u16id.c:454-491 | A set of ids never needs more than 1024 words, far from the limit of the count |
| `U16Id.Packed.BoolGet` | src/sandbox/u16id.c:437-452 | Reading an id of the set |
| `U16Id.Packed.BoolSet` | src/sandbox/u16id.c:454-491 | The set gains or loses that id only, and the previous value is returned |
| `GlobMatch.Prefix` | src/sandbox/globmatch.c:46-55 | The text matches only if it starts with the literal prefix of the pattern, which then can be removed from both |
| `GlobMatch.TokenAny` | src/sandbox/globmatch.c:57-81 | A star followed by a character matches when the rest resumes after some occurrence of that character |
| `GlobMatch.Match` | src/sandbox/globmatch.c:41-97 | The score is not null exactly when the text is in the language of the pattern, and is then 1 plus the number of literal characters of the pattern, whatever the text |
| `GlobMatch.Usual` | src/sandbox/globmatch.c:41-97 | Without two stars in a row, the language of a pattern is the usual one, where a star stands for any text, and its literals are its characters but the stars |
| `GlobMatch.DoubledLoses` | src/sandbox/globmatch.c:57-68 | With two stars in a row, the text of the pattern without its stars is of the usual language and scores 0 |
| `GlobMatch.Resume` | src/sandbox/globmatch.c:69-83 | The best score over all the places where the character occurs |
| `GlobSet.NormHash` | src/sandbox/globset.c:80-119 | The normal form is the lower-case text; the hash depends on it only and is null exactly for patterns with a star |
| `GlobSet.LowerNormal` | src/sandbox/globset.c:96-98 | The normal form has no letter from A to Z, is the same text up to the case of ASCII letters, and is its own normal form |
| `GlobSet.SameLower` | src/sandbox/globset.c:96-98 | Two texts have one normal form if and only if they have the same characters up to the case of ASCII letters |
| `GlobSet.SameNormal` | src/sandbox/globset.c:178-198 | In a set of normal patterns, the one searched is the one that is the same up to case |
| `GlobSet.GrowTest` | src/sandbox/globset.c:133-136 | When no growth is needed, one more entry keeps the load under three quarters |
| `GlobSet.NextSize` | src/sandbox/globset.c:138-141 | The next size is a power of two and gives that room |
| `GlobSet.GlobSet.constructor` | src/sandbox/globset.c:205-208 | An empty set |
| `GlobSet.GlobSet.Grow` | src/sandbox/globset.c:128-167 | Growing keeps every entry, in the bucket of its hash, and makes room, or fails at 2^31 buckets |
| `GlobSet.GlobSet.Rehash` | src/sandbox/globset.c:152-161 | The entries of one bucket go to their new buckets |
| `GlobSet.GlobSet.Search` | src/sandbox/globset.c:178-198 | The chain search finds the entry exactly when the pattern is known |
| `GlobSet.GlobSet.Add` | src/sandbox/globset.c:252-293 | A pattern that is known up to case is refused; any other adds one entry, normal and the same text up to case, at the end of the list for a glob |
| `GlobSet.GlobSet.Del` | src/sandbox/globset.c:302-333 | Deleting removes the entry that is the same up to case and no other, keeps the order of the globs, and gives its closure |
| `GlobSet.GlobSet.Unlink` | src/sandbox/globset.c:321-324 | Unlinking a node removes one entry from the chain and from the map |
| `GlobSet.GlobSet.Find` | src/sandbox/globset.c:341-356 | The text finds an entry if and only if it is its pattern up to case, and that entry |
| `GlobSet.GlobSet.Match` | src/sandbox/globset.c:364-399 | The exact entry if there is one, otherwise the first inserted glob among those of maximal score, nothing when no glob matches |
| `GlobSet.AddContent` | src/sandbox/globset.c:284-291 | One more node in its chain or in the list is one more entry of the map |
| `GlobSet.DelContent` | src/sandbox/globset.c:321-324 | One node less is one entry less |
| `Expand.MergedClean` | src/json/rp-jsonc-default-expand.c:224-230 | Merging two values without $ref gives a value without $ref |
| `Expand.Expref.constructor` | src/json/rp-jsonc-default-expand.c:547-555 | A new expander has no error and is at depth 0 |
| `Expand.Expref.ExpandValue` | src/json/rp-jsonc-expand.c:94-164 | The recursion over the tree, with its re-expansion of replaced objects, terminates at every depth and computes the expansion, or reports an error exactly when there is none |
| `Expand.Expref.ExpandMembers` | src/json/rp-jsonc-expand.c:112-127 | All the members are expanded |
| `Expand.Expref.ExpandItems` | src/json/rp-jsonc-expand.c:139-152 | All the items are expanded, in place |
| `Expand.Expref.ExpandObject` | src/json/rp-jsonc-default-expand.c:335-379 | An object with a $ref is replaced by what it refers to, or fails at depth 10 |
| `Expand.Expref.ExpandRefs` | src/json/rp-jsonc-default-expand.c:349-352 | Several references are merged in their order |
| `Expand.Expref.ExpandRef` | src/json/rp-jsonc-default-expand.c:308-321 | A reference is a string |
| `Expand.Expref.ReadFileRef` | src/json/rp-jsonc-default-expand.c:190-232 | The file that is located is expanded one level deeper with root and path put back; what it becomes in the target is pinned by OneReference and SeveralUnited |
| `Expand.Expref.DefaultExpand` | src/json/rp-jsonc-default-expand.c:521-531 | The root is replaced by its expansion |
| `Expand.ObjectExpansion` | src/json/rp-jsonc-default-expand.c:335-379 | What the expansion of an object is, from that of its members |
| `Expand.OneReference` | src/json/rp-jsonc-default-expand.c:190-232 | An object that refers to one name becomes the expansion of the value of that file, one level deeper, or fails with it |
| `Expand.ListReference` | src/json/rp-jsonc-default-expand.c:345-352 | An object that refers to a list of names becomes, when some files give objects, the object of all their keys: under a key the last file wins, but arrays are put end to end and objects are united |
| `Expand.SeveralUnited` | src/json/rp-jsonc-default-expand.c:224-230 | References one after the other, for any number of files: the objects are put together and, without object, the last file is taken |
| `Expand.SeveralSome` | src/json/rp-jsonc-default-expand.c:275-352 | A list of references has a content if and only if each of them has one |
| `Expand.BadReference` | src/json/rp-jsonc-default-expand.c:308-321 | A reference that is not a string, nor a list where lists are allowed, is an error |
| `Expand.ChainedDepth` | src/json/rp-jsonc-default-expand.c:341-347 | A chain of ten files is replaced by what the last one holds, and a longer one is an error |
| `Expand.NullsDeleted` | src/json/rp-jsonc-default-expand.c:362-376 | With the deletion of nulls, no object of the result has a null member, be it in the value or in the files |
| `Expand.NullsOnly` | src/json/rp-jsonc-default-expand.c:362-376 | The deletion of nulls changes nothing else |
| `Expand.StringExpanded` | src/json/rp-jsonc-default-expand.c:490-516 | A string becomes what its text stands for when that is asked and is a scalar, and stays itself otherwise |
| `Expand.CleanUnchanged` | src/json/rp-jsonc-default-expand.c:335-379 | A value without $ref is left unchanged when strings and nulls are left alone |
| `Expand.CycleFails` | src/json/rp-jsonc-default-expand.c:343-344 | A chain of inclusions that never leaves a set of files fails, at any depth, through references by name or in lists of names |
| `Expand.SeveralFails` | src/json/rp-jsonc-default-expand.c:275-352 | A list of references fails as soon as one of them can not be expanded, whatever comes before it |
| `Expand.DefaultExpanding` | src/json/rp-jsonc-default-expand.c:538-569 | For every set of files, even cyclic: the expansion is computed or an error is returned, and on success no object of the result has a $ref; the content is that of OneReference and ListReference |
| `EvTimer.Centred` | src/sandbox/ev-mgr.c:694-704 | A new timer wakes around the instant that was asked for, in the middle of its accuracy, with the identifier, the count, the period and the release flag given, and the defaults of 1 ms and 1 s |
| `EvTimer.WindowFits` | src/sandbox/ev-mgr.c:588-609 | The window that is left ends before what any active timer can wait, and starts at what one wants |
| `EvTimer.InstantServes` | src/sandbox/ev-mgr.c:588-612 | The chosen instant is at most next_ms + accuracy_ms of every active timer, at least next_ms of one, and at most the limit; there is none only when nobody wants to wake before the limit |
| `EvTimer.InstantMiddle` | src/sandbox/ev-mgr.c:588-612 | When one instant suits all the timers, the one chosen is the middle of all that suit them |
| `EvTimer.NextInstant` | src/sandbox/ev-mgr.c:588-612 | The loop over the list computes that instant |
| `EvTimer.LaterIsNext` | src/sandbox/ev-mgr.c:630 | The next occurrence keeps the phase and is the first one after now |
| `EvTimer.Advance` | src/sandbox/ev-mgr.c:630 | The loop of additions computes that occurrence |
| `EvTimer.PassedSound` | src/sandbox/ev-mgr.c:627-641 | After a pass, an active timer wants an instant after now |
| `EvTimer.CalledOnce` | src/sandbox/ev-mgr.c:617-652 | In a pass, each due timer is called once, with its count, and the others are not |
| `EvTimer.Stays` | src/sandbox/ev-mgr.c:644-650 | After a pass, a timer is still in the list unless it was deleted, and then it is nowhere |
| `EvTimer.DispatchedSound` | src/sandbox/ev-mgr.c:617-652 | After a pass no active timer is due |
| `EvTimer.Independent` | src/sandbox/ev-mgr.c:617-652 | Over any run of passes, what a timer receives does not depend on the others |
| `EvTimer.CountDown` | src/sandbox/ev-mgr.c:631-641 | Over any run of passes, a timer made with a count n > 0 fires at most n times, counting n, n-1, ... down to 1; without a count it always receives 0 |
| `EvTimer.AsIntIs` | src/sandbox/ev-mgr.c:631-641 | The count given to the handler is the count modulo 2^32, as a signed integer |
| `EvTimer.AlwaysOnTime` | src/sandbox/ev-mgr.c:580-652 | Over whole runs whose passes are late by at most the slack that the period leaves, a timer misses no occurrence: its calls are its occurrences in order, never early, late by at most its accuracy and that slack |
| `EvTimer.CreatedOnTime` | src/sandbox/ev-mgr.c:671-720 | From the creation to the calls: over any punctual run, call j comes around the instant asked for plus j periods, by half of the accuracy and the delay of the system, and none is missing |
| `EvTimer.Fate` | src/sandbox/ev-mgr.c:631-650 | A timer stays active until its count is over, and then leaves the list if it is to be released, or stays there idle |
| `EvTimer.LaterSoon` | src/sandbox/ev-mgr.c:617-652 | A pass skips occurrences of a timer if and only if it comes when the next one is already due |
| `EvTimer.Mgr.Run` | src/sandbox/ev-mgr.c:988-1000 | One turn of the loop makes the pass when the alarm it has armed has gone off, and nothing otherwise |
| `EvTimer.Mgr.Turns` | src/sandbox/ev-mgr.c:988-1000 | Turn after turn, no wake-up is lost: the calls are those of the run of passes |
| `EvTimer.Mgr.constructor` | src/sandbox/ev-mgr.c:1083-1085 | A new manager is idle and has no alarm |
| `EvTimer.Mgr.TimerArm` | src/sandbox/ev-mgr.c:535-573 | The system timer is armed, turned off for 0, or left as it is for the instant already asked |
| `EvTimer.Mgr.TimerSet` | src/sandbox/ev-mgr.c:580-613 | The shortcut loses an alarm exactly when the alarm has gone off and the new instant is the one it went off for; in the states that passes leave it never does |
| `EvTimer.Mgr.Fired` | src/sandbox/ev-mgr.c:629-641 | The fields of a timer after its handler |
| `EvTimer.Mgr.TimerDispatch` | src/sandbox/ev-mgr.c:617-652 | One pass over the list, that removes deleted timers on its way |
| `EvTimer.Mgr.TimerEvent` | src/sandbox/ev-mgr.c:658-668 | A pass is made only if the alarm has gone off, and leaves a state where re-arming is never lost |
| `EvTimer.Mgr.AddTimer` | src/sandbox/ev-mgr.c:671-720 | A new timer is armed, unless the alarm has gone off for the very instant that is chosen |
| `EvTimer.Mgr.Prepare` | src/sandbox/ev-mgr.c:833-848 | Preparing is allowed in two states and arms the chosen instant |
| `EvTimer.Mgr.Wait` | src/sandbox/ev-mgr.c:853-892 | Waiting leads to Pending exactly when an event other than a wake-up is found |
| `EvTimer.Mgr.Dispatch` | src/sandbox/ev-mgr.c:897-910 | A pending event is dispatched once |
| `EvTimer.LostWakeUp` | src/sandbox/ev-mgr.c:541-542 | A run that loses a wake-up: a timer without delay, added in the millisecond the alarm went off for, stays due and is never armed |
| `PathSearch.FieldsClean` | src/misc/rp-path-search.c:131-149 | The names cut at colons are not empty and have no colon |
| `PathSearch.FieldsOfJoined` | src/misc/rp-path-search.c:131-149 | Names written with colons are cut back into the same names |
| `PathSearch.FieldsCut` | src/misc/rp-path-search.c:131-149 | A colon, wherever it is, cuts a text in two whose names are put one after the other |
| `PathSearch.FieldsAlone` | src/misc/rp-path-search.c:131-149 | A text without colon is one name, or none when it is empty |
| `PathSearch.Appended` | src/misc/rp-path-search.c:88-150 | Appending lists the old list, then the missing directories |
| `PathSearch.MissingIsNew` | src/misc/rp-path-search.c:88-98 | What is appended is exactly the new directories, each once |
| `PathSearch.Prepended` | src/misc/rp-path-search.c:88-150 | Prepending lists the kept new directories, then the unchanged old list |
| `PathSearch.MadeListing` | src/misc/rp-path-search.c:88-150 | The list made from a text of directories is the old one with the missing ones after it, or with the kept ones in front |
| `PathSearch.FrontIsPart` | src/misc/rp-path-search.c:88-150 | The directories kept by prepending are a subsequence of the given ones |
| `PathSearch.NoneLost` | src/misc/rp-path-search.c:88-150 | After prepending, every given directory is in the list |
| `PathSearch.FirstOfAll` | src/misc/rp-path-search.c:88-98 | The first of the directories that are put in front is searched first, unless they are all the head of the chain and that head was appended behind another directory |
| `PathSearch.FrontHead` | src/misc/rp-path-search.c:88-150 | The first of the directories put in front is the head of the chain made; nothing is put in front exactly when all of them are the head already |
| `PathSearch.NotFirst` | src/misc/rp-path-search.c:88-98 | The list made by appending a and b, then prepending b, is still a, b |
| `PathSearch.VisitPrefix` | src/misc/rp-path-search.c:235-245 | A stopped listing has visited a prefix of the list, up to the first answer that is not null |
| `PathSearch.Cut` | src/misc/rp-path-search.c:134-149 | The two scans find the first name and what follows its colon |
| `PathSearch.Longest` | src/misc/rp-path-search.c:106-109 | Names are refused from 32768 characters on |
| `PathSearch.LiveDetermined` | src/misc/rp-path-search.c:72-85 | No leak and no dangling node: the handles alone decide which nodes are alive |
| `PathSearch.LiveIsHeld` | src/misc/rp-path-search.c:72-85 | Every live node is reached from some handle |
| `PathSearch.Paths.AddRef` | src/misc/rp-path-search.c:72-76 | The counts stay exact if and only if the 16-bit count does not wrap |
| `PathSearch.Paths.Unref` | src/misc/rp-path-search.c:79-85 | The counts stay exact, and what nothing holds is freed up the chain |
| `PathSearch.Paths.IsMissing` | src/misc/rp-path-search.c:88-98 | The walk over the chain decides what must be added; in front, it looks at the head only |
| `PathSearch.Paths.Add` | src/misc/rp-path-search.c:101-126 | One name is added, skipped or refused for its length; the handle moves to the new head |
| `PathSearch.Paths.Make` | src/misc/rp-path-search.c:129-150 | All the names of a text are added in the right order, or the text is refused exactly when a name is too long |
| `PathSearch.Paths.AddDirExpanded` | src/misc/rp-path-search.c:154-172 | A new handle on the extended chain, whose list is the old one with the missing directories after it or the kept ones in front; a failure leaves every count and every node as it was |
| `PathSearch.Paths.ExtendDirs` | src/misc/rp-path-search.c:207-218 | The handle of the caller moves to the extended chain, whose list is the extended one, or nothing changes |
| `PathSearch.Paths.List` | src/misc/rp-path-search.c:235-245 | The recursion visits the directories in the order of the list |
| `JsonText.Unambiguous` | src/json/rp-jsonstr.c:60-103 | A string is written in one way by its characters, in the strict and in the loose grammar, so that its text decides of its meaning (section 7 of RFC 8259) |
| `JsonText.Characters` | src/json/rp-jsonstr.c:191-260 | The spaces, digits, hexadecimal digits and short escapes are those that sections 2, 6 and 7 of RFC 8259 list |
| `JsonText.Names` | src/json/rp-jsonstr.c:341-350 | The three names are null, true and false (section 3) |
| `JsonText.Shorts` | src/json/rp-jsonstr.c:64-103 | The control characters that the short escapes mean (section 7) |
| `JsonText.HexDigit` | src/json/rp-jsonstr.c:64-103 | A hexadecimal digit of either case writes its value |
| `JsonText.Utf8One` | src/json/rp-jsonstr.c:64-103 | A code under 0x80 is one byte of UTF-8 (RFC 3629) |
| `JsonText.Utf8Two` | src/json/rp-jsonstr.c:64-103 | A code under 0x800 is two bytes of UTF-8, whose bits are those of the code |
| `JsonText.Utf8Three` | src/json/rp-jsonstr.c:64-103 | Any other code is three bytes of UTF-8, whose bits are those of the code |
| `JsonStr.CoreRead` | src/json/rp-jsonstr.c:341-373 | A derived value is accepted and consumed exactly, before whatever may follow it |
| `JsonStr.ItemsRead` | src/json/rp-jsonstr.c:313-327 | Written items are consumed up to the end of their array |
| `JsonStr.MembersRead` | src/json/rp-jsonstr.c:273-299 | Written members are consumed up to the end of their object |
| `JsonExact.ItemsTaken` | src/json/rp-jsonstr.c:313-327 | Whatever is accepted as the inside of an array is written by some items of the loose grammar |
| `JsonExact.MembersTaken` | src/json/rp-jsonstr.c:273-299 | Whatever is accepted as the inside of an object is written by some members of the loose grammar |
| `JsonStr.NumberRead` | src/json/rp-jsonstr.c:227-248 | Numbers of section 6 are consumed |
| `JsonStr.StringRead` | src/json/rp-jsonstr.c:191-224 | Strings of section 7 are consumed |
| `JsonStr.Complete` | src/json/rp-jsonstr.c:333-394 | Every text that sections 2 to 7 of RFC 8259 derive, or that the loose grammar derives, is accepted |
| `JsonExact.Exact` | src/json/rp-jsonstr.c:333-394 | The accepted texts are exactly those of the loose grammar: RFC 8259 with a plus before numbers, leading zeros, no digit after the point, any byte in strings, and an ending comma |
| `JsonExact.PlusOne` | src/json/rp-jsonstr.c:351-360 | The text +1 is accepted, and RFC 8259 does not derive it |
| `JsonExact.LeadingZero` | src/json/rp-jsonstr.c:227-232 | The text 01 is accepted, and nothing that RFC 8259 derives has a digit after a first zero |
| `JsonStr.ReadTxt.constructor` | src/json/rp-jsonstr.c:150-155 | The reader is at the first visible character |
| `JsonStr.ReadTxt.Read` | src/json/rp-jsonstr.c:158-169 | The reader goes to the next character, and the limit moves to the null |
| `JsonStr.ReadTxt.SkipWhitespaces` | src/json/rp-jsonstr.c:172-179 | Spaces are skipped |
| `JsonStr.ReadTxt.TestString` | src/json/rp-jsonstr.c:191-224 | The loop is the recursive reading of a string |
| `JsonStr.ReadTxt.TestNumber` | src/json/rp-jsonstr.c:227-248 | The loops are the reading of a number |
| `JsonStr.ReadTxt.TestLiteral` | src/json/rp-jsonstr.c:251-260 | A literal is compared character by character |
| `JsonStr.ReadTxt.TestObject` | src/json/rp-jsonstr.c:265-302 | The loop over members is their recursive reading |
| `JsonStr.ReadTxt.TestArray` | src/json/rp-jsonstr.c:305-330 | The loop over items is their recursive reading |
| `JsonStr.ReadTxt.TestValue` | src/json/rp-jsonstr.c:333-378 | On every text, the mutual recursion terminates and computes the recogniser |
| `JsonStr.Test` | src/json/rp-jsonstr.c:383-393 | Acceptance, with the whole length as size; a refusal gives its place |
| `JsonStr.QuotedAccepted` | src/json/rp-jsonstr.c:64-103 | The escaped string between quotes is a string of the grammar and is accepted |
| `JsonStr.EscapedMeaning` | src/json/rp-jsonstr.c:64-103 | However the escaped string is read, its meaning is the original string |
| `JsonStr.EscapedWidth` | src/json/rp-jsonstr.c:38-58 | Six characters for a control character, two for a quote or a backslash, and one for any other |
| `JsonStr.EscapedExample` | src/json/rp-jsonstr.c:64-103 | A line feed, a quote and a letter, escaped |
| `JsonStr.EscapeLength` | src/json/rp-jsonstr.c:38-58 | The length-only escaper gives the length of the escaped string |
| `JsonStr.Escape` | src/json/rp-jsonstr.c:64-103 | For every destination size: the length of the whole escaped string, and its beginning as far as it fits |
| `JsonStr.EscapeUnsafe` | src/json/rp-jsonstr.c:109-136 | The unbounded escaper writes the same string |
| `Escape.EscapesTheReserved` | src/http/rp-escape.c:38-76 | What is escaped is what is outside the unreserved set of section 2.3 of RFC 3986 |
| `Escape.HexBinary` | src/http/rp-escape.c:83-120 | The digit of a value has that value |
| `Escape.BinaryOnly` | src/http/rp-escape.c:83-120 | The digits of both cases are read, and no other character; those of upper case are written |
| `Escape.Example` | src/http/rp-escape.c:83-178 | A text with a space, a slash and two bytes over 127, escaped |
| `Escape.EscapedBack` | src/http/rp-escape.c:150-253 | Any text comes back from its escaped form, which is well formed and has no separator |
| `Escape.EscapeTo` | src/http/rp-escape.c:150-178 | For every buffer, the full length is returned and a prefix of the escaped text is written |
| `Escape.EscapedLength` | src/http/rp-escape.c:127-140 | The length-only pass gives the length that is written |
| `Escape.PlaceTo` | src/http/rp-escape.c:261-275 | Base and path, with one slash between when there is none |
| `Escape.Separate` | src/http/rp-escape.c:277-286 | The first separator depends on a query mark in the whole of what is written |
| `Escape.QueryRest` | src/http/rp-escape.c:276-296 | Writing argument after argument gives the arguments separated by ampersands |
| `Escape.PlaceMeets` | src/http/rp-escape.c:261-275 | Base and path are there as they were, with one slash between them exactly when there was none |
| `Escape.UrlBack` | src/http/rp-escape.c:256-300 | A URL is read back: what is before the first query mark, and the arguments after those of the base; the only list that is lost is the one of a single empty key alone |
| `Escape.EscapeUrlTo` | src/http/rp-escape.c:256-300 | For every buffer length, the length of the full URL is returned and a prefix of it is written |
| `Escape.EscapeUrl` | src/http/rp-escape.c:322-347 | Measuring and then writing gives the whole URL |
| `Escape.UnescapableLength` | src/http/rp-escape.c:184-203 | The loop finds the first malformed percent |
| `Escape.UnescapedLength` | src/http/rp-escape.c:210-222 | The count of the first pass |
| `Escape.ReservedEnough` | src/http/rp-escape.c:210-253 | The count is enough for what is written, and exact if and only if no percent is malformed |
| `Escape.UnescapeTo` | src/http/rp-escape.c:224-253 | For every size of the destination: the length of the whole meaning is returned, as much of it as fits is written, then a null if there is room |
| `Escape.Unescape` | src/http/rp-escape.c:451-467 | The result is the meaning with its null; the length given is its length if and only if no percent is malformed |
| `Escape.PiecesOfArgs` | src/http/rp-escape.c:366-385 | The text of a list of arguments is cut back into these arguments |
| `Escape.ArgsRoundTrip` | src/http/rp-escape.c:349-422 | Unescaping what was escaped gives the same pairs, with the empty value where there was none, for every list but the one of a single empty key without value |
| `Escape.CountArgs` | src/http/rp-escape.c:366-385 | The first pass counts the arguments and the room for their texts |
| `Escape.PutArg` | src/http/rp-escape.c:399-417 | One argument is written in its slots; a key without value gets the empty string |
| `Escape.UnescapeArgs` | src/http/rp-escape.c:360-422 | The second pass uses exactly the slots that were counted and no more text than was reserved, exactly that text when no percent is malformed |
| `Base64.SextetsRoundTrip` | src/misc/rp-base64.c:64-87 | The bytes of the six-bit values of the bytes are the bytes (section 4 of RFC 4648) |
| `Base64.LetterValue` | src/misc/rp-base64.c:89-102 | Decoding a letter with a compatible alphabet gives its value |
| `Base64.Runs` | src/misc/rp-base64.c:89-102 | The alphabets are those of tables 1 and 2 of RFC 4648 |
| `Base64.ValueOnly` | src/misc/rp-base64.c:152-169 | The characters that have a value are the letters of the alphabets of the mode, and no other |
| `Base64.NextSextet` | src/misc/rp-base64.c:66-87 | The 16-bit accumulator gives the next six bits of the data |
| `Base64.BrokenLength` | src/misc/rp-base64.c:50-55 | The new lines add one character for each full line |
| `Base64.BrokenAt` | src/misc/rp-base64.c:104-109 | A new line comes after each group of the width, and the text is in between |
| `Base64.EncodedLength` | src/misc/rp-base64.c:45-55 | The length announced is that of the formatted text, a multiple of four before line breaks when padded |
| `Base64.Put` | src/misc/rp-base64.c:104-109 | One character, and the new line that ends a full line |
| `Base64.PutLetters` | src/misc/rp-base64.c:62-110 | The letters of the data are written |
| `Base64.PutPads` | src/misc/rp-base64.c:112-119 | The padding is written up to the end |
| `Base64.Encode` | src/misc/rp-base64.c:30-126 | For all data, width, padding and alphabet, the text fills exactly the announced length and is the encoding of the RFC, cut in lines |
| `Base64.Vectors` | src/misc/rp-base64.c:30-126 | The test vectors foob, fooba and foobar of section 10 of RFC 4648 |
| `Base64.ValuesOfLetters` | src/misc/rp-base64.c:147-170 | The values read in a text cut in lines are those that were written |
| `Base64.RoundTrip` | src/misc/rp-base64.c:30-200 | Decoding with a compatible alphabet gives the original bytes |
| `Base64.Accept` | src/misc/rp-base64.c:170-178 | One value completes at most one byte |
| `Base64.OctetsLength` | src/misc/rp-base64.c:170-178 | Three octets for four values, and the bits left are dropped |
| `Base64.DecodeHead` | src/misc/rp-base64.c:147-180 | The characters before the padding are decoded or refused |
| `Base64.Decode` | src/misc/rp-base64.c:128-200 | On every text, the bytes it means, or invalid exactly when a character is out of place |
| `Base64.DecodedSome` | src/misc/rp-base64.c:147-195 | A text means something if and only if its characters in front of the padding have a value or end a line, and only padding and ends of line follow |
| `JsonPath.DecimalBack` | src/json/rp-jsonc-path.c:109-121 | The digits of an index write that index |
| `JsonPath.TwoDigits` | src/json/rp-jsonc-path.c:74-77 | Dividing by a hundred removes two digits |
| `JsonPath.PathLen` | src/json/rp-jsonc-path.c:58-83 | The length counted by hundreds is the length of the text, whatever was got before |
| `JsonPath.IndexWidth` | src/json/rp-jsonc-path.c:97 | No index of 64 bits has more than twenty digits |
| `JsonPath.DigitsOf` | src/json/rp-jsonc-path.c:109-115 | The digits are put in the buffer, the last first |
| `JsonPath.PathSet` | src/json/rp-jsonc-path.c:94-125 | What is written is the text of the path, the first step first |
| `JsonPath.TextBack` | src/json/rp-jsonc-path.c:94-125 | The text of a path is read back as that path if and only if no key has a period or an opening bracket |
| `JsonPath.PutIndex` | src/json/rp-jsonc-path.c:108-122 | An index is written between brackets, its first digit first |
| `JsonPath.Search` | src/json/rp-jsonc-path.c:136-173 | The search gives the text of the first place of the node in preorder, or nothing |
| `JsonPath.PlacesFollow` | src/json/rp-jsonc-path.c:152-171 | The steps that are recorded lead to the node |
| `JsonPath.FollowedPlaces` | src/json/rp-jsonc-path.c:152-171 | Every path that leads to a node is seen by the search |
| `JsonPath.AllInOrder` | src/json/rp-jsonc-path.c:144-171 | The search sees the places of a tree in the order of the document: what holds before what it holds, and then by position |
| `JsonPath.SearchMeaning` | src/json/rp-jsonc-path.c:136-179 | The search from the root fails exactly when no path leads to the node, and otherwise gives the path that leads to it and comes before all the others in the order of the document |

## Left out

- WebSock.Endpoint.Dispatch: control frames stop the model with the verdict `Control`; close, ping and pong handling, the extension callback and the error callback of `websock.c` are not modelled.
- WebSock.Endpoint.Unmask: the alignment of the buffer is a parameter, as addresses are not part of this model.
- WebSock.Exchange: an application loop written for the theorem; `writev` is taken to send all it is given, and its failures are not modelled.
- LockAny.NextOk: `lockany_try_lock_write` is a step only where it is refused or the item is free, as `LockAny.TryWrite` shows that exclusion is lost elsewhere. Failed allocations are not modelled.
- LockAny.Pool.LockRead: one call is one atomic section; the wait inside is the state `Asleep` of its ticket, and waking up is another step.
- Sha1.MakePadding: the padding is a sequence, so that what happens to the byte that `Sha1.PaddingRoom` finds in excess is not modelled.
- Sha1.Context.Update: the host is little-endian, as in the first branch of the source.
- UnpackProofs.Unpacked: the position that is packed in the error number, the integer conversions and the base64 decoder (parameters of the mode), the reference taken by `O`; a missing variadic argument reads as the null pointer.
- Pack.Vpack: allocations succeed; the position that is packed in the error number is not modelled; a missing argument, or one of another type, reads as the null pointer, 0 or false.
- PackProofs.Packed: a shape writes `%` for a length, and its mark after its last text; `#`, and a `?` in the other places where the loop takes it, are in `Pack.Vpack` only.
- PackBack.RoundTrip: formats that both calls accept, without marks, joined texts or optional members, separators apart; arguments that are null, too long, or twice under a name are outside, as a packed value does not tell them.
- Expand.BadReference: a reference that is an object is first expanded itself, and is then judged as what it becomes.
- JsonMerge.Jcmp: values without NaN; `sort` is 0, as the order given by `rp_jsonc_cmp` depends on the order of members.
- JsonMerge.ObjectCell.Merge: values do not share structure, so that a merged object that is a part of the destination is not modelled.
- JsonClone.CloneDepth: the depth is an unbounded integer, so that a deep clone has no limit.
- JsonMerge.ArrayCell.InsertArray: lengths fit the C `int`.
- U16Id.Packed.Set: allocations succeed, and `U16ID_ALWAYS_SHRINK` is off; pointers have 64 bits.
- GlobMatch.Match: the flags are 0; path names and case folding are not modelled.
- GlobSet.GlobSet.Add: chains and the list of globs are sequences of the buckets and of the set, not linked nodes; allocations succeed.
- Expand.DefaultExpanding: files are a finite map; locating a file, reading a directory (`RP_JSONEXP_$REFS_DIR`), access rights, the text of errors and the expansion of strings by environment variables are parameters or left out.
- EvTimer.Mgr.AddTimer: instants are in range, a clock below 2^62 ms and timers that end below 2^63 ms; `settime` succeeds; with an absolute start, the difference to the current time is computed by the caller.
- EvTimer.Mgr.TimerDispatch: handlers do not edit the list, reference counts and the cleanup of released timers are not modelled; identifiers stand for the addresses of timers.
- EvTimer.AlwaysOnTime: the delay of a pass after its alarm is bounded by a parameter, as the system decides it.
- EvTimer.Mgr.Wait: what the poll finds is given; epoll, timerfd and the file descriptors are outside.
- PathSearch.Paths.AddDirExpanded: the caller owns less than 65535 references to the parent; names are under 2^31 characters, variables are already expanded, allocations succeed.
- PathSearch.Paths.ExtendDirs: the same bound on the references to the list that is extended.
- PathSearch.Paths.List: the walk over real directories and the search of files are not modelled.
- JsonText.Unambiguous: pairs of surrogate codes are not joined in the meaning of a string; bytes over 127 are not checked to be UTF-8.
- Escape.EscapeTo: the convention that a length of 0 means the length of the C string is not modelled.
- Escape.UnescapeArgs: the pointers of the result are offsets in its text, -1 for the null one.
- Base64.Encode: negative widths and sizes over 64 bits are not modelled.
- JsonPath.Search: trees are values whose nodes have an identity; keys are distinct in an object, arrays and indexes fit 64 bits.
- `src/sandbox/ws.c`, `rp-expand-vars.c`, `rp-str2int.c`, `rp-curl`, `rp-socket`, `rp-file`, `rp-yaml`, `spawn-utils`, `rp-enum-map`, `rp-jconf`, `rp-uuid`, `rp-verbose` and the other small or foreign parts of the library.
