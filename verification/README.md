# A verified model of gologix

gologix reads and writes tags of Logix controllers over EtherNet/IP, and can itself act as such a
controller. This project models its codecs and the loops that batch, split and reassemble messages,
and proves what they promise, over all inputs, all runs and all faults. `dafny verify dfyconfig.toml`
checks everything.

Each Go loop or state-changing method is a Dafny method, proved against a specification function;
the laws are lemmas about those functions. Bytes are naturals below 256, tag texts are byte strings
as in Go, errors are values of `Wire.Error`. A Go runtime panic is the error `Panic`.
No lemma leaves anything to Dafny's automatic induction: each carries `{:induction false}`.

| area | files |
|---|---|
| bytes, streams, lists, texts, type codes | `Wire`, `Streams`, `Sequences`, `Text`, `CipTypes` |
| struct packer | `PackSpec`, `Pack`, `PackShape`, `PackRoundTrip`, `PackUnclean`, `PackLaws`, `PackPlaces`, `UnpackPlaces`, `CleanPlaces` |
| common packet format | `Items` |
| tag paths, listed tags, path cache | `TagPath`, `TagPathLaws`, `PathTexts`, `TagTexts`, `KnownTags`, `KnownTagLaws`, `PathSegments` |
| multiple service packet, client and server | `MultiMessage`, `WriteMap`, `MultiServer`, `MultiReply`, `ReadValue`, `MultiReadLaws`, `MultiWriteLaws`, `MultiReplyLaws`, `PacketReads` |
| batching and splitting | `Batching`, `BatchingLaws`, `ReadMap`, `BatchCount`, `ReadList` |
| continued reads | `Fragments`, `FragmentRuns`, `FragmentLaws` |
| all of these together | `EndToEnd` |
| data table buffer and tag groups | `DataTable`, `DataTableLaws`, `TagGroup`, `GroupRead` |
| connection life cycle | `Connection`, `ConnectionLaws` |
| BOOLs inside words | `BoolAccess` |

## Main results

* `EndToEnd.ReadMapEndToEnd` and `ReadMapValues`: `ReadMap` on any number of tags, packed into however
  many messages, parsed and answered by this repository's server, split by the client, returns for
  every tag the type and the bytes that the server's provider answers for that tag, asked for by its
  lower-case name, and decodes them to the provider's numbers, text or the one bit that was named.
* `MultiWriteLaws.ServerDoesServices`: of any packet of reads and writes, the server has its provider
  read and write exactly those tags, counts and values, in order, if and only if no count of a read has
  a low byte of 0x28, 0x29 or 0x91. `MultiReadLaws.ServerAsksForTags` is the case of reads alone.
* `MultiReplyLaws.ReplyReports`: from the reply of any controller the client takes, for each tag, its
  value, a piece of it or its error status, good and failing tags mixed; `ReadIsEntry`: and it accepts
  no other form of entry.
* `UnpackPlaces.UnpackedStands` and `ReadExactlyWhatStands`: of any stream and for any type, `Unpack`
  gives each flag, bit, number and string that stands at its place, and nothing else.
* `PackLaws.RoundTripForType`: the struct types on which `Unpack` inverts `Pack` for every value with
  strings of at most 82 bytes are exactly the bit-clean ones.
* `PackPlaces.AlignmentForType`: every number of every value of a type stands in the encoding at a
  multiple of its width if and only if every element of its struct arrays starts at a multiple of the
  widest number that the element holds.
* `BatchCount.FewMessages`: `ReadMap` sends fewer than four times as many messages as any division of
  the tags into groups that fit, and for tags of the same cost (`FewestForSameCost`) no more at all.
* `TagPathLaws.PathRoundTripExactly`: a tag path comes back from its bytes, and what follows it is
  left alone, if and only if its names and indexes are small enough and what follows is no sentinel.
* `KnownTagLaws.InstanceMeansSymbolic`: an instance-addressed path selects what the symbolic path
  selects if and only if the listed name is a textual prefix of the path; `ShorterFormWins`: in every
  steady run the client uses the shorter of the two; `PathSegments.InstanceIsSegments`: read as CIP
  segments, it names the program and the instance and goes on as the symbolic path does.
* `DataTableLaws.RunReadsEverySlot`, `RunHoldsAdded`, `RunReadsValues`: after any run of adds and syncs
  the buffer holds every tag that could be added, a read gives every tag its own slot, succeeds if and
  only if every tag's type can be decoded, and gives the values that the controller stored.
* `ConnectionLaws.ConnectOutcome`, `RunStaysSound`, `RefusalsLeak`: what connects, disconnects and
  lost exchanges do to status and socket, in every run over every network.

## Where the code departs from its intent

The model follows the code. In these places a promise holds only under a condition. The lemmas named
give the input on which it fails and, except for the fewest messages, the exact condition.

* `Pack` pads for a growing alignment before it flushes pending bits, and drops pending bits in front
  of strings, struct arrays and other arrays (pack.go:159-170, pack.go:214, pack.go:233-236,
  pack.go:271-286): `PackLaws.RoundTripForType`. The struct of pack_test.go:17-34 is affected:
  `PackLaws.PackTestIsUnclean`.
* Elements of a struct array are written without padding between them, and the array itself is
  padded only if the alignment grows (pack.go:159, pack.go:205-215), so numbers inside can be
  unaligned: `PackPlaces.AlignmentForType`, `PackPlaces.LaterElementUnaligned`,
  `PackPlaces.ArrayStartUnaligned`.
* `getTagFromPath` ignores the path length (ioi.go:342-409), so an element count of 40, for one,
  is taken for an array index: `MultiReadLaws.ServerAsksForTags`.
* `findKnownTagPrefix` skips bit numbers anywhere in a path, so `a.5.b` is looked up as `a.b` and then
  nothing is cut off (ioi.go:269-296): `KnownTagLaws.BitInTheMiddle`.
* `appendIOIPart` accepts negative bit numbers: its guard has no lower bound (ioi.go:220-223), so
  `a.-3` selects bit -3: `PathTexts.BitInWord`, `PathTexts.MinusThree`.
* `readListFragAll` keeps data and moves offsets on final replies only (read.go:1881-1897), so it
  returns what comes in one piece, and asks for the first piece until its rounds are used up
  otherwise: `FragmentLaws.ContinuesNothing`, `FragmentLaws.WholeOrNothing`.
* `collectMemberReadPayload` returns when a request is complete, although a request covers at most
  65535 bytes (listmembers.go:172-193): `FragmentLaws.RightForShortOnly`.
* `readList` does not shrink its list when the first tag alone is too long (read.go:1066-1074):
  `ReadList.NeverEnds`, `ReadList.EndsIff`.
* `ReadMap` is documented to use the fewest messages (read.go:1356). Its packer needs three where two
  would do (`BatchCount.BatchesNeedNotBeFewest`). It is right when one message is enough
  (`BatchCount.OneMessage`) and when all tags cost the same (`BatchCount.FewestForSameCost`); no two
  messages could ever be one (`BatchCount.NoTwoMerge`).
* UTIME, ULINT, DATE and TIMEOFDAY tags can be added to a data table buffer, after which every typed
  read fails: `DataTableLaws.AddedButNotReadable`.
* A group whose base name is an array element not written canonically, such as `A[01]`, is displaced
  by a plain tag of that name: `TagGroup.GroupIntact`, `TagGroup.GroupDisplaced`.
* A single string of more than 84 bytes gets a length that its slot does not hold (items.go:219-231):
  `Items.StringHeader`.
* Reading into an empty `[]bool` panics (read.go:131-146, read.go:577): `BoolAccess.ReadBools`.
* `WriteMap` announces one element per tag, so of a slice only the first element is written, although
  its documentation has slices written whole (udt_write.go:98-101, udt_write.go:166-169). A string or a
  structure makes this repository's server fail the whole packet, because it reads the type bytes of the
  former as a type it does not know (messages.go:42-47, server_connected.go:205-227):
  `MultiWriteLaws.WriteMapWrites`.
* A bool written to a bit of a word is written to the word: nothing on the way looks at the bit of the
  path (ioi.go:220-226, udt_write.go:159-200): `MultiWriteLaws.BitWritesWord`.
* A refused forward open leaves the socket open while the client is disconnected, and the next
  connect loses hold of it: `ConnectionLaws.ConnectOutcome`, `ConnectionLaws.RefusalsLeak`.
* `getBit` never succeeds in range on a SINT and answers false out of range (types.go:366-376,
  types.go:487-490): `BoolAccess.GetBitMeaning`.

## Model

| member | source | states |
|---|---|---|
| PackSpec.RemFormula | pack.go:161-163 | counting up to the next multiple of the alignment is the padding formula of the source |
| PackSpec.RemAligns | pack.go:288-291 | the padding is shorter than the alignment, ends on a multiple, and is empty exactly on one |
| Pack.StructAlign | pack.go:24-55 | the largest alignment of the fields, nested ones included, but at least 4 |
| Pack.FieldAlign | pack.go:24-55 | the alignment of one field |
| Pack.PackAll | pack.go:107-342 | appends exactly the encoding of the struct, and the count returned is its length |
| Pack.PackOne | pack.go:133-330 | one turn of the field loop: padding, bits or bytes, new position and pending bits |
| Pack.WriteBits | pack.go:178-204 | merges bits into the pending byte and writes every byte that fills up |
| Pack.WriteAligned | pack.go:276-329 | flush, padding, the field's bytes, and padding after a nested struct |
| Pack.WriteBody | pack.go:303-316 | the bytes of one field, nested structs by recursion |
| Pack.UnpackAll | pack.go:346-583 | reads the values of a struct, or the error, and leaves the rest of the stream |
| Pack.ReadField | pack.go:393-580 | one turn of the reading loop |
| Pack.ReadBits | pack.go:443-464 | takes a new byte when no bit is left over, and hands out its bits in order |
| PackRoundTrip.StructForward | pack.go:107-583 | reading what was written gives the values, the same count and what followed, for every bit-clean type |
| PackUnclean.Refute | pack.go:159-286 | for every type that is not bit-clean there is a value that does not come back |
| PackLaws.RoundTripForValue | pack.go:107-583 | on a bit-clean type a value comes back exactly when its strings have at most 82 bytes |
| PackLaws.RoundTripForType | pack.go:107-583 | every value with short strings comes back exactly on the bit-clean types |
| PackLaws.PackTestIsUnclean | pack_test.go:12-34 | the struct of the packing test, nested structs included, is not bit-clean, so some value of it does not come back |
| PackLaws.PackedSize | pack.go:332-341 | the number of bytes written depends on the type alone |
| PackLaws.ZeroPacksToZero | pack.go:107-342 | padding is zero: the zero value of any type is packed as zeros, as many as the type takes |
| PackLaws.SlotFilled | pack.go:217-240 | behind a text its slot is zero |
| PackPlaces.AlignmentForValue | pack.go:107-342 | every number of a value, inside structs and struct arrays, is found in the encoding at its computed offset, and all of them are aligned exactly when the type is straight |
| PackPlaces.AlignmentForType | pack.go:24-55 | all values of a type are aligned exactly when every struct array element starts at a multiple of its widest number |
| PackPlaces.StraightWithoutArrays | pack.go:288-329 | types without struct arrays are always aligned |
| PackPlaces.StraightPlainElements | pack.go:205-215 | an array of plain structs is straight exactly when its start and, from two elements on, its element size are multiples of the widest number |
| PackPlaces.LaterElementUnaligned | pack.go:205-215 | two elements of five bytes: the second 32-bit number stands at byte 5 of the encoding |
| PackPlaces.ArrayStartUnaligned | pack.go:159-170 | an array behind a string: its 32-bit number stands at byte 86 of the encoding |
| PackPlaces.StructBoundaries | pack.go:24-55 | a nested struct starts and ends on a multiple of 4, or of 8 with a 64-bit number inside, with the least padding for it |
| PackPlaces.StringStart | pack.go:159-170 | a string starts on the next multiple of 4, or at once behind a field of that alignment |
| UnpackPlaces.UnpackedStands | pack.go:346-583 | for every type and every stream that is accepted, whatever its padding holds: a flag is true exactly when its byte is not 0, a packed flag is its bit, a number the little-endian value and a string the characters that stand at its place |
| UnpackPlaces.ReadExactlyWhatStands | pack.go:346-583 | of a long enough stream the values read are exactly those that stand in it, and the stream is refused exactly when no values do |
| CleanPlaces.ReadsFromPlaces | pack.go:107-583 | on bit-clean types each number is read from the place where packing puts it, whoever wrote the stream |
| CleanPlaces.Repacked | pack.go:107-583 | packing what was read from any stream gives bytes that read as the same values, as many as were counted |
| Items.Item.Write | items.go:84-89 | appends, and the length field follows modulo 65536 |
| Items.Item.Serialize | items.go:214-284 | appends strings, lists of strings and encoded values in order, the strings in slots of 84 bytes |
| Items.StringHeader | items.go:219-262 | a slot of a list announces what it holds; a single string does so exactly up to 84 bytes |
| Items.ListSlot | items.go:234-262 | the strings of a list stand 88 bytes apart, in order |
| Items.Item.DeSerialize | items.go:288-290 | all the bytes asked for, or an error, and where the cursor ends |
| Items.Signed16Meaning | items.go:133-140 | a 16-bit number read as signed is the one number in -32768 to 32767 with those 16 bits |
| Items.SerializeItems | items.go:350-375 | six bytes of header, the count, the items |
| Items.ReadItems | items.go:26-50 | exactly the items of the stream, and what is left of it, or the error |
| Items.FramedRoundTrip | items.go:26-375 | a list built by `Write` comes back, ids, lengths and data, exactly when neither a length nor the count overflows |
| Items.ParsedIsFramed | items.go:26-50 | whatever is read is what writing the items read would give |
| TagPath.Parse | ioi.go:24-71 | base name, indexes and bit number of a tag text, or the error |
| TagTexts.BitIff | ioi.go:24-43 | a text names a bit exactly when it ends with a dot and a number, and that number is the bit |
| TagTexts.BlankIsRefused | ioi.go:46-66 | an index with a blank in it is refused, whatever the rest of the text |
| TagTexts.OtherIsName | ioi.go:46-50 | any character but digits, commas and blanks between the brackets makes them part of the name |
| TagPath.TagIoi.Append | ioi.go:166-233 | what one part of a path adds to the bytes and the bit access |
| TagPath.TagIoi.AppendIndexList | ioi.go:190-213 | index segments by size, and the word index and bit of a BOOL element |
| TagPath.NewSymbolicIoi | ioi.go:151-164 | the symbolic path of a tag text, or the error of its first bad part |
| TagPath.GetAsciiTagPart | ioi.go:320-341 | a name of the announced length and its pad byte |
| TagPath.GetTagFromPath | ioi.go:342-409 | the text that a path decodes to, and where the cursor stops |
| TagPathLaws.SymbolicMeaning | ioi.go:151-233 | the bytes of a path are the segments of its names and indexes, and its bit is the last one named |
| TagPathLaws.PathRoundTrip | ioi.go:151-409 | a path decodes to its text and stops right behind it exactly when no sentinel follows |
| TagPathLaws.PathRoundTripExactly | ioi.go:166-409 | names of 256 bytes and indexes of 65536 and more do not come back, all others do |
| PathTexts.PathsCompose | ioi.go:151-233 | for any two texts, the path of both with a dot between them is the one path behind the other, or the first error |
| PathTexts.PathOfParts | ioi.go:151-164 | the path of any text is the paths of its parts between the dots, one behind the other |
| PathTexts.BitInWord | ioi.go:190-226 | for any text, a bit is selected exactly when a part names one, and lies in 0 to 31 exactly when that part is no negative number |
| PathTexts.MinusThree | ioi.go:220-226 | `a.-3` selects bit -3 |
| TagTexts.UnopenedIsName | ioi.go:171-184 | a closing bracket without an opening one belongs to the name |
| TagTexts.BareIndex | ioi.go:171-213 | indexes behind a dot of their own are sent like indexes of the name before it |
| PathSegments.SymbolicIsSegments | ioi.go:151-233 | read by the rules for CIP segments, the path of a tag is the symbol of each name and the members of its indexes, up to 32 bits |
| TagPathLaws.PathIsEven | ioi.go:298-317 | every accepted path has even length, whatever the text |
| KnownTags.CandidateParts | ioi.go:272-285 | the lookup names of leading parts, bit numbers and empty names left out |
| KnownTags.FindKnownTagPrefix | ioi.go:269-296 | the longest run of parts whose name is listed, and what is left of the path |
| KnownTags.NewKnownTagIoi | ioi.go:235-267 | the instance-addressed path, none for struct arrays |
| KnownTags.IoiCache.NewIoi | ioi.go:107-149 | the result and the new cache of one lookup |
| KnownTagLaws.InstanceMeansSymbolic | ioi.go:235-296 | the instance form is the symbolic form with the name's segments replaced, same bit, exactly when the name is a textual prefix |
| KnownTagLaws.BitLastFits | ioi.go:235-296 | with a bit number in last place only, the listed name is always a textual prefix |
| KnownTagLaws.BitInTheMiddle | ioi.go:272-293 | a bit number between the names defeats the replacement |
| KnownTagLaws.FindsLongest | ioi.go:269-296 | what is found is the longest run of leading parts that names a listed tag, and nothing is found only when none does |
| PathSegments.TagIsSegments | client.go:197-246 | the bytes of a listed tag are the program's instance of class 0x68 or its name, then the tag's instance of class 0x6B |
| PathSegments.InstanceIsSegments | ioi.go:235-296 | an instance path is the segments of the longest listed tag, then those of the symbolic path behind that name |
| KnownTagLaws.NeverLonger | ioi.go:119-148 | over any run, with any changes of the listed tags, the path of a tag never gets longer |
| KnownTagLaws.HitsAreFresh | ioi.go:119-148 | with steady listed tags and types every lookup gives what computing the strictly shorter form afresh gives |
| KnownTagLaws.ShorterFormWins | ioi.go:119-136 | on new firmware, in every steady run, the instance form is returned exactly when it is shorter than the symbolic one, so the length is the smaller of the two |
| KnownTagLaws.NeverLongerThanInstance | ioi.go:119-136 | in any run no lookup returns a path longer than the instance form at that moment |
| KnownTagLaws.ListedNameGoesByInstance | ioi.go:119-136 | a listed tag asked for by its plain name of three characters or more gets the four bytes of its instance |
| KnownTagLaws.StructArrayByName | ioi.go:243-250 | arrays of structures are never addressed by instance |
| MultiMessage.BuildRequest | read.go:1549-1599 | the framed request: header, count, jump table, services |
| MultiMessage.PackedAt | read.go:1563-1567 | the jump table entry of a part leads to that part |
| PacketReads.FrameIsRead | items.go:350-375 | six zero bytes, two items: read by position, the connection's address and the data are those sent |
| PacketReads.BatchIsRead | read.go:1549-1599 | read by position, a batch goes to class 2 instance 1, under its sequence number, and holds every tag's service, path and count |
| PacketReads.RequestIsRead | read.go:1568-1590 | a read says its path's length in words, its path, its count and, fragmented, its offset |
| WriteMap.BuildWrites | udt_write.go:127-215 | the framed request of a map of values: every tag's path, type, a count of one and the value's bytes, all in one message, or the first path error |
| MultiServer.PackString | server_connected.go:389-406 | the type segment, the clamped length, the text and zeros, in 92 bytes |
| MultiServer.ReplyToRead | server_connected.go:136-194 | decodes the path and the count, asks the provider, builds the entry |
| MultiServer.ReplyToWrite | server_connected.go:195-238 | decodes path, type, count and values, and writes them |
| MultiServer.ServeOffsets | server_connected.go:119-242 | serves the packet's services in the order of its offsets, each on the state the earlier ones left |
| MultiServer.SendReply | server_connected.go:244-262 | the framed reply: header, count, jump table, entries |
| PacketReads.ReplyIsAddressed | server_connected.go:244-262 | the reply goes to the peer of the connection the packet named, under the packet's sequence number, with the entries in order |
| PacketReads.ServerEntryIs | server_connected.go:160-194 | the entry of a number or a text is a value entry with its reserved bytes zero, of a text with the type 0x02A0 and 0x0FCE |
| MultiServer.ConnectedMulti | server_connected.go:65-263 | the whole exchange of a multiple service packet |
| MultiServer.SendUnitData | server.go:251-348 | reads the items of a request and passes multiple service packets on |
| MultiReply.ReadReply | read.go:1600-1731 | the results of a reply, or the error |
| MultiReply.ReadEntry | read.go:1671-1728 | status, type and payload of one entry |
| PacketReads.WriteIsRead | udt_write.go:159-200 | a write of `WriteMap` says its path's length in words, its path, its type, a count of one and its bytes; of a string the type is 0x02A0 and 0x0FCE |
| MultiWriteLaws.ServesWrite | server_connected.go:195-238 | a write tells the provider the tag, the type, the count and all the values, in order, and is acknowledged when the provider writes |
| MultiWriteLaws.MixedServed | server_connected.go:65-263 | a packet of reads and writes is served service by service, whatever the provider does |
| MultiWriteLaws.ServerDoesServices | server_connected.go:119-242 | the provider is told to read and write exactly what the packet says, in order, exactly when no count of a read starts like a path segment |
| MultiWriteLaws.AnsweredIff | server_connected.go:119-242 | a packet is answered exactly when the provider has a value for every read and takes every write |
| MultiWriteLaws.UnknownConnection | server_connected.go:65-80 | a packet for a connection that is not open is refused |
| MultiWriteLaws.OtherService | server.go:270-345 | a service other than the multiple service packet goes elsewhere under its own code |
| MultiWriteLaws.WriteMapWrites | udt_write.go:127-215 | the packet of `WriteMap` fails with a string or structure in it, and otherwise has one value written to every tag, of a slice the first |
| MultiWriteLaws.BitWritesWord | ioi.go:220-226 | a write to a bit of a word has the bytes of a write to the word |
| MultiReadLaws.ServerAsksForTags | server_connected.go:119-160 | the provider is asked for exactly the requested tags and counts, in order, exactly when no count starts like a path segment |
| MultiReadLaws.ReplySplit | read.go:1653-1731 | the client cuts any reply where it was joined, and refuses it for a status other than 0 and 0x1E |
| MultiReplyLaws.EntryRead | read.go:1668-1728 | the entry of a value or a piece gives status, type and payload, with or without type information, and an error its status with no type and no bytes |
| MultiReplyLaws.ReadIsEntry | read.go:1668-1728 | every entry that is accepted is one of these |
| MultiReplyLaws.ReplyReports | read.go:1600-1731 | from a framed reply of any controller each tag gets what the controller reports about it, at its own index, good and failing tags mixed |
| ReadValue.DecodeReadTagValue | read.go:1787-1835 | the value of a tag from its status, type and bytes: an error, one bit, a text, raw bytes, one value or many |
| MultiReadLaws.MultiReadEndToEnd | server_connected.go:65-263 | the client gets, at every index, the type and bytes the provider gave for that tag |
| MultiReadLaws.StringComesBack | read.go:1797-1810 | a string comes back whole exactly when it has at most 82 bytes |
| Batching.SelectIndexes | read.go:816-870 | the greedy selection, or the first path error |
| Batching.SelectBatch | read.go:872-917 | the chosen entries of the pending list and those left over |
| Batching.CountThatFit | read.go:1482-1541 | how many leading tags fit, at least one |
| BatchingLaws.SelectionShape | read.go:816-870 | never empty, strictly increasing, in range |
| BatchingLaws.SelectionFits | read.go:854-865 | within both limits, unless no tag fits alone, and then the first tag alone |
| BatchingLaws.SelectionMaximal | read.go:854-861 | no tag left out could be added |
| BatchingLaws.CountIsPrefix | read.go:1482-1541 | the prefix counter counts the same costs as the packer |
| BatchingLaws.PacksThePrefix | read.go:816-870 | the packer takes at least as many tags as the prefix counter, and those very ones unless only later tags fit |
| BatchingLaws.RequestEstimateIsExact | read.go:919-930 | the request estimate is the length of the framed request |
| EndToEnd.ReplyEstimateHolds | read.go:932-967 | the reply of a controller that has a value for every tag is never longer than estimated, and as long as estimated for numbers and single strings |
| EndToEnd.ReplyBelowLimit | read.go:816-967 | so the reply to a batch stays below the connection size |
| EndToEnd.UnfragmentedFits | read.go:800-814 | a tag is read unfragmented only if its reply alone fits the connection |
| EndToEnd.FragmentedOnlyIfLong | read.go:800-814 | a single number or string whose reply fits is read unfragmented |
| ReadMap.BatchDivides | read.go:872-917 | a batch and what stays pending divide the pending tags, in order, and the batch is not empty |
| ReadMap.EachTagOnce | read.go:1387-1407 | every tag is in exactly one batch |
| ReadMap.BatchBelowLimit | read.go:816-870 | the message of a batch and its estimated reply stay below the connection size, but for the single-tag fallback |
| BatchCount.OneMessage | read.go:1356-1407 | one message is sent exactly when there is one tag, or all fit together |
| BatchCount.NoTwoMerge | read.go:1387-1407 | no two of the messages fit together in one |
| BatchCount.FewMessages | read.go:1356-1407 | for every division into g groups that fit, at most 4 g - 3 messages |
| BatchCount.FewestForSameCost | read.go:1356-1407 | when all tags cost the same, no division that fits has fewer groups |
| BatchCount.BatchesNeedNotBeFewest | read.go:1356-1357 | four tags that fit into two messages and are sent in three |
| ReadMap.ReadAll | read.go:1361-1413 | the batching loop, its termination and its results |
| ReadMap.ReadsEachTag | read.go:1387-1413 | batched reading gives every tag what reading it alone gives, and succeeds when all batches can be read |
| ReadMap.ReadsIff | read.go:1387-1413 | it succeeds exactly when all tags can be put into batches and every batch can be read |
| ReadList.ReadTags | read.go:1013-1081 | the recursive split |
| ReadList.LeftIsSent | read.go:1066-1070 | the left part of a split is sent without another split |
| ReadList.NeverEnds | read.go:1066-1074 | with a tag that is too long alone the recursion exhausts every stack, as long as nothing sent fails |
| ReadList.EndsIff | read.go:1066-1081 | the recursion ends on some stack exactly when every tag fits a message of its own, or sending the tags before the first that does not, or the empty message, fails |
| ReadList.SplitReadsEachTag | read.go:1066-1081 | one result per tag, in the order of the tags, however often the list is split |
| Fragments.ReadSingle | read.go:402-502 | the continuation loop: offset and payload in step, at most 1025 rounds |
| Fragments.CollectMemberReadPayload | listmembers.go:155-200 | the template loop: capped requests, at most 1024 rounds |
| Fragments.ReadListFragAll | read.go:1838-1900 | the batched continuation loop |
| FragmentRuns.SingleOfAny | read.go:402-502 | against any peer: at most 1025 exchanges, each asking behind the bytes before it; the first that is no partial transfer decides, its status must be good, and then the bytes are all chunks in order and the type the last one reported |
| FragmentRuns.MembersOfAny | listmembers.go:155-200 | against any server: at most 1024 requests, each behind the bytes before it and for no more than is left or 65535; the first reply that is no partial transfer with bytes decides, or the template is complete |
| Fragments.LeftMeaning | listmembers.go:163-176 | what is left is the 32-bit number that leads from the offset to the total |
| FragmentLaws.SingleReassembles | read.go:412-501 | against any in-order peer the value is whole exactly when the chunks fit the rounds |
| FragmentLaws.MembersReassemble | listmembers.go:155-200 | the same for templates, when partial means more of the template |
| FragmentLaws.RightForShortOnly | listmembers.go:172-193 | when partial means more of the request, no wrong template is returned exactly up to 65535 bytes |
| FragmentLaws.NeverMovesOn | read.go:1879-1898 | every request of every round of a batched continued read starts at offset 0 |
| FragmentLaws.ContinuesNothing | read.go:1856-1900 | every tag gets status, type and bytes of its first reply that is no partial transfer, asked for from offset 0, and of an error the status alone; it gives up exactly when some tag never gets one |
| FragmentLaws.WholeOrNothing | read.go:1881-1897 | a tag that a server sends in pieces is returned only if one reply held all of it |
| EndToEnd.CacheGivesSymbolicPath | ioi.go:107-149 | without listed tags or on old firmware, the path used is the one the cache gives in every steady run, for the lower-case name |
| EndToEnd.OneRound | read.go:1856-1900 | when no reply is a partial transfer the first round is the last: a good reply leaves its type and bytes, any other its status alone, a missing one nothing, and more replies than tags panic |
| EndToEnd.RoundFails | read.go:1874-1877 | a round that fails fails the read |
| EndToEnd.BatchReports | read.go:1549-1900 | one batch against any controller: tags with values get type and bytes, refused tags their own status |
| EndToEnd.BatchAnswers | read.go:1549-1900 | one batch against this server gives the type and bytes of the provider's answer for every tag |
| EndToEnd.ReadMapEndToEnd | read.go:1361-1413 | `ReadMap` against this server gives the type and bytes of the provider's answer for every tag |
| EndToEnd.ReadMapValues | read.go:1361-1835 | and these decode to the provider's numbers, the first 82 characters of its string, or the bit that the path names |
| DataTable.Buffer.AddTag | datatable.go:365-392 | appends one tag with the next index, or leaves all as it was |
| DataTable.Buffer.AddTags | datatable.go:425-481 | appends all the tags with consecutive indexes, or none |
| DataTable.Buffer.SyncTags | datatable.go:398-417 | sends what was not sent, and marks it with the batch number, or leaves all as it was |
| DataTable.Buffer.ReadAll | datatable.go:510-646 | syncs if needed, then the map of names to decoded or raw bytes |
| DataTable.ReadValues | datatable.go:536-572 | walks the reply, a batch number where a batch starts |
| DataTableLaws.PerformAll | datatable.go:365-481 | the methods of buffer and controller, run in any order, do what the steps of a run say |
| DataTableLaws.AddParses | datatable.go:200-242 | an add request comes across whole exactly with 1 to 255 tags |
| DataTableLaws.RunStaysInStep | datatable.go:365-481 | over every run the indexes follow the slice, and the tags are the controller's batches in order, then the unsent ones |
| DataTableLaws.RunHoldsAdded | datatable.go:365-481 | over every run the buffer holds, in order, a tag with its own path and size for everything that could be added, of several at once all or none |
| DataTableLaws.WalkReply | datatable.go:489-508 | reading takes the reply apart as the controller laid it out and leaves nothing |
| DataTableLaws.ReadsEverySlot | datatable.go:510-574 | a read gives every name the slot of its last tag, and succeeds exactly when every tag decodes |
| DataTableLaws.RunReadsEverySlot | datatable.go:510-646 | the same after any run from a new buffer |
| DataTableLaws.RunReadsRaw | datatable.go:614-645 | after any run a raw read succeeds and gives the bytes of each slot |
| DataTableLaws.RunReadsValues | datatable.go:510-646 | after any run each tag whose slot holds a value is read as that value |
| DataTableLaws.DecodeStored | datatable.go:111-127 | a number or text is decoded from the slot that holds it, whatever fills up the slot |
| DataTableLaws.DecodeCut | datatable.go:111-124 | a text whose length is too large is cut to the slot and to 82 characters |
| DataTableLaws.DecodeIffReadable | datatable.go:111-127 | which types decode, and from how many bytes |
| DataTableLaws.AddedButNotReadable | datatable.go:74-88 | the four types that can be added but never read |
| TagGroup.ExpandArrayTag | taggroup.go:121-161 | the names of the elements of an array tag |
| TagGroup.ElementParses | taggroup.go:149-160 | the j-th name parses to the base indexes with the last one raised by j |
| TagGroup.ElementsDistinct | taggroup.go:149-160 | no two expanded names are the same |
| TagGroup.FirstIsBase | taggroup.go:149-160 | the first expanded name is the base name exactly when that is written canonically |
| TagGroup.ExpandGroup | datatable.go:715-733 | the expansions and the tag types of a group |
| TagGroup.Retype | datatable.go:835-884 | collapses every definition and keeps every other tag, whatever the map order |
| TagGroup.TypedIsUnique | datatable.go:853-881 | the result does not depend on the order in which the maps are walked |
| TagGroup.GroupIntact | datatable.go:853-881 | a group of several elements comes back exactly when no plain tag of its name was read, or its name is no array element or canonical, or another definition covers it |
| TagGroup.GroupDisplaced | datatable.go:876-881 | `A[01]` with two elements is displaced by the plain tag `A[01]` |
| TagGroup.NothingLost | datatable.go:853-881 | every raw value is in the result, unless its groups are displaced |
| GroupRead.GroupIsComplete | datatable.go:710-884 | after adding a group to a new buffer, a sync and a read, every tag of it has what its slot held, so every definition collapses |
| GroupRead.GroupReadsBack | datatable.go:710-884 | and a canonical array tag of the group has its slots in order |
| TagGroup.ExpandThenCollapse | datatable.go:710-884 | a canonical array tag comes back whole and in order |
| Connection.Client.Disconnect | disconnect.go:55-160 | status, socket and outcome, through the nested disconnect of a failing send |
| Connection.Client.SendRecvData | sendreceive.go:79-106 | one exchange, and the forced disconnect when it fails |
| Connection.Client.Connect | connect.go:72-172 | dial, registration, large and standard forward open |
| Connection.Client.Call | connect.go:549-564 | connects first where asked to, and does not send without a connection |
| ConnectionLaws.DisconnectEnds | disconnect.go:55-160 | a disconnect ends disconnected with its socket closed, after at most one more use of the network |
| ConnectionLaws.SendOutcome | sendreceive.go:79-106 | a lost exchange closes the socket, an answered one changes nothing |
| ConnectionLaws.ConnectOutcome | connect.go:72-172 | success is the controller's acceptance and is ending connected; the size is the standard one after a large forward open that failed; a failure leaves the socket open exactly when the controller refused |
| ConnectionLaws.CallOutcome | connect.go:549-564 | a call on a connected client is one exchange; on a disconnected one nothing is sent unless it may connect and the controller accepts |
| ConnectionLaws.RunStaysSound | connect.go:72-172 | in every run over every network connected means an open socket |
| ConnectionLaws.DisconnectInRun | disconnect.go:55-160 | in every run a disconnect of a connected client closes its socket, and one of a disconnected client does nothing |
| ConnectionLaws.RefusalsLeak | connect.go:134-163 | n refused connects leave n sockets open, n - 1 of them beyond reach |
| BoolAccess.ReadBools | read.go:130-159 | entry k of a bulk read is bit k % 32 of word k / 32; lengths that are no multiple of 32 are refused, and an empty slice panics |
| BoolAccess.GetBitMeaning | types.go:347-490 | the bit found for every type and every position, negative ones included |
| BoolAccess.ElementIsBulk | ioi.go:190-196 | reading element k by its path gives entry k of the bulk read, which is bit k % 8 of byte k / 8 |

## Left out

- Sockets, deadlines, goroutines, tickers, UDP, logging: the network is a function or a parameter, keep-alive is off.
- Interleavings of concurrent callers: the life cycle is that of one caller.
- Go reflection, `setGoVar`, `AddTaggedStruct`, user-defined packers, `byteIndex` tags: types and values are explicit datatypes.
- Slices given to `Unpack` at the top level (pack.go:368-387).
- Alignments of a 32-bit target.
- Floating-point meaning: REAL and LREAL are words of 4 and 8 bytes.
- `RemoveTag`, and a lost reply to an add that the controller carried out: what the controller then holds is unknown.
- Multi-element STRING payloads: their strides differ between the two sides.
- `formatName`: tag names are taken after substitution.
- 64-bit overflow of the indexes of an expanded tag.
- `read_instance.go`, `partialread.go`: near copies of the loops of `read.go`.
- `CIPElement.Bytes` and `Len`, `TypeEncode`, l5x loading, identity replies, status texts, vendor and device tables.
- Aliasing of cached paths: the cache holds values where the source holds pointers to paths that nobody changes.
- Type field of cached paths: a hit may carry the type of an earlier request; bytes and bit are what is modelled.
- The tag provider of the server: any function of the requests so far; `MapTagProvider` is not part of this model.
- Other services of the server: reported as `Elsewhere`.
- ReadList.ReadTags: the source recurses on the Go stack; `depth` stands for what is left of it.
- DataTableLaws.ReadsEverySlot: buffers of fewer than 65536 tags, because the index is a 16-bit number.
- GroupRead.GroupReadsBack: groups of fewer than 65536 tags, for the same reason.
- BatchCount.FewestForSameCost: no exact condition for the fewest messages in general; that would be the answer to a packing problem in two dimensions.
- ReadValue.DecodeReadTagValue: structures for which the caller gave a Go type; their bytes are what `Unpack` is about.
- WriteMap.BuildWrites: paths without listed tags; `GoVarToCIPType` and the bytes of a Go value are given; `Write` and its UDT form.
- EndToEnd.ReadMapEndToEnd: symbolic paths only, connection sizes up to 32768, and a provider that answers by the request alone with no more bytes than asked for.
