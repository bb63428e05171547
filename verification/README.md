# Verified models of the repository's algorithms

A Dafny project that models the parts of this collection whose behaviour is easy to get wrong, and
proves what they are meant to do. `dafny verify dfyconfig.toml` checks everything.

Where a loop or an object updates things in place, the model is a method or a class proved against
a specification written as functions and predicates; what the program promises is then proved of
the specification for all inputs, runs or reachable states. Concurrent code is a transition system
with one action for each step of a thread, and the results hold for every sequence of actions.

| area | files | main results |
|---|---|---|
| Chinese converter (`python/lang_convert/langconv.py`) | `Segmentation`, `SegmentationOrder`, `ConvertTable`, `MachineStep`, `MachineList`, `MachineOrder`, `LangConverter` | the branching machines are a complete and ordered search without duplicates, early commits are globally optimal, the result uses the fewest segments and is the first such one in an order that the source's list implies |
| Object graph serializer (`c#/code/XSerialize/Binary/`) | `ArrayOdometer`, `ObjectGraph`, `IdTables`, `BinaryFormat`, `BinaryRoundTrip`, `BinaryStream`, `BinaryTruncation`, `BinarySerializer`, `TypeOrder`, `TypeRegistry` | round trip to an isomorphic copy with sharing and cycles, mirrored id tables, independent messages, shortest ids, no truncated message can be read; least closed type set, exactly when ids depend on the order of registration |
| Resumable downloader (`c#/code/XUtils/XHttpDownLoader.cs`) | `Int32`, `ByteFile`, `ChunkLayout`, `Downloader`, `DownloaderSafety`, `DownloaderProgress`, `DownloaderResume` | recorded progress is true under any interleaving, crashes and restarts; finished means complete; exactly when the workers leave a complete file; a restart goes on where the last run was; chunks tile the file iff it has at most 2^31 bytes |
| Ring buffer (`cpp-test/test-ringbuffer.cpp`) | `RingBuffer` | every interleaving of single reads and writes refines a bounded queue, and calls end |
| Fast remainder and primes (`cpp-test/test-fastmod.c`, `cpp-test/test-prime.cpp`) | `Arithmetic`, `FastMod`, `PrimeSearch`, `PrimeTable` | exactly when the fast remainder is the remainder, with 64-bit wrap-around, for all 32-bit values and divisors; what the prime search emits |
| Random numbers (`go/gowork/mypkg/mypkg.go`) | `CompatRandom`, `RandomRange`, `PackFile` | the circular array refines the lagged recurrence; for every seed every result is in range; a file that is hidden with such keys comes back |
| UTF-8 recogniser (`dotnet/libs/om.utils/EncodeUtils.cs`) | `Utf8` | accepts exactly the octet strings of the shape in section 2 of RFC 2279, or their beginnings |
| Table printer (`dotnet/libs/om.utils/CmdLine.cs`) | `TextLines`, `LineWrap`, `LineWidths` | wrapping is lossless, within the width, and has the fewest lines; what the printed text is line by line, and exactly when its lines fit |
| Relative links (`c#/other/DownloadWebsite/`) | `UriPaths`, `FileNames`, `LinkPaths`, `LinkTargets`, `RelateUrl`, `PercentCodes`, `LinkExamples` | a link leads to its target, resolved by RFC 3986 and then decoded, exactly under a checkable condition |

`Wrappers` and `Sequences` hold what several of them use.

What the proofs found out about the code:

- A dictionary entry for the empty key is never looked up, and the branch at `langconv.py:159-160`
  cannot be taken: the node always belongs to the pool and the next character.
- Of several shortest segmentations the converter takes the one that prefers to cut: with "ab" and "bc" as
  keys "abc" is cut after "ab" (`SegmentationOrder.LongFirst`, `SegmentationOrder.PreferredIsUnique`,
  `MachineOrder.PreferredFinished`).
- A chunk for which the server announces a wrong length is given up until the next start: the workers
  exit and the sizes never agree (`DownloaderProgress.CompleteUnlessGivenUp`).
- The chunks of a download tile the file if and only if it has at most 2^31 bytes, because
  `BlockSize * i` at `XHttpDownLoader.cs:85` is a 32-bit product (`ChunkLayout.TilesExactlyWhenSmall`).
- Type ids are independent of the order of registration if and only if no two types, besides those the
  base types need, have names that compare equal (`TypeRegistry.IdsIndependentOfOrder`).
- A class with a field of an interface type cannot be registered (`TypeRegistry.InterfaceFieldIsRefused`).
- CheckIsFinished answers true before the size is known, and then empties the file
  (`DownloaderSafety.EarlyAnswerLosesFile`).
- The fast remainder is exact for some divisors above 2^31 and wrong for others (`FastMod.FastModIsMod`,
  `FastMod.LargeDivisorFails`).
- Seeds above 161803398 make a difference of the warm-up wrap around, and eight of them leave -1 or
  MaxInt32 in it (`RandomRange.Number78`, `RandomRange.Number109`), but no result is ever
  out of range (`RandomRange.RangeAfter`).
- The table printer's columns align, and first lines fit, only for rows whose cells before the last are
  of half width, as the comment at `CmdLine.cs:737` presumes (`LineWidths.ColumnsAlign`,
  `LineWidths.FirstLinesFit`). With a single column continued lines can be one wider than the window,
  because padding one space to width 0 leaves one space; so a full continued line is one too wide.
  From the characters alone this is told exactly for cells of half width only (`LineWidths.SingleColumnFits`).
- `_GetRelateUrl` writes decoded file names into links without encoding them again. A relative link that
  does not climb fails exactly when the page's name has an escaped slash, or the part of the target's path
  that the link names is empty, begins with a slash, has a hash or does not decode to itself; one that
  climbs fails exactly when the page has an empty segment right behind the web root or the part has a hash
  or does not decode to itself (`LinkTargets.LinksLeadToTarget`, with five links in `LinkExamples`).
- `helper_IsPrime` takes 1 for a prime, and is right for every other number that is not negative and odd (`PrimeSearch.IsPrime`).

Assumptions, each a parameter or a stated condition of the model:

- Reflection gives the field types of classes and structs and the types a type needs; a struct does
  not contain itself; primitive values and type names are single tokens.
- Class objects are compared by reference, strings by content.
- The server's file does not change, writes to the local file do not fail and happen in program
  order, and an 8-byte progress number is written in one step; data bytes arrive one at a time, in
  pieces of any length, and any request may fail at any point.
- `SetLength` extends a file with zeros.
- The ring buffer's threads are interleaved one read or write at a time, items are not null.
- `System.Uri` gives a path that begins with a slash and has no unescaped question mark or hash. Decoding
  it leaves slashes where they are and text without escapes as it is, and makes nothing longer
  (`PercentCodes` has such a decoder). The characters that file names
  may not have are those of Windows. Texts are compared character by character.
- The start values of the prime search, the window width and the newline are given.

## Model

| member | source | states |
|---|---|---|
| Segmentation.BoundaryExtends | python/lang_convert/langconv.py:195-208 | if every segmentation of every extension of the text so far is cut after it, and no segmentation of the next chunk can leave a started key open, the same holds after the chunk |
| Segmentation.NoStraddle | python/lang_convert/langconv.py:195-200 | when nothing is pending after a chunk, no key of any segmentation of any longer text straddles its end |
| Segmentation.ShortestJoins | python/lang_convert/langconv.py:203-208 | a fewest-segments cut up to such a point followed by a fewest-segments cut of the chunk is a fewest-segments cut of both together |
| Segmentation.StraddlingWord | python/lang_convert/langconv.py:195-200 | a segmentation that has no cut at a position has a piece that begins before and ends behind it |
| Segmentation.SinglesCut | python/lang_convert/langconv.py:219-224 | every text can be cut, into single characters, so a best cut exists for every input |
| SegmentationOrder.PreferredIsUnique | python/lang_convert/langconv.py:203-208 | of the shortest segmentations of a text one comes first, in the order by the last position that only one of them passes over although a word ends there |
| SegmentationOrder.PrecedesIsLess | python/lang_convert/langconv.py:203-208 | this order on sets of positions is the one on marks, character by character from the end |
| SegmentationOrder.MarksAt | python/lang_convert/langconv.py:160-165 | a mark is set exactly where a position inside a word is passed over |
| SegmentationOrder.LongFirst | python/lang_convert/langconv.py:203-208 | with the keys "ab" and "bc" the text "abc" is cut into "ab", "c" before it is cut into "a", "bc" |
| SegmentationOrder.PreferredJoins | python/lang_convert/langconv.py:195-208 | the preferred segmentations before and behind a boundary join to the preferred one of the whole text |
| ConvertTable.FindChildren | python/lang_convert/langconv.py:72-82 | for keys visited in sorted order the marks say exactly which entries are proper prefixes of keys, although every visited key is reset to "no child" |
| ConvertTable.MarkPrefixes | python/lang_convert/langconv.py:77-80 | exactly the non-empty proper prefixes of the key are marked, everything else is as before |
| ConvertTable.Sorted | python/lang_convert/langconv.py:76 | the keys in strictly ascending order, each exactly once |
| ConvertTable.NotYetAStem | python/lang_convert/langconv.py:76-81 | in sorted order no key visited so far extends the key being visited, so the reset loses nothing |
| ConvertTable.ConvertMap.SetConvertMap | python/lang_convert/langconv.py:72-87 | the table holds exactly the keys and their non-empty proper prefixes, with the right flags and words, for the mapping given |
| ConvertTable.ConvertMap.constructor | python/lang_convert/langconv.py:66-70 | an empty or a given mapping becomes such a table |
| ConvertTable.TableMeaning | python/lang_convert/langconv.py:83-94 | for every non-empty text: it is in the table iff it is a non-empty prefix of a key, is_tail iff a key, have_child iff a proper prefix; a lookup never yields ERROR or UNMATCHED_SWITCH and translates like the mapping |
| MachineStep.LookupConditions | python/lang_convert/langconv.py:117-132 | the condition a lookup leads to, as an iff on keys and prefixes; absent keys give an original node, an empty mapped word gives the source word |
| MachineStep.ReactReached | python/lang_convert/langconv.py:117-170 | what one machine does with one character in every situation it can be in: it fails iff pool+char is neither a word nor the beginning of a key, takes the word, waits, or does both with a branch; it never raises |
| MachineStep.StepSound | python/lang_convert/langconv.py:186-194 | what comes out of a step is a segmentation of the longer text plus a pending rest, it comes from one machine only, and is not both survivor and branch |
| MachineStep.StepComplete | python/lang_convert/langconv.py:186-194 | every segmentation with pending rest of the longer text comes out of some machine of the round before |
| MachineList.StepDistinct | python/lang_convert/langconv.py:186-194 | one step never produces the same search state twice |
| MachineList.StepKeepsComplete | python/lang_convert/langconv.py:186-194 | one round keeps the machine list a duplicate-free list of all search states of the text |
| MachineList.FreshComplete | python/lang_convert/langconv.py:203-212 | the single new machine is the complete list for the empty text |
| MachineList.MachinesArePairs | python/lang_convert/langconv.py:104-115 | machines correspond one to one to the pairs (segmentation of a prefix, rest that is empty or begins a key), with final, len and pool equal to translation, count and rest |
| MachineList.ShortestFinished | python/lang_convert/langconv.py:203-207 | the first machine of least length among the finished ones is a shortest segmentation of the whole text and carries its translation |
| MachineList.SomeFinished | python/lang_convert/langconv.py:195-204 | there is always a machine, and after at least one character a finished one, so nothing is lost at a commit |
| MachineList.NoWaitingNothingPending | python/lang_convert/langconv.py:195-200 | if every machine is at END, no segmentation of the text leaves a started key open |
| MachineOrder.NextMarks | python/lang_convert/langconv.py:145-165 | a branch gets a mark for the character fed, what the machine itself becomes gets none |
| MachineOrder.StepKeepsOrder | python/lang_convert/langconv.py:187-194 | branches behind survivors, each in the order of their origins: the machines stay ordered by their marks from the end |
| MachineOrder.PreferredFinished | python/lang_convert/langconv.py:203-208 | the first machine of least length has cut the text in the preferred way |
| LangConverter.ReachedNeverRaise | python/lang_convert/langconv.py:167-169 | no machine of a complete list ever throws the state machine exception |
| LangConverter.RoundKeepsComplete | python/lang_convert/langconv.py:186-194 | feeding all machines, appending branches and dropping failed ones yields the complete list for the longer text, in order again, and none raises |
| LangConverter.ChosenJoins | python/lang_convert/langconv.py:203-208 | what a clean-up appends continues the committed text to the preferred one of the shortest segmentations of everything, and its translation |
| LangConverter.CommitKeeps | python/lang_convert/langconv.py:195-208 | an early commit when no machine waits keeps the result the preferred one of the globally shortest and the position a boundary of all segmentations |
| LangConverter.EndIsBest | python/lang_convert/langconv.py:214-217 | whatever is chosen at the end gives a best translation of the whole text |
| LangConverter.BestIsUnique | python/lang_convert/langconv.py:219-224 | there is only one best translation of a text, so the result is determined |
| LangConverter.NothingToConvert | python/lang_convert/langconv.py:219-224 | a text none of whose parts is mapped to another text comes out unchanged, also where a key is mapped to the empty text |
| LangConverter.PendingMeansWaiting | python/lang_convert/langconv.py:195-201 | all machines are at END exactly when no way to cut the text leaves a key open |
| LangConverter.StatesMachine.Clone | python/lang_convert/langconv.py:111-115 | a new waiting machine with the same final and length and the given pool; the original is untouched |
| LangConverter.StatesMachine.Feed | python/lang_convert/langconv.py:117-170 | the in-place update and the returned branch are exactly the reaction of the state machine, including the exception case and the END-restarts recursion |
| LangConverter.StatesMachine.Length | python/lang_convert/langconv.py:172-173 | at least 1, so a new machine always counts as true in the feeding loop |
| LangConverter.Converter.FeedOne | python/lang_convert/langconv.py:188-191 | one machine is updated in place and its branch, if any, appended; no other machine is touched |
| LangConverter.Converter.FeedAll | python/lang_convert/langconv.py:187-193 | all machines in order, then all branches in order |
| LangConverter.Converter.DropFailed | python/lang_convert/langconv.py:194 | exactly the machines not in FAIL remain, in order |
| LangConverter.Converter.AllOk | python/lang_convert/langconv.py:195-198 | true iff all machines are at END |
| LangConverter.Converter.Clean | python/lang_convert/langconv.py:203-208 | appends the translation of the first machine of least length, if there is one, and starts over with one new machine |
| LangConverter.Converter.DropWaiting | python/lang_convert/langconv.py:215-216 | exactly the machines at END remain, in order |
| LangConverter.Converter.Feed | python/lang_convert/langconv.py:186-201 | keeps the whole invariant: committed text with its preferred segmentation, complete and ordered machine list for the rest; commits exactly when no way to cut the text fed since the last commit leaves a key open, and else leaves the output as it is |
| LangConverter.Converter.End | python/lang_convert/langconv.py:214-217 | for every state reachable by feeding: the output is the best translation of everything fed, by number of segments and then by the order of PreferredIsUnique |
| LangConverter.Converter.Convert | python/lang_convert/langconv.py:219-224 | for every mapping and every input: the concatenated translation of the segmentation of the whole input into single characters and keys that has the fewest segments and, of several, the one whose last position passed over although a word ends there comes first |
| LangConverter.Converter.constructor | python/lang_convert/langconv.py:181-184 | a converter starts with one new machine, nothing fed and nothing committed |
| ArrayOdometer.RowMajorFacts | c#/code/XSerialize/Binary/XBinarySerializeArray.cs:51-68 | the row-major list contains exactly the index vectors in bounds, in strictly ascending lexicographic order, for every rank, lengths and lower bounds |
| ArrayOdometer.RowMajorDistinct | c#/code/XSerialize/Binary/XBinarySerializeArray.cs:51-68 | no index vector occurs twice |
| ArrayOdometer.TickIsNext | c#/code/XSerialize/Binary/XBinarySerializeArray.cs:56-67 | advancing the last coordinate below its bound and resetting those behind it gives the next index vector: none lies between |
| ArrayOdometer.NextRow | c#/code/XSerialize/Binary/XBinarySerializeArray.cs:56-67 | the next index vector is the next entry of the row-major list |
| ArrayOdometer.LastRow | c#/code/XSerialize/Binary/XBinarySerializeArray.cs:57-62 | when all coordinates are at their bound it was the last entry |
| ArrayOdometer.Odometer.constructor | c#/code/XSerialize/Binary/XBinarySerializeArray.cs:38-45 | the index buffer starts at the first entry |
| ArrayOdometer.Odometer.Next | c#/code/XSerialize/Binary/XBinarySerializeArray.cs:104-115 | the in-place loops advance the buffer from entry n to entry n+1, or report the end exactly behind the last entry |
| BinarySerializer.Writer.CellLoop | c#/code/XSerialize/Binary/XBinarySerializeArray.cs:99-116 | writes the elements in row-major order of their indexes, each exactly once |
| BinarySerializer.Writer.DimLoop | c#/code/XSerialize/Binary/XBinarySerializeArray.cs:84-93 | writes length and lower bound of each dimension in order |
| BinarySerializer.ObjectReader.NextCell | c#/code/XSerialize/Binary/XBinarySerializeArray.cs:53-54 | the value read is stored at the index it was read for, in the array that is already registered |
| BinarySerializer.ObjectReader.CellLoop | c#/code/XSerialize/Binary/XBinarySerializeArray.cs:46-70 | reads the same index sequence as was written and stores each element at its index |
| BinaryRoundTrip.HeadReadBack | c#/code/XSerialize/Binary/XBinarySerializer2.cs:264-266 | the header of every handler is read back as an empty object of the same shape, with the same slot types to follow |
| BinaryRoundTrip.TextReadsBack | c#/code/XSerialize/Binary/XBinarySerializer2.cs:191-274 | a string is registered and reads back equal, a repeated one as the same entry |
| BinaryRoundTrip.ValueReadsBack | c#/code/XSerialize/Binary/XBinarySerializer2.cs:167-223 | a value type reads back equal, slot by slot, without a record of its own |
| BinaryRoundTrip.SlotReadsBack | c#/code/XSerialize/Binary/XBinarySerializer2.cs:167-223 | a slot reads back as declared: value types inline, everything else as a record |
| BinaryRoundTrip.WriteReadsBack | c#/code/XSerialize/Binary/XBinarySerializer2.cs:179-276 | from any mirrored tables: reading one written record gives the renamed value, consumes exactly its tokens, leaves the tables mirrored and older objects as they were |
| BinaryRoundTrip.ObjectReadsBack | c#/code/XSerialize/Binary/XBinarySerializer2.cs:193-275 | the same for an object that was not written before, including one that refers to itself |
| BinaryRoundTrip.RoundTrip | c#/code/XSerialize/Binary/XBinarySerializer2.cs:94-117 | for every well-formed graph with sharing and cycles: deserializing what was serialized, before any further tokens, gives an isomorphic copy in fresh references, consumes exactly what was written, and changes nothing that was there before |
| BinaryRoundTrip.TwoMessages | c#/code/XSerialize/Binary/XBinarySerializer2.cs:94-117 | two messages in one stream decode independently, to copies that share no object |
| BinaryTruncation.ReadGoesOn | c#/code/XSerialize/Binary/XBinarySerializer2.cs:235-276 | a record that can be read gives the same from any longer stream, and leaves what was added |
| BinaryTruncation.TruncatedFails | c#/code/XSerialize/Binary/XBinarySerializer2.cs:106-276 | no proper beginning of a serialized message can be read |
| BinaryTruncation.UnknownIdsFail | c#/code/XSerialize/Binary/XBinarySerializer2.cs:250-270 | ids of types and objects that were not given out fail |
| BinaryRoundTrip.CopyPreserves | c#/code/XSerialize/Binary/XBinarySerializer2.cs:179-276 | in such a copy every object has the type of the original and slots hold equal values exactly where they did: the same aliasing |
| ObjectGraph.RenameInjective | c#/code/XSerialize/Binary/XBinarySerializer2.cs:186-190 | different values have different copies |
| ObjectGraph.BuildRenamed | c#/code/XSerialize/Binary/XBinarySerializer2.cs:264-274 | rebuilding an object from its renamed slots gives the renamed object |
| ObjectGraph.RenameObjectSlots | c#/code/XSerialize/Binary/XBinarySerializer2.cs:179-211 | a renamed object has the same type and the renamed slots |
| BinaryRoundTrip.AlwaysRegistered | c#/code/XSerialize/Binary/XBinarySerializer2.cs:265-273 | for every stream: whenever the handler of a class type succeeds, its object was registered at the expected place, so the "forget use" exception is unreachable |
| BinarySerializer.Writer.Serialize | c#/code/XSerialize/Binary/XBinarySerializer2.cs:94-104 | for every well-formed graph: clears the tables and appends the serialized tokens to the stream |
| BinarySerializer.Writer.GetOrAddTypeId | c#/code/XSerialize/Binary/XBinarySerializer2.cs:119-132 | the id is the position of the type in the order of first use; a new type is announced first, a known one is not |
| BinarySerializer.Writer.PutId | c#/code/XSerialize/Binary/XBinarySerializer2.cs:196-204 | ids up to 251 as one token, larger ones behind the ID32 flag; IdTokensShortest says that no form the reader takes is shorter |
| BinaryStream.IdTokensStand | c#/code/XSerialize/Binary/XBinarySerializer2.cs:196-270 | the tokens of an id are read as that id by every reader, whatever follows |
| BinaryStream.IdTokensShortest | c#/code/XSerialize/Binary/XBinarySerializer2.cs:196-270 | and no tokens that are read so are fewer |
| BinaryStream.AnnouncedOnce | c#/code/XSerialize/Binary/XBinarySerializer2.cs:119-132 | in a message no type is announced twice, and the types are announced in the order of their ids |
| BinaryStream.WriteAnnounces | c#/code/XSerialize/Binary/XBinarySerializer2.cs:119-211 | a record announces exactly the types that it adds to the id table, in order |
| BinaryStream.PlainMessage | c#/code/XSerialize/Binary/XBinarySerializer2.cs:179-211 | an object without fields is 254, the name of its type, 0 |
| BinaryStream.SharedMessage | c#/code/XSerialize/Binary/XBinarySerializer2.cs:179-211 | a list that has one object twice: the announced list type and its id, the count, the announced object, and 253 with the id 1 |
| BinaryStream.NullMessage | c#/code/XSerialize/Binary/XBinarySerializer2.cs:179-185 | null is 255 |
| BinarySerializer.Writer.PutType | c#/code/XSerialize/Binary/XBinarySerializer2.cs:195-204 | the id of the type, behind its announcement if the type is new |
| BinarySerializer.Writer.Register | c#/code/XSerialize/Binary/XBinarySerializer2.cs:205-208 | the next object id, position in the order of first use |
| BinarySerializer.Writer.Record | c#/code/XSerialize/Binary/XBinarySerializer2.cs:179-211 | the id maps and the stream after a record are exactly those the format defines; the maps stay the inverses of the lists of types and objects |
| BinarySerializer.Writer.NewRecord | c#/code/XSerialize/Binary/XBinarySerializer2.cs:191-210 | the same for a value that was not written before: announcement, id, registration, contents |
| BinarySerializer.Writer.Slot | c#/code/XSerialize/Binary/XBinarySerializer2.cs:167-177 | value types without flags, everything else as a record |
| BinarySerializer.ObjectReader.Deserialize | c#/code/XSerialize/Binary/XBinarySerializer2.cs:106-117 | clears the tables and does what the format's reading function does, including failure |
| BinarySerializer.ObjectReader.Record | c#/code/XSerialize/Binary/XBinarySerializer2.cs:235-276 | a record is read as the format defines: null, announcement and then another record, reuse, or a typed object; out-of-range ids fail |
| BinarySerializer.ObjectReader.Typed | c#/code/XSerialize/Binary/XBinarySerializer2.cs:264-274 | a new object of a known type, with the registration check behind it |
| BinarySerializer.ObjectReader.Slot | c#/code/XSerialize/Binary/XBinarySerializer2.cs:213-223 | value types inline, everything else as a record |
| BinarySerializer.ObjectReader.Open | c#/code/XSerialize/Binary/XBinarySerializer2.cs:229-233 | a newly made object gets the next reference and the next place in the list of read objects |
| IdTables.IdsGrow | c#/code/XSerialize/Binary/XBinarySerializer2.cs:127-207 | adding the next id to an id map keeps it the inverse of the list |
| BinarySerializer.Writer.Contents | c#/code/XSerialize/Binary/XBinarySerializeClass.cs:75-83 | fields in order, and the header and elements of the other handlers, in the order the format defines |
| BinarySerializer.Writer.Value | c#/code/XSerialize/Binary/XBinarySerializeClass.cs:75-83 | a primitive's payload, or the fields of a struct in order |
| BinarySerializer.Writer.SlotLoop | c#/code/XSerialize/Binary/XBinarySerializeClass.cs:78-82 | the slots in order, with the tables carried from each to the next |
| BinarySerializer.ObjectReader.Object | c#/code/XSerialize/Binary/XBinarySerializeClass.cs:59-73 | the object is registered before its slots are read, and filled slot by slot |
| BinarySerializer.ObjectReader.Value | c#/code/XSerialize/Binary/XBinarySerializeClass.cs:59-73 | a payload, or a struct whose fields are read in order and that is not registered |
| BinarySerializer.Writer.EntryLoop | c#/code/XSerialize/Binary/XBinarySerializeGeneric.cs:101-109 | entries in order, key before value |
| BinarySerializer.ObjectReader.SlotLoop | c#/code/XSerialize/Binary/XBinarySerializeGeneric.cs:87-99 | elements in order, each added before the next is read; a null or repeated key fails |
| BinaryRoundTrip.SlotsReadBack | c#/code/XSerialize/Binary/XBinarySerializeGeneric.cs:58-109 | for every run of slots, with an object under construction that may be referred to meanwhile: they read back renamed, in order, and the object ends up as the renamed one |
| TypeOrder.OrderInOrder | c#/code/XSerialize/Binary/XBinarySerializer.cs:189 | sorting by name is a permutation in name order, and types with equal names stay in the order they were in |
| TypeOrder.OneArrangement | c#/code/XSerialize/Binary/XBinarySerializer.cs:189-197 | types that differ in name, or in their place among those that were first, have only one arrangement in order |
| TypeOrder.MoreArranged | c#/code/XSerialize/Binary/XBinarySerializer.cs:123-128 | types added behind a sorted list do not change the order of equal names |
| TypeRegistry.Handles | c#/code/XSerialize/Binary/XBinarySerializer.cs:163-183 | handling one type of the stack keeps the worklist invariant: what a listed type needs is listed or on the stack, and nothing else is |
| TypeRegistry.LeastClosed | c#/code/XSerialize/Binary/XBinarySerializer.cs:158-185 | when nothing is pending the listed types are closed, and a type is listed iff every closed set around the start contains it |
| TypeRegistry.CollectIsLeast | c#/code/XSerialize/Binary/XBinarySerializer.cs:158-185 | for every finite set of reachable types the worklist ends; it succeeds iff every needed new type has no open generic parameters and a handler, and names the type that is refused otherwise; then it leaves exactly the least set that contains the old and the given types and what they need, each type once, the old ones first |
| TypeRegistry.InterfaceFieldIsRefused | c#/code/XSerialize/Binary/XBinarySerializer.cs:171-174 | a class with a field of an interface type, for which there is no handler: the interface is refused, after the class was listed |
| TypeRegistry.TableComplete | c#/code/XSerialize/Binary/XBinarySerializer.cs:105-128 | after the constructor and any number of later registrations the list is exactly what was asked for and needed, each type once |
| TypeRegistry.TableInOrder | c#/code/XSerialize/Binary/XBinarySerializer.cs:110-128 | whatever is registered later, the types a registry began with stay in front of all others with equal names |
| TypeRegistry.OrderDoesNotMatter | c#/code/XSerialize/Binary/XBinarySerializer.cs:110-128 | two registries with the same types, registered in any order and any number of calls, have the same list if no two types besides those of the base types have equal names |
| TypeRegistry.OrderMatters | c#/code/XSerialize/Binary/XBinarySerializer.cs:110-128 | two types with equal names besides those: registries given the one first and the other first end with the same types in different lists |
| TypeRegistry.IdsIndependentOfOrder | c#/code/XSerialize/Binary/XBinarySerializer.cs:110-128 | both together, as an iff, for every registry and every history of registrations |
| TypeRegistry.Registry.Push | c#/code/XSerialize/Binary/XBinarySerializer.cs:179-183 | the needed types not handled yet go on the stack in order, nothing else |
| TypeRegistry.Registry.AddTypesWithoutHash | c#/code/XSerialize/Binary/XBinarySerializer.cs:158-185 | the handler map, the list and the outcome are those of the worklist, including which of the two exceptions is thrown for which type |
| TypeRegistry.Registry.OrderTypes | c#/code/XSerialize/Binary/XBinarySerializer.cs:187-197 | the list is sorted stably by name, and the ids are a bijection inverse to it |
| TypeRegistry.Registry.Number | c#/code/XSerialize/Binary/XBinarySerializer.cs:191-197 | every type of the sorted list has its position as its id |
| TypeRegistry.Registry.ResetTypes | c#/code/XSerialize/Binary/XBinarySerializer.cs:110-121 | the tables are those of a history of one registration, with the ids inverse to the list, or those the refused type was met with |
| TypeRegistry.Registry.AddTypes | c#/code/XSerialize/Binary/XBinarySerializer.cs:123-128 | the tables are those of the longer history, or those the refused type was met with |
| ChunkLayout.InitChunks | c#/code/XUtils/XHttpDownLoader.cs:76-91 | for every size, with the 32-bit product and the 32-bit count of the code: the chunk list |
| ChunkLayout.TilesExactlyWhenSmall | c#/code/XUtils/XHttpDownLoader.cs:81-90 | the chunks tile the file without gap or overlap if and only if it has at most 2^31 bytes |
| ChunkLayout.SlotsTile | c#/code/XUtils/XHttpDownLoader.cs:88 | the 8-byte progress slots tile the metadata area |
| ByteFile.Int64RoundTrip | c#/code/XUtils/XHttpDownLoader.cs:47-125 | a progress number reads back as it was written |
| ByteFile.LowByteFirst | c#/code/XUtils/XHttpDownLoader.cs:47-125 | the low byte of a number comes first |
| DownloaderSafety.LaunchOk | c#/code/XUtils/XHttpDownLoader.cs:115-201 | a run launched from progress numbers that are true starts in the invariant |
| DownloaderSafety.StampedOk | c#/code/XUtils/XHttpDownLoader.cs:144-155 | writing the next fresh progress number keeps the invariant of the initialisation |
| DownloaderSafety.MarkingOk | c#/code/XUtils/XHttpDownLoader.cs:110-153 | the mark byte is only ever written over a layout that is completely true |
| DownloaderSafety.TakesChunk | c#/code/XUtils/XHttpDownLoader.cs:53-64 | a worker that takes the next chunk holds one that no other worker holds |
| DownloaderSafety.WritesByte | c#/code/XUtils/XHttpDownLoader.cs:43-44 | a byte of a buffer that reaches the file lies in the worker's chunk and hurts no other chunk and no progress slot |
| DownloaderSafety.Advances | c#/code/XUtils/XHttpDownLoader.cs:45 | moving curr past a written buffer keeps it true and in the chunk |
| DownloaderSafety.Stamps | c#/code/XUtils/XHttpDownLoader.cs:46-47 | writing the progress number touches only its own slot and never claims more than was written |
| DownloaderSafety.Counts | c#/code/XUtils/XHttpDownLoader.cs:70-72 | adding to the shared size keeps it equal to what the workers have fully accounted for |
| DownloaderSafety.StepOk | c#/code/XUtils/XHttpDownLoader.cs:37-290 | every step of every thread, a crash, a restart and the finishing truncation keep the invariant |
| DownloaderSafety.EveryRunIsOk | c#/code/XUtils/XHttpDownLoader.cs:37-290 | for every source of at most 2^31 bytes and every sequence of steps, crashes and restarts the invariant holds |
| DownloaderSafety.ProgressIsTrue | c#/code/XUtils/XHttpDownLoader.cs:37-134 | from an absent file, at every moment: from <= curr <= to + 1 for every chunk in memory and, once the file is marked, in the metadata, and every byte in [from, curr) is the source's byte |
| DownloaderSafety.SizesAgree | c#/code/XUtils/XHttpDownLoader.cs:274-277 | if the accounted size equals the total size, every chunk is finished and the first bytes of the file are the source |
| DownloaderSafety.FinishedMeansComplete | c#/code/XUtils/XHttpDownLoader.cs:274-287 | in every reachable state of a running download with equal sizes the file begins with the whole source and every chunk is finished |
| DownloaderSafety.AnswerIsRight | c#/code/XUtils/XHttpDownLoader.cs:185-287 | in every reachable state where CheckIsFinished answers true and cuts the file, the file is then the source if and only if the download is running, or there is nothing to download |
| DownloaderSafety.EarlyAnswerLosesFile | c#/code/XUtils/XHttpDownLoader.cs:185-287 | between a start and the answer of the server both sizes are 0: asked then, a complete file is cut to nothing |
| DownloaderProgress.WorkTended | c#/code/XUtils/XHttpDownLoader.cs:53-263 | a step of a worker leaves every taken chunk finished or held, unless it gives one up at a wrong length |
| DownloaderProgress.ExitMeansAllTaken | c#/code/XUtils/XHttpDownLoader.cs:53-222 | in every run a worker has exited only when all chunks were taken |
| DownloaderProgress.CompleteUnlessGivenUp | c#/code/XUtils/XHttpDownLoader.cs:53-287 | in every run, once all of at least one worker have exited: all chunks are finished iff no request since the launch met a wrong length, iff the sizes agree; and then finishing leaves the source |
| DownloaderProgress.StepShrinks | c#/code/XUtils/XHttpDownLoader.cs:37-263 | a worker step in which the network does its part leaves less to do, by a count of bytes, chunks and steps |
| DownloaderProgress.EndsInTime | c#/code/XUtils/XHttpDownLoader.cs:216-263 | so on a network that does not fail the workers take a bounded number of steps, however they take turns |
| DownloaderProgress.GoodNetworkCompletes | c#/code/XUtils/XHttpDownLoader.cs:216-287 | from any running state that gave nothing up: such a sequence of steps can go on until all workers have exited, and then finishing leaves the source |
| DownloaderResume.EveryRunNoted | c#/code/XUtils/XHttpDownLoader.cs:37-49 | in every run each progress number is its curr, except while a worker is between moving curr and writing it down |
| DownloaderResume.RestartGoesOn | c#/code/XUtils/XHttpDownLoader.cs:76-202 | a running download that is interrupted at any moment and started again goes on at once with the same file and every chunk where it was, but for those not written down yet |
| DownloaderResume.CompleteIsKept | c#/code/XUtils/XHttpDownLoader.cs:96-202 | a complete file is started with all chunks finished and the sizes equal |
| DownloaderResume.FileLayout | c#/code/XUtils/XHttpDownLoader.cs:76-110 | the file of a running download has 8 bytes for each 4194304 bytes of the source or a part of them behind the data, and 233 behind these |
| DownloaderResume.SlotLayout | c#/code/XUtils/XHttpDownLoader.cs:76-134 | these 8 bytes are a position in their part of the data |
| RingBuffer.RingBuffer.constructor | cpp-test/test-ringbuffer.cpp:25-27 | an empty queue of the given capacity |
| RingBuffer.RingBuffer.CanPut | cpp-test/test-ringbuffer.cpp:4-6 | true iff the queue is not full |
| RingBuffer.RingBuffer.TryPut | cpp-test/test-ringbuffer.cpp:7-12 | appends the item, or does nothing and says so exactly when the queue is full |
| RingBuffer.RingBuffer.CanEat | cpp-test/test-ringbuffer.cpp:13-15 | true iff the queue is not empty |
| RingBuffer.RingBuffer.TryEat | cpp-test/test-ringbuffer.cpp:16-23 | removes and returns the oldest item, or nothing exactly when the queue is empty |
| RingBuffer.PutKeepsWindow | cpp-test/test-ringbuffer.cpp:7-12 | storing behind the window extends it by the item, round the end of the buffer |
| RingBuffer.EatKeepsWindow | cpp-test/test-ringbuffer.cpp:16-23 | clearing the first slot shortens the window by its oldest item |
| RingBuffer.ProducerStep | cpp-test/test-ringbuffer.cpp:7-12 | every single read or write of the producer keeps the invariant, wherever the consumer is, and is one step of the queue |
| RingBuffer.ConsumerStep | cpp-test/test-ringbuffer.cpp:16-23 | the same for the consumer, although its index moves before the slot is cleared |
| RingBuffer.EveryRunIsOk | cpp-test/test-ringbuffer.cpp:4-23 | for every capacity of at least 1 and every interleaving the invariant holds |
| RingBuffer.RefinesQueue | cpp-test/test-ringbuffer.cpp:4-23 | every step of every interleaving is a step of a bounded first-in first-out queue: silent, a put that had room, a take of the oldest, a refusal when full, a refusal when nothing is there |
| RingBuffer.FirstInFirstOut | cpp-test/test-ringbuffer.cpp:4-23 | what was eaten is always a prefix of what was put, and at most the capacity is in flight |
| RingBuffer.TryPutEnds | cpp-test/test-ringbuffer.cpp:7-12 | a call of tryput, with any steps of the consumer between its own, ends after one step with a refusal exactly when the queue is full, and otherwise after three with the item put |
| RingBuffer.TryEatEnds | cpp-test/test-ringbuffer.cpp:16-23 | a call of tryeat, with any steps of the producer between its own, ends after one step with nothing exactly when the queue is empty, and otherwise after five with the oldest item |
| FastMod.MultiplierIsCeiling | cpp-test/test-fastmod.c:83-86 | from divisor 2 on the 64-bit multiplier is 2^64 / divisor rounded up and does not wrap |
| FastMod.CeilingIsUnique | cpp-test/test-fastmod.c:83-86 | there is only one such number |
| FastMod.FastModCeiling | cpp-test/test-fastmod.c:17-20 | with that multiplier, for every 32-bit value and divisor: the wrapping computation is the remainder iff the two roundings, of the multiplier and of the high word, together stay below 2^64 |
| FastMod.SmallErrorSuffices | cpp-test/test-fastmod.c:17-20 | they stay below for all values if the error of the multiplier and the divisor together fit into 32 bits, as they do for every divisor up to 2^31 |
| FastMod.FastModIsMod | cpp-test/test-fastmod.c:17-86 | for every 32-bit value and every 32-bit divisor: the computation with its 64-bit wrap-around is the remainder iff that holds; so for every divisor up to 2^31, with divisor 1, where the multiplier wraps to 0, included |
| FastMod.LargeDivisorFails | cpp-test/test-fastmod.c:17-20 | divisor 2^32 - 1 and value 2^32 - 2: the result is the divisor and not the remainder |
| FastMod.TableIsRight | cpp-test/test-fastmod.c:33-39 | each of the 31 table entries has a divisor in range and exactly its multiplier |
| FastMod.TableModIsMod | cpp-test/test-fastmod.c:42-61 | for every value and table entry the fast and the ordinary remainder agree |
| PrimeTable.EntryIsNear | cpp-test/test-fastmod.c:33-39 | entry i is odd, not 1 modulo 101, and at most 40 behind 1.23 times the i-th power of two, where the search for it starts |
| FastMod.MultiplierIsExact | cpp-test/test-fastmod.c:83-86 | the multiplier computed this way is exact for all 32-bit values, for every divisor up to 2^31 and every larger one whose error leaves room |
| FastMod.FillMultipliers | cpp-test/test-fastmod.c:83-86 | the loop gives each divisor a multiplier that is exact for it |
| PrimeSearch.Cofactor | cpp-test/test-prime.cpp:11-15 | a divisor comes with a cofactor that divides as well |
| PrimeSearch.OneIsSmall | cpp-test/test-prime.cpp:10-15 | of a divisor and its cofactor one is at most the square root |
| PrimeSearch.TrialDivisionSuffices | cpp-test/test-prime.cpp:10-16 | an odd number without odd divisors up to its square root is prime |
| PrimeSearch.IsPrime | cpp-test/test-prime.cpp:6-19 | nonzero exactly for primes and for 1, for every number that is not negative and odd |
| PrimeSearch.Search | cpp-test/test-prime.cpp:48-55 | the least odd prime from the start value on whose predecessor is no multiple of 101, or none below INT32_MAX |
| PrimeSearch.GenPrime | cpp-test/test-prime.cpp:43-73 | for any start values: exactly those primes in order, each with a multiplier that is exact for all 32-bit values |
| CompatRandom.TwentyOne | go/gowork/mypkg/mypkg.go:40-43 | 21 is its own inverse modulo 55, so the fill visits every slot from 1 to 54 once |
| CompatRandom.WarmStep | go/gowork/mypkg/mypkg.go:52-60 | one warm-up step replaces the oldest number by the recurrence's next one |
| CompatRandom.DrawStep | go/gowork/mypkg/mypkg.go:77-85 | one draw does, with the correction for MaxInt32 |
| CompatRandom.CursorsMove | go/gowork/mypkg/mypkg.go:69-76 | both cursors go round from 55 to 1, stay in 1..55 and 21 apart modulo 55 |
| CompatRandom.MyRandom.FillArray | go/gowork/mypkg/mypkg.go:28-50 | the array holds the first 55 numbers of the pure recurrence, in the slots given by 21 i modulo 55 |
| CompatRandom.MyRandom.Reset | go/gowork/mypkg/mypkg.go:27-66 | for every 32-bit seed the array and cursors represent the recurrence after the four warm-up rounds |
| CompatRandom.MyRandom.Next | go/gowork/mypkg/mypkg.go:68-89 | returns the next number of the pure recurrence x(n) = x(n-55) - x(n-34), and keeps the representation and the cursors |
| CompatRandom.MyRandom.constructor | go/gowork/mypkg/mypkg.go:14-66 | the same from the start |
| CompatRandom.SubtractsModulo | go/gowork/mypkg/mypkg.go:57-84 | between numbers in [0, MaxInt32) the corrected differences of Reset and Next are both the difference modulo MaxInt32, and nothing overflows |
| RandomRange.NothingOverflows | go/gowork/mypkg/mypkg.go:35-62 | for every seed up to 161803398 in absolute value: every number of the fill and of the warm-up is in [0, MaxInt32) and is the difference of its two predecessors modulo MaxInt32, without overflow |
| RandomRange.FillCongruent | go/gowork/mypkg/mypkg.go:39-50 | for every seed each number of the fill is a linear function of the first one modulo MaxInt32 |
| RandomRange.FirstIsProper | go/gowork/mypkg/mypkg.go:28-38 | number 0 of the fill is in range exactly for seeds from -161803398 to 161803398 |
| RandomRange.Number78 | go/gowork/mypkg/mypkg.go:51-62 | for all 32-bit seeds number 78 of the history is -1 exactly for 1235545220 and -1235545220, MaxInt32 exactly for 1333158113 and -1333158113, and in range for all others |
| RandomRange.Number109 | go/gowork/mypkg/mypkg.go:51-62 | for all 32-bit seeds number 109 is -1 exactly for 614279151 and -614279151, MaxInt32 exactly for 1235228408 and -1235228408, and in range for all others |
| RandomRange.Recovers | go/gowork/mypkg/mypkg.go:51-62 | the two numbers that such an exception is used for are in range again |
| RandomRange.RangeAfter | go/gowork/mypkg/mypkg.go:68-89 | for every 32-bit seed and any number of calls: every result is in [0, MaxInt32) and is x(n-55) - x(n-34) modulo MaxInt32, and no draw overflows |
| PackFile.FillKeys | go/gowork/mypkg/mypkg.go:184-189 | every number that Next returns is the next one of the recurrence, in [0, MaxInt32) and x(n-55) - x(n-34) modulo MaxInt32; each key is congruent to its number modulo 256, so the keys are the same in every run |
| PackFile.XorFile | go/gowork/mypkg/mypkg.go:122-145 | in place: each of the first bytes is combined with its key, as many as there are keys or bytes, and the others stay |
| PackFile.XoredTwice | go/gowork/mypkg/mypkg.go:137-139 | combining twice with the same keys gives back the file |
| PackFile.HiddenBytes | go/gowork/mypkg/mypkg.go:137-139 | exactly the bytes whose key is not 0 are changed |
| PackFile.PackAndUnpack | go/gowork/mypkg/mypkg.go:153-189 | a file that one run hides and another one brings back, each with keys of its own, is as it was |
| Utf8.IsUTF8Bytes | dotnet/libs/om.utils/EncodeUtils.cs:106-145 | whole data is accepted iff it splits into sequences of 1 to 6 octets of the shape in section 2 of RFC 2279, data that may be cut off iff something can follow it that makes it so |
| Utf8.ScanIsText | dotnet/libs/om.utils/EncodeUtils.cs:108-138 | the counter is back at 1 iff the octets split into such sequences |
| Utf8.ScanIsCutText | dotnet/libs/om.utils/EncodeUtils.cs:139-143 | no octet was refused iff the octets are the beginning of such a text |
| Utf8.ShiftEnds | dotnet/libs/om.utils/EncodeUtils.cs:117-126 | the number of shifts until the top bit is 0 is the length the first octet announces; a lone continuation octet and more than 6 are refused |
| Utf8.SplitIsUnique | dotnet/libs/om.utils/EncodeUtils.cs:108-138 | there is at most one way to split octets into sequences |
| Utf8.StrictIsAccepted | dotnet/libs/om.utils/EncodeUtils.cs:106-145 | everything valid by the grammar of section 4 of RFC 3629 is accepted; an overlong form that is not valid by it is accepted as well |
| LineWrap.Wrap | dotnet/libs/om.utils/CmdLine.cs:765-800 | the loop ends although a break takes no character, and writes exactly the lines of the layout with a line break and padding between them |
| LineWrap.LayIsTight | dotnet/libs/om.utils/CmdLine.cs:767-799 | the lines spell the text without carriage returns, none is too wide, and a line is broken only where the next character does not fit |
| LineWrap.WrapIsBest | dotnet/libs/om.utils/CmdLine.cs:767-799 | for every text and width: such a layout; the only one of its kind; and no layout within the width has fewer lines |
| LineWrap.TightIsUnique | dotnet/libs/om.utils/CmdLine.cs:788-799 | two layouts that break only where nothing more fits are equal |
| LineWrap.TightIsShort | dotnet/libs/om.utils/CmdLine.cs:788-799 | no layout has fewer lines than one that breaks only where nothing more fits |
| LineWrap.GetColumnLens | dotnet/libs/om.utils/CmdLine.cs:742-749 | each column is as wide as asked for or two more than its longest cell, and their sum |
| LineWrap.TableLinesPrinted | dotnet/libs/om.utils/CmdLine.cs:752-802 | the text of a table, cut at the newlines, is the lines of its rows, and nothing is behind the last newline |
| TextLines.LinesAre | dotnet/libs/om.utils/CmdLine.cs:773-802 | lines without the newline's last character that are written with newlines behind them are what cutting gives back |
| LineWrap.PrintHead | dotnet/libs/om.utils/CmdLine.cs:758-763 | the padded cells of a row, in order |
| LineWrap.GetPrintString | dotnet/libs/om.utils/CmdLine.cs:735-805 | cut at the newlines, the printed text is row by row the padded cells with the first line of the last cell and the padding with each later one, and it ends with a newline, for cells before the last without line breaks; for others it is the same text with their breaks |
| LineWidths.ColumnsAlign | dotnet/libs/om.utils/CmdLine.cs:737-763 | the padded cells of a row take at least the room of their columns in display columns, and exactly it iff they are all of half width |
| LineWidths.LinesFit | dotnet/libs/om.utils/CmdLine.cs:749-800 | with more than one column no continued line of the printed text is wider than max_width |
| LineWidths.FirstLinesFit | dotnet/libs/om.utils/CmdLine.cs:749-800 | the first line of a row, as printed, fits into max_width for every last cell iff the other cells of the row are of half width |
| LineWidths.PrintedTextFits | dotnet/libs/om.utils/CmdLine.cs:735-805 | with half-width cells before the last of several columns no line of the printed text is wider than max_width |
| LineWidths.SingleColumnFits | dotnet/libs/om.utils/CmdLine.cs:749-800 | with one column a cell fits iff no continued line of its layout is full, because the padding of width 0 is one space; a half-width cell iff its first paragraph is shorter than two lines and every other shorter than one; any cell without newlines that fits on a line fits |
| LineWidths.WideCellsOverflow | dotnet/libs/om.utils/CmdLine.cs:737-800 | eight characters of double width before a last cell of 70 letters, window 80: the first line is 88 wide |
| LineWidths.SingleColumnOverflows | dotnet/libs/om.utils/CmdLine.cs:749-800 | one column, 20 letters, window 10: a continued line is too wide |
| FileNames.ConvertUrlFragToPath | c#/other/DownloadWebsite/DownloadWebsite/XHttp.cs:208-228 | the decoded text with every character that file names may not have written as `$` and its code; none is left |
| FileNames.NothingInvalid | c#/other/DownloadWebsite/DownloadWebsite/XHttp.cs:216-227 | so no converted path has a colon or a question mark |
| FileNames.InvalidCodes | c#/other/DownloadWebsite/DownloadWebsite/XHttp.cs:187-200 | a colon becomes $3A, a question mark $3F, a backslash $5C, a line feed $0A; dollar signs and slashes stay |
| FileNames.ConvertedAround | c#/other/DownloadWebsite/DownloadWebsite/XHttp.cs:208-228 | converting goes part by part between slashes |
| RelateUrl.XUrl.InitInfoFromUri | c#/other/DownloadWebsite/DownloadWebsite/XHttp.cs:151-176 | the fields hold the parts of the address: file path = directory + name, the directory ends with a slash, no character is left that file names may not have, and the addresses are made of host, path, query and fragment; has_query iff there is a query, add_index iff the path ends with a slash, is_html iff the path with its file name ends with .html |
| RelateUrl.XUrl.constructor | c#/other/DownloadWebsite/DownloadWebsite/XHttp.cs:139-149 | so after construction |
| RelateUrl.PartsFit | c#/other/DownloadWebsite/DownloadWebsite/XHttp.cs:151-176 | these parts fit together for every address and every decoder |
| RelateUrl.DirectoryConverted | c#/other/DownloadWebsite/DownloadWebsite/XHttp.cs:160-175 | cutting at the last slash and converting may change places |
| RelateUrl.UnderRoot | c#/other/DownloadWebsite/DownloadWebsite/Worker.cs:430 | an address that begins with the web root's address is on the same server and its file path is under the root's file directory |
| RelateUrl.Climbing | c#/other/DownloadWebsite/DownloadWebsite/Worker.cs:441-448 | one "../" for every directory the loop leaves |
| RelateUrl.Worker.PathTo | c#/other/DownloadWebsite/DownloadWebsite/Worker.cs:435-449 | the path part of the link, by both branches |
| RelateUrl.Worker.constructor | c#/other/DownloadWebsite/DownloadWebsite/Worker.cs:142-143 | the web root is the directory of the first page |
| RelateUrl.LinksInSite | c#/other/DownloadWebsite/DownloadWebsite/Worker.cs:423-452 | two pages of one site, with their converted paths: at every address of the page's file the link from one to the other leads to the target's file iff the condition of LinksLeadToTarget holds |
| RelateUrl.Worker.GetRelateUrl | c#/other/DownloadWebsite/DownloadWebsite/Worker.cs:423-452 | no link iff the address has a query or the target is outside the root; "#" for the page itself; otherwise, for every address of the page's file, resolving the link against it and decoding the result gives exactly the target's file and fragment iff the page lies in the directory it is said to lie in, nothing of the link is taken for an absolute path, a fragment or an escape, and the page has no empty segment right behind the root |
| LinkPaths.HashFails | c#/other/DownloadWebsite/DownloadWebsite/Worker.cs:436-451 | a link with a hash in its path never leads to the wanted fragment |
| LinkTargets.BelowWorks | c#/other/DownloadWebsite/DownloadWebsite/Worker.cs:436-439 | a target in or below the page's directory is reached iff the file lies directly in that directory and the rest of the target's path is not empty, does not begin with a slash, has no hash and decodes to itself |
| LinkTargets.AboveWorks | c#/other/DownloadWebsite/DownloadWebsite/Worker.cs:441-449 | any other target is reached iff the page's path has no empty segment right behind the root and the rest of the target's has no hash and decodes to itself |
| LinkTargets.LinksLeadToTarget | c#/other/DownloadWebsite/DownloadWebsite/Worker.cs:435-451 | both branches together, from any address of the page's file: the link leads to the target iff these conditions hold |
| LinkPaths.LevelsAre | c#/other/DownloadWebsite/DownloadWebsite/Worker.cs:443-447 | the loop counts the directories, but not one whose slash comes first |
| LinkTargets.ClimbLeads | c#/other/DownloadWebsite/DownloadWebsite/Worker.cs:441-449 | what a link of any number of steps up and a rest leads to, from any address of the page's file: the directory so many segments up, and the rest decoded once more |
| LinkTargets.SameFile | c#/other/DownloadWebsite/DownloadWebsite/Worker.cs:435-451 | the file that a link leads to is the target only from the same directory, and only if the rest of the target decodes to itself |
| LinkTargets.RootedFails | c#/other/DownloadWebsite/DownloadWebsite/Worker.cs:436-439 | a link that begins with a slash never leads to the target: what it names is too short |
| PercentCodes.DecodesPercent | c#/other/DownloadWebsite/DownloadWebsite/XHttp.cs:210 | a concrete decoder of ASCII escapes goes part by part between slashes, leaves text without escapes and makes nothing longer |
| PercentCodes.DecodesToItself | c#/other/DownloadWebsite/DownloadWebsite/XHttp.cs:210 | under it a text decodes to itself iff it has no escape |
| PercentCodes.DecodeEncode | c#/other/DownloadWebsite/DownloadWebsite/XHttp.cs:210 | every text has an encoding that decodes to it |
| PercentCodes.HasAddress | c#/other/DownloadWebsite/DownloadWebsite/XHttp.cs:210 | every rooted path of a file has an address |
| LinkExamples.EmptySegmentFails | c#/other/DownloadWebsite/DownloadWebsite/Worker.cs:436-439 | /a/f is the first page: the link from /a/x to /a//y leads elsewhere, from every address of the page's file |
| LinkExamples.HashFailsToo | c#/other/DownloadWebsite/DownloadWebsite/Worker.cs:436-451 | the link from /a/x to /a/%23y leads elsewhere, from every address of the page's file: the decoded hash is taken for a fragment |
| LinkExamples.EscapedSlashFails | c#/other/DownloadWebsite/DownloadWebsite/Worker.cs:436-439 | the link from /a/%2Fx to /a/y leads elsewhere, from every address of the page's file, which lies one directory below the one it is said to lie in |
| LinkExamples.EmptyBehindRootFails | c#/other/DownloadWebsite/DownloadWebsite/Worker.cs:443-447 | the link from /a//x to /a/y leads elsewhere, from every address of the page's file, because the loop stops too early |
| LinkExamples.EscapeFails | c#/other/DownloadWebsite/DownloadWebsite/Worker.cs:436-439 | the link from /a/x to /a/x%2541 leads elsewhere, from every address of the page's file: the escape that is left is decoded once more |
| LinkExamples.EmptySegment | c#/other/DownloadWebsite/DownloadWebsite/Worker.cs:436-439 | for all ordinary names and every decoder: no link to a target with an empty segment right behind the directory of the page leads there |
| LinkExamples.MisreadName | c#/other/DownloadWebsite/DownloadWebsite/Worker.cs:436-451 | for all ordinary names and every decoder: no link to a target whose name decodes to one with a hash or an escape leads there |
| LinkExamples.SlashInName | c#/other/DownloadWebsite/DownloadWebsite/Worker.cs:436-439 | for all ordinary names and every decoder: no link from a page whose name decodes to one with a slash in front leads to a target beside it |
| LinkExamples.EmptyBehindRoot | c#/other/DownloadWebsite/DownloadWebsite/Worker.cs:443-447 | for all ordinary names and every decoder: no link from a page with an empty segment right behind the root leads to a target in the root |
| UriPaths.MovesSegments | c#/other/DownloadWebsite/DownloadWebsite/Worker.cs:423-452 | removing dot segments (section 5.2.4 of RFC 3986) leaves ordinary segments as they are |
| UriPaths.Climbs | c#/other/DownloadWebsite/DownloadWebsite/Worker.cs:443-447 | and lets each ".." take away one segment in front of it |

## Left out

- RelateUrl.Worker.GetRelateUrl: addresses in which an escaped slash makes a dot segment (`a%2F..%2Fb`), where page or target are no plain paths; which escapes are decoded to what, because `Uri.UnescapeDataString` is a parameter; how a browser trims or cleans a link with characters that references may not have, such as spaces, which are resolved as they are.
- PercentCodes.DecodesPercent: escapes of characters outside ASCII, which this decoder leaves as they are.
- FileNames.ConvertUrlFragToPath: other systems than Windows, where fewer characters are replaced.
- RelateUrl.Worker.PathTo: the culture of `StartsWith`, because texts are compared character by character.
- DownloaderSafety.EveryRunIsOk: files above 2^31 bytes; there the chunks do not tile.
- DownloaderSafety.StepOk: a thread aborted by `Thread.Abort` in a process that goes on; an abort is a crash of the whole process.
- DownloaderSafety.AnswerIsRight: CheckIsFinished while the file is being laid out, when opening it fails, and before the first start, when there is no path; the percentage and the retry counter, which is always -1.
- DownloaderProgress.GoodNetworkCompletes: that a download finishes when requests may fail forever, or when a thread never gets a turn.
- RingBuffer.RefinesQueue: the C++ memory model and the overflow of the signed indices; steps are sequentially consistent and indices unbounded.
- BinaryRoundTrip.RoundTrip: boxed enums, which lose their type when read; `Nullable`; classes that override `Equals`; 32-bit limits of ids and counts; real byte encodings.
- BinarySerializer.ObjectReader.SlotLoop: dictionaries whose keys are still under construction; keys are compared as they are when they are added.
- TypeRegistry.Registry.OrderTypes: the SHA-256 hash of the type list; nothing is claimed about detecting mismatches.
- TypeRegistry.Registry.AddTypes: calls after one of the exceptions, when the tables are neither complete nor sorted.
- BinarySerializer.Writer.PutType: types without an assembly-qualified name, for which `WriteType` throws.
- LangConverter.Converter.Convert: the contents of the conversion tables, which stay arbitrary; `max_key_length`, which nothing uses.
- PrimeTable.EntryIsNear: that the entries are primes and that no number the search would take lies between the start and the entry.
- PrimeSearch.IsPrime: negative odd numbers, whose square root is no number, so that its conversion to an integer is undefined; rounding of the floating-point square root and of the factor 1.23; the integer square root and the start values are used instead.
- LineWidths.SingleColumnFits: a condition on the characters alone for cells with double-width characters that need more than one line; for these the exact condition speaks of the lines of the layout.
- PackFile.PackAndUnpack: the names of the files and how they are moved; files are as long as they are when they are read.
- LineWrap.GetPrintString: the lines of rows with line breaks in cells before the last; negative column widths, which make `PadRight` throw; trimming of cells when they are added.
- The hash-checked serializer's own `_Write` and `_Read`, which are those of the other serializer without inline types.
- The XML serializers and the older `XSerializer.cs`: the same ideas with less state.
- HTTP, crawling and HTML or CSS rewriting, batch downloads, unzipping, option parsing, timing code.
- All user interfaces, generated code, tutorials and demos of foreign libraries.
