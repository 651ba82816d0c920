# libmseed: verified models

Dafny models of the parts of libmseed that build continuous time series from compressed miniSEED records and
cut them back into records, with proofs of what they promise. Where the C code changes things in place, so does
the model: linked nodes and skip-list pointers are rewired on the heap, buffers and arrays are written by loops,
and every such method is proved against a specification on values. The properties are then proved of the
specifications.

| files | what they model |
|---|---|
| `TraceSpec`, `TraceList` | adding one record to a trace ID: the value specification, and the doubly linked list code that refines it |
| `TraceChoice` | to which segments a record is added, for arbitrary records, segments and options |
| `TraceRuns`, `TraceContents` | what every run of additions keeps; where the samples go |
| `TraceRefusals` | runs that go on after an addition was refused |
| `TraceTwoPass`, `TraceUnpack` | records added without their samples, and record lists unpacked later; for exactly which runs this gives what unpacking at once gives |
| `TraceGrid`, `TraceTolerance` | confluence of disjoint records on one sample grid; for exactly which options it holds |
| `TraceUnhealed` | additions to runs on a grid without autohealing |
| `TraceRolling`, `TraceUnlisted` | additions and packing in any order; that record lists make no difference to the rest |
| `SkipList` | the skip list of trace IDs: search, insertion, removal, for arbitrary node heights |
| `Sources` | the whole trace list: the skip list and the segment lists of all its IDs together |
| `SteimFormat`, `SteimShapes`, `SteimBuffer`, `SteimEncoder`, `SteimDecoder`, `SteimRoundTrip`, `SteimOptimal` | the Steim-1 and Steim-2 codecs |
| `SteimBytes` | the Steim formats on the bits of a stream, and that this is what is written and read |
| `Bytes`, `Record3`, `Packer`, `Rolling`, `Rebuild` | version 3 records as bytes; the record packer; the trace list as a rolling buffer; reading records back |
| `RecordChecks` | the layout of a record; what the reader makes of any bytes, damaged and truncated records included |
| `PackedRecords`, `DrawnRecords` | what is read from the records of a series, and from those drawn from a trace list |
| `Calendar`, `TimeValues`, `TimeSplit` | the Gregorian calendar, nanosecond times, start times in version 2 headers |
| `Crc`, `CrcErrors` | slice-by-8 CRC-32C against its bit-by-bit definition; the errors it detects, its check value |
| `Glob`, `GlobLaws` | the backtracking glob matcher against a declarative language; that language by the text of the pattern |
| `Mseed`, `Options`, `Sequences` | definitions that several of these share |

Conventions: the host is little-endian unless a parameter says otherwise; a sample period is a whole number of
nanoseconds, so the time of sample n is start + n * period and there are no leap seconds; a C `int32_t` sample is
a 32-bit vector in two's complement; heights of skip-list nodes and the alignment of a CRC buffer are arbitrary.

## What the code does that its documentation does not say

- With an explicit sample rate tolerance the test is inverted (tracelist.c:45-46 compares with `>`): it accepts
  exactly the rates that differ by more than the tolerance. `TraceRuns.CloseRatesNeverJoin`.
- The merge branch (tracelist.c:560-580) never updates the first-segment pointer. That is safe without any
  condition on tolerances, because the earlier branches catch a record that leads up to the first segment.
  `TraceRuns.HealIsInside`.
- A record that closes the gap between two segments whose sample types differ is refused with NULL but stays in the
  earlier one (tracelist.c:542-563): the segment and its record list have grown, while the order of the segments and
  the extent of the ID are not brought up to date. The segments stay sorted over a run exactly when no such segment
  passes a neighbour. `TraceRefusals.RunOrderExactly`, `TraceRefusals.RefusedOutOfOrder`.
- Disjoint records of one grid end as the maximal contiguous runs of their samples exactly with autohealing, the
  default rate tolerance and a time tolerance from 0 up to but below one sample period: a negative tolerance joins
  nothing, and one of a period or more joins over missing samples. `TraceTolerance.RunsExactly`.
- The order of their addition makes no difference exactly when nothing is ever joined, or when gaps are healed and
  the tolerance is below one period. `TraceTolerance.OrderFreeExactly`.
- The publication version travels in an `int8_t` (tracelist.c:328): versions above 127 raise an ID's version only
  if the first record accepted had them. `TraceRefusals.VersionIsLargest`.
- Where versions are kept separate, version 0 cannot be: a search for it finds the first of the highest nodes of
  the source, of whatever version. `SkipList.VersionZeroMatchesAny`, `SkipList.TraceList.VersionZeroFinds`.
- Unpacking a record list later promises what unpacking while adding gives (tracelist.c:1602-1605). But sample types
  are compared only where there are samples (tracelist.c:1090-1097), so records of different types that are refused
  when unpacked join in one list when only their headers are added; then the list cannot be unpacked at all, not even
  its first records. Two passes give the lists of one exactly when no record is refused for its samples, which is
  exactly when each list of the first pass has one sample type. `TraceUnpack.SameListsExactly`,
  `TraceUnpack.UnpackMixes`.
- A record list can be unpacked later only if its first record, which may be one without samples, has a
  decodable encoding. `TraceUnpack.UnpackSucceeds`, `TraceUnpack.UnpackFails`.
- Greedy packing is optimal for Steim-2. For Steim-1 it is optimal exactly when no word of two, and whatever words
  of four that could have begun one difference earlier follow it, stand before exactly three differences that with
  the one before them would have shared a word. `SteimOptimal.Steim1OptimalExactly`.
- The CRC of a buffer shorter than the bytes before its first aligned word is that of the bytes up to that word
  (crc32c.c:328-334). `Crc.ReliableExactly`.
- The error value of time conversions is the time of 1902-01-01T00:00:00, so a record that starts then cannot be
  read; times in 1677 are refused. `TimeValues.SentinelIs`, `TimeValues.FromPartsOf`, `Record3.ReadsBack`.
- In version 2 the later records of one series pair a rounded fraction of a second with the second before
  rounding, and have a place for the microsecond offset only if the first record has a blockette 1001. The times up
  to 49.5 microseconds after that of the error value cannot be read. `TimeSplit.LaterRecordTime` states exactly which
  times are read back right.
- A buffer's last record is not read when it has the least length of 40 bytes (tracelist.c:921).
  `Rebuild.ReadsAll`.

- When gaps are healed, the search stops at the first segment that has just the start and end of the record
  (tracelist.c:528-529), so a gap between later segments is then not healed. `TraceChoice.AdditionIs`.

## Model

| member | source | states |
|---|---|---|
| TraceList.TraceID.AddMsr | tracelist.c:371-697 | adding a record to an ID in place leaves a well-formed doubly linked list of numsegments nodes whose values, extent and version are the specified outcome, and returns the specified segment or NULL |
| TraceList.TraceID.Create | tracelist.c:331-368 | an ID for a first record holds its one segment, or is refused exactly when the record's end is the error value or its samples have an unknown type |
| TraceList.TraceID.FindSegs | tracelist.c:484-536 | the search loop over nodes finds the segments that the specified search finds |
| TraceList.TraceID.HealSegs | tracelist.c:539-580 | merging in place: the record and then the later segment go into the earlier one, and the later one is unlinked |
| TraceList.TraceID.FinishAdd | tracelist.c:626-682 | tracking the extent and re-sorting in place is the specified sort of the changed segment |
| TraceList.TraceID.SwapNext | tracelist.c:644-661 | swapping two adjacent nodes keeps every link, the first and the last pointer right |
| TraceList.TraceID.SwapPrev | tracelist.c:667-684 | the same in the other direction |
| TraceList.TraceID.Unlink | tracelist.c:565-578 | unlinking any node but the first leaves a well-formed list without it |
| TraceList.TraceID.RemoveSeg | tracelist.c:3127-3140 | any segment, the first, the last or the only one included, is unlinked, first and last are those of the rest, and nothing else of the ID changes |
| TraceList.TraceSeg.AddMsr | tracelist.c:1076-1165 | coverage and samples are added at the end or the start, or nothing changes and it fails on clashing sample types |
| TraceList.TraceSeg.AddSeg | tracelist.c:1175-1260 | the other segment's coverage, samples and record list are appended |
| TraceList.TraceSeg.UnpackRecordList | tracelist.c:1638-1895 | decodes the record list into the buffer, or fails and leaves the buffer, exactly when the list is not decodable or a buffer is there already |
| TraceRuns.ResortSorts | tracelist.c:640-684 | the two loops put the changed segment into place in an otherwise sorted list and touch no other |
| TraceRuns.HealIsInside | tracelist.c:406-580 | the search never reports the first segment as following the record, so the merge never unlinks it |
| TraceRuns.AddKeepsOrder | tracelist.c:371-697 | any addition keeps the segments sorted by start ascending then end descending, and the extent exact |
| TraceRuns.RunKeepsOrder | tracelist.c:371-697 | after any run of additions that were all accepted the segments are sorted and earliest and latest are the minimum and maximum over all records |
| TraceRuns.CloseRatesNeverJoin | tracelist.c:45-46 | with an explicit rate tolerance a record whose rate is within it of those of all segments is never joined to one |
| TraceChoice.AdditionIs | tracelist.c:371-620 | any addition: the record goes to the end of the last segment, else to the start of the first, else between the first that it can follow and the first that it can precede if gaps are healed, else to the one found first, else on its own; whether it can is a matter of rates within one part in ten thousand and gaps within half a period or the tolerances given, unless its end is the error value or the sample types bar it |
| TraceChoice.RunSpans | tracelist.c:626-637 | after any run with tolerances of at most a period every segment starts no later than it ends, within the extent of the ID |
| TraceContents.AddKeepsAccount | tracelist.c:1011-1260 | an addition keeps every segment's buffer the concatenation of its record list, its count the sum, and adds the record to exactly one list |
| TraceContents.RunKeepsAccount | tracelist.c:1076-1359 | over any run of unpacked records that were all accepted, those without samples included, every record is in exactly one list and every buffer is the concatenation of its list |
| TraceRefusals.RefusalLeaves | tracelist.c:539-580 | a refused addition leaves the ID as it was, or, exactly when a merge fails half way, with the record in the earlier segment and nothing else changed |
| TraceRefusals.AddOrderExactly | tracelist.c:371-697 | an addition to sorted segments, refused or not, leaves them sorted if and only if it is not such a half merge that lets the grown segment pass a neighbour |
| TraceRefusals.RunOrderExactly | tracelist.c:371-697 | over any run of additions, refused ones included, the segments are sorted throughout if and only if none of these half merges occurs |
| TraceRefusals.RunExtent | tracelist.c:626-637 | over any run earliest and latest are the minimum and maximum over the records accepted, half-merged ones excluded |
| TraceRefusals.RunAccount | tracelist.c:539-563 | over any run of unpacked records every buffer is the concatenation of its record list, and the lists hold each record that was accepted or half merged once and no other |
| TraceRefusals.VersionIsLargest | tracelist.c:326-328 | over any run the ID's version is the largest of the records accepted, refused and half-merged ones excluded, if and only if that is below 128 or the first accepted had it |
| TraceRefusals.RefusedOutOfOrder | tracelist.c:539-563 | four records after which the segments are out of order, and hold a record whose addition returned NULL |
| TraceUnpack.SameListsExactly | tracelist.c:287-716 | after any run of unpacked records, refused ones included, adding only their headers gives the same segments, lists, extent and version without samples if and only if no record is refused for its samples, and if and only if each list of the headers has one sample type |
| TraceUnpack.UnpackExactly | tracelist.c:1602-1740 | every list of the headers can be unpacked later if and only if no record is refused for its samples and the first record of each list has a decodable type that the samples share; and then the lists, buffers and types are those of unpacking at once |
| TraceUnpack.RefusalMixes | tracelist.c:1076-1110 | a record that is refused for its samples would, as a header, go into a list of several types |
| TraceUnpack.AddGrows | tracelist.c:371-697 | records that share a list share one after any addition, whatever its outcome |
| TraceUnpack.TwoPass | tracelist.c:1638-1895 | after any run decoding the record list of any segment reproduces the buffer that unpacking while adding built |
| TraceUnpack.UnpackSucceeds | tracelist.c:1669-1740 | after any run the later unpacking of a segment's list succeeds if and only if the first record's encoding is decodable and the segment's samples share its type |
| TraceUnpack.UnpackMixes | tracelist.c:1090-1097 | of two adjoining records of different types the second is refused when unpacked; as headers they share a list that cannot be unpacked, although its first record is decodable |
| TraceUnpack.UnpackFails | tracelist.c:1669-1740 | unpacking fails too when a record without samples and of an encoding that cannot be decoded is prepended to a segment |
| TraceGrid.GridTests | tracelist.c:382-536 | on a sample grid with a tolerance below a period, the gap tests hold exactly when the record's cells adjoin those of the segment |
| TraceGrid.GridStep | tracelist.c:371-697 | one addition to maximal runs inserts the record and joins exactly the runs it adjoins, whichever branch is taken |
| TraceGrid.RunIsGroups | tracelist.c:371-697 | disjoint records of one grid added with autoheal in any order end as the maximal contiguous runs of the time-ordered records |
| TraceGrid.Confluence | tracelist.c:371-697 | any two orders of the same records give the same segments and the same extent |
| TraceGrid.ConfluenceOfVersion | tracelist.c:622-624 | and the same ID altogether when the versions are below 128 |
| TraceGrid.SampleOfCell | tracelist.c:1076-1165 | a segment's buffer has, for each cell it covers, the sample of the record that covers it |
| TraceGrid.HeadersFirstIsGroups | tracelist.c:371-697 | records added without unpacking them end as the same runs, without samples |
| TraceGrid.HeadersFirstConfluence | tracelist.c:371-697 | nor does their order matter then |
| TraceGrid.WholePeriodTolerance | tracelist.c:382-400 | a tolerance of a period or more joins two records across a missing sample |
| TraceUnhealed.UnhealedAddition | tracelist.c:484-619 | without autohealing a record that shares no sample time with the segments goes to the end of the one that ends a period before it, else to the start of the one that starts a period after it, else it makes a new segment; starts, ends, counts and samples are those of the two together and no other segment changes |
| TraceUnhealed.UnhealedRun | tracelist.c:371-697 | after any run without autohealing of disjoint grid records the segments are contiguous runs in time order that hold exactly these records |
| TraceTolerance.RunsExactly | tracelist.c:371-697 | all disjoint records of a grid end as maximal runs, in any order, if and only if gaps are healed, the rate tolerance is the default and the time tolerance is neither negative nor a period or more |
| TraceTolerance.OrderFreeExactly | tracelist.c:371-697 | the order of addition makes no difference if and only if nothing is ever joined, or gaps are healed and the time tolerance is below a period |
| TraceRolling.Interleaved | tracelist.c:2236-2302 | after any interleaving of additions of disjoint grid records with packing the first samples of any segment, the segments are, apart from record lists, the maximal contiguous runs of what is not packed, in order, and the samples packed and those held are exactly those added, each at its time |
| TraceRolling.TakeIsFinish | tracelist.c:2236-2302 | packing from a segment of an ID changes the ID as finishing a segment changes the packer's list |
| TraceRolling.DrainIsTakes | tracelist.c:2159-2474 | what a run of the packer has emitted and left of the segments of an ID is what a sequence of such packings takes and leaves |
| TraceUnlisted.UnlistedAdd | tracelist.c:371-697 | whether record lists are kept makes no difference to the outcome of an addition apart from the lists |
| SkipList.TraceList.FindID | tracelist.c:163-215 | any search finds the first of the highest matching nodes, and on a miss the last smaller node of every level; in one consistent version mode it returns what a linear scan of level 0 does |
| SkipList.TraceList.AddID | tracelist.c:235-277 | insertion of a node of any height keeps the list sorted and every level linked, and puts the node where its key belongs |
| SkipList.TraceList.RemoveID | tracelist.c:3147-3193 | removal keeps the list sorted and every level linked, without the node |
| SkipList.TraceList.GetID | tracelist.c:324-368 | an ID is added, in its place, exactly when the search matches none; but for version 0 sought among separate versions the ID is what a scan for its key finds |
| SkipList.TraceList.VersionZeroFinds | tracelist.c:187-198 | a search for version 0 among separate versions agrees with the scan if and only if no node of the source is higher than one of version 0 |
| SkipList.TraceList.LevelsAreSublists | tracelist.c:257-272 | following the pointers of a level visits exactly the nodes higher than it, in order |
| SkipList.LevelOfLevel | tracelist.c:257-272 | each level is a sublist of the one below |
| SkipList.CompareIsOrder | tracelist.c:187-194 | in one consistent version mode the comparison is a strict order of the keys |
| SkipList.BeforeIs | tracelist.c:187-194 | keys are ordered by the first character in which their identifiers differ, a prefix first, and then by version |
| SkipList.VersionZeroMatchesAny | tracelist.c:190-194 | the comparison tells versions apart if and only if it does not meet another version of the source in a search for version 0 |
| Sources.TraceLists.AddMsr | tracelist.c:287-697 | a record added in place reaches the ID that the search for its source finds, which is created if there is none; that ID becomes what the addition makes of it, all others stay as they are, and all lists stay well-formed and share no node |
| Sources.TraceLists.RemoveSegment | tracelist.c:3118-3193 | removing a segment in place takes it from its ID, and the ID from the skip list if it was the only one; all others stay as they are |
| Sources.EachIsItsOwn | tracelist.c:287-697 | after any run over several sources each ID is what a run of its own records alone makes of it, refused ones included |
| Sources.ConfluenceOfEach | tracelist.c:287-697 | a source whose records are disjoint on a grid ends with the same segments and extent in any order and interleaving of the additions to all sources |
| SteimFormat.DecodedCarried | unpackdata.c:422-606 | frames that carry k samples decode, for every count up to k, to exactly the first count samples |
| SteimShapes.WordRoundTrip | packdata.c:528-695 | each packed word holds exactly the differences packed into it |
| SteimBuffer.DiffBuffer.Consume | packdata.c:697-706 | using differences keeps emitted, buffered and unread ones the difference sequence in order |
| SteimEncoder.EncodeSteim | packdata.c:463-712 | the encoder packs as many samples as greedy words reach, the frames written carry exactly those, and it fails exactly when it is stuck within the room it has |
| SteimEncoder.ChooseShape | packdata.c:528-690 | the tests on the bit widths choose the greedy shape |
| SteimEncoder.EncodeFrame | packdata.c:480-710 | one frame is cleared, filled with greedy words and its control word put in stream order |
| SteimDecoder.DecodeSteim | unpackdata.c:231-344 | the decoder gives the samples that the frames mean, an error on an invalid nibble, and checks the last against Xn |
| SteimDecoder.DecodeWord | unpackdata.c:440-570 | a word's nibble and dnib select the differences it means |
| SteimBytes.DecodedIs | unpackdata.c:422-606 | the decoder gives the samples that the bits of the stream mean: two bits of the control word for each word, the first word's highest, and signed fields of the widths that they and the two bits at the start of a word select |
| SteimBytes.CodeIs | unpackdata.c:460-470 | the code of word w is the (w % 4)-th pair of bits, highest first, of byte w / 4 of the frame, or of byte 3 - w / 4 in the other byte order |
| SteimBytes.WordIs | unpackdata.c:475-570 | the differences of a word are its fields as signed numbers, for every code and pair of bits, in either byte order |
| SteimBytes.CarriedIs | packdata.c:463-712 | frames that carry samples mean these by their bits; the first and last sample are in words 1 and 2 |
| SteimBytes.FitsExactly | packdata.c:528-690 | the packer's tests for a shape hold if and only if there is a word that means just these differences |
| SteimBytes.PayloadMeans | pack.c:1920-1990 | the payload of a record means its samples by its bits |
| SteimRoundTrip.EncodeDecode | packdata.c:264-405 | decoding what was encoded gives exactly the first count samples; fewer samples than given are packed only when every frame is used; encoding fails only on a difference of more than 30 bits |
| SteimRoundTrip.CapacityBelowMaximum | pack.c:306-313 | no stream of n frames holds as many samples as the packer waits for before it packs unflushed |
| SteimOptimal.GreedyOptimal | packdata.c:501-695 | no way to cut the differences into Steim-2 words covers more of them in the same number of words |
| SteimOptimal.GreedyCutIsCut | packdata.c:501-695 | the greedy words are such a cut |
| SteimOptimal.Steim1OptimalExactly | packdata.c:300-385 | for Steim-1 the same holds if and only if no word of two, and words of four after it, miss a word of four that could have begun one difference earlier |
| SteimOptimal.Steim1NotOptimal | packdata.c:300-385 | six differences that need fields of 16, 8, 8, 8, 8 and 32 bits are such a case |
| Bytes.LeReads | mseedformat.h:62-79 | a little-endian field reads as the number written |
| Record3.ReadsBack | parseutils.c:61-150 | parsing a record followed by any bytes consumes exactly the record and recovers its fields, extra headers and payload, with a right CRC; it fails exactly for an unsupported length or start time |
| Record3.ParseRecord | parseutils.c:61-225 | detection and parsing of version 3 give the specified result, including 32-bit wrap of the added lengths, and how many bytes are missing |
| Record3.UnpackRecord | unpack.c:73-260 | length, identifier, CRC and start time checks in the order of the code |
| Record3.ValidateCrc | unpack.c:137-154 | the CRC chained over three parts is compared with the CRC field |
| Record3.ChainedCrc | unpack.c:137-154 | the three-part CRC is that of the whole record with its CRC field zeroed |
| RecordChecks.AcceptedExactly | parseutils.c:61-225 | a buffer begins with a record that is read if and only if it has the signature and a time of day, all the bytes that its lengths ask for and no more than 10 MiB, an identifier of at most 63 bytes, a start time that can be represented, and a right CRC if that is asked |
| RecordChecks.AnyRecord | unpack.c:137-154 | a record with any CRC field, followed by any bytes, is refused for its CRC if and only if validation is asked and the field is not its CRC; otherwise it is read |
| RecordChecks.DamagedPayload | unpack.c:137-154 | a record whose payload is damaged within four adjacent bytes is always refused for its CRC |
| RecordChecks.DamageDetected | unpack.c:137-154 | so is damage within four adjacent bytes anywhere outside the CRC field |
| RecordChecks.Truncated | parseutils.c:61-150 | of a record that is not all there the reader asks for exactly the bytes missing |
| RecordChecks.ReadWhole | parseutils.c:61-225 | whatever is read is as long as its parts together, although the lengths are added in 32 bits, and the parts are the bytes in their places |
| RecordChecks.Layout | mseedformat.h:62-79 | every field of a record is at its offset, numbers in little-endian order |
| RecordChecks.ValueIs | mseedformat.h:62-79 | a byte counts 128, 64, 32, 16, 8, 4, 2 and 1 for its bits |
| RecordChecks.Detected | parseutils.c:61-150 | a buffer is taken for version 3 if and only if it has 40 bytes, the signature and a time of day |
| PackedRecords.HeldReads | pack.c:722-806 | the record of a piece of a series is read, exactly if its start time is readable, with the identifier, flags, version, rate field, extra headers and encoding of the series, the time of its first sample, and a payload that means its samples by its bits |
| Packer.PackInit | pack.c:180-340 | a packer is made exactly for the default length or one from 40 bytes to 10 MiB that the header fits, and for samples of a known type |
| Packer.RecordPacker.constructor | pack.c:722-806 | the header buffer starts with the packed header |
| Packer.RecordPacker.Next | pack.c:362-566 | each call gives the sealed record of the next samples, starting at the time of the first of them, or stops, or fails, each exactly under its condition; an unflushed record is full and leaves samples |
| Packer.RecordPacker.PackData | pack.c:1920-1990 | the encoded payload decodes to exactly the samples counted; only a record that ends the series is not full |
| Packer.RecordPacker.Seal | pack.c:499-502 | the CRC set is that of the record with a zero CRC field |
| Packer.Pack | pack.c:113-155 | the records of a series hold its first samples in order; with flushing all are packed; without it all records are full and some samples remain, fewer than 60 or 105 for each frame that a record has room for |
| Rolling.TraceListPacker.Next | tracelist.c:2189-2474 | each call gives the record of the next samples of one segment, or none when no segment gives one |
| Rolling.TraceListPacker.Finish | tracelist.c:2236-2302 | a finished segment gives up exactly what was packed, its start advances by as many periods, and an empty one is removed |
| Rolling.TraceListPacker.Drain | tracelist.c:2159-2474 | over a drained run the records of each segment hold its samples in order, and each segment left is its original less what was emitted; with flushing nothing is left, without it all records are full |
| DrawnRecords.DrawnReads | tracelist.c:2370-2410 | every record of a run follows those drawn before from its segment, and is read, exactly if its start time is readable, with the segment's identifier, version and rate field, the common extra headers, flags 0, and the time of its first sample; its payload means the samples |
| DrawnRecords.LeftOver | tracelist.c:2236-2302 | a segment left after a run has the samples not drawn; with flushing it has none, otherwise fewer than the packer waits for |
| DrawnRecords.DrawnFull | tracelist.c:2370-2410 | without flushing each payload takes all the frames that a record has room for |
| Rolling.ConservesFinish | tracelist.c:2236-2302 | emitted and remaining samples of every segment stay its original samples |
| Rolling.FlushEmpties | tracelist.c:2449-2474 | after a flushed run everything is emitted and the only segments left are those that never had samples |
| Rebuild.ReadBuffer | tracelist.c:921-1000 | the buffer loop reads what the specified reader reads |
| Rebuild.ReadsAll | tracelist.c:921-1000 | concatenated records are read back one by one, but for a last record of the least length |
| Rebuild.RebuildsSeries | tracelist.c:329-422 | records that carry a series, added in order, give one segment with its start, end, count and samples |
| Rebuild.PackReadRebuild | pack.c:362-566 | packing a series, reading the records and adding them to an empty list gives the series back as one segment |
| Rebuild.PackAndRead | pack.c:362-566 | the whole way as one run: packing with flushing, reading the buffer and adding what it holds gives the series back, unless the packer gets stuck or a record starts or ends at the error value; the records read have the identifier, flags, version, rate field, extra headers and encoding of the series |
| Calendar.Gmtime | gmtime64.c:86-185 | the date is valid and names the second, its day is one that the month has, its weekday and time of day are those of the second; or there is none and the year of its date does not fit an int |
| Calendar.NextDay | gmtime64.c:42-52 | from a valid date the next day of month, month, year, day of year and weekday, by months of 30, 31 and 28 or 29 days, is the valid date of 86400 seconds later |
| Calendar.DaysCount | gmtime64.c:42-52 | counted on in this way from Thursday, 1 January 1970, the n-th day begins at second 86400 * n |
| Calendar.OneDate | gmtime64.c:86-185 | a second has one valid date |
| Calendar.YearForward | gmtime64.c:121-140 | cycle reduction and the year loop find the year and the days into it |
| Calendar.YearBackward | gmtime64.c:150-170 | the same for days before 1970, counted from the end of the year |
| Calendar.Cycles | gmtime64.c:59-61 | the calendar repeats every 400 years of 146097 days |
| TimeValues.Nstime2Time | genutils.c:977-1015 | the parts of any int64 time are valid and name it, negative times included |
| TimeValues.Time2NstimeIsNanos | genutils.c:1294-1313 | the closed formula counts the days of the calendar for every year |
| TimeValues.FromPartsOf | genutils.c:1331-1370 | a time comes back from its parts if and only if its year is supported |
| TimeValues.ToPartsOf | genutils.c:1331-1370 | parts in range come back from their time if and only if the second is not 60 |
| TimeValues.SentinelIs | libmseed.h:236-239 | exactly one instant in range and the leap second before it have the error value as their time |
| TimeSplit.Split | pack.c:2339-2379 | tenths of milliseconds in 0..9999 and an offset in -50..49 recombine with the second to the nearest microsecond |
| TimeSplit.OneSplit | pack.c:2339-2379 | there is one such split |
| TimeSplit.PackStart | pack.c:1077-1087 | the header's start time is that split of the time |
| TimeSplit.HeaderReadsBack | unpack.c:977-999 | the reader recovers exactly the rounded time, but for 1677 and the error value |
| TimeSplit.UpdateStart | pack.c:517-540 | a later record's start time is the second before rounding with the rounded fraction, and the offset if the first record has a blockette for it |
| TimeSplit.LaterRecordTime | pack.c:517-540 | it is read back as the nearest microsecond if and only if the time is not in 1677, not within 49.5 microseconds from the error value on, not within 50.5 microseconds of the next second, and there is a blockette or that microsecond is a multiple of 100 |
| Crc.Crc32c | crc32c.c:400-409 | the CRC of the buffer, or 0 for an empty one, for every length, starting value, alignment and endianness |
| Crc.Sb8 | crc32c.c:360-376 | eight table look-ups at a time take in the bytes as the definition does |
| Crc.Sb4 | crc32c.c:344-357 | four at a time |
| Crc.Sb1 | crc32c.c:307-313 | one at a time |
| Crc.Align | crc32c.c:318-341 | the leading bytes are taken in unless they are the whole buffer |
| Crc.TableIs | crc32c.c:32-304 | each table of the recurrence shifts a byte through one byte more |
| Crc.Chained | crc32c.c:400-409 | the CRC of data in parts is the CRC of the whole |
| CrcErrors.BurstDetected | crc32c.c:307-409 | a change within four adjacent bytes changes the CRC, whatever precedes and follows |
| CrcErrors.LeadingZeroDetected | crc32c.c:379-386 | so does a zero byte in front of any data |
| CrcErrors.CheckValue | crc32c.c:379-386 | the CRC of 32 zero bytes is that of section B.4 of RFC 3720 |
| Crc.ReliableExactly | crc32c.c:318-341 | the result depends on the buffer alone if and only if it is no shorter than its leading bytes |
| Glob.GlobMatch | selection.c:781-879 | the matcher ends and accepts exactly the strings that the pattern denotes |
| Glob.MatchCharClass | selection.c:891-957 | the class parser accepts exactly the characters of the class, negated or not, and ends where it ends |
| GlobLaws.Question | selection.c:800-804 | a question mark before a pattern matches any one character before what the pattern matches |
| GlobLaws.Ordinary | selection.c:838-864 | a character that is not special matches itself |
| GlobLaws.Escaped | selection.c:838-864 | a backslash makes any character match itself, and itself where it ends the pattern |
| GlobLaws.Asterisk | selection.c:808-836 | a star matches any text before what the rest of the pattern matches |
| GlobLaws.Bracket | selection.c:891-957 | a class written with a negation mark, a leading bracket and dash, and characters and ranges matches exactly the characters among or not among these |
| GlobLaws.Unclosed | selection.c:891-957 | a class that is not closed matches nothing |
| Glob.FastForward | selection.c:818-836 | skipping to the next occurrence of the literal after a star skips no match |
| Glob.StarRun | selection.c:808-836 | consecutive stars are one |
| Glob.TracksStar | selection.c:866-876 | only the last star needs to be retried |
| Glob.EscapeDenotesItself | selection.c:765-775 | a pattern whose special characters are escaped matches just that string |

## Left out

- Files, URLs, streams, logging, printing, selection files and the example programs: input and output.
- JSON extra headers: treated as bytes; whether a timing quality is among them is given.
- The listed CRC tables (crc32c.c:32-304): the recurrence stands for them.
- Floating-point rates: a rate is a real compared as the code compares it, a sample period an integer; the rate field of a record is eight opaque bytes.
- Leap seconds: the list is assumed empty.
- Fixed-width, text and gain-ranged encodings: element by element. The packers are modelled for the two Steim encodings and for records without samples.
- Version 2 records other than their start times, and detection of version 2 records: a buffer without a version 3 signature gives `NotVersion3`.
- Allocation failures, preallocation, private pointers, update times; idle flushing is a set of segments given to the call.
- `MSF_MAINTAINMSTL` in the trace list packer.
- Times whose value overflows an int64: the C code's result is undefined; the lemmas say which times are meant.
- TraceSpec.AddRecord: the record list of a segment is a sequence, not linked nodes.
- TraceList.TraceSeg.UnpackRecordList: decoding a payload is abstract, and it is always given its own buffer.
- Rolling.TraceListPacker.Finish: the trace list is the sequence of its segments in scan order; taking a segment, and with the only one its ID, out of the linked lists is `Sources.TraceLists.RemoveSegment`.
- TraceChoice.AdditionIs: says nothing of IDs with a segment that ends before it starts, which only a time tolerance of more than a sample period can bring about.
- TraceUnhealed.UnhealedAddition: is about records on one sample grid with a tolerance below a period; any other record is `TraceChoice.AdditionIs`.
- TraceRolling.Interleaved: of record lists, which packing does not shorten, it says nothing.
- Sources.TraceLists.AddMsr: for version 0 among separate versions the ID is the one that the search finds; a new ID's height is given; the version sought is the record's, without `MSF_SPLITISVERSION`.
- SkipList.TraceList.FindID: the version of an ID is that of its first record; the code raises it only where versions are not compared.
- SkipList.TraceList.AddID: always given the previous nodes of a search, as the library does.
- Record3.ParseRecord: the samples are decoded by `Rebuild.Unpacked` from the true bounds of the payload.
- SteimDecoder.DecodeSteim: a count of zero, which the callers never ask for and for which the code reads before its output.
