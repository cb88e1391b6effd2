# Models of the CoreFoundation containers and codecs

This project models seven parts of the CoreFoundation C source under `SourceCode/CFRunLoopRef`
and proves what they promise:

* **Binary property lists** (`Plist*.dfy`, `SizedInts.dfy`). The writer numbers the objects of a graph,
  streams them through a fixed buffer and appends an offset table and a trailer; the reader checks the
  trailer and chases references, with a cache and a record of its path. Objects are values with an address:
  the writer's tables compare pointers, so equal pointers are equal objects. What a file means is given apart
  from the reader, as the finite unfolding of its references (`Describes`); what the reader does with any bytes
  is a value, a refusal or the end of the program (`PlistReading`), and when it is which is proved from both
  sides. What the writer writes describes what its graph denotes.
* **The hash table** (`Hash*.dfy`) under CFDictionary, CFSet and CFBag. A class with the arrays of values,
  keys and counts, linear probing, tombstones, sentinels, the size tables, growing, shrinking and rehashing.
  Its meaning is a map from classes of equal keys to entries; every method is proved against functions on
  that map (`HashModel`). A configuration says whether there are keys and counts, whether value callbacks
  retain, and gives the equality of keys and values by a class function: any equivalence has this form, and
  the hash is of the class.
* **The deque of CFArray** (`Array*.dfy`): the store with room on both sides, the five ways of
  moving regions, the order of retain and release calls, the search by halving, the simple sort.
* **UTF-8 and UTF-16** (`Utf8*.dfy`), after sections 3 and 4 of RFC 3629 and sections 2.1 and 2.2 of
  RFC 2781. The encodings of one character are given by division; that the table of trailing bytes, the
  legality test and the magic offsets decode exactly them is proved.
* **The bit vector**, **the binary heap** and **the base 10^9 number** (`BitVector.dfy`,
  `BinaryHeap.dfy`, `BigNumber*.dfy`).

Allocation always succeeds. Machine integers are written out where a width matters: 64-bit sizes and wrapping
reads in the property list, half-range count widths and the 16-bit tombstone count in the hash table,
capacities of up to 2^30 in the array and the heap, wrapping 64- and 128-bit getters in the big number. Bits are bit-vectors in
the bit vector and arithmetic elsewhere: a shift is a multiplication or division, a mask a remainder.

Some things the code promises hold only on a condition, which is proved from both sides:

* A written property list reads back exactly when no dictionary in it has a container for a key (the reader
  refuses such keys) and the reader can keep all of it, and unchanged exactly when every 128-bit integer in it
  is an unsigned 64-bit one. What it cannot keep stops the program: an object other than a boolean at offset
  0xa5baadb9 or 0xa7baadb1, words that the hash tables of the cache and of the path do not take for keys, an
  array whose size in bytes does not fit 32 bits, and more than 3241355160 objects or entries. (Such an array is
  written past its memory; that the program stops there is one end of it.) Of several of these faults and of
  containers as keys, the first in the order of reading decides. Below half a gigabyte there is only the latter.
* Removing takes back an addition to a hash table unless a count reached its maximum, where it is clamped,
  or the table keeps no counts and had the key already.
* Encoding UTF-8 into a buffer of 2^32 bytes or more also stops before a character of several bytes that does
  not fit what 32 bits keep of the room left; 2^32 bytes of room do not take U+00E9. The round trips below hold
  exactly where that does not happen, and it does not in smaller buffers with three bytes for each character.
* Decoding UTF-8 and encoding again gives the same bytes exactly when no stray 0xA9 was let through; into a
  buffer with room for one half of a surrogate pair, four bytes more are consumed than characters given.
* The measured length of UTF-8 is a sum in 32 bits: for well-formed strings it is right exactly when their
  bytes number less than 2^32, and too small otherwise.
* A big number written into a buffer reads back exactly when its digits fit the room that is left.
* Adding big numbers of equal sign leaves every digit below 10^9 except in columns that sum to exactly 10^9,
  since the carry test is `>`; adding a negative number to its opposite gives a negative zero, which
  compares as less than zero.

Where a comment and the code disagree, the code is followed: the number of the top object counts from 0
(`CFBinaryPList.c:785-786` speaks of 1).

`dafny verify dfyconfig.toml` checks the whole project.

## Model

| member | source | states |
|---|---|---|
| `SizedInts.GetSizedInt` | SourceCode/CFRunLoopRef/CFBinaryPList.c:735-757 | An integer of any number of big-endian bytes reads as its value modulo 2^64, fast paths included |
| `SizedInts.SizedIntOfBigEndian` | SourceCode/CFRunLoopRef/CFBinaryPList.c:735-757 | A value written in n bytes reads back modulo 256^min(n, 8) |
| `SizedInts.ByteCount` | SourceCode/CFRunLoopRef/CFBinaryPList.c:589-606 | The loop over the mask and the rounding up give the size of a count |
| `SizedInts.CountSizeFits` | SourceCode/CFRunLoopRef/CFBinaryPList.c:587-606 | That size is the least of 1, 2, 4 and 8 bytes that holds the count |
| `PlistWriteBuffer.WriteBuffer.WriteBytes` | SourceCode/CFRunLoopRef/CFBinaryPList.c:169-205 | A stream that takes any portions ends up with all the bytes, and `written` counts them |
| `PlistWriteBuffer.WriteBuffer.Flush` | SourceCode/CFRunLoopRef/CFBinaryPList.c:207-210 | Flushing moves what was buffered to the stream and loses nothing |
| `PlistWriteBuffer.WriteBuffer.Write` | SourceCode/CFRunLoopRef/CFBinaryPList.c:212-237 | Stream and buffer together hold the concatenation of all writes, and `written + used` is its length, for writes of any size |
| `PlistWriter.Flattener.FlattenPlist` | SourceCode/CFRunLoopRef/CFBinaryPList.c:543-585 | The pass over the graph fills list, table and uniquing set as the functional flattening does |
| `PlistFlatten.FlattenLaws` | SourceCode/CFRunLoopRef/CFBinaryPList.c:543-585 | Flattening keeps numbers and positions consistent, changes no earlier number, and numbers all that it lists and contains |
| `PlistFlatten.FlattenRoot` | SourceCode/CFRunLoopRef/CFBinaryPList.c:543-585 | After the pass the root is object 0 and every listed object and everything in it has a number at which it stands |
| `PlistFlatten.ListedIffReachable` | SourceCode/CFRunLoopRef/CFBinaryPList.c:543-585 | What is listed is what can be reached: a property holds of all of the one exactly when of all of the other |
| `PlistFlatten.ListedAsOften` | SourceCode/CFRunLoopRef/CFBinaryPList.c:550-565 | A string, number, date or piece of data that is met is listed once, however often that is; every other object is listed once for each time it is met |
| `PlistFlatten.NotTwice` | SourceCode/CFRunLoopRef/CFBinaryPList.c:550-561 | So nothing of these types stands at two places of the list |
| `PlistWriter.AppendInt` | SourceCode/CFRunLoopRef/CFBinaryPList.c:329-350 | Appends the integer in the least of 1, 2, 4 and 8 bytes that hold it, after the byte 0x10, 0x11, 0x12 or 0x13 |
| `PlistObjectRead.IntSizeFits` | SourceCode/CFRunLoopRef/CFBinaryPList.c:333-345 | That size holds the integer and is the least of the four that does |
| `PlistWriter.AppendUID` | SourceCode/CFRunLoopRef/CFBinaryPList.c:352-371 | Appends a UID in as few bytes as hold it |
| `PlistWriter.AppendString` | SourceCode/CFRunLoopRef/CFBinaryPList.c:373-406 | Appends a string narrow when it is ASCII and as big-endian UTF-16 otherwise, counted in the marker or after it |
| `PlistWriter.AppendNumber` | SourceCode/CFRunLoopRef/CFBinaryPList.c:408-454 | Appends reals, 64-bit and 128-bit integers |
| `PlistWriter.AppendObject` | SourceCode/CFRunLoopRef/CFBinaryPList.c:456-541 | Appends one object, or fails and writes nothing exactly for types the format does not have |
| `PlistBytes.WrittenAs` | SourceCode/CFRunLoopRef/CFBinaryPList.c:239-283 | The bytes of every type of object, first bytes as literal numbers: 0x08 and 0x09, 0x10 to 0x14, 0x22 and 0x23, 0x33, and with a count 0x40 data, 0x50 ASCII, 0x60 UTF-16, 0xA0 arrays, 0xD0 dictionaries; 0x80, 0x81 and 0x83 UIDs |
| `PlistBytes.CountedAre` | SourceCode/CFRunLoopRef/CFBinaryPList.c:382-386 | A count below 15 is in the low half of the first byte; otherwise that is 15, and the count follows as an integer object |
| `PlistBytes.RefsWritten` | SourceCode/CFRunLoopRef/CFBinaryPList.c:496-499 | The i-th reference of a container is the number of its i-th child, big-endian |
| `PlistWriter.AppendObjects` | SourceCode/CFRunLoopRef/CFBinaryPList.c:658-676 | Every recorded offset is where its object starts; stops exactly when some object cannot be written |
| `PlistWriter.AppendOffsets` | SourceCode/CFRunLoopRef/CFBinaryPList.c:684-688 | Appends the recorded offsets, each in the common width |
| `PlistWriter.WritePlist` | SourceCode/CFRunLoopRef/CFBinaryPList.c:610-707 | The stream holds header, objects, offset table and trailer, and its length is returned; 0 exactly when some object cannot be written |
| `PlistLayout.TrailerRead` | SourceCode/CFRunLoopRef/CFBinaryPList.c:654-695 | The reader finds in the trailer the numbers the writer put there |
| `PlistLayout.EntryRead` | SourceCode/CFRunLoopRef/CFBinaryPList.c:684-688 | Every entry of the offset table reads back as the start of its object, which lies before the table |
| `PlistLayout.WrittenAccepted` | SourceCode/CFRunLoopRef/CFBinaryPList.c:759-847 | The reader accepts the trailer and offset table of every file the writer makes |
| `PlistBytes.TrailerIs` | SourceCode/CFRunLoopRef/ForFoundationOnly.h:404-412 | In the last 32 bytes of any file the sizes are bytes 6 and 7, and the numbers of objects, of the top object and of the table are the big-endian values of the next three eights |
| `PlistBytes.TrailerNumbers` | SourceCode/CFRunLoopRef/ForFoundationOnly.h:404-412 | Whatever numbers are written there are the ones that are taken |
| `PlistBytes.EntryIs` | SourceCode/CFRunLoopRef/CFBinaryPList.c:833-841 | The offset of the i-th object is the big-endian number at the i-th place of the table |
| `PlistBytes.AcceptedBegins` | SourceCode/CFRunLoopRef/CFBinaryPList.c:768-770 | Every accepted file begins with the seven bytes of bplist0 |
| `PlistReader.GetTopLevelInfo` | SourceCode/CFRunLoopRef/CFBinaryPList.c:759-847 | Accepts exactly the files whose parts lie one after the other and whose offsets all stay in the object table; gives the numbers of the trailer, each from its own bytes, and the offset at the place of the top object |
| `PlistReader.CheckSizes` | SourceCode/CFRunLoopRef/CFBinaryPList.c:764-830 | The overflow checks amount to the layout condition |
| `PlistReader.CheckOffsets` | SourceCode/CFRunLoopRef/CFBinaryPList.c:832-838 | All entries are checked |
| `PlistObjectRead.IntRead` | SourceCode/CFRunLoopRef/CFBinaryPList.c:855-870 | A written integer reads back, and reading ends behind it |
| `PlistObjectRead.CountRead` | SourceCode/CFRunLoopRef/CFBinaryPList.c:1190-1204 | The count of a counted object reads back, from the marker or from behind it |
| `PlistObjectRead.LeafRead` | SourceCode/CFRunLoopRef/CFBinaryPList.c:1083-1297 | Every leaf that is written reads back as the value it stands for |
| `PlistObjectRead.ContainerRead` | SourceCode/CFRunLoopRef/CFBinaryPList.c:1299-1321 | A written array or dictionary reads back as its count and the place of its references |
| `PlistBytes.ConstantReadAs` | SourceCode/CFRunLoopRef/CFBinaryPList.c:1080-1097 | First bytes up to 0x0F: 0x00, 0x08 and 0x09 are constants, the others nothing |
| `PlistBytes.IntegerReadAs` | SourceCode/CFRunLoopRef/CFBinaryPList.c:1098-1127 | 0x10 to 0x12 are integers of 1, 2 and 4 bytes without sign, 0x13 of 8 bytes with one, 0x14 the low 8 of 16; 0x15 to 0x1F are nothing, and so is what does not end before the table |
| `PlistBytes.RealReadAs` | SourceCode/CFRunLoopRef/CFBinaryPList.c:1128-1189 | Of 0x20 to 0x3F only 0x22, 0x23 and 0x33 are something: reals of 4 and 8 bytes and dates of 8 |
| `PlistBytes.UidReadAs` | SourceCode/CFRunLoopRef/CFBinaryPList.c:1280-1298 | 0x80 to 0x8F are UIDs of 1 to 16 bytes whose low 64 bits fit 32 |
| `PlistBytes.CountIs` | SourceCode/CFRunLoopRef/CFBinaryPList.c:1194-1201 | The count of an object is the low half of its first byte, or that being 15 the integer object after it |
| `PlistBytes.CountedReadAs` | SourceCode/CFRunLoopRef/CFBinaryPList.c:1190-1321 | 0x40 to 0x6F are data and strings of one and two bytes for each character, 0xA0, 0xC0 and 0xD0 and the 15 after each arrays, sets and dictionaries, with their counts |
| `PlistBytes.OthersReadAs` | SourceCode/CFRunLoopRef/CFBinaryPList.c:1556-1559 | All other first bytes are nothing, and so is an object that has no count where it needs one |
| `PlistBytes.RefTargetIs` | SourceCode/CFRunLoopRef/CFBinaryPList.c:872-886 | A reference leads to the offset of the object of its number, and where there is none, or it lies past the objects, to no object |
| `PlistRoundTrip.RefRead` | SourceCode/CFRunLoopRef/CFBinaryPList.c:872-886 | Each reference leads to the object it was written for |
| `PlistParse.UnfoldMonotone` | SourceCode/CFRunLoopRef/CFBinaryPList.c:1061-1559 | A finite unfolding of the references does not depend on how deep one looks |
| `PlistParse.DescribesUnique` | SourceCode/CFRunLoopRef/CFBinaryPList.c:1061-1559 | The bytes at an offset describe at most one value |
| `PlistMeaning.DescribesStep` | SourceCode/CFRunLoopRef/CFBinaryPList.c:1061-1559 | What bytes describe, one object at a time and in both directions: a leaf itself; a container what is assembled of what its references describe, keys first and none of them a container |
| `PlistMeaning.BuildIs` | SourceCode/CFRunLoopRef/CFBinaryPList.c:1397-1437 | Assembled is: an array of all in order, the set of all, or a dictionary in which each key has the value at the first place where it occurs, and no other keys |
| `PlistObjects.FirstWinsIs` | SourceCode/CFRunLoopRef/CFBinaryPList.c:1537 | The first of equal keys keeps its value |
| `PlistObjects.FirstOfEqualOnce` | SourceCode/CFRunLoopRef/CFBinaryPList.c:1537 | That determines the dictionary |
| `PlistParse.FailedChild` | SourceCode/CFRunLoopRef/CFBinaryPList.c:1376-1386 | A child that describes nothing, or a key that is a container, spoils the whole |
| `PlistReading.SelfBelow` | SourceCode/CFRunLoopRef/CFBinaryPList.c:1072-1078 | An object that needs itself describes nothing |
| `PlistReading.PathBound` | SourceCode/CFRunLoopRef/CFBinaryPList.c:1322-1328 | Distinct offsets of the table are no more than its entries |
| `PlistReading.DeeperFits` | SourceCode/CFRunLoopRef/CFBinaryPList.c:1322-1328 | Past depth 15 each level adds another table offset to the path, so that the depth stays within 16 plus the size of the table |
| `PlistReading.ChildPath` | SourceCode/CFRunLoopRef/CFBinaryPList.c:1322-1328 | All that is on the path needs the children of the object it leads to |
| `PlistReading.SettledReads` | SourceCode/CFRunLoopRef/CFBinaryPList.c:1061-1559 | What describes a value of which everything can be cached and built is read as that value, at any depth and below any path that needs it |
| `PlistReading.ReadSettled` | SourceCode/CFRunLoopRef/CFBinaryPList.c:1061-1559 | What is read as a value describes it, and everything in it can be cached and built |
| `PlistReading.RefusedNothing` | SourceCode/CFRunLoopRef/CFBinaryPList.c:1061-1559 | What is refused describes nothing: neither the path nor a child that failed turns away anything with a meaning |
| `PlistReading.FirstDecides` | SourceCode/CFRunLoopRef/CFBinaryPList.c:1376-1386 | Of the children that are refused or stop the program the first in order decides, whatever comes after it |
| `PlistReading.RoomyNeverStops` | SourceCode/CFRunLoopRef/CFBasicHash.c:299-300 | The program is not stopped where no table entry is a reserved word and no container is too large |
| `PlistReading.TooManyAre` | SourceCode/CFRunLoopRef/CFArray.c:420-436 | Too large is an array of 536870908 elements or more, and a set or dictionary of more than 3241355160 |
| `PlistReader.Reader.CreateObject` | SourceCode/CFRunLoopRef/CFBinaryPList.c:1061-1559 | On any accepted file, cyclic or not, ends within that depth, and whatever the cache holds the outcome is that of reading without one: a value, a refusal, or the halt of the cache or of the path; the path is restored with a value |
| `PlistReader.Reader.CreateContainer` | SourceCode/CFRunLoopRef/CFBinaryPList.c:1319-1559 | The same for arrays, sets and dictionaries: children in order, primitive keys only, the first of equal keys kept, and the halt of what is too large to build |
| `PlistReader.TryParse` | SourceCode/CFRunLoopRef/CFBinaryPList.c:1566-1606 | Ends on all bytes with the outcome that is specified: more objects than the cache has room for stop it, a value is described by the file, and a refused file is not accepted or describes nothing |
| `PlistReading.ParseMeaning` | SourceCode/CFRunLoopRef/CFBinaryPList.c:1566-1606 | A value comes out exactly when the top object describes it and all it reaches can be cached and built; a described value that cannot stops the program; only what is not accepted or describes nothing is refused |
| `PlistReading.SmallFilesParse` | SourceCode/CFRunLoopRef/CFBinaryPList.c:1566-1606 | No accepted file whose objects end below half a gigabyte, and have room in the cache, stops the program |
| `PlistRoundTrip.ReadsBack` | SourceCode/CFRunLoopRef/CFBinaryPList.c:1061-1559 | Every listed object with primitive keys only is described by the written file as what it denotes |
| `PlistRoundTrip.ContainerKeyUnreadable` | SourceCode/CFRunLoopRef/CFBinaryPList.c:1516 | A container as a key, however deep, makes what contains it unreadable |
| `PlistRoundTrip.WrittenFileDescribes` | SourceCode/CFRunLoopRef/CFBinaryPList.c:610-707 | Every written file is accepted, and describes its graph exactly when all keys are primitive, and nothing otherwise |
| `PlistRoundTrip.NarrowingExact` | SourceCode/CFRunLoopRef/CFBinaryPList.c:1113-1118 | Cutting 128-bit integers to 64 bits changes nothing exactly when each is an unsigned 64-bit number |
| `PlistEndToEnd.WrittenClean` | SourceCode/CFRunLoopRef/CFBinaryPList.c:1123-1124 | The reader can keep what a written object describes exactly when no object of its graph lies at a reserved offset or is too large |
| `PlistEndToEnd.KeptNeverStops` | SourceCode/CFRunLoopRef/CFBinaryPList.c:1061-1559 | Then it is not stopped, whether the object describes a value or not |
| `PlistEndToEnd.FaultsMean` | SourceCode/CFRunLoopRef/CFBinaryPList.c:1061-1559 | An object graph has a halt among its faults exactly when something in it cannot be kept, and a refusal exactly when some key is a container |
| `PlistEndToEnd.FirstFaultDecides` | SourceCode/CFRunLoopRef/CFBinaryPList.c:1376-1386 | Reading a written object, below any path to it and at any depth, gives what it denotes when it has no fault, and otherwise ends as the first of them says |
| `PlistEndToEnd.SmallFileKept` | SourceCode/CFRunLoopRef/CFBinaryPList.c:610-707 | All of a file of less than half a gigabyte can be kept |
| `PlistEndToEnd.WrittenOutcome` | SourceCode/CFRunLoopRef/CFBinaryPList.c:1566-1606 | Of any graph that can be written, the first fault in the order of reading decides; so parsing gives what it denotes when there is none, stops when only the keys are in order, and refuses the file when only they are not |
| `PlistEndToEnd.WriteThenRead` | SourceCode/CFRunLoopRef/CFBinaryPList.c:610-707 | Writing and reading gives the same property list back exactly when all is writable, all keys are primitive, all can be kept, and no 128-bit integer exceeds 64 unsigned bits |
| `PlistWitnesses.ContainerKeyFails` | SourceCode/CFRunLoopRef/CFBinaryPList.c:1516 | A dictionary with an array for a key can be written, and the file is refused |
| `PlistWitnesses.WideIntegerFails` | SourceCode/CFRunLoopRef/CFBinaryPList.c:1113-1118 | 2^64 can be written, and is read as 0 |
| `PlistWitnesses.UnkeptGraphStops` | SourceCode/CFRunLoopRef/CFBasicHash.c:1366-1367 | An array of n bytes of data and an integer is written and read back for all n from 2^16 up to 2^32, except for the two at which the integer lies at a reserved offset: these stop the program |
| `PlistWitnesses.ReservedOffsetStops` | SourceCode/CFRunLoopRef/CFBasicHash.c:1366-1367 | A file with one integer at 0xa5baadb9 or 0xa7baadb1 describes it and stops the program; at every other offset from 8 to 2^32 - 3 it is read |
| `PlistFiles.WrittenFile` | SourceCode/CFRunLoopRef/CFBinaryPList.c:610-707 | The 50 bytes written for the dictionary of "a" to 200 |
| `PlistFiles.WrittenFileRead` | SourceCode/CFRunLoopRef/CFBinaryPList.c:1566-1606 | They are read as that dictionary |
| `PlistFiles.SecondIsTop` | SourceCode/CFRunLoopRef/CFBinaryPList.c:840-841 | 46 bytes with two integers, the second of which is the top object, are read as the second |
| `PlistFiles.FirstOfEqualKeys` | SourceCode/CFRunLoopRef/CFBinaryPList.c:1537 | 55 bytes with a dictionary of "a" to 1 and "a" to 2 are read as "a" to 1 |
| `PlistFiles.SetRead` | SourceCode/CFRunLoopRef/CFBinaryPList.c:1299-1321 | 47 bytes with a set of 7 and 7 are read as the set of 7 |
| `HashSizes.TableLaws` | SourceCode/CFRunLoopRef/CFBasicHash.c:225-259 | Capacities are within sizes and grow |
| `HashSizes.GoldenLoad` | SourceCode/CFRunLoopRef/CFBasicHash.c:225-259 | From the eighth table on, the capacity is the size by the golden ratio, rounded to the nearest |
| `HashSizes.GoldenGrowth` | SourceCode/CFRunLoopRef/CFBasicHash.c:225-237 | Each size is the sum of the two before it, give or take 575 |
| `HashSizes.IndexForCapacity` | SourceCode/CFRunLoopRef/CFBasicHash.c:702-708 | The first table whose capacity is enough, for all capacities that any table has |
| `HashSlots.SentinelsSafe` | SourceCode/CFRunLoopRef/CFBasicHash.c:492-546 | 0 and ~0 stored as data never read back as empty or deleted, and read back as themselves |
| `HashTable.BasicHash.BumpCounts` | SourceCode/CFRunLoopRef/CFBasicHash.c:569-626 | Widening keeps every count |
| `HashTable.BasicHash.IncSlotCount` | SourceCode/CFRunLoopRef/CFBasicHash.c:628-676 | Raises one count by one and no other, across any widening |
| `HashTable.BasicHash.DecSlotCount` | SourceCode/CFRunLoopRef/CFBasicHash.c:678-686 | Lowers one count and no other |
| `HashTable.BasicHash.SetValue` | SourceCode/CFRunLoopRef/CFBasicHash.c:499-514 | Stores a value, encoded unless literal, and gives up the old one when it was live |
| `HashTable.BasicHash.SetKey` | SourceCode/CFRunLoopRef/CFBasicHash.c:530-546 | The same for keys |
| `HashTable.BasicHash.FindBucket` | SourceCode/CFRunLoopRef/CFBasicHashFindBucket.m:100-192 | The bucket of an equal key and its entry when there is one; otherwise the first dead slot on the way from the hash of the key modulo the size, or none in a table without dead slots |
| `HashTable.BasicHash.FindBucketNoCollision` | SourceCode/CFRunLoopRef/CFBasicHashFindBucket.m:100-192 | For a new key and no tombstones, a dead slot reachable by probing |
| `HashSlots.EmptyMeansAbsent` | SourceCode/CFRunLoopRef/CFBasicHashFindBucket.m:110-122 | An empty slot ends the search: the key is nowhere in the table |
| `HashSlots.AllProbedMeansAbsent` | SourceCode/CFRunLoopRef/CFBasicHashFindBucket.m:182-191 | So does having probed everywhere |
| `HashSlots.AddCountedLaw` | SourceCode/CFRunLoopRef/CFBasicHash.c:1259-1286 | Filling a dead slot reached over no empty one adds the entry and keeps all keys reachable |
| `HashSlots.ChangeLaw` | SourceCode/CFRunLoopRef/CFBasicHash.c:1288-1298 | Overwriting with an equal key changes that entry only |
| `HashSlots.RemoveLaw` | SourceCode/CFRunLoopRef/CFBasicHash.c:1300-1312 | A tombstone takes the entry away and leaves every other key reachable |
| `HashLaws.SoundAdd` | SourceCode/CFRunLoopRef/CFBasicHash.c:1259-1286 | Used slots, model size and what is retained all grow by the new entry |
| `HashLaws.SoundRemove` | SourceCode/CFRunLoopRef/CFBasicHash.c:1300-1312 | They all shrink by the removed entry |
| `HashSlots.PartialStep` | SourceCode/CFRunLoopRef/CFBasicHash.c:1199-1240 | What the first slots hold grows by one new class with each live slot |
| `HashTable.BasicHash.Rehash` | SourceCode/CFRunLoopRef/CFBasicHash.c:1127-1249 | The table holds the same entries and no tombstones, and no callback is made; it has the same size for 0, the least that will do for less, and for more the least that takes so many, or with aggressive growth for a single one the next |
| `HashTable.BasicHash.SetCapacity` | SourceCode/CFRunLoopRef/CFBasicHash.c:1251-1257 | Gives the table the least size for the capacity, or leaves it when it has as many entries, without changing them |
| `HashTable.BasicHash.AddValueAt` | SourceCode/CFRunLoopRef/CFBasicHash.c:1259-1286 | Adds a new entry with count 1; the size changes only when the capacity was reached, to the one that a single entry more needs |
| `HashTable.BasicHash.ReplaceValueAt` | SourceCode/CFRunLoopRef/CFBasicHash.c:1288-1298 | Replaces value and key and keeps the count; the callbacks made are the retains of the new words and then the releases of the old |
| `HashTable.BasicHash.RemoveValueAt` | SourceCode/CFRunLoopRef/CFBasicHash.c:1300-1330 | Removes an entry, and then tidies up; the roll-over of the 16-bit tombstone count keeps the table valid |
| `HashTable.BasicHash.Tidy` | SourceCode/CFRunLoopRef/CFBasicHash.c:1314-1329 | The table shrinks to the least size when its entries would fit one two sizes smaller, five with aggressive growth; otherwise tombstones go when they are a quarter of at least 20 slots or have rolled over, and nothing else changes |
| `HashTable.BasicHash.Add` | SourceCode/CFRunLoopRef/CFBasicHash.c:1332-1350 | Adds an entry or an instance of it; true exactly when the model changed |
| `HashTable.BasicHash.Replace` | SourceCode/CFRunLoopRef/CFBasicHash.c:1352-1362 | Changes an entry that is there and no other, with the same callbacks in the same order, and none otherwise |
| `HashTable.BasicHash.Set` | SourceCode/CFRunLoopRef/CFBasicHash.c:1364-1376 | Replaces or adds |
| `HashTable.BasicHash.Remove` | SourceCode/CFRunLoopRef/CFBasicHash.c:1378-1391 | Removes one instance, returns how many there were, releases the entry with its last instance, and does nothing for words no table can store |
| `HashTable.BasicHash.GetCountOfKey` | SourceCode/CFRunLoopRef/CFBasicHash.c:943-951 | How many instances a key has |
| `HashTable.BasicHash.Lookup` | SourceCode/CFRunLoopRef/CFBasicHash.c:904-910 | The entry of an equal key, or none; none for the two reserved words |
| `HashTable.BasicHash.RemoveAll` | SourceCode/CFRunLoopRef/CFBasicHash.c:1405-1411 | The table is empty, what it had retained is released, slot by slot in order, and the call log grows by exactly these calls |
| `HashTable.BasicHash.Drain` | SourceCode/CFRunLoopRef/CFBasicHash.c:1062-1125 | The arrays are taken away first; then the calls made are the releases of the live slots in order |
| `HashVisits.DrainedOnce` | SourceCode/CFRunLoopRef/CFBasicHash.c:1098-1113 | Those calls release the value and the key of every entry of the table, each entry once |
| `HashModel.AddedTotal` | SourceCode/CFRunLoopRef/CFBasicHash.c:1332-1350 | Adding raises the total by one unless the count is clamped or not kept |
| `HashModel.RemovedTotal` | SourceCode/CFRunLoopRef/CFBasicHash.c:1378-1391 | Removing lowers it by one unless the key is absent or its count clamped |
| `HashModel.AddThenRemove` | SourceCode/CFRunLoopRef/CFBasicHash.c:1332-1391 | Removing takes back adding exactly on the condition given above |
| `HashVisits.GetCount` | SourceCode/CFRunLoopRef/CFBasicHash.c:931-941 | The sum of the slot counts, or the used slots, is the size of the map, set or multiset |
| `HashVisits.SumTotal` | SourceCode/CFRunLoopRef/CFBasicHash.c:931-941 | The counts of the first slots add up to the total of the entries they hold |
| `HashVisits.GetBucket` | SourceCode/CFRunLoopRef/CFBasicHash.c:723-736 | A live bucket shows its decoded key, value and count; a dead one has count 0 |
| `HashVisits.Apply` | SourceCode/CFRunLoopRef/CFBasicHash.c:991-1002 | Counting down the used slots, visits every entry exactly once, until the block stops it |
| `HashVisits.AreEqual` | SourceCode/CFRunLoopRef/CFBasicHash.c:971-989 | True exactly when both tables hold equal keys, equally often, with equal values, though only the first is walked |
| `HashVisits.AgreeAll` | SourceCode/CFRunLoopRef/CFBasicHash.c:971-989 | The pigeonhole: with equal totals nothing else is left in the second table |
| `HashIntegers.AddIntValueAndInc` | SourceCode/CFRunLoopRef/CFBasicHash.c:1413-1443 | Adds a new key at a number and moves the numbers from there up by one, with the retains of the new entry for its only calls; an old key changes nothing and calls nothing |
| `HashIntegers.RemoveIntValueAndDec` | SourceCode/CFRunLoopRef/CFBasicHash.c:1445-1465 | Removes the key that alone has a number, once, and moves the later ones down; the only call is the release of that key |
| `HashIntegers.NumberedMoves` | SourceCode/CFRunLoopRef/CFBasicHash.c:1413-1465 | Where the values are 0 to n - 1, each once, any number may be inserted and any of them removed |
| `HashIntegers.AddKeepsNumbered` | SourceCode/CFRunLoopRef/CFBasicHash.c:1413-1443 | Values that are 0 to n - 1, each once, become 0 to n, each once, for any number up to n |
| `HashIntegers.RemoveKeepsNumbered` | SourceCode/CFRunLoopRef/CFBasicHash.c:1445-1465 | And 0 to n - 2 after removing any of them |
| `HashIntegers.AddThenRemoveInt` | SourceCode/CFRunLoopRef/CFBasicHash.c:1413-1465 | Removing the number just added restores the whole map |
| `HashIntegers.AddKeepsOrder` | SourceCode/CFRunLoopRef/CFBasicHash.c:1413-1443 | The other keys keep their order |
| `HashRuns.CreateCopy` | SourceCode/CFRunLoopRef/CFBasicHash.c:1656-1768 | A copy holds the same entries in its own arrays and has retained them itself |
| `HashRefinement.RefinesSet` | SourceCode/CFRunLoopRef/CFBasicHash.c:1251-1411 | Over every run without counts the keys are those of a set |
| `HashRefinement.RefinesMap` | SourceCode/CFRunLoopRef/CFBasicHash.c:1251-1411 | And the values those of a map: adding keeps, setting overwrites, replacing changes only what is there |
| `HashRefinement.LookupIsMap` | SourceCode/CFRunLoopRef/CFBasicHash.c:904-910 | So after any run a lookup finds the value the map has, or nothing when it has none |
| `HashRefinement.RefinesBag` | SourceCode/CFRunLoopRef/CFBasicHash.c:1251-1411 | With counts, over every run in which none can reach its maximum, the table is a multiset |
| `HashRefinement.BagTotal` | SourceCode/CFRunLoopRef/CFBasicHash.c:931-941 | The total of its counts is the size of that multiset |
| `HashRuns.RunProper` | SourceCode/CFRunLoopRef/CFBasicHash.c:1332-1411 | Over every run, counts stay positive, in range, and 1 where none are kept |
| `HashRuns.Run` | SourceCode/CFRunLoopRef/CFBasicHash.c:1251-1411 | Any run of operations on a new table answers each as a plain map does, lookups with the entry included, across growth, shrinking, tombstones and rehashing, and stays valid: used slots are the live ones, the tombstone count is right, retained is what is held |
| `ArrayDeque.RoundUpCapacity` | SourceCode/CFRunLoopRef/CFArray.c:46-49 | The power of two above what is asked, from 4 up |
| `ArrayDeque.MutableArray.ReleaseValues` | SourceCode/CFRunLoopRef/CFArray.c:197-240 | Releases the items of a range in order and clears exactly their buckets |
| `ArrayDeque.MutableArray.RepositionDequeRegions` | SourceCode/CFRunLoopRef/CFArray.c:775-859 | In all five ways of moving, the items left and right of the range end up unchanged with the room asked between them; which way it is, the size of the store and the place of the items are as planned, and buckets given up in the same store are 0 |
| `ArrayDeque.MutableArray.Recenter` | SourceCode/CFRunLoopRef/CFArray.c:837-858 | Either order of moving both regions keeps both |
| `ArrayDeque.MovedBoth` | SourceCode/CFRunLoopRef/CFArray.c:837-858 | Of two regions moved one after the other, the first does not run over the second |
| `ArrayDeque.MutableArray.ReplaceValues` | SourceCode/CFRunLoopRef/CFArray.c:922-993 | The contents are exactly what was left of the range, the new values, what was right of it; new values are retained before old ones are released |
| `ArrayDeque.MutableArray.Replace` | SourceCode/CFRunLoopRef/CFArray.c:910-918 | And what is retained on balance is what the array holds, each item as often as it occurs |
| `ArrayDeque.MutableArray.Append` | SourceCode/CFRunLoopRef/CFArray.c:686-693 | One item more at the end |
| `ArrayDeque.MutableArray.RemoveAt` | SourceCode/CFRunLoopRef/CFArray.c:753-760 | One item less |
| `ArrayDeque.MutableArray.SetValueAtIndex` | SourceCode/CFRunLoopRef/CFArray.c:695-720 | Sets an item in place, or appends it |
| `ArrayDeque.MutableArray.ExchangeValuesAtIndices` | SourceCode/CFRunLoopRef/CFArray.c:731-751 | Exchanges two items and calls no callback |
| `ArrayDeque.MutableArray.RemoveAllValues` | SourceCode/CFRunLoopRef/CFArray.c:762-772 | Releases everything in order, holds nothing, and lets the store go |
| `ArrayDeque.MutableArray.SetCapacity` | SourceCode/CFRunLoopRef/CFArray.c:871-907 | Grows the store to the power of two above and keeps the contents and their place; a new one is begun in the middle |
| `ArrayEvents.KeptThroughout` | SourceCode/CFRunLoopRef/CFArray.c:934-958 | At every moment of a replacement all the old items or all the final ones are held, so a kept item never reaches balance 0 |
| `ArrayEvents.HeldReleases` | SourceCode/CFRunLoopRef/CFArray.c:197-240 | Releasing what is held never releases too often |
| `ArrayRuns.HeldCounts` | SourceCode/CFRunLoopRef/CFArray.c:197-240 | While nothing is released that is not held, an item is held as often as it was retained and not released |
| `ArrayRuns.Run` | SourceCode/CFRunLoopRef/CFArray.c:686-993 | Any run of operations on a new array holds and answers what a plain sequence would; at its end every item has been retained as often as it was released and occurs, and no release came before its retain |
| `ArraySearch.BSearchValues` | SourceCode/CFRunLoopRef/CFArray.c:1074-1100 | On a range sorted by a total preorder, the first index not less than the value, or the end, with at most lg(n) + 3 comparisons, all in range |
| `ArraySearch.Halve` | SourceCode/CFRunLoopRef/CFArray.c:1091-1096 | One probe halves the range that is left, whatever its length |
| `ArraySearch.ZSort` | SourceCode/CFRunLoopRef/CFArray.c:1006-1018 | Sorts the range, moves nothing outside it, keeps the items, and calls no callback |
| `Utf8Converters.ToUTF8Core` | SourceCode/CFRunLoopRef/CFBuiltinConverters.c:913-944 | Any character is written as its UTF-8 bytes when they fit the room given in 32 bits, and nothing otherwise; larger numbers go on in the same way up to 31 bits, and those beyond become the two bytes FF BD |
| `Utf8Units.LegalSound` | SourceCode/CFRunLoopRef/CFBuiltinConverters.c:885-1011 | Bytes that pass the legality test are the encoding of the character assembled from them, which is neither a surrogate nor too large |
| `Utf8Units.LegalComplete` | SourceCode/CFRunLoopRef/CFBuiltinConverters.c:885-1011 | Every encoding of a character passes the test and assembles to that character |
| `Utf8Units.FirstChar` | SourceCode/CFRunLoopRef/CFBuiltinConverters.c:999-1011 | A byte string begins with one character at most |
| `Utf8Units.First16Is` | SourceCode/CFRunLoopRef/CFBuiltinConverters.c:958-975 | A pair of surrogates, or one unit that is none, is the first character; a lone surrogate is not |
| `Utf8Converters.ToUTF8` | SourceCode/CFRunLoopRef/CFBuiltinConverters.c:946-987 | Consumes exactly the characters that can be read in turn up to the first that is blocked, and writes their bytes: ASCII needs room for itself, the bytes of other characters must fit what 32 bits keep of the room left; a lone surrogate stops it |
| `Utf8RoundTrip.SmallRoom` | SourceCode/CFRunLoopRef/CFBuiltinConverters.c:976 | In buffers of less than 2^32 bytes that is exactly as much as can be read in turn and fits |
| `Utf8RoundTrip.RoomEnough` | SourceCode/CFRunLoopRef/CFBuiltinConverters.c:976 | Three bytes for each character, less than 2^32 in all, never block |
| `Utf8RoundTrip.LargeRoomStops` | SourceCode/CFRunLoopRef/CFBuiltinConverters.c:976 | A buffer of 2^32 bytes takes nothing of U+00E9 |
| `Utf8RoundTrip.LargeTextStops` | SourceCode/CFRunLoopRef/CFBuiltinConverters.c:976 | Nor do 2^32 + 2 bytes take anything of 1431655766 times U+20AC |
| `Utf8Converters.ReadUnit` | SourceCode/CFRunLoopRef/CFBuiltinConverters.c:1026-1062 | Reads the first character of a byte string, a stray 0xA9, or nothing |
| `Utf8Converters.FromUTF8` | SourceCode/CFRunLoopRef/CFBuiltinConverters.c:1013-1106 | Gives exactly the characters of the units that can be read in turn and fit, and consumes their bytes, or four more on the overrun |
| `Utf8Converters.FromUTF8Len` | SourceCode/CFRunLoopRef/CFBuiltinConverters.c:1125-1192 | The number of characters an unbounded conversion gives |
| `Utf8RoundTrip.Taken8Once` | SourceCode/CFRunLoopRef/CFBuiltinConverters.c:1013-1106 | What is converted is determined by the bytes and the room |
| `Utf8RoundTrip.Taken16Once` | SourceCode/CFRunLoopRef/CFBuiltinConverters.c:946-987 | The same for encoding |
| `Utf8RoundTrip.TakesAll16` | SourceCode/CFRunLoopRef/CFBuiltinConverters.c:946-987 | A conversion takes all of a string exactly when it is well formed and no character is blocked |
| `Utf8RoundTrip.PassesAsText` | SourceCode/CFRunLoopRef/CFBuiltinConverters.c:976 | Nothing that can be read of well-formed text is blocked exactly when none of its characters is, each where it stands |
| `Utf8RoundTrip.EncodeThenDecode` | SourceCode/CFRunLoopRef/CFBuiltinConverters.c:946-1106 | With room of any size, encoding consumes all of a UTF-16 string exactly when it is well formed and nothing is blocked; strict decoding gives back exactly what was consumed |
| `Utf8RoundTrip.DecodeThenEncode` | SourceCode/CFRunLoopRef/CFBuiltinConverters.c:946-1106 | Of any bytes, what strict decoding consumed is what encoding into room of any size gives again exactly when no stray 0xA9 was read and nothing is blocked; it is all of them exactly when they are also well formed |
| `Utf8RoundTrip.SameBytes` | SourceCode/CFRunLoopRef/CFBuiltinConverters.c:1013-1106 | Characters and stray bytes that take the same bytes are the same |
| `Utf8RoundTrip.ReplacedSizes` | SourceCode/CFRunLoopRef/CFBuiltinConverters.c:1034-1044 | Every stray byte becomes a character of three bytes, so a string with one cannot come back |
| `Utf8RoundTrip.ToUTF8Len` | SourceCode/CFRunLoopRef/CFBuiltinConverters.c:1108-1123 | The measured length modulo 2^32, lone surrogates counted as three bytes |
| `Utf8RoundTrip.LengthExact` | SourceCode/CFRunLoopRef/CFBuiltinConverters.c:1108-1123 | For strings of less than 2^32 / 3 characters it is never too small, and exact exactly for those that convert whole; for well-formed strings of any length exact exactly below 2^32 bytes, and too small from there on |
| `Utf8RoundTrip.ConsumedExact` | SourceCode/CFRunLoopRef/CFBuiltinConverters.c:1091-1098 | The bytes consumed are those of the characters given unless half of a pair met the end of the buffer |
| `Utf8RoundTrip.OverrunHappens` | SourceCode/CFRunLoopRef/CFBuiltinConverters.c:1091-1098 | U+10000 with room for one is such a case |
| `BitVector.MaskBits` | SourceCode/CFRunLoopRef/CFBitVector.c:107-113 | The mask has ones exactly from the bottom bit to the top bit |
| `BitVector.CountBitsOf` | SourceCode/CFRunLoopRef/CFBitVector.c:323-333 | The nibble table counts the bits with the value under the mask |
| `BitVector.BitVector.InternalMap` | SourceCode/CFRunLoopRef/CFBitVector.c:284-316 | Ramping up, whole buckets and ramping down map exactly the bits of the range and no others, and count exactly those with the value |
| `BitVector.BitVector.MapBits` | SourceCode/CFRunLoopRef/CFBitVector.c:284-316 | On the bits of the vector this is mapping a range bit by bit |
| `BitVector.BitVector.SetBits` | SourceCode/CFRunLoopRef/CFBitVector.c:501-511 | Sets the bits of the range and no others |
| `BitVector.BitVector.FlipBits` | SourceCode/CFRunLoopRef/CFBitVector.c:486-492 | Flips the bits of the range and no others |
| `BitVector.FlipTwice` | SourceCode/CFRunLoopRef/CFBitVector.c:482-492 | Flipping twice is no change |
| `BitVector.BitVector.GetCountOfBit` | SourceCode/CFRunLoopRef/CFBitVector.c:335-344 | The number of places in the range with the value; nothing changes |
| `BitVector.BitVector.SetAllBits` | SourceCode/CFRunLoopRef/CFBitVector.c:513-528 | All bits get the value |
| `BitVector.BitVector.SetCount` | SourceCode/CFRunLoopRef/CFBitVector.c:456-473 | Old bits are kept and new ones are zero, across reallocation |
| `BinaryHeap.RootLeast` | SourceCode/CFRunLoopRef/CFBinaryHeap.c:308-312 | In heap order the first item is a minimum |
| `BinaryHeap.RiseStep` | SourceCode/CFRunLoopRef/CFBinaryHeap.c:384-390 | Exchanging with a greater parent leaves only the parent place in doubt |
| `BinaryHeap.SinkStep` | SourceCode/CFRunLoopRef/CFBinaryHeap.c:415-428 | Exchanging with the lesser child leaves only the child place in doubt |
| `BinaryHeap.Heap.Grow` | SourceCode/CFRunLoopRef/CFBinaryHeap.c:355-365 | Makes room and keeps the items |
| `BinaryHeap.Heap.AddValue` | SourceCode/CFRunLoopRef/CFBinaryHeap.c:367-396 | Keeps heap order and adds exactly the item, which is retained once; what is retained on balance stays what the heap holds |
| `BinaryHeap.Heap.RemoveMinimumValue` | SourceCode/CFRunLoopRef/CFBinaryHeap.c:398-430 | Keeps heap order and removes exactly one item, a minimum, which is released once |
| `BinaryHeap.CreateCopy` | SourceCode/CFRunLoopRef/CFBinaryHeap.c:212-269 | A heap of its own with the same items, which it has retained itself |
| `BinaryHeap.GetValues` | SourceCode/CFRunLoopRef/CFBinaryHeap.c:321-337 | The items in ascending order; the heap is unchanged |
| `BigNumber.Compare` | SourceCode/CFRunLoopRef/CFBigNumber.c:416-431 | Integer order, exactly unless two zeros have different signs |
| `BigNumber.AbsoluteLessThan` | SourceCode/CFRunLoopRef/CFBigNumber.c:435-445 | Order of magnitudes |
| `BigNumber.Neg` | SourceCode/CFRunLoopRef/CFBigNumber.c:448-463 | The negated value, canonical again when it was; in place too |
| `BigNumber.Add` | SourceCode/CFRunLoopRef/CFBigNumber.c:465-508 | Equal signs: digits plus carry times 10^45 are the sum, out of range exactly in full columns; otherwise the exact sum, canonical exactly unless a negative number meets its opposite; in place too |
| `BigNumber.FullColumnHappens` | SourceCode/CFRunLoopRef/CFBigNumber.c:469-477 | Two numbers 500000000 make such a column |
| `BigNumber.Sub` | SourceCode/CFRunLoopRef/CFBigNumber.c:511-515 | Adds the negated number: exact up to the carry |
| `BigNumber.SameDigits` | SourceCode/CFRunLoopRef/CFBigNumber.c:416-431 | Equal magnitudes have equal digits |
| `BigNumberText.InitWithUInt64` | SourceCode/CFRunLoopRef/CFBigNumber.c:180-189 | Splits any 64-bit number into digits |
| `BigNumberText.GetUInt64` | SourceCode/CFRunLoopRef/CFBigNumber.c:276-281 | Puts together every magnitude that fits, so that it gives back what was split |
| `BigNumberText.InitWithUInt128` | SourceCode/CFRunLoopRef/CFBigNumber.c:192-208 | Splits any 128-bit number into digits |
| `BigNumberText.GetUInt128` | SourceCode/CFRunLoopRef/CFBigNumber.c:284-292 | Puts together every magnitude that fits |
| `BigNumberText.InitWithInt64` | SourceCode/CFRunLoopRef/CFBigNumber.c:122-135 | Splits any signed 64-bit number, the least included |
| `BigNumberText.GetInt64` | SourceCode/CFRunLoopRef/CFBigNumber.c:236-244 | Gives every value in range, the least included |
| `BigNumberText.InitWithInt128` | SourceCode/CFRunLoopRef/CFBigNumber.c:138-157 | The same for 128 bits |
| `BigNumberText.GetInt128` | SourceCode/CFRunLoopRef/CFBigNumber.c:247-257 | The same for 128 bits |
| `BigNumberText.ToCString` | SourceCode/CFRunLoopRef/CFBigNumber.c:518-538 | For a buffer of any size that holds the sign and the end of the text: a sign and, with leading zeros, the magnitude modulo the power of ten that the room has digits for, or else the digits without useless zeros, cut off at the end of the room |
| `BigNumberText.WritesWhole` | SourceCode/CFRunLoopRef/CFBigNumber.c:518-538 | In either style the numeral is that of the magnitude exactly when its digits fit the room |
| `BigNumberText.FromCString` | SourceCode/CFRunLoopRef/CFBigNumber.c:540-571 | Any sign and numeral of at most 45 significant digits reads as its value |
| `BigNumberText.WriteThenRead` | SourceCode/CFRunLoopRef/CFBigNumber.c:518-571 | A canonical number written as text, in either style, reads back as itself exactly when its digits fit the buffer |

## Left out

- Platform plumbing: garbage-collected memory and write barriers, allocators, Objective-C dispatch, type registration, locks, description strings, mutation counters; allocation always succeeds.
- PlistWriter.WritePlist: requires at most 0x3FFF0000 objects, what its list can hold, and a file of at most LONG_MAX / 8 bytes; stream errors and the fixed in-memory target are not modelled, so the stream takes all bytes, in any portions.
- PlistReader.Reader.CreateObject: key paths and mutability options are taken as absent; a date or real is its bytes; 8-bit strings are read byte by byte, as the ASCII decoder does also above 0x7F; the C stack itself has no bound. Where an array is too large for 32 bits the outcome given is that the program stops, while the source writes past its memory with no outcome that can be told.
- PlistReader.Reader.CreateContainer: keys of dictionaries and members of sets are the same when they have the same type and value, where the source uses CFEqual: UIDs, equal there by address only, and numbers of different types, equal there by value, are merged or kept apart otherwise than by the source.
- PlistEndToEnd.WriteThenRead: compares property lists by type and value likewise, so it says that a list comes back unchanged only where no dictionary has two equal UIDs for keys.
- PlistReader.TryParse: offset lookups in arrays and dictionaries without building them are not modelled, nor are the error strings.
- Property lists in XML and the old style, and every other part of the plist API.
- HashTable.BasicHash.FindBucket: linear probing only; double and exponential probing, indirect keys, the cache of hash codes and the folding of remainders on ARM are not modelled.
- HashTable.BasicHash.FindBucketNoCollision: linear probing only, likewise.
- HashTable.BasicHash.Add: requires a key and value other than the two words that stand for 0 and ~0, where the source halts, and fewer than 3241355160 entries, or with aggressive growth 2003267722. Without aggressive growth the source halts beyond that; with it, its next size may be 0. The callbacks return the word they are given.
- HashTable.BasicHash.BumpCounts: the counts of all widths are one array of numbers with the bound of the width.
- HashVisits.GetCount: the sum is unbounded, where the source adds in a CFIndex.
- HashVisits.AreEqual: both tables compare keys the same way.
- HashIntegers.AddIntValueAndInc: for tables with keys and without value callbacks, as the callers use it, and numbers none of which becomes a reserved word.
- HashIntegers.RemoveIntValueAndDec: for such tables in which one entry alone has the number, with count 1; without one the source writes outside the table.
- Lookup of values, element buffers and fast enumeration of the hash table, which are simpler walks of the same kind.
- ArrayDeque.MutableArray.ReplaceValues: for results of at most 0x3FFF0000 items, so that the capacity shifted in an int and the truncated count do not overflow; a retain callback returns the item it is given.
- ArrayDeque.MutableArray.SetCapacity: growing only; the source copies the old capacity into a smaller block when it shrinks.
- ArraySearch.BSearchValues: for ranges of fewer than 2^31 items, whose power of two fits an int.
- CFQSortArray and the sorts that use it (its body is not part of this model), immutable arrays, array equality, and searches from either end.
- Utf8Converters.ToUTF8: flags are zero: no decomposition, no lossy, lenient or HFS+ mode; buffers are the strings they are filled with.
- The 8-bit encodings of the same file, which are finite tables.
- BitVector.BitVector.MapBits: copying bits out over an unaligned range and equality, which compares bits past the end, are not modelled.
- BinaryHeap.Heap.AddValue: a retain callback returns the item it is given; the comparator is a total preorder, which pointer order is; heap equality, whose test is inverted, is not modelled.
- BigNumberText.ToCString: for buffers with room for the sign and the terminator, without which the source leaves no terminated text.
- BigNumberText.FromCString: for texts that are a sign and a numeral; others depend on atol.
- Big numbers from and to CFNumber objects and 8-, 16- and 32-bit integers.
- CFBundle, CFApplicationPreferences, CFBase, the run loop itself, and the Swift and Objective-C code of the application.
