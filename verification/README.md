# GTIRB, verified

A Dafny model of the parts of GTIRB, GrammaTech's intermediate representation for binaries, that keep several
representations of the same facts in step, with proofs that they stay so. `dafny verify dfyconfig.toml` checks
everything.

| part | files | what is proved |
|---|---|---|
| AuxData codec | `LittleEndian`, `AuxData`, `AuxDataStreams`, `AuxDataRoundTrip`, `AuxDataDecoding`, `AuxDataTheorems`, `AuxDataTypeNames`, `AuxDataWire` | writer and reader against an encoding and a decoding function; the wire format byte by byte; the round trip and its exact condition; what decoding arbitrary bytes gives; type names are read back by their grammar |
| Bump-pointer allocator | `Words`, `Allocator`, `AllocatorSafety`, `DestructorWalk` | bit tricks on 64-bit words; safety of any run; the destructor walk finds every object, each once |
| K-way merge | `Heap`, `MergeSorted`, `Listings` | interleaving, order, heap invariant, termination |
| Byte vector | `ByteVector` | every operation acts on a zero-extended memory |
| Path printer | `SimplePaths` | every simple path, each once |
| Lazy interval tree | `LazyTree`, `LazyTreeRuns` | always current, amortized bound over any run of operations and queries |
| Containment tree | `ControlFlow`, `IntervalMaps`, `Extents`, `Levels`, `Hierarchy`, `Tables`, `Steps`, `Containment`, `ContainmentTheorems`, `Flat`, `FlatSteps`, `FlatTheorems` | any run of operations keeps parents, children, three address indexes, extents and CFG vertices in step, loses no edge but those of nodes that leave, and refines a flat view of parents and edges that decides all the rest |
| Queries | `Queries`, `QueryTheorems` | layered, pruned queries list, in order, what a flat scan does, under an exact condition |
| Symbol order | `SymbolIndex` | the repair after blocks moved |

How the model is put:

- Values (types, values, blocks of memory, ranges, keys) are datatypes; what the source updates in place (the two byte
  ranges, both allocators, the merge iterator, byte intervals, the path visitor, the lazy tree and its owner, the CFG,
  the containment tree, the symbol order) is a class whose methods are proved against functions of the old state, and
  the lemmas are about these functions. Loops are where the source has loops.
- Integers are unbounded; 64-bit wrap-around is written out wherever sums of addresses, offsets and sizes are formed.
- `malloc` is a parameter: each allocation takes the address that it would answer with, which is fresh, not null and
  such that the block ends below 2 to the 64.
- The containment tree keeps the fields of all nodes in maps, one per field, and its methods replace these maps. A
  `World` is such a state with what every CFG holds; `Step` says of two of them what an operation makes of the one.
  `span` is what `addressRange` computes from a child's address and size. A node has an observer exactly if it has a
  parent.
- `boost::icl::interval_map` is modelled by what it holds at each key, ordered indexes by the sorted listing of their
  elements, `std::*_heap` by binary heaps that meet their contracts, sets and unordered maps by the lists in which they
  are visited.
- An invariant of the form `forall k :: k == x && Open(k) ==> ...` is the invariant of `x`; `Open` is always true, and
  keeps the parts out of proofs that do not mention it (`Options.dfy`).

Where code and documentation disagree, the model follows the code:

- A variant is rejected if its index exceeds the number of bytes that follow (`include/gtirb/AuxData.hpp:521-522`), so
  some values cannot be read back; `RoundTrip` has the exact condition and `ThirdAlternativeIsRejected` a value.
- Labelled `removeEdge` is documented to remove edges between two nodes, but its loop ignores the target
  (`src/CFG.cpp:155-164`); `LabelledRemovalAsDocumented` has the exact condition and `LabelledRemovalGoesTooFar` a
  graph.
- Unlabelled `removeEdge` is documented to tell whether the graph changed, but returns true whenever both nodes are in
  it (`src/CFG.cpp:132-143`); `RemovalTellsOfChange` has the exact condition and `RemovalOfNothingIsReported` a graph.
- The stored bytes of a byte interval can exceed its size if it is created so (`src/ByteInterval.cpp:56-60`); every
  other operation restores or keeps the bound.
- An interval or block whose end reaches 2 to the 64 covers nothing in the address indexes
  (`BlockIsFoundUnlessItWraps`, `IntervalIsFoundUnlessItWraps`).

## Model

| member | source | states |
|---|---|---|
| LittleEndian.ValueOfImage | include/gtirb/AuxData.hpp:252-266 | The little-endian image of a number in w bytes stands for that number, modulo 256 to the w. |
| LittleEndian.ImageOfValue | include/gtirb/AuxData.hpp:268-289 | Bytes read as a little-endian number and written again are the same bytes. |
| AuxDataStreams.ToByteRange.constructor | include/gtirb/AuxData.hpp:169-171 | A new output range holds no bytes. |
| AuxDataStreams.ToByteRange.Write | include/gtirb/AuxData.hpp:173-176 | Appends one byte and changes nothing before it. |
| AuxDataStreams.FromByteRange.constructor | include/gtirb/AuxData.hpp:180-183 | A new input range has everything still to read. |
| AuxDataStreams.FromByteRange.Read | include/gtirb/AuxData.hpp:185-192 | Fails, and stays where it is, just if nothing is left; else yields the next byte and passes it. |
| AuxDataStreams.FromByteRange.RemainingBytesToRead | include/gtirb/AuxData.hpp:194-196 | The number of bytes the cursor has not passed. |
| AuxDataStreams.WriteRaw | include/gtirb/AuxData.hpp:263-265 | The byte loop of a fixed-width write appends exactly those bytes. |
| AuxDataStreams.ToBytes | include/gtirb/AuxData.hpp:341-597 | For a value of any portable type, nested to any depth, appends exactly its encoding to what was written before. |
| AuxDataStreams.ElementsToBytes | include/gtirb/AuxData.hpp:390-395 | The element loop of sequences and sets appends the encodings of the elements in order. |
| AuxDataStreams.EntriesToBytes | include/gtirb/AuxData.hpp:454-460 | The loop of mappings appends, for each entry in order, key and then value. |
| AuxDataStreams.FieldsToBytes | include/gtirb/AuxData.hpp:574-582 | Tuples append their fields in order, and no count. |
| AuxDataStreams.ReadRaw | include/gtirb/AuxData.hpp:268-278 | Reads until the bytes run out, succeeds just if they did not, and leaves what follows. |
| AuxDataStreams.ScalarFromBytes | include/gtirb/AuxData.hpp:268-289 | A fixed-width read gives what decoding says: value, success and where it stops. |
| AuxDataStreams.HeaderFromBytes | include/gtirb/AuxData.hpp:517-520 | Reads the 8-byte number that starts counts and variant indices. |
| AuxDataStreams.CountFromBytes | include/gtirb/AuxData.hpp:397-403 | Rejects a count that is larger than the number of bytes left. |
| AuxDataStreams.FromBytes | include/gtirb/AuxData.hpp:341-597 | On any bytes whatever, ends with the value, the verdict and the cursor that decoding gives. |
| AuxDataStreams.ElementsFromBytes | include/gtirb/AuxData.hpp:405-412 | A failed element does not stop the loop of sequences; the verdict is the conjunction. |
| AuxDataStreams.MembersFromBytes | include/gtirb/AuxData.hpp:436-443 | The loop of sets stops at the first failure and keeps a repeated element once. |
| AuxDataStreams.EntriesFromBytes | include/gtirb/AuxData.hpp:470-479 | The loop of mappings stops at the first failure and keeps the first value of a repeated key. |
| AuxDataStreams.FieldsFromBytes | include/gtirb/AuxData.hpp:584-596 | A failed field does not stop a tuple; the verdict is the conjunction. |
| AuxDataWire.SizeOfScalar | include/gtirb/AuxData.hpp:252-265 | A fixed-width value takes as many bits as the number in its type name, where the name has one; a float takes 32, an address or a double 64, a UUID 128, a byte or a bool 8. |
| AuxDataWire.ValuesOfScalar | include/gtirb/AuxData.hpp:310-328 | The values are those of the width: from 0 below 2 to the bits for unsigned integers and addresses, from minus 2 to one bit less to below it for signed ones. |
| AuxDataWire.UnsignedOnTheWire | include/gtirb/AuxData.hpp:252-265 | Byte i of a number that is not negative holds its bits 8 i to 8 i + 7: lowest byte first. |
| AuxDataWire.NegativeOnTheWire | include/gtirb/AuxData.hpp:252-265 | A negative number is written as the unsigned number that is 2 to the bits greater. |
| AuxDataWire.OthersOnTheWire | include/gtirb/AuxData.hpp:256-265 | Bytes, UUIDs, booleans and floating-point numbers are written as they are in memory. |
| AuxDataWire.HeaderOnTheWire | include/gtirb/AuxData.hpp:390-391 | Counts and variant indices are 8 bytes, lowest first. |
| AuxDataWire.ElementsOnTheWire | include/gtirb/AuxData.hpp:390-395 | Behind the count of a sequence or set stand the encodings of its elements, in order and with nothing between. |
| AuxDataWire.EntriesOnTheWire | include/gtirb/AuxData.hpp:454-460 | Behind the count of a mapping stand, for each entry in order, the encoding of the key and then that of the value. |
| AuxDataWire.FieldsOnTheWire | include/gtirb/AuxData.hpp:574-582 | A tuple is the encodings of its fields, in order. |
| AuxDataRoundTrip.EncodingIsNonEmpty | include/gtirb/AuxData.hpp:92-100 | No value of a portable type without empty tuples encodes to zero bytes. |
| AuxDataRoundTrip.CountAtMostLength | include/gtirb/AuxData.hpp:402-403 | So the count of a sequence or set never exceeds the bytes behind it, and the bounds check never rejects it. |
| AuxDataRoundTrip.PairCountAtMostLength | include/gtirb/AuxData.hpp:467-468 | The same for the entries of a mapping. |
| AuxDataRoundTrip.ScalarRoundTrip | include/gtirb/AuxData.hpp:252-289 | Any fixed-width value, signed ones included, is read back from its image and leaves what follows. |
| AuxDataRoundTrip.RoundTrip | include/gtirb/AuxData.hpp:341-597 | Decoding the encoding of any value, whatever follows it, yields the value and leaves exactly what follows, if and only if every variant index in the value is at most the number of bytes behind that index; sets and mappings are compared as the lists in which they are visited. |
| AuxDataRoundTrip.VariantRoundTrip | include/gtirb/AuxData.hpp:505-544 | The step for variants, the only ones that can be rejected. |
| AuxDataTheorems.SmallVariantsRoundTrip | include/gtirb/AuxData.hpp:521-522 | Types whose variants have no more than two alternatives are always read back. |
| AuxDataTheorems.ThirdAlternativeIsRejected | include/gtirb/AuxData.hpp:521-522 | A valid encoding that is rejected: a one-byte third alternative with nothing behind it. |
| AuxDataDecoding.DecodedIsSound | include/gtirb/AuxData.hpp:397-413 | Whatever bytes are decoded: what was consumed is a prefix, the result has the type, it holds at most one object per byte consumed, and for types without sets and mappings the prefix is its exact encoding. |
| AuxDataDecoding.NoMoreElementsThanBytes | include/gtirb/AuxData.hpp:397-413 | Whatever counts the bytes announce, no string or container in what has been read, at any depth, holds more elements than the bytes consumed, keys and values counted singly. |
| AuxDataDecoding.PartOfPart | include/gtirb/AuxData.hpp:341-597 | What a container holds, keys and values alike, are its parts at any depth. |
| AuxDataTheorems.ReadIgnoresWhatFollows | include/gtirb/AuxData.hpp:180-201 | Appending bytes to an input that decodes changes nothing but what is left over. |
| AuxDataTheorems.FirstKeyWins | include/gtirb/AuxData.hpp:470-479 | A decoded mapping has no key twice, and an entry is in it just if it is, of all entries read, the one at the least index with its key. |
| AuxDataTheorems.NoKeyIsLost | include/gtirb/AuxData.hpp:477 | Dropping repeated entries drops no key. |
| AuxDataTheorems.SetKeepsWhatWasRead | include/gtirb/AuxData.hpp:436-443 | A decoded set has exactly the elements that were read, as many as announced, each once. |
| AuxDataTypeNames.NameIsUniquePrefix | include/gtirb/AuxData.hpp:311-342 | If two type names, each followed by a delimiter or by nothing, are the same text, the names are the same type and the same text follows. |
| AuxDataTypeNames.TypeNameIsInjective | include/gtirb/AuxData.hpp:601-609 | Type names, read back by the grammar, are unambiguous for portable types of any nesting. |
| AuxDataTypeNames.LoadOfSaved | include/gtirb/AuxData.hpp:717-735 | Loading what was saved at one type as another succeeds just if the types are the same and all variant indices pass the bounds check, and then yields the value. |
| AuxDataTypeNames.NameIsRead | include/gtirb/AuxData.hpp:299-342 | A reader of the grammar, with its words spelled out, reads from the name of any portable type that type, and leaves whatever follows the name. |
| AuxDataTypeNames.PortableIsReadable | include/gtirb/AuxData.hpp:299-342 | The types covered are exactly those whose name the grammar reads back. |
| AuxDataTypeNames.ScalarIsNamed | include/gtirb/AuxData.hpp:299-338 | The name of each fixed-width type is the word that the reader knows it by. |
| Words.PowerOf2Test | include/gtirb/Allocator.hpp:70-72 | The bit test accepts exactly the powers of two, and not 0. |
| Words.AndMask | include/gtirb/Allocator.hpp:88 | Masking with the complement of 2 to the k minus 1 rounds down to a multiple of 2 to the k. |
| Words.AlignAddrIsLeast | include/gtirb/Allocator.hpp:81-89 | The result is the least multiple of the power-of-two alignment that is not below the argument, as long as the sum does not overflow. |
| Words.NextPowerOf2 | include/gtirb/Allocator.hpp:51-64 | The least power of two strictly above the argument, and 0 if no 64-bit power is. |
| Words.BitwiseOperations | include/gtirb/Allocator.hpp:55-60 | The bitwise conjunction and disjunction work on each bit by itself. |
| Allocator.SlabBytesInRange | include/gtirb/Allocator.hpp:246-252 | A slab is never smaller than the first size and always smaller than 2 to the 64. |
| Allocator.SlabBytesDouble | include/gtirb/Allocator.hpp:246-252 | Slab sizes stay for 128 slabs, then double, and stay at 2 to the 30 times the first size from slab 3840 on. |
| Allocator.ConfigIsValid | include/gtirb/Allocator.hpp:111-117 | The configurations covered are those with a threshold up to the slab size and a slab size from 1 below 2 to the 34, so that the largest slab has a 64-bit size. |
| Allocator.BumpPtrAllocator.constructor | include/gtirb/Allocator.hpp:119 | A new allocator has no memory. |
| Allocator.BumpPtrAllocator.StartNewSlab | include/gtirb/Allocator.hpp:256-264 | The new slab becomes the current one, and all of it is free. |
| Allocator.BumpPtrAllocator.Allocate | include/gtirb/Allocator.hpp:157-195 | Bump, custom slab or fresh slab, as room and size decide; new state and address are those of the step function, and the fit assertions hold. |
| Allocator.BumpPtrAllocator.GetTotalMemory | include/gtirb/Allocator.hpp:209-216 | The sum of the sizes of all slabs and custom slabs. |
| Allocator.TotalIsOfBlocks | include/gtirb/Allocator.hpp:209-216 | The total memory is that of all blocks obtained and not freed, and 0 for a new allocator. |
| AllocatorSafety.StepIsAligned | include/gtirb/Allocator.hpp:157-195 | The address returned is a multiple of the alignment asked for. |
| AllocatorSafety.StepIsSafe | include/gtirb/Allocator.hpp:157-195 | One allocation keeps all regions disjoint, in live memory and apart from what is still free. |
| AllocatorSafety.RunIsSafe | include/gtirb/Allocator.hpp:157-216 | After any run of allocations, whatever addresses malloc answers, regions are pairwise disjoint and in live slabs, and the bytes handed out are at most the total memory. |
| AllocatorSafety.RunIsAligned | include/gtirb/Allocator.hpp:157-195 | After any run, every region has the size and the alignment that were asked for. |
| DestructorWalk.SpecificBumpPtrAllocator.constructor | include/gtirb/Allocator.hpp:303-307 | Starts with an allocator without memory. |
| DestructorWalk.SpecificBumpPtrAllocator.Allocate | include/gtirb/Allocator.hpp:318 | Allocates one object of the type. |
| DestructorWalk.SpecificBumpPtrAllocator.DestroyElements | include/gtirb/Allocator.hpp:334-338 | Visits every element position from the begin on that lies wholly before the end. |
| DestructorWalk.SpecificBumpPtrAllocator.DestroyAll | include/gtirb/Allocator.hpp:333-356 | Walks each slab, the current one to the bump pointer, and each custom slab. |
| DestructorWalk.WalkIgnoresRemainder | include/gtirb/Allocator.hpp:334-338 | Bytes at the end of a slab too few for an object are not visited. |
| DestructorWalk.LayoutsThereAre | include/gtirb/Allocator.hpp:295-300 | Every positive multiple of every alignment is a size that is covered. |
| DestructorWalk.StepIsAccounted | include/gtirb/Allocator.hpp:157-195 | One more allocation adds exactly its address to what the walk will visit. |
| DestructorWalk.FirstAllocationIsAdmissible | include/gtirb/Allocator.hpp:175-194 | For every configuration and layout there is an answer of malloc that serves the first request. |
| DestructorWalk.DestroysWhatWasAllocated | include/gtirb/Allocator.hpp:329-356 | After any run, of any length and with any malloc answers, the addresses returned are all different and the walk visits exactly those, each once and in order. |
| Heap.PushHeap | include/gtirb/Utility.hpp:135 | Contract of std::push_heap: a heap with the same elements. |
| Heap.PopHeap | include/gtirb/Utility.hpp:130 | Contract of std::pop_heap: a greatest element moves to the end and the others form a heap. |
| Heap.MakeHeap | include/gtirb/Utility.hpp:100 | Contract of std::make_heap: a heap with the same elements. |
| Heap.FrontIsLeast | include/gtirb/Utility.hpp:159-161 | In a heap of ranges no range starts before the front one. |
| MergeSorted.RangesAreOrdered | include/gtirb/Utility.hpp:148-157 | The comparison of ranges by first element is a strict weak order on non-empty ranges if the one of elements is. |
| MergeSorted.MergeSortedIterator.constructor | include/gtirb/Utility.hpp:92-101 | Keeps the non-empty ranges, each once, as a heap. |
| MergeSorted.MergeSortedIterator.Increment | include/gtirb/Utility.hpp:125-137 | The front range moves on or is dropped when it is used up; the others stay, no range is empty, and the heap order holds again. |
| MergeSorted.EmitKeepsPending | include/gtirb/Utility.hpp:114-137 | Emitting one element loses and repeats nothing. |
| MergeSorted.EmitKeepsLater | include/gtirb/Utility.hpp:114-137 | With sorted ranges, nothing still held is less than anything emitted. |
| MergeSorted.Iterate | include/gtirb/Utility.hpp:92-137 | The whole iteration ends; its output interleaves all ranges, keeping the order of each, and is sorted if each range is. |
| Listings.InOrder | include/gtirb/ByteInterval.hpp:214-222 | Contract of an ordered index: every element once, in order. |
| Listings.MergedLists | include/gtirb/Utility.hpp:92-137 | Merging ranges that list disjoint parts of a set lists the set, each element once. |
| ByteVector.FlipKeepsNumber | include/gtirb/ByteInterval.hpp:1597-1606 | Changing the byte order keeps the number that the bytes stand for, and doing so twice restores the bytes. |
| ByteVector.FirstByteIs | include/gtirb/ByteInterval.hpp:1597-1606 | The first byte of an element is the lowest in little-endian order and the highest in big-endian order. |
| ByteVector.ByteInterval.constructor | src/ByteInterval.cpp:56-60 | Takes both sizes as given: the stored bytes fit into the size just if the initialized size does not exceed it. |
| ByteVector.ByteInterval.SetSize | src/ByteInterval.cpp:221-233 | The memory is cut, or grows by zeros, to the new size; the stored prefix never exceeds it. |
| ByteVector.ByteInterval.SetInitializedSize | include/gtirb/ByteInterval.hpp:1584-1589 | Cuts the stored prefix or pads it with zeros, and raises the size if it must. |
| ByteVector.ByteInterval.Read | include/gtirb/ByteInterval.hpp:1629-1661 | Reading any width in any byte order reads the zero-extended memory, wherever the stored prefix ends. |
| ByteVector.ByteInterval.Write | include/gtirb/ByteInterval.hpp:1669-1680 | Writing replaces exactly those bytes of the memory. |
| ByteVector.ByteInterval.InsertByteVec | include/gtirb/ByteInterval.hpp:1941-1962 | Inserting elements is an exact splice of the memory. |
| ByteVector.ByteInterval.CopyElements | include/gtirb/ByteInterval.hpp:1958-1960 | One write per element fills the gap and nothing else. |
| ByteVector.ByteInterval.EraseBytes | include/gtirb/ByteInterval.hpp:2152-2172 | Erasing removes exactly that slice of the memory. |
| ByteVector.EraseAfterInsert | include/gtirb/ByteInterval.hpp:1941-2172 | Erasing what was just inserted restores size and memory. |
| SimplePaths.FoundIsSound | doc/examples/cfg-paths.cpp:32-59 | Every path found is a path to the target that repeats no vertex and avoids the visited ones. |
| SimplePaths.FoundIsComplete | doc/examples/cfg-paths.cpp:32-59 | Every such path is found. |
| SimplePaths.FoundIsDistinct | doc/examples/cfg-paths.cpp:32-59 | No path is found twice; parallel edges make different paths. |
| SimplePaths.FoundIsEverySimplePathOnce | doc/examples/cfg-paths.cpp:32-59 | The paths found are exactly the simple paths to the target, each once. |
| SimplePaths.PrintPathsVisitor.constructor | doc/examples/cfg-paths.cpp:29-30 | Nothing is visited and the path is empty. |
| SimplePaths.PrintPathsVisitor.Visit | doc/examples/cfg-paths.cpp:32-59 | Prints, behind the path so far, the vertices of exactly the paths found, ends, and restores path and visited set. |
| SimplePaths.PrintPaths | doc/examples/cfg-paths.cpp:109 | From nothing visited, the lines printed are the vertices of the simple paths from source to target, one line for each path and no path twice. |
| LazyTree.LazyIntervalTree.constructor | python/gtirb/lazyintervaltree.py:67-79 | No index yet and no events. |
| LazyTree.LazyIntervalTree.Add | python/gtirb/lazyintervaltree.py:81-85 | Logs the interval of the value, if it has one, and costs no update of the tree. |
| LazyTree.LazyIntervalTree.Discard | python/gtirb/lazyintervaltree.py:87-94 | Logs that the interval the value has at present goes, at no update either. |
| LazyTree.LazyIntervalTree.Build | python/gtirb/lazyintervaltree.py:99-107 | A new tree holds the intervals of all values, and took exactly one update for each. |
| LazyTree.LazyIntervalTree.Get | python/gtirb/lazyintervaltree.py:96-118 | The tree is that of the present values; the call costs one update per interval if it rebuilds and one per pending event if it replays, and all updates so far are at most the size at the first call plus the number of events logged. |
| LazyTree.Owner.Update | python/gtirb/byteinterval.py:79-90 | New blocks are taken out of the intervals they were in, whose trees stay current, and are logged here, one event for each with an interval, before they enter the set. |
| LazyTree.Owner.Discard | python/gtirb/byteinterval.py:92-99 | Logging before a block leaves the set keeps the log right, at no more than one event. |
| LazyTree.Owner.SetExtent | python/gtirb/util.py:310-330 | Discarding before and adding after an attribute changes keeps the log right, at no more than two events; trees without the block stay current. |
| LazyTree.LogDiscarded | python/gtirb/lazyintervaltree.py:87-94 | Replaying a logged discard removes the interval of that value and of no other. |
| LazyTreeRuns.Run | python/gtirb/lazyintervaltree.py:1-14 | Over any sequence of insertions, removals, changes and calls of get, each answer holds the intervals of the values then present; all updates of the tree together are at most the number of values when it was first asked for plus the number of events logged, and at most twice what was called for. |
| LazyTreeRuns.CostIsLinear | python/gtirb/lazyintervaltree.py:96-118 | Events, and values at the first call, are at most the values inserted plus one for each removal and two for each change. |
| ControlFlow.ControlFlowGraph.AddVertex | src/CFG.cpp:87-97 | Adds a vertex just if the node has none, and keeps table and labelling inverse. |
| ControlFlow.ControlFlowGraph.RemoveVertex | src/CFG.cpp:99-108 | Removes the vertex and exactly the edges that touch it. |
| ControlFlow.RedrawnTwice | src/CFG.cpp:99-108 | Two rounds of removing and adding nodes amount to one with the nodes of both: an edge is still there, in its place, just if neither end has left in either. |
| ControlFlow.ControlFlowGraph.AddEdge | src/CFG.cpp:119-130 | Adds an edge just if both nodes are in the graph. |
| ControlFlow.ControlFlowGraph.SetLabel | src/CFG.cpp:248-255 | Sets the label of one edge and changes no end of any. |
| ControlFlow.ControlFlowGraph.RemoveEdge | src/CFG.cpp:132-143 | Removes all edges between two nodes; true whenever both are in the graph. |
| ControlFlow.RemovalTellsOfChange | include/gtirb/CFG.hpp:248-259 | The result of the unlabelled removal tells, as documented, whether the graph was modified just if a node is missing or there is an edge between the two. |
| ControlFlow.RemovalOfNothingIsReported | src/CFG.cpp:132-143 | Two nodes without an edge: the result is true and the graph is what it was. |
| ControlFlow.KeptChanges | src/CFG.cpp:132-143 | Edges are lost just if one of them is to be removed. |
| ControlFlow.ControlFlowGraph.RemoveEdgeLabelled | src/CFG.cpp:145-170 | The restarting loop ends and removes every edge out of the source with that label, whatever its target; true just if the graph changed. |
| ControlFlow.LabelledRemovalAsDocumented | include/gtirb/CFG.hpp:261-274 | That is the documented effect just if all edges out of the source with that label go to the target. |
| ControlFlow.LabelledRemovalGoesTooFar | src/CFG.cpp:155-164 | A graph with one edge, to another node than the target: the labelled removal takes it out, the documented one would not. |
| IntervalMaps.RightOpen | src/ByteInterval.cpp:413-428 | The range of a block: its offset up to offset plus size, empty if that sum reaches 2 to the 64. |
| IntervalMaps.AddFollows | src/ByteInterval.cpp:423-428 | Adding a range to an interval map adds the member at exactly the keys of the range. |
| IntervalMaps.SubtractFollows | src/ByteInterval.cpp:417-422 | Subtracting it takes the member out everywhere, and leaves no empty entry. |
| IntervalMaps.FollowsIsUnique | include/gtirb/ByteInterval.hpp:223-225 | Members and their ranges determine the interval map. |
| Levels.AttachedFits | src/Module.cpp:256-304 | Attaching a child keeps parent pointers, collections and address index in step, at each of the three levels. |
| Levels.DetachedFits | src/Module.cpp:256-304 | So does detaching it. |
| Levels.RespannedFits | src/Module.cpp:447-456 | So does a change of its range, attached or not. |
| Levels.DetachUndoesAttach | src/Section.cpp:121-175 | Detaching what was just attached restores everything, the index included. |
| Extents.UpperEnd | src/Section.cpp:195-211 | The end computed from the last interval in address order and the last segment of the address map is the greatest end of all, empty intervals included. |
| Extents.ExtentOf | src/Section.cpp:195-211 | No extent just if there is no interval or one without address; else from the lowest start to the greatest end. |
| Hierarchy.LeaveAgrees | src/IR.cpp:64-104 | Taking out the vertices of the nodes that leave an IR keeps vertices and nodes the same. |
| Hierarchy.JoinAgrees | src/IR.cpp:50-90 | So does putting in those of the nodes that join it. |
| Steps.LeaveThenJoin | src/ByteInterval.cpp:317-354 | Leaving one IR and joining another, or the same, loses exactly the edges that touch what left. |
| Steps.BlockIsPut | src/ByteInterval.cpp:317-386 | Removal from where the block was and insertion where it goes make up one step. |
| Steps.IntervalIsPut | src/Section.cpp:148-175 | The same for intervals, with extents brought up to date twice. |
| Steps.SectionIsPut | src/Module.cpp:280-304 | The same for sections. |
| Steps.ProxyIsPut | src/Module.cpp:215-236 | The same for proxies. |
| Steps.ModuleIsPut | include/gtirb/IR.hpp:207-217 | The same for modules, also if they stay in their IR. |
| Steps.OtherEdges | src/CFG.cpp:119-170 | A change of edges alone, in one CFG, keeps every invariant. |
| Tables.BlockGoesOut | src/ByteInterval.cpp:247-273 | Detaching a block, in step at every level and in the CFG. |
| Tables.BlockComesIn | src/ByteInterval.cpp:317-386 | Attaching a block. |
| Tables.IntervalGoesOut | src/Section.cpp:121-146 | Detaching an interval takes all its code blocks out of the CFG and leaves only the extent of its section to be updated. |
| Tables.IntervalComesIn | src/Section.cpp:148-175 | Attaching an interval. |
| Tables.IntervalMoves | src/Section.cpp:324-334 | A change of address or size leaves only the extent of the section to be updated. |
| Tables.SectionSpans | src/Section.cpp:213-226 | The right extent brings the section, and the address index of its module, up to date. |
| Tables.SectionGoesOut | src/Module.cpp:256-278 | Detaching a section takes out the code blocks of all its intervals. |
| Tables.SectionComesIn | src/Module.cpp:280-304 | Attaching a section. |
| Tables.ModuleGoesOut | include/gtirb/IR.hpp:192-202 | Detaching a module takes out its proxies and all code blocks below it. |
| Tables.ModuleComesIn | include/gtirb/IR.hpp:207-217 | Attaching a module. |
| Containment.RemoveVertices | src/IR.cpp:64-104 | The observer loops of an IR take out the vertices of all nodes that leave, with exactly the edges that touch them; other nodes keep their vertices and other edges their order. |
| Containment.AddVertices | src/IR.cpp:50-90 | The observer loops put in vertices for all nodes that join and keep all edges. |
| Containment.Forest.CodeLeavesInterval | src/Section.cpp:260-274 | The news runs up to the IR, if the chain of parents reaches one; its CFG loses the nodes and exactly the edges that touch them, and every other CFG is what it was, edges included. |
| Containment.Forest.CodeJoinsInterval | src/Section.cpp:228-242 | The same for blocks that join; no CFG loses an edge. |
| Containment.Forest.RemoveBlock | src/ByteInterval.cpp:247-273 | Keeps all invariants; no change just if the block is not there. The CFG of its IR, if it has one, loses exactly the edges that touch the block, and other CFGs are unchanged. |
| Containment.Forest.AddBlock | src/ByteInterval.cpp:317-386 | Keeps all invariants; from wherever the block comes: nothing, another interval, whose CFG then loses the block with its edges, or another offset in this one, where no CFG changes. |
| Containment.Forest.SetBlockSize | src/ByteInterval.cpp:437-442 | The size is the new one, the index follows, and nothing else changes. |
| Containment.Forest.RemoveByteInterval | src/Section.cpp:121-146 | Keeps all invariants; extent included. The CFG loses the code blocks of the interval and exactly the edges that touch them. |
| Containment.Forest.AddByteInterval | src/Section.cpp:148-175 | Keeps all invariants; from wherever the interval comes. Edges that touch its code are lost in the CFG it leaves, and no others. |
| Containment.Forest.UpdateExtent | src/Section.cpp:195-226 | Brings one stale section up to date, and its module with it. |
| Containment.Forest.SetPlace | src/ByteInterval.cpp:204-233 | A new address or size reaches the address maps of section and module and the extent. |
| Containment.Forest.RemoveSection | src/Module.cpp:256-278 | Keeps all invariants; the CFG loses the code blocks below the section and exactly the edges that touch them. |
| Containment.Forest.AddSection | src/Module.cpp:280-304 | Keeps all invariants; from wherever the section comes. Edges that touch its code are lost in the CFG it leaves, and no others. |
| Containment.Forest.RemoveProxyBlock | src/Module.cpp:195-213 | Keeps all invariants; the CFG loses the proxy and exactly the edges that touch it. |
| Containment.Forest.AddProxyBlock | src/Module.cpp:215-236 | Keeps all invariants; from wherever the proxy comes. Edges that touch it are lost in the CFG it leaves, and no others. |
| Containment.Forest.RemoveModule | include/gtirb/IR.hpp:192-202 | Keeps all invariants; the CFG loses the proxies and code blocks below the module and exactly the edges that touch them. |
| Containment.Forest.AddModule | include/gtirb/IR.hpp:207-217 | Keeps all invariants; takes the module out first even if it is in this IR already, so that edges that touch its nodes are lost also then. |
| Containment.Forest.AddEdge | src/CFG.cpp:119-130 | Changes the edges of one CFG and nothing else of the tree; all invariants hold. |
| Containment.Forest.LabelEdge | src/CFG.cpp:248-255 | The same for the label of one edge. |
| Containment.Forest.RemoveEdges | src/CFG.cpp:132-143 | The same for the unlabelled removal. |
| Containment.Forest.RemoveEdgesLabelled | src/CFG.cpp:145-170 | The same for the labelled removal. |
| Containment.Forest.Perform | src/IR.cpp:34-108 | Each of the 21 operations takes the whole state, CFGs with their edges included, to what its step says, if the nodes it is about are there, and otherwise nothing happens. |
| Containment.Run | src/IR.cpp:34-108 | Any sequence of operations makes a run: from nothing, through one step for each operation that applies, to the state of the forest returned. In every state on the way every invariant holds: mirrored parents and children, exact indexes at three levels, right extents, and CFGs whose vertices are the code and proxy blocks below their IR. Parents, offsets, sizes, places and edges of the forest are what the flat view computes from the operations alone. |
| FlatSteps.StepIsFlat | src/IR.cpp:34-108 | Each of the 21 operations does to parents, offsets, sizes, places and edges between nodes what a change of a map or two does in the flat view, where nodes that leave a CFG take their edges along and nothing else changes. |
| FlatSteps.RunIsFlat | src/IR.cpp:34-108 | So any run of the tree comes to the run of the flat view. |
| FlatSteps.AllowsIsApplies | src/IR.cpp:34-108 | The flat view tells which operations apply. |
| Flat.LeavingUnlinks | src/IR.cpp:64-104 | Only the CFG that nodes leave has edges that touch them, so dropping these edges everywhere is the same. |
| FlatTheorems.FactsDecide | src/Module.cpp:256-321 | Two states with the invariants and the same facts have the same collections of children, extents, address indexes at three levels, and nodes in each CFG. |
| FlatTheorems.ResizedBlockIsFound | src/ByteInterval.cpp:437-442 | After a resize the block has the new size and is found at exactly the offsets that its old offset and its new size give; offsets, parents and places are what they were. |
| ContainmentTheorems.CfgHoldsWhatIsBelow | src/IR.cpp:34-108 | In every state with the invariants the vertices of a CFG are exactly the code and proxy blocks below its IR, the table is the inverse of the labelling, and edges run between such nodes. |
| ContainmentTheorems.EdgesStayWithTheirEnds | src/IR.cpp:34-108 | When nodes leave one IR and join another, an edge goes just if one of its ends leaves the CFG it is in; the others keep their two ends. |
| ContainmentTheorems.MovedBlockHasNoEdges | src/ByteInterval.cpp:317-354 | A code block moved to another interval has no edges any more, even if both intervals are below one IR. |
| ContainmentTheorems.OffsetsFindBlocks | src/ByteInterval.cpp:413-428 | Every offset maps to exactly the blocks of the interval whose range has it. |
| ContainmentTheorems.AddressesFindIntervals | src/Section.cpp:177-193 | Every address maps to exactly the intervals of the section whose range has it. |
| ContainmentTheorems.AddressesFindSections | src/Module.cpp:306-321 | Every address maps to exactly the sections of the module whose extent has it. |
| ContainmentTheorems.BlockIsFoundUnlessItWraps | src/ByteInterval.cpp:413-428 | A block is found at every offset it occupies just if it is empty or ends below 2 to the 64, and is found nowhere otherwise. |
| ContainmentTheorems.IntervalIsFoundUnlessItWraps | src/Section.cpp:177-193 | An interval with an address is found at every address it occupies just if it is empty or ends below 2 to the 64, and is found nowhere otherwise. |
| ContainmentTheorems.SectionIsFoundInItsExtent | src/Module.cpp:306-321 | The extent of a section ends below 2 to the 64, and the section is found at exactly the addresses in it. |
| ContainmentTheorems.ExtentCoversIntervals | src/Section.cpp:195-211 | When a section has an extent, and that it runs from the lowest address to the highest end just if no interval reaches 2 to the 64. |
| ContainmentTheorems.PutMovesOneBlock | src/ByteInterval.cpp:317-386 | Moving a block changes its parent and its offset and nothing of any other node. |
| ContainmentTheorems.RemoveUndoesAdd | src/ByteInterval.cpp:247-386 | Removing a block that was just added restores all tables and indexes but for the range noted for the block, which no index has any more. |
| Queries.KeysOrder | src/Utility.cpp:7-68 | The orders of blocks by address and by offset are strict weak orders, as merging needs. |
| Queries.SortedAscends | src/Utility.cpp:7-58 | Sorted blocks ascend by address; at one address by size, code before data, then by decode mode, then by UUID. |
| Queries.PrecedesDecides | src/Utility.cpp:7-58 | No two blocks may stand either way round, so that there is one order. |
| Queries.AddressIs | src/CodeBlock.cpp:48-56 | A block has an address just if it is in an interval with one, and then it is that of the interval plus the offset, modulo 2 to the 64. |
| Queries.OffsetOrderIsAddressOrder | include/gtirb/Utility.hpp:163-166 | In one interval the offset order is the address order, as long as addresses do not wrap around. |
| Queries.IntervalBlocksAt | include/gtirb/ByteInterval.hpp:488-524 | A byte interval yields exactly its blocks that start in the address range, in order, also for reversed ranges. |
| Queries.SectionBlocksAt | include/gtirb/Section.hpp:497-504 | A section yields, merged in order, the starts in the range of the intervals it asks. |
| Queries.ModuleBlocksAt | include/gtirb/Module.hpp:1193-1200 | A module yields, in ascending address order and each once, the starts in the range of the sections it asks. For a reversed range this needs that no section starts in the gap, as does the iterator range of the source. |
| Queries.IntervalBlocksOn | include/gtirb/ByteInterval.hpp:421-453 | A byte interval yields exactly the blocks its offset index has at the offset. |
| Queries.SectionBlocksOn | include/gtirb/Section.hpp:444-453 | A section yields, merged in order, those of the intervals on the address. |
| Queries.ModuleBlocksOn | include/gtirb/Module.hpp:1141-1150 | A module yields, in ascending address order and each once, those of the sections on the address. |
| QueryTheorems.PartsShareNothing | include/gtirb/Module.hpp:1195-1198 | The part on the low address and the part after it are disjoint, at both levels. |
| QueryTheorems.PartsMeetTheRange | include/gtirb/Module.hpp:1195-1198 | Together they have exactly the intervals, and sections, that meet the range. |
| QueryTheorems.RangeQueriesFindAll | include/gtirb/Module.hpp:1193-1200 | All range queries of a module find what a flat scan of its blocks finds if and only if every block starts before its interval ends, no such interval wraps around, and their sections have extents. |
| QueryTheorems.RangeQuery | include/gtirb/Module.hpp:1193-1200 | What a module lists for a range ascends by address and is in the flat scan; if all its blocks start inside, it lists the flat scan, each block once. |
| QueryTheorems.PointQueriesFindAll | include/gtirb/Module.hpp:1141-1150 | All point queries find what a flat scan finds if and only if every block that is not empty ends inside its interval, no such interval wraps around, and their sections have extents. |
| QueryTheorems.PointQuery | include/gtirb/Module.hpp:1141-1150 | What a module lists for an address ascends by address and is in the flat scan; if all its blocks end inside, it lists the flat scan, each block once. |
| SymbolIndex.EraseReferring | src/Module.cpp:376-382 | Takes exactly the symbols that refer to the block out, in place. |
| SymbolIndex.InsertAll | src/Module.cpp:383 | Wherever a search for the upper bound leads, it loses nothing, and leaves the order right just if it was right before. |
| SymbolIndex.NoSymbolIsLost | src/Module.cpp:375-383 | Symbols erased and symbols kept are together the symbols there were. |
| SymbolIndex.AddressOfSymbolIs | src/Symbol.cpp:38-70 | A symbol has its own address, or that of the block it refers to, plus the size of the block if it stands at the end, modulo 2 to the 64; symbols of proxies, of blocks without address and of nothing have none. |
| SymbolIndex.InAddressOrderIs | include/gtirb/Module.hpp:141-145 | The order of the index is ascending, with absent addresses first. |
| SymbolIndex.SymbolTable.MoveBlocks | src/Module.cpp:362-386 | However corrupt the order was, it has the same symbols, and afterwards those without an address come first and the others ascend by address just if that was so among the symbols that refer to none of the blocks; the status says whether any symbol referred to them. |

## Left out

- Tables.Tables: nodes are identified by numbers and their fields kept in maps, where the source has objects that hold
  pointers; every operation of the source that changes such a field is a step here, but sharing of C++ objects between
  contexts is not modelled.
- Containment.Forest.SetBlockSize: the codomains of `BlockOffsets` are sets of blocks. The source orders them by a key
  that contains the size, which has already changed when the old entry is subtracted (`src/ByteInterval.cpp:437-440`);
  agreement of such an ordered multiset is not claimed.
- Containment.Forest.SetPlace: the stored bytes that a smaller size cuts off are in `ByteVector`, and the symbols to
  reorder in `SymbolIndex`; there is no state that has all three.
- Containment.Forest.AddModule: the names of modules and sections, and the indexes by name, are left out, as are UUIDs
  but for their place in the order of blocks.
- Queries.IntervalBlocksOn: lists the blocks at an offset in the order of their present keys, for the same reason.
- Queries.ModuleBlocksAt: requires that no section starts from `High` on and before `Low + 1`; `findSectionsAt` has no
  guard and would form a reversed iterator range (`include/gtirb/Module.hpp:840-845`), which has no defined meaning.
- SymbolIndex.SymbolTable.MoveBlocks: one step of repair; that symbols are always sorted by address is not claimed,
  because `setAtEnd` does not notify (`include/gtirb/Symbol.hpp:336`), `removeBlock` notifies before it detaches, and
  `setAddress` repairs code symbols while data symbols are still out of place.
- AuxDataRoundTrip.RoundTrip: sets and mappings are compared as lists in visiting order, with equality of values; hash
  collisions and custom comparators are left out.
- AuxDataStreams.ScalarFromBytes: the conditional byte reversal of big-endian hosts is folded into little-endian images;
  UUIDs, floating-point numbers and booleans are their raw bytes.
- AuxDataStreams.FromBytes: decodes into a fresh object; what a failed decoding leaves in the object is left out.
- Allocator.BumpPtrAllocator.Allocate: failure of `malloc` is left out, as are moves and deallocation of whole allocators.
- ByteVector.ByteInterval.Write: alignment and strict aliasing of the reinterpreted bytes are left out.
- ControlFlow.ControlFlowGraph.RemoveEdgeLabelled: edges are scanned in one list instead of the list of each vertex; the
  order in which equal edges go is not observable.
- LazyTree.Owner.Update: the caches of nodes by UUID, which it also updates, are left out.
- LazyTree.LazyIntervalTree.Get: the balanced tree inside the interval tree is a set of intervals; an update costs one.
- Single-address queries (`findBlocksAt(A)`), queries for code or data blocks only, and queries for intervals: the same
  pattern with fewer cases.
- Protobuf and JSON, file headers, `save` and `load`, printing, casting and visitor templates, UUID generation: plumbing.
- `doc/examples/cfgpaths.java`: its unreachability cache ignores the visited set, so it can miss paths.
