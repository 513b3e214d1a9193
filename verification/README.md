# A verified model of the PDI data interface

PDI decouples simulation codes from libraries. A code shares values with the library, plugins reference
them, and a specification tree says what they are. This project models the parts of it with the most state
and arithmetic, and proves what they promise:

* **Layouts and copies** (`Alignment`, `Datatypes`, `Leaves`, `DensifyAlgebra`, `DenseCopy*`, `DatatypeLoops`,
  `StructLayout`, `AccessLeaves`, `TypeAccess`, `Serialize*`, `Numpy*`): datatypes as trees of scalars, windowed arrays,
  records, tuples and pointers; the layout of structures; the densified and the serialized form of a type; the copies
  between a value and its dense or serialized image, byte by byte; the numpy view of an array. A leaf is a byte of a
  scalar or pointer, named by the path that leads to it; where each copy puts a leaf is a function of the type.
* **References** (`References`, `ReferenceInvariant`, `ReferenceRuns`, `ReferenceMeaning`, `ReferenceStore`):
  reader/writer locks counted per buffer, shared ownership, release that makes references null, over every sequence of
  operations; and the same operations without counters, by who refers to what.
* **Descriptors and transactions** (`Descriptor`, `DescriptorOps`, `DescriptorStack`, `DescriptorRuns`,
  `DescriptorMemory`, `DescriptorEffects`, `DescriptorRights`, `DescriptorContext`, `DescriptorTrace`,
  `DescriptorObject`, `ExposeCalls`, `Transactions`): the stack of shares behind one name with failing callbacks,
  together with any operations on other references; who may read and write; the metadata placeholder and what the
  memory behind it holds; all descriptors of a context; multi-expose and transactions.
* **Expressions** (`Expressions`, `ExpressionGrammar`, `ExpressionNumerals`, `ExpressionLanguage`,
  `ExpressionPrecedence`, `ExpressionPrinting`, `ExpressionCode`, `FloatReader`, `FloatGrammar`): the cursor-moving
  parser of value expressions, the language it accepts, its documented grammar, the numerals it reads, and the reader of
  floating-point literals that it calls.
* **Loaders** (`Digraph`, `Includes`, `Plugins`, `PluginHandles`, `PluginLives`, `PathList`): included files, plugin
  dependencies, the order of destruction, and the escaped list of plugin paths.
* **The example simulation** (`HaloExchange`, `HaloStencil`, `AsyncHalo`, `ReductionSchedule`): the stencil with its
  halo exchange against one global grid, synchronously and under every interleaving of messages, with and without
  buffering, and the reduction schedule.

Where the source changes things in place, methods and classes do the same and are proved against functions
on values; the theorems are about those functions. Values come from outside as parameters: the answers of
callbacks, the clocks of the ranks, the status of each call, the words stored at an address, the floating-point
reader of the C library. A fresh object takes a number that no object has yet.

Nine properties one might expect do not hold of the code. Each has a counterexample and the exact condition:

* `dense()` does not make `densify()` the identity: a pointer is dense whatever it points to
  (`DensifyAlgebra.DensePointerStillChanges`, `DensifyAlgebra.DensifyIdentityIff`).
* The copy into dense memory does not leave every leaf where the densified type has it, nor does the copy back look for
  it there: a `memcpy` of elements copies `datasize()` bytes, and what follows a member is found by how much was copied
  or by `datasize()` (`DenseCopyExamples.PaddedArrayIsNotPlaced`, `DenseCopyExamples.TrailedIsMisplaced`,
  `DenseCopyExact.PlacesIff`, `DenseCopyExact.FetchesIff`).
* Copying into dense memory and back does not restore every leaf, even when all were placed
  (`DenseCopyExamples.LooseDoesNotReturn`, `DenseCopyExact.RoundTripIff`).
* The address that `do_copy` keeps for deallocation (pdi/src/ref_any.cxx, line 53) is the aligned one, not the one that
  was allocated; with an allocator that aligns to 16 they are always the same exactly for the types aligned to 16 or
  less (`DenseCopyExamples.MisalignedHandle`, `DenseCopyExamples.HandleKeptIff`, `DenseCopyCode.DoCopy`).
* Serialized arrays are not laid out as the serialized type says, and lose data, when their elements are padded or hold
  arrays that only serializing aligns (`SerializeExamples.PaddedElementsOverlap`, `SerializeExamples.NestedWordMoves`,
  `SerializeExamples.WordFirstReturns`, `SerializePlaced.PlacesIff`, `SerializePlaced.ArrayPlacesIff`,
  `SerializeExact.RoundTripIff`; as checks on the type alone `SerializeLayout.InLayoutIff`,
  `SerializeLossless.LosslessIff`).
* The processes do not always compute the sequential grid: not with two or more columns of processes and no column of
  cells of their own, and not when MPI, which is allowed to, gives them ranks of the grid that put others in its first
  column than their ranks in the world do (`HaloExchange.ColdSecondColumn`, `HaloExchange.SwappedRanks`,
  `HaloExchange.ParallelIsSequentialIff`).
* An integer with a dot anywhere behind it is read as a floating-point number
  (`ExpressionPrinting.IntegerBeforeDot`, `ExpressionPrinting.RoundTripIff`).
* A transaction does not stop at the first share that fails, and one named "" is no transaction
  (`ExposeCalls.FirstShareFails`, `ExposeCalls.NamelessTransaction`, `ExposeCalls.SameIff`).
* Plugins do not all end with their store: a plugin whose load fails has already taken handles, up to the first
  dependency that is missing or broken. All end exactly when no plugin is led back to itself by going, again and again,
  to that dependency (`PluginLives.CircularPairIsStuck`, `PluginLives.AllEndIff`, `PluginLives.Live`).

A numpy array with a zero stride in any dimension but the outermost makes the code divide by zero
(`NumpyStrides.BroadcastFails`, `NumpyStrides.PythonType`).

A comment declares that the write locks of a buffer stay between 0 and 2 (pdi/include/pdi/ref_any.h, line 95). The code
does not keep that: any number of readers lock a buffer for writing, see `ReferenceRuns.WriteLocksUnbounded`.
The read locks do stay between 0 and 2.

## Model

| member | source | states |
|---|---|---|
| `Alignment.PaddingIsIdiom` | pdi/src/datatype_template.cxx:241-241 | The padding of all layouts is the expression that the layout loops compute |
| `Alignment.AlignUpLeast` | pdi/src/datatype_template.cxx:241-241 | The padding expression of all layouts gives the least aligned offset that is not before the given one |
| `Alignment.Pow2Divides` | pdi/src/scalar_datatype.cxx:59-62 | Of two powers of two the smaller divides the larger, which is what makes nested alignments compose |
| `DensifyAlgebra.DensifyKeepsAlignmentAndData` | pdi/src/record_datatype.cxx:105-124 | For every type, densifying keeps the alignment and the size of the data |
| `DensifyAlgebra.DensifyIdempotent` | pdi/src/record_datatype.cxx:105-124 | For every type, densifying twice is densifying once |
| `DensifyAlgebra.DensifyIsDense` | pdi/src/record_datatype.cxx:131-150 | For every type, the densified type is dense |
| `DensifyAlgebra.DensifyShrinks` | pdi/src/tuple_datatype.cxx:104-123 | For every well-formed type, the densified type needs no larger buffer |
| `DensifyAlgebra.BuffersizeAligned` | pdi/src/array_datatype.cxx:114-122 | The buffer size of a well-formed type is a multiple of its alignment, so that array elements stay aligned |
| `DensifyAlgebra.DensePointerStillChanges` | pdi/src/pointer_datatype.cxx:72-85 | A dense pointer to a windowed array that densifying changes |
| `DensifyAlgebra.DensifyIdentityIff` | pdi/src/array_datatype.cxx:93-107 | Densifying returns an equal type exactly when the type, and everything behind its pointers, is dense |
| `DensifyAlgebra.SerializedIsPointerFree` | plugins/serialize/serialize.cxx:67-138 | A serialized type holds no pointer at any depth |
| `DensifyAlgebra.SerializeIsDensifyIff` | plugins/serialize/serialize.cxx:67-138 | Serializing and densifying a well-formed type agree exactly when it is pointer-free and all its records and tuples hold data |
| `DatatypeLoops.RecordDatasize` | pdi/src/record_datatype.cxx:152-159 | The loop computes the sum of the data sizes of the members, at every depth |
| `DatatypeLoops.RecordAlignment` | pdi/src/record_datatype.cxx:166-173 | The loop computes the alignment of the record |
| `DatatypeLoops.RecordDense` | pdi/src/record_datatype.cxx:131-150 | The loop with its running displacement decides whether the record is dense |
| `DatatypeLoops.RecordDensify` | pdi/src/record_datatype.cxx:105-124 | The loop with its running displacement computes the densified record |
| `DatatypeLoops.RecordSerialize` | plugins/serialize/serialize.cxx:73-102 | The loop with its separate offset and size computes the serialized record |
| `StructLayout.EvaluateStruct` | pdi/src/datatype_template.cxx:232-252 | The loop computes the packed layout of the members, at least one byte large |
| `StructLayout.PackFits` | pdi/src/datatype_template.cxx:346-365 | The members of a packed layout are disjoint, aligned, in order and in bounds |
| `StructLayout.StructIsMinimal` | pdi/src/datatype_template.cxx:232-252 | Among all well-formed layouts of the same members in the same order, each member comes no later and the whole is no larger |
| `StructLayout.StructIsOnlyMinimal` | pdi/src/datatype_template.cxx:232-252 | The computed layout is one of those, and another comes nowhere later exactly when it places every member at the same offset |
| `StructLayout.StructWellFormedIff` | pdi/src/datatype_template.cxx:246-251 | The computed structure is well-formed exactly when some member has a size or no member needs alignment |
| `StructLayout.AccessInBounds` | pdi/src/array_datatype.cxx:194-202 | An element or member reached without a pointer is well-formed, aligned and inside the value it is taken from |
| `StructLayout.AccessPathAligned` | pdi/src/record_datatype.cxx:236-244 | From an aligned base, everything reached by any chain of indices, members and dereferences is aligned to its own alignment |
| `AccessLeaves.ReachedAligned` | pdi/src/pointer_datatype.cxx:97-100 | From an aligned base, every scalar reached is at a multiple of its own alignment and every pointer at a multiple of 8 |
| `AccessLeaves.AlignmentUpper` | pdi/src/record_datatype.cxx:166-173 | Nothing inside a value asks for more than the alignment of its type |
| `AccessLeaves.AlignmentAttained` | pdi/src/record_datatype.cxx:166-173 | Something inside asks for just that, unless it is 1 |
| `AccessLeaves.FindIndexIs` | pdi/src/tuple_datatype.cxx:235-243 | An index selects the element at that place or none |
| `AccessLeaves.FindMemberIs` | pdi/src/record_datatype.cxx:227-244 | A name selects the first member of that name |
| `AccessLeaves.LeafIsFollowed` | pdi/src/record_datatype.cxx:236-244 | The steps to a leaf, followed from a value, lead to the scalar or pointer that holds it, at the offset of the leaf |
| `TypeAccess.DensifiedPath` | pdi/src/record_datatype.cxx:105-124 | Any steps reach in the densified type the densified form of what they reach in the type, or fail in both |
| `TypeAccess.SerializedPath` | plugins/serialize/serialize.cxx:67-138 | Any steps reach in the serialized type the serialized form of what they reach in the type, through its pointers |
| `DenseCopyBounds.ToDenseBounded` | pdi/src/array_datatype.cxx:129-151 | For every well-formed type, the copy into dense memory succeeds, reads inside the value and writes only inside the densified size; padded nested records included |
| `DenseCopyBounds.FromDenseBounded` | pdi/src/record_datatype.cxx:203-225 | For every well-formed type, the copy out of dense memory succeeds, reads inside the dense value and writes only inside the value |
| `DenseCopyBounds.DenseKeepsBuffersize` | pdi/src/record_datatype.cxx:131-150 | A dense type has the buffer size of its densified type |
| `Leaves.OffsetsDiffer` | pdi/src/record_datatype.cxx:183-201 | Different leaves of a well-formed value have different places |
| `DenseCopyLeaves.ToDenseLeaf` | pdi/src/array_datatype.cxx:129-151 | For every well-formed type and any buffers, the copy into dense memory leaves every leaf it moves at a place that depends on the type alone |
| `DenseCopyBack.FromDenseLeaf` | pdi/src/array_datatype.cxx:153-183 | For every well-formed type and any buffers, the copy out of dense memory takes every leaf it moves from a place that depends on the type alone, and leaves the others as they were |
| `DenseCopyOneByte.Hit` | pdi/src/array_datatype.cxx:129-151 | With a single leaf set and everything else zero, dense memory is zero but at the place of that leaf |
| `DenseCopyLayout.InPlaceIff` | pdi/src/record_datatype.cxx:183-225 | The recursive condition on a type says exactly that every leaf is copied, and at the offset of the densified type |
| `DenseCopyLayout.AgreesIff` | pdi/src/record_datatype.cxx:183-225 | The recursive condition on a type says exactly that both copies move every leaf and use the same place for it |
| `DenseCopyExact.WholeCopyIsImage` | pdi/src/array_datatype.cxx:134-138 | Bytes copied as a whole place every leaf of a dense type where the densified type has it |
| `DenseCopyExact.ImageDeterminesLeaves` | pdi/src/tuple_datatype.cxx:182-224 | Two values with one dense image agree on every selected leaf |
| `DenseCopyExact.ToDenseImage` | pdi/src/array_datatype.cxx:129-151 | Under the condition for writing, every selected leaf is copied to where the densified type has it |
| `DenseCopyExact.PlacesIff` | pdi/src/array_datatype.cxx:129-151 | For every well-formed type, the copy into dense memory does so for all contents exactly under that condition |
| `DenseCopyExact.FromDenseImage` | pdi/src/array_datatype.cxx:153-183 | Under the condition for reading, every leaf of the dense value is copied to where the type has it, and nothing else changes |
| `DenseCopyExact.FetchesIff` | pdi/src/record_datatype.cxx:203-225 | For every well-formed type, the copy out of dense memory does so for all contents exactly under that condition |
| `DenseCopyExact.DenseRoundTrip` | pdi/src/record_datatype.cxx:183-225 | When the copies agree, a value copied to dense memory and back into any buffer has all its selected leaves, and nothing outside it changed |
| `DenseCopyExact.RoundTripIff` | pdi/src/record_datatype.cxx:183-225 | For every well-formed type, the round trip does so for all contents exactly when the copies agree |
| `DenseCopyExamples.MemcpyReachesIff` | pdi/src/array_datatype.cxx:134-138 | The bytes moved as a whole reach the last leaf exactly when there is no data, or none beyond `datasize()` and, with several elements, no padding |
| `DenseCopyExamples.PaddedArrayIsNotPlaced` | pdi/src/array_datatype.cxx:134-138 | Two records of a byte and an aligned word lose a leaf, there and back |
| `DenseCopyExamples.PaddedMemberIsPlaced` | pdi/src/record_datatype.cxx:183-187 | A record around one such record is copied whole: every leaf is placed and comes back |
| `DenseCopyExamples.TrailedIsMisplaced` | pdi/src/record_datatype.cxx:188-200 | A byte behind a record that is not dense is not where the densified type has it, but comes back |
| `DenseCopyExamples.MisalignedHandle` | pdi/src/ref_any.cxx:50-56 | A scalar aligned to 64, copied to memory allocated at 16, has another address kept for deallocation |
| `DenseCopyExamples.HandleKeptIff` | pdi/src/ref_any.cxx:50-56 | Every address aligned to 16 is aligned for a type, so that the allocated address is always the one kept, exactly when the type is aligned to 16 or less |
| `DenseCopyExamples.LooseDoesNotReturn` | pdi/src/record_datatype.cxx:203-225 | A byte behind a dense padded record is where the densified type has it, but does not come back |
| `DenseCopyCode.CopyBytes` | pdi/src/array_datatype.cxx:134-138 | The byte loop writes what the specified copy writes and moves the cursor past it |
| `DenseCopyCode.AlignCursor` | pdi/src/array_datatype.cxx:139-143 | The cursor moves to the first place at or after it whose address is aligned |
| `DenseCopyCode.DataToDenseCopy` | pdi/src/record_datatype.cxx:183-201 | The in-place loops leave the bytes and the cursor of the specified copy, whose bounds and image are proved |
| `DenseCopyCode.DataFromDenseCopy` | pdi/src/array_datatype.cxx:153-183 | The in-place loops leave the bytes and the cursor of the specified copy, whose bounds and image are proved |
| `DenseCopyCode.EachFromDenseCopy` | pdi/src/array_datatype.cxx:166-180 | The element loop pads both cursors before each element and leaves the bytes and the cursor of the specified element copy |
| `DenseCopyCode.MembersFromDenseCopy` | pdi/src/record_datatype.cxx:214-222 | The member loop pads the source cursor only and leaves the bytes and the cursor of the specified member copy |
| `DenseCopyCode.DoCopy` | pdi/src/ref_any.cxx:43-61 | A copy is made exactly when the densified type has a size; it is aligned and inside the allocation, holds every leaf of a type in place for writing, and the address kept for deallocation is the one allocated exactly when that was aligned |
| `SerializeCode.SerializeInto` | plugins/serialize/serialize.cxx:147-208 | The in-place recursion with its loops writes the bytes and returns the count of the specified serialization |
| `SerializeCode.SerializeEach` | plugins/serialize/serialize.cxx:163-170 | The loop over the elements of an array, with its two cursors, writes and counts what the specification does |
| `SerializeCode.SerializeMembers` | plugins/serialize/serialize.cxx:174-186 | The loop over the members of a record writes and counts what the specification does |
| `SerializeCode.DeserializeInto` | plugins/serialize/serialize.cxx:217-267 | The in-place recursion with its loops writes the bytes and returns the count of the specified deserialization |
| `SerializeCode.DeserializeEach` | plugins/serialize/serialize.cxx:222-233 | The loop over the elements of an array, with its two cursors, writes and counts what the specification does |
| `SerializeCode.DeserializeMembers` | plugins/serialize/serialize.cxx:237-247 | The loop over the members of a record writes and counts what the specification does |
| `SerializeLeaves.SerialLeaf` | plugins/serialize/serialize.cxx:67-138 | The leaves of a value, those behind pointers included, are those of the serialized type, at its offsets |
| `SerializeLeaves.PositionBound` | plugins/serialize/serialize.cxx:151-171 | Serializing from an aligned address writes each leaf no later than the serialized type has it, however its arrays are aligned |
| `SerializeWrites.SerializeFills` | plugins/serialize/serialize.cxx:147-208 | For every well-formed type, serializing counts the data and leaves in each byte of the buffer the last leaf written there, or what was there |
| `SerializeWrites.SerializeStaysInside` | plugins/serialize/serialize.cxx:147-208 | For every well-formed type, padded or not, serializing succeeds and writes nothing outside the serialized buffer |
| `SerializeRoundTrip.DeserializeCopyScatters` | plugins/serialize/serialize.cxx:217-267 | Deserializing into memory whose pointers are in place puts every leaf back that is where it reads, and changes nothing else |
| `SerializeRoundTrip.RoundTrip` | plugins/serialize/serialize.cxx:147-267 | For every lossless type, deserializing what was serialized restores every scalar leaf, whatever the memory held in between and wherever pointers share their targets |
| `SerializeExact.RoundTripIff` | plugins/serialize/serialize.cxx:147-267 | For every value whose leaves have addresses of their own, the round trip restores every leaf for all contents exactly when each leaf is read where it is written and no two share a place |
| `SerializeExact.PointerFreeIsPlain` | plugins/serialize/serialize.cxx:147-267 | Values without pointers are all of that kind |
| `SerializePlaced.SerializeCopyGathers` | plugins/serialize/serialize.cxx:147-208 | Under the layout condition, serializing gathers every leaf, those behind pointers included, to its place in the serialized type |
| `SerializePlaced.PlacesIff` | plugins/serialize/serialize.cxx:286-297 | It does so for all contents exactly under that condition |
| `SerializePlaced.ArrayInLayoutIff` | plugins/serialize/serialize.cxx:151-171 | For an array whose elements hold no padded elements, the condition is at most one element or elements without padding |
| `SerializePlaced.ArrayPlacesIff` | plugins/serialize/serialize.cxx:151-171 | Such an array without pointers has every leaf placed, for all contents, exactly then |
| `SerializePlaced.PaddingFreeIsLossless` | plugins/serialize/serialize.cxx:151-171 | A type whose array elements need no padding meets both conditions |
| `SerializeLayout.EachKeepsUp` | plugins/serialize/serialize.cxx:159-170 | An array falls behind its layout with every element: when its last element is where the layout has it, all are |
| `SerializeLayout.InLayoutIff` | plugins/serialize/serialize.cxx:151-208 | The layout condition is a check of the type, member by member, that looks at the last element of each array |
| `SerializeLossless.EachUnmoved` | plugins/serialize/serialize.cxx:159-170 | When alignment moves neither the first nor the second element of an array, it moves none |
| `SerializeLossless.LosslessIff` | plugins/serialize/serialize.cxx:147-267 | Nothing is lost exactly when no array with data is moved to be aligned and no two elements of an array are read at common places, which is again checked member by member |
| `SerializeExamples.PaddedElementsOverlap` | plugins/serialize/serialize.cxx:164-169 | With two records of a byte and an aligned word, the second overwrites a byte of the first, whatever the contents |
| `SerializeExamples.WordFirstReturns` | plugins/serialize/serialize.cxx:164-169 | Any array of two or more records of an aligned word and a byte is not in layout, yet nothing is lost |
| `SerializeExamples.NestedWordMoves` | plugins/serialize/serialize.cxx:159-161 | With an array of one word in each record, the second word is written where it is not read |
| `NumpyStrides.ToNumpy` | pdi/src/python/tools.cxx:80-107 | The three loops compute the shape, the byte distance between elements in each dimension, as signed products, and the offset of the window |
| `NumpyStrides.Collect` | pdi/src/python/tools.cxx:85-94 | The loop down the nest collects shape, starts and sizes outside in |
| `NumpyStrides.NumpyViewIs` | pdi/src/python/tools.cxx:98-107 | For every nest whose dimensions fit a signed number, those are the distances and the offset of the arrays |
| `NumpyStrides.StridesRefine` | pdi/src/array_datatype.cxx:194-202 | For every nest and index, offset plus index times strides is the address that indexing array after array gives |
| `NumpyStrides.IndexedIsFollowed` | pdi/src/array_datatype.cxx:194-202 | That address, and the scalar there, is what following the indices one by one reaches |
| `NumpyStrides.ViewInBounds` | pdi/src/python/tools.cxx:104-107 | Every element of the view lies inside the buffer |
| `NumpyStrides.ViewDisjoint` | pdi/src/python/tools.cxx:98-102 | Elements with different indices do not overlap |
| `NumpyStrides.PythonType` | pdi/src/python/tools.cxx:142-171 | For strides of any sign, the two loops compute the nest of arrays of a numpy array, the outermost as long as the array, and divide by zero exactly when a stride other than the outermost is zero |
| `NumpyStrides.RoundTripIff` | pdi/src/python/tools.cxx:142-171 | Where they do not, a numpy array keeps its shape through the library, and its strides, negative ones included, exactly when the innermost is the item size and each divides the next one out |
| `NumpyTypes.TypeIs` | pdi/src/python/tools.cxx:142-171 | For an array in C order the type takes the outermost length times the outermost stride, is well formed exactly when the item is and each inner dimension fits in the stride around it, and has every element where numpy has it |
| `NumpyTypes.ElementsInside` | pdi/src/python/tools.cxx:142-171 | Then every element lies inside the buffer of the type |
| `NumpyTypes.QuotientTruncates` | pdi/src/python/tools.cxx:147-147 | The division of strides goes toward zero |
| `NumpyTypes.WordRoundTrip` | pdi/src/python/tools.cxx:145-148 | A signed size survives being stored as a `size_t` |
| `NumpyStrides.BroadcastFails` | pdi/src/python/tools.cxx:147-149 | An array with an inner stride of zero for which they do |
| `ReferenceStore.Store.constructor` | pdi/include/pdi/ref_any.h:110-114 | At first there is nothing, and the invariant holds |
| `ReferenceStore.Store.LinkTo` | pdi/include/pdi/ref_any.h:722-732 | Linking takes the content and the locks exactly when the buffer was created with the rights asked for and nobody is in their way, and leaves the reference null otherwise |
| `ReferenceStore.Store.Leave` | pdi/include/pdi/ref_any.h:705-712 | Unlinking gives the locks and the notification back, and destroys data and buffer when it was the last |
| `ReferenceStore.Store.DropIfLast` | pdi/include/pdi/ref_any.h:122-128 | The last reference destroys the data, the last data the buffer, which then frees the memory it still owns |
| `ReferenceStore.Store.Nullify` | pdi/include/pdi/ref_any.h:632-635 | Resetting unlinks a reference that has content and keeps the invariant |
| `ReferenceStore.Store.TestNull` | pdi/include/pdi/ref_any.h:691-699 | The answer is whether there is no content or released content, and released content is dropped |
| `ReferenceStore.Store.CopyConstruct` | pdi/include/pdi/ref_any.h:257-274 | A copy with rights of its own refers to the same data exactly when the buffer was created with them, nobody writes if it is to read, and nobody has any right if it is to write; it is null otherwise; the invariant holds |
| `ReferenceStore.Store.MoveConstruct` | pdi/include/pdi/ref_any.h:279-288 | A move takes the content without touching the locks and removes the notification |
| `ReferenceStore.Store.Assign` | pdi/include/pdi/ref_any.h:313-327 | Move assignment resets the target, then takes the content, unless it is the same reference or null |
| `ReferenceStore.Store.SubReference` | pdi/include/pdi/ref_any.h:414-440 | A sub-reference is data of its own on the same buffer, without rights; on a null reference it fails |
| `ReferenceStore.Store.Register` | pdi/include/pdi/ref_any.h:678-681 | A notification is registered on the buffer unless the reference is null |
| `ReferenceStore.Store.Surrender` | pdi/include/pdi/ref_any.h:650-672 | Releasing returns the address, calls each notification once, nulls the data and disarms the deallocator |
| `ReferenceStore.CallAll` | pdi/include/pdi/ref_any.h:655-662 | The loop calls every notification exactly once |
| `ReferenceInvariant.LastGone` | pdi/include/pdi/ref_any.h:122-128 | When the last reference goes, the locks of the buffer are back at their initial values and no notification remains |
| `ReferenceRuns.ApplyInv` | pdi/include/pdi/ref_any.h:257-338 | Every operation in every state keeps the invariant of locks, exclusion, ownership and liveness |
| `ReferenceRuns.LockConservation` | pdi/include/pdi/ref_any.h:722-732 | After every sequence of operations, read locks are the initial 0 or 1 plus the writers, write locks the initial 0 or 1 plus readers and writers; a writer is alone on its buffer, sub-references included; read locks stay in 0..2 |
| `ReferenceMeaning.CopyGrantedIff` | pdi/include/pdi/ref_any.h:722-732 | In every state that operations leave, a copy is linked exactly when the rights it asks for were given to the buffer and nobody is in their way |
| `ReferenceMeaning.RunGrantedIff` | pdi/include/pdi/ref_any.h:722-732 | After every run, too |
| `ReferenceMeaning.ApplyMeans` | pdi/include/pdi/ref_any.h:249-337 | Every operation does to references, data and buffers what it means when nothing is counted: rights are granted by who is there, data goes when nothing refers to it, listeners hear of their buffer only |
| `ReferenceMeaning.RunMeans` | pdi/include/pdi/ref_any.h:249-337 | So does every run |
| `ReferenceMeaning.MeaningDetermines` | pdi/include/pdi/ref_any.h:86-110 | Locks, destruction and freeing are determined by who refers to what and what was given back |
| `ReferenceRuns.OwnershipConservation` | pdi/include/pdi/ref_any.h:122-128 | After every sequence of operations, a buffer was freed once if it was destroyed without being released and never otherwise; destroyed means no reference left, with initial locks and no notification |
| `ReferenceRuns.RunLater` | pdi/include/pdi/ref_any.h:664-669 | However a sequence goes on, a destroyed buffer stays so, and a released one is never owned again |
| `ReferenceRuns.ReleaseNullifies` | pdi/include/pdi/ref_any.h:650-672 | After a release, every reference on the same data reads as null |
| `ReferenceRuns.ReleasedIsNeverFreed` | pdi/include/pdi/ref_any.h:664-667 | Memory that was released is not freed by anything that comes later |
| `ReferenceRuns.NothingLeaks` | pdi/include/pdi/ref_any.h:705-712 | When all references are null, all data and all buffers have been destroyed |
| `ReferenceRuns.WriteLocksUnbounded` | pdi/include/pdi/ref_any.h:95-99 | For every n there is a sequence after which a buffer has n write locks |
| `Descriptor.TemporaryIsInvisible` | pdi/src/data_descriptor_impl.cxx:177-199 | A reference made and destroyed again, granted or not, leaves exactly the state it found |
| `Descriptor.ShareRefIff` | pdi/src/data_descriptor_impl.cxx:173-216 | Sharing a reference succeeds exactly when the rights, and for metadata read access, can be granted and the callbacks succeed; it returns the address when rights were asked for, and a failure leaves everything as it was |
| `DescriptorRights.ShareRefGrantedIff` | pdi/src/data_descriptor_impl.cxx:173-216 | Sharing a reference succeeds exactly when the callbacks do and nobody is in the way of the rights, nor of reading for metadata; a null reference is shared too, except as metadata |
| `DescriptorRights.SharedAllows` | pdi/src/data_descriptor_impl.cxx:155-171 | Shared memory can be read exactly if it was shared for reading and written exactly if it was shared for writing |
| `DescriptorRights.PlaceholderRights` | pdi/src/data_descriptor_impl.cxx:218-262 | What a metadata descriptor keeps may be read and not written |
| `Descriptor.FailedShareIsUndone` | pdi/src/data_descriptor_impl.cxx:155-171 | A failed share of the user's memory leaves the stack, all references, data and other buffers as they were, and does not free the memory |
| `Descriptor.PopIff` | pdi/src/data_descriptor_impl.cxx:218-260 | Release and reclaim succeed exactly when something is shared and the callbacks succeed; a failure changes nothing, and a metadata descriptor always has a placeholder |
| `Descriptor.ReclaimGivesBack` | pdi/src/data_descriptor_impl.cxx:239-260 | Reclaiming the last share of metadata returns the original address, nulls every reference to the user's data and does not free it |
| `Descriptor.ReadableIff` | pdi/src/data_descriptor_impl.cxx:246-253 | The value can be read for the copy exactly when it was shared readable and no other reference writes it |
| `Descriptor.ReclaimKeepsCopy` | pdi/src/data_descriptor_impl.cxx:249-253 | The placeholder goes on yielding a copy, alone on memory of its own, exactly when the value has data, was readable and had no other writer |
| `DescriptorEffects.ReleaseKeepsValue` | pdi/src/data_descriptor_impl.cxx:218-237 | Releasing the last share of metadata keeps the value itself behind the placeholder, exactly when it was readable and had no other writer |
| `DescriptorEffects.ReleaseFreesIff` | pdi/src/data_descriptor_impl.cxx:218-237 | Releasing any other share ends its buffer exactly when no other reference is on it, and frees it then, once, unless it had been released |
| `DescriptorEffects.ExposeLeavesNoTrace` | pdi/src/data_descriptor_impl.cxx:155-260 | Sharing memory and reclaiming it gives the same address back and leaves the stack, all references, all data and all other buffers as they were, and the memory not freed |
| `DescriptorOps.OpEntry` | pdi/include/pdi/ref_any.h:650-672 | Any operation on references leaves every reference it does not touch showing the same data at the same address, unless that data is given back |
| `DescriptorStack.StepRefines` | pdi/src/data_descriptor_impl.cxx:155-260 | Every share of memory or of a reference, release, reclaim, and every operation on other references, keeps the descriptor valid and does what it does to a stack of data and addresses, on which giving data back empties all its entries; failures included |
| `DescriptorStack.FailureIsUndone` | pdi/src/data_descriptor_impl.cxx:155-260 | A call that fails leaves the stack, all references, all data and all buffers as they were; memory whose share failed is not freed |
| `DescriptorRuns.RunRefines` | pdi/src/data_descriptor_impl.cxx:155-260 | In every sequence of such events all outcomes and all returned addresses are those of the stack |
| `DescriptorRuns.InitialIsValid` | pdi/src/data_descriptor_impl.cxx:72-127 | A new descriptor, metadata or not, is valid and stands for the empty stack |
| `DescriptorRuns.EveryRun` | pdi/src/data_descriptor_impl.cxx:114-260 | From the start, any sequence of such events with any callback failures has the outcomes of a stack that starts empty |
| `DescriptorRuns.EntryFate` | pdi/src/data_descriptor_impl.cxx:173-260 | Over any run that does not pop it, a share keeps its data and address exactly unless that data is given back |
| `DescriptorRuns.SharedComesBack` | pdi/src/data_descriptor_impl.cxx:239-260 | Shared memory comes back from the matching reclaim, whatever is done in between, exactly unless it was given back before |
| `DescriptorRuns.IsReferenceRun` | pdi/src/data_descriptor_impl.cxx:155-260 | Every run of a descriptor leaves a state that a run of reference operations leaves, so that locks and ownership are conserved |
| `DescriptorRuns.FailedShareIsNeverFreed` | pdi/src/data_descriptor_impl.cxx:155-171 | Memory whose share failed is not freed by anything that comes later |
| `DescriptorRuns.ReclaimedIsNeverFreed` | pdi/src/data_descriptor_impl.cxx:239-260 | Memory that was reclaimed is not freed by anything that comes later |
| `DescriptorMemory.CopyIsDenseImage` | pdi/src/ref_any.cxx:43-61 | The copy writes nothing outside its room and, for every type in place for writing, holds every leaf where the densified type has it |
| `DescriptorMemory.ReclaimMakesImage` | pdi/src/data_descriptor_impl.cxx:249-253 | A reclaim that can copy the value leaves the placeholder reading the dense image of the bytes that the memory of the user holds |
| `DescriptorMemory.PlaceholderKeepsImage` | pdi/src/data_descriptor_impl.cxx:249-259 | That stays so while the user overwrites their memory and anything else is shared, released, reclaimed and written, as long as the placeholder is not replaced and its data not given back |
| `DescriptorMemory.PerformSane` | pdi/src/data_descriptor_impl.cxx:155-260 | Every value that is referenced keeps a type and its place in memory |
| `DescriptorMemory.WriteWrites` | pdi/src/data_descriptor_impl.cxx:155-171 | A program that writes to its memory changes just those bytes |
| `DescriptorMemory.CallsWriteNoValue` | pdi/src/ref_any.cxx:43-61 | No call changes the bytes of a value that is referenced |
| `DescriptorContext.DoConsistent` | pdi/src/global_context.cxx:445-448 | A share or reclaim under one name keeps all descriptors valid and apart |
| `DescriptorContext.ActedLeaves` | pdi/include/pdi/ref_any.h:650-672 | An operation on references that are no holders leaves all descriptors valid and apart, and empties just the entries of what it gives back |
| `DescriptorContext.ExposeRestores` | pdi/src/pdi.cxx:345-386 | After a multi-expose, whatever shares failed and if no reclaim does, every descriptor shows what it showed before, but for what operations on other references gave back during the event and between the calls |
| `DescriptorTrace.ExposedRuns` | pdi/src/pdi.cxx:345-386 | It does the shares in order up to the first that fails, what happens during the event if none does, and the reclaims of what was shared, the last first |
| `DescriptorTrace.CallsAreMultiExpose` | pdi/src/pdi.cxx:345-386 | Its calls are those that the library makes for a multi-expose whose shares answer alike |
| `DescriptorObject.DataDescriptor.constructor` | pdi/src/data_descriptor_impl.cxx:72-77 | A new descriptor is empty, not metadata, and valid |
| `DescriptorObject.DataDescriptor.SetMetadata` | pdi/src/data_descriptor_impl.cxx:114-127 | Only an empty descriptor changes; metadata gets a null read-only placeholder |
| `DescriptorObject.DataDescriptor.Probe` | pdi/src/data_descriptor_impl.cxx:177-196 | A temporary reference tells whether rights can be granted and leaves no trace |
| `DescriptorObject.DataDescriptor.Share` | pdi/src/data_descriptor_impl.cxx:173-216 | Push, check, notify and pop on failure amount to the specified share of a reference |
| `DescriptorObject.DataDescriptor.ShareMemory` | pdi/src/data_descriptor_impl.cxx:155-171 | Wrap, share and release on failure amount to the specified share of memory |
| `DescriptorObject.DataDescriptor.ReleaseShare` | pdi/src/data_descriptor_impl.cxx:218-237 | The steps amount to the specified release, the placeholder taking over the last share |
| `DescriptorObject.DataDescriptor.PlaceCopy` | pdi/src/data_descriptor_impl.cxx:249-253 | The copy, if it can be made, becomes the only holder |
| `DescriptorObject.DataDescriptor.ReclaimShare` | pdi/src/data_descriptor_impl.cxx:239-260 | The steps amount to the specified reclaim |
| `Transactions.Library.Expose` | pdi/src/pdi.cxx:317-343 | Outside a transaction share and reclaim at once, leaving nothing open; inside, share, remember the name or the first error |
| `Transactions.Library.MultiExpose` | pdi/src/pdi.cxx:345-386 | For any items, repeats allowed, and any failures: shares up to the first failure, the event if there was none, the first error of all these calls, and reclaims each of which names the last value that is shared and not reclaimed, until none is |
| `Transactions.Library.ReclaimAll` | pdi/src/pdi.cxx:372-379 | Each reclaim names the last value that is still shared, until none is, and the first error is kept |
| `Transactions.Library.TransactionBegin` | pdi/src/pdi.cxx:388-402 | Fails without effect when a transaction is open |
| `Transactions.Library.TransactionEnd` | pdi/src/pdi.cxx:404-437 | The event if nothing failed, reclaims each of the last value still shared until none is, the first error; without a transaction nothing is called and an earlier error is returned again |
| `Transactions.RunTransaction` | pdi/src/pdi.cxx:388-437 | Begin, any exposes and end make the specified calls, in which every value shared is reclaimed in turn, and return the specified status, for an empty name too |
| `ExposeCalls.GoodIs` | pdi/src/pdi.cxx:351-364 | The shares that count as successful are exactly those before the first that fails |
| `ExposeCalls.FirstErrorIs` | pdi/src/pdi.cxx:372-379 | The status returned is that of the first call that fails, if any does |
| `ExposeCalls.MultiBalanced` | pdi/src/pdi.cxx:345-386 | Whatever fails, the shares and reclaims of a multi-expose match like brackets |
| `ExposeCalls.TransactionBalanced` | pdi/src/pdi.cxx:388-437 | Whatever fails, so do those of a transaction |
| `ExposeCalls.LooseBalanced` | pdi/src/pdi.cxx:317-343 | So do those of exposes outside a transaction |
| `ExposeCalls.EventSeesAll` | pdi/src/pdi.cxx:367-370 | The event of a multi-expose comes when every share has succeeded and all values are still shared |
| `ExposeCalls.SameIff` | pdi/src/pdi.cxx:345-437 | A transaction makes the same calls and returns the same status as a multi-expose exactly when no share but the last fails; one named "" only for a single share that fails as a misplaced call does |
| `ExposeCalls.FirstShareFails` | pdi/src/pdi.cxx:345-437 | Two values whose first share fails: the transaction shares and reclaims the second, the multi-expose does not |
| `ExposeCalls.NamelessTransaction` | pdi/src/pdi.cxx:388-437 | In a transaction named "" a value is reclaimed at once, no event comes, and its end fails |
| `ExpressionCode.ReadLevel` | pdi/src/expression/impl/operation.cxx:418-446 | The loop that appends operands computes the specified parse of a level, and ends |
| `ExpressionCode.ReadTerm` | pdi/src/expression/impl.cxx:117-138 | A term is parsed as specified |
| `ExpressionCode.ReadReference` | pdi/src/expression/impl/reference_expression.cxx:297-359 | A reference with optional braces, accessors and format is parsed as specified |
| `ExpressionCode.ReadSubs` | pdi/src/expression/impl/reference_expression.cxx:318-336 | The loop that appends accessors computes the specified list |
| `ExpressionCode.ReadId` | pdi/src/expression/impl.cxx:140-158 | The loop reads the longest identifier, or fails |
| `ExpressionCode.ReadValue` | pdi/src/expression/impl.cxx:101-115 | A text is an expression if it is one as a whole, and a string literal otherwise |
| `Expressions.ParseLevel` | pdi/src/expression/impl/operation.cxx:418-446 | The descent ends for every text, by remaining characters and level, and never lengthens what remains |
| `ExpressionGrammar.StrtolWhole` | pdi/src/expression/impl/int_literal.cxx:115-136 | A number in any base and sign is read whole in front of anything that is not part of a word |
| `ExpressionNumerals.StrtolIff` | pdi/src/expression/impl/int_literal.cxx:115-136 | What is read whole as an integer is exactly the decimal, octal and hexadecimal numerals with or without a sign that a 64-bit integer holds, and is read as the number they stand for |
| `ExpressionNumerals.OutOfRangeIff` | pdi/src/expression/impl/int_literal.cxx:115-136 | A numeral beyond that is an error in every base |
| `ExpressionNumerals.AllBases` | pdi/src/expression/impl/int_literal.cxx:115-136 | Every number can be written in the three bases, with either sign and either case of the prefix and the letters |
| `ExpressionNumerals.NumberIff` | pdi/src/expression/impl/int_literal.cxx:115-136 | The number in a phrase is such a numeral, and its tree the integer |
| `ExpressionNumerals.BaseDoesNotMatter` | pdi/src/expression/impl.cxx:101-138 | Numerals of one integer are parsed alike in every base |
| `ExpressionNumerals.CharactersAre` | pdi/src/expression/impl.cxx:140-156 | Which characters are blank and which make up a word |
| `ExpressionGrammar.ParsePhrase` | pdi/src/expression/impl/operation.cxx:418-490 | Every phrase of every level, with any numbers, spaces, parentheses and braces, is parsed to the tree it spells and leaves what follows it, provided what follows leaves it legible |
| `ExpressionGrammar.ParseText` | pdi/src/expression/impl.cxx:101-115 | A text made of spaces and a phrase that is legible at the end is parsed to the tree the phrase spells |
| `ExpressionGrammar.LegibleIff` | pdi/src/expression/impl.cxx:133-137 | A phrase whose floating-point literals have dots and whose formats have braces is legible exactly when no integer comes before a dot |
| `ExpressionLanguage.LevelSpelled` | pdi/src/expression/impl/operation.cxx:418-446 | Whatever the parser accepts at a level is a legible phrase of that level that spells the tree it returns |
| `ExpressionLanguage.AcceptedIff` | pdi/src/expression/impl.cxx:101-138 | A text is read as a tree exactly when it is spaces and a legible phrase that spells the tree; any other text is a literal as it stands |
| `FloatReader.ReadsLongest` | pdi/src/expression/impl/float_literal.cxx:97-97 | The reader takes the longest start of a text that has the form of a number, infinities and the arguments of `nan` included |
| `FloatGrammar.FloatTextIff` | pdi/src/expression/impl/float_literal.cxx:97-97 | The automaton accepts exactly the texts of the form of a number: blanks, a sign, digits with at most one dot and an exponent in either base, an infinity, or `nan` with or without an argument |
| `FloatGrammar.ReadsNumber` | pdi/src/expression/impl/float_literal.cxx:97-97 | The reader takes the longest start of that form |
| `FloatReader.ReaderFits` | pdi/src/expression/impl/float_literal.cxx:97-97 | Whatever follows a term or a space ends a number for it, and what it reads of a text it also reads alone: what the parser needs of its reader |
| `FloatReader.AcceptedByLibraryIff` | pdi/src/expression/impl/float_literal.cxx:93-106 | The language of the parser with this reader |
| `FloatReader.NanParenthesis` | pdi/src/expression/impl/float_literal.cxx:97-97 | The reader goes on from `nan` over an argument in parentheses |
| `ExpressionPrecedence.LevelIsRank` | pdi/docs/expression_grammar.in.txt:11-18 | The levels of the parser are the documented ranks of the operators, reversed |
| `ExpressionPrecedence.GroupIs` | pdi/docs/expression_grammar.in.txt:19-21 | Terms with any operators between them can be grouped by precedence into a phrase of the same text |
| `ExpressionPrecedence.OperationsParse` | pdi/docs/expression_grammar.in.txt:11-25 | Every operation of the documented grammar, over any terms, is read as its grouping by precedence exactly when no integer comes before a dot in it |
| `ExpressionPrecedence.ThreeTerms` | pdi/src/expression/impl/operation.cxx:418-469 | For any three terms and two operators, the operator of the tighter documented rank groups first, and operators of one rank make one operation from left to right, exactly when no integer comes before a dot |
| `ExpressionPrinting.PhraseOfTree` | pdi/src/expression/impl/operation.cxx:418-469 | Printing a tree gives a phrase of the wanted level that spells the tree |
| `ExpressionPrinting.FewestParens` | pdi/src/expression/impl/operation.cxx:448-469 | No phrase that spells the tree has fewer parentheses than the printed one |
| `ExpressionPrinting.LevelSound` | pdi/src/expression/impl.cxx:133-137 | Whatever the parser returns has no integer before a dot |
| `ExpressionPrinting.ReadIff` | pdi/src/expression/impl.cxx:101-138 | Any text of a tree is read as the tree exactly when no integer comes before a dot in it |
| `ExpressionPrinting.RoundTripIff` | pdi/src/expression/impl.cxx:101-138 | Parsing a printed tree, floating-point literals included, gives it back exactly when no integer comes before a dot in it |
| `ExpressionPrinting.IntegerBeforeDot` | pdi/src/expression/impl.cxx:133-134 | An integer plus a member does not come back |
| `ExpressionPrinting.SpellingDoesNotMatter` | pdi/src/expression/impl.cxx:117-138 | Two texts of one tree, whatever their spaces, parentheses, braces and number bases, are parsed alike |
| `Digraph.OrderSound` | pdi/src/global_context.cxx:179-209 | In a list where all successors come first, nothing is circular and nothing leads to something missing |
| `Includes.Resolver.constructor` | pdi/src/global_context.cxx:219-226 | The search starts with nothing seen |
| `Includes.Resolver.Include` | pdi/src/global_context.cxx:189-205 | One directive extends the ordered result by what it leads to, or reports a path that is circular or missing and that it leads to |
| `Includes.Resolver.Gather` | pdi/src/global_context.cxx:179-209 | All directives of a file extend the ordered result by exactly what they lead to, or report such a path |
| `Includes.GetIncludes` | pdi/src/global_context.cxx:219-226 | For every finite set of files: it ends; it fails exactly when the root leads to a missing file or a cycle; otherwise every file it leads to is listed once, after all it includes, and the root last |
| `Plugins.Store.constructor` | pdi/src/plugin_store.cxx:251-262 | All plugins start as preloaded, with no handle |
| `Plugins.Store.EnsureLoaded` | pdi/src/plugin_store.cxx:115-144 | A plugin is constructed after all it depends on, or it leads to something missing or circular |
| `Plugins.Store.LoadRequired` | pdi/src/plugin_store.cxx:125-133 | All required plugins are loaded and held, or the plugin cannot load |
| `Plugins.Store.LoadBefore` | pdi/src/plugin_store.cxx:134-140 | Those listed among the optional ones are loaded and held too, or the plugin cannot load |
| `Plugins.LoadPlugins` | pdi/src/plugin_store.cxx:265-277 | Exactly the plugins that lead to nothing missing or circular are constructed, each once and after all it depends on; exactly the others are reported; and each holds, whatever the order of loading, what it depends on up to the first that is missing, or up to and with the first that is broken |
| `Plugins.NoneBrokenIff` | pdi/src/plugin_store.cxx:115-144 | Loading succeeds exactly when every required plugin is listed and no listed plugin depends on itself |
| `PluginHandles.Keeper.constructor` | pdi/src/plugin_store.h:75-79 | The store holds every plugin and every plugin those it has a handle on |
| `PluginHandles.Keeper.Check` | pdi/src/plugin_store.h:75-79 | A plugin ends when its last handle goes, and all that follows keeps the order |
| `PluginHandles.Keeper.End` | pdi/src/plugin_store.h:75-79 | A plugin ends before its handles go one by one |
| `PluginHandles.Keeper.Drop` | pdi/src/plugin_store.h:75-79 | The store dropping an entry keeps the invariant |
| `PluginHandles.DropAll` | pdi/src/plugin_store.h:75-79 | In whatever order the store drops its entries and whatever handles a load left, those plugins end, once and before all they hold, that no plugin holding itself keeps alive, and no others |
| `PluginHandles.NothingStuck` | pdi/src/plugin_store.cxx:265-277 | After a load without errors there are none such, so that every plugin ends |
| `PluginLives.Live` | pdi/src/plugin_store.cxx:265-277 | From the load to the end of the store: which plugins are constructed, reported and ended, and in which order, is known from what they depend on |
| `PluginLives.CyclicIff` | pdi/src/plugin_store.cxx:122-140 | A plugin holds itself after the load exactly when going from plugin to the dependency its load failed on leads back to it |
| `PluginLives.AllEndIff` | pdi/src/plugin_store.cxx:122-140 | All plugins end exactly when that happens to none |
| `PluginLives.RequiredComeFirst` | pdi/src/plugin_store.cxx:125-140 | When a required plugin is missing or broken, no handle is taken on those that only have to come first |
| `PluginLives.CircularPairIsStuck` | pdi/src/plugin_store.cxx:125-133 | Two plugins that require each other keep each other alive once their load has failed |
| `PluginLives.CircularPairEnds` | pdi/src/plugin_store.cxx:125-133 | They both end if one of them requires something missing before the other |
| `PathList.StringArrayParse` | pdi/src/string_tools.cxx:40-74 | The loop over segments computes the specified list, or fails as specified |
| `PathList.FindSpecial` | pdi/src/string_tools.cxx:45-45 | The first backslash or colon from a position on, or the end |
| `PathList.ReadIffWritten` | pdi/src/string_tools.h:35-43 | A string is read as a list exactly when it is that list, escaped and joined |
| `PathList.ParseFailsIff` | pdi/src/string_tools.cxx:54-68 | Reading fails exactly on an escaping backslash at the end or in front of anything but a backslash or a colon |
| `HaloExchange.InitArray` | example/example.c:37-49 | The loops fill the grid with zeros and the first column of the first process column with the border value |
| `HaloExchange.IterArray` | example/example.c:51-68 | The loops apply the stencil to each inner cell and its left, right, upper and lower neighbours, and copy the frame |
| `HaloStencil.ReadsNeighbours` | example/example.c:58-62 | Each argument of the stencil is the neighbour on its side |
| `HaloStencil.UpsideDownIter` | example/example.c:51-68 | Turning the grid upside down and exchanging the upper and lower arguments changes nothing |
| `HaloStencil.MirroredIter` | example/example.c:51-68 | Nor does mirroring it and exchanging the left and right ones |
| `HaloStencil.TransposedIter` | example/example.c:51-68 | Nor does transposing it and exchanging the axes |
| `HaloStencil.EvenSlopeStays` | example/example.c:60-61 | Under the stencil of the program a temperature that falls evenly in any direction stays |
| `HaloStencil.ProcessesBetween` | example/example.c:228-256 | Under it every cell of every process stays between the cold and the hot border at all times |
| `HaloExchange.ShiftMatches` | example/example.c:85-151 | In every direction, a process receives from exactly the one that sends to it |
| `HaloExchange.ExchangeCell` | example/example.c:70-152 | After the four exchanges each cell of the frame except its corners is the nearest cell of the neighbour on that side, if there is one, and every other cell is what it was |
| `HaloExchange.RoundAgrees` | example/example.c:248-256 | One iteration and exchange on all processes is one iteration of the global grid, in every cell and every ghost cell but the corners |
| `HaloExchange.ParallelIsSequential` | example/example.c:228-256 | After any number of iterations every process holds its part of the global run, ghost cells but corners included, if those that take themselves to be in the first column are those at the border |
| `HaloExchange.ParallelIsSequentialIff` | example/example.c:228-256 | It does for all iteration counts exactly then, whatever ranks were exchanged |
| `HaloExchange.PlacedInOrderIff` | example/example.c:230-232 | Without reordering, that is so exactly when the processes have a column of their own or there is one column of processes |
| `HaloExchange.ColdSecondColumn` | example/example.c:37-49 | Two processes without columns of their own: the second holds a cold cell where the sequential grid has the hot border |
| `HaloExchange.SwappedRanks` | example/example.c:230-232 | Two processes whose ranks were exchanged: the left one starts cold where the sequential grid has the hot border |
| `HaloExchange.BorderIsConstant` | example/example.c:51-68 | The physical border keeps its initial values |
| `HaloExchange.Simulate` | example/example.c:248-256 | The loop that iterates, exchanges and swaps keeps the agreement with the global run |
| `AsyncHalo.RunInv` | example/example.c:85-151 | Under every interleaving of sends and receives, every message in flight and every grid is that of the synchronous run |
| `AsyncHalo.AsyncIsSequential` | example/example.c:85-151 | Whenever a process computes, its cells are those of the global run at its iteration |
| `AsyncHalo.WaitsForSlower` | example/example.c:85-151 | A process that cannot move waits for one that is behind it |
| `AsyncHalo.NoDeadlock` | example/example.c:85-151 | In every reachable state some process can move |
| `AsyncHalo.UnbufferedIsRun` | example/example.c:85-151 | A run in which each exchange also waits for its own message to be received is one of those runs |
| `AsyncHalo.NoDeadlockUnbuffered` | example/example.c:85-151 | In such runs, too, some process can always move |
| `ReductionSchedule.RunInv` | example/example.c:246-270 | Under every interleaving and all clocks, each rank follows the schedule fixed by the completed reductions |
| `ReductionSchedule.Agreement` | example/example.c:257-269 | All ranks enter each reduction at the same iteration, compute the same next one, are at most one apart and stop at the same iteration |
| `ReductionSchedule.ReductionsAdvance` | example/example.c:265-267 | Each reduction comes after the one before |
| `ReductionSchedule.Gap` | example/example.c:265-266 | The gap is at least 1, and otherwise the whole number of iterations that nine tenths of the remaining time allow at the pace so far |
| `ReductionSchedule.NoDeadlock` | example/example.c:257-270 | While a rank has not stopped, some rank can move |
| `ReductionSchedule.PlanIsSchedule` | example/example.c:265-267 | The iterations computed from the global times alone are those of the ranks |
| `ReductionSchedule.MainLoop` | example/example.c:247-270 | The loop reduces exactly at the planned iterations and leaves at the last one |

## Left out

- Alignment.AlignUpLeast: sizes, offsets and counts are unbounded; `size_t` and `int` overflow is not modelled.
- HaloExchange.ParallelIsSequential: the stencil is any function of five cells, so floating-point rounding is not modelled.
- DenseCopyExact.DenseRoundTrip: custom copy and destroy functions, and scalars whose dense size differs from their size, are not modelled.
- SerializePlaced.SerializeCopyGathers: the serialized buffer is taken to be aligned for its type, as the allocation provides for alignments up to 16.
- StructLayout.EvaluateStruct: tuples with given displacements, attributes of types and the evaluation of size expressions are not modelled; records and tuples share one constructor.
- StructLayout.AccessInBounds: slices are not modelled.
- ReferenceRuns.ReleaseNullifies: sub-references have data of their own and do not become null with the reference they were made from.
- ReferenceStore.Store.Surrender: callbacks that change references while they are called are not modelled; neither is copy assignment.
- DescriptorRuns.RunRefines: the rights that can be had on a reference, and what other operations give back, are taken from the reference store and not from the stack.
- DescriptorMemory.PlaceholderKeepsImage: memory is one sequence of bytes; the allocator gives room that overlaps nothing referenced, and what the library allocated is written only through references with that right.
- DescriptorContext.ExposeRestores: a reclaim whose callbacks fail leaves its value on the stack, as `DescriptorStack.FailureIsUndone` states.
- Descriptor.ShareRefIff: callbacks leave the descriptor that notifies them alone; loading missing data on access is not modelled, nor is the destructor of a descriptor.
- Transactions.Library.MultiExpose: callbacks that call the library again are not modelled.
- Expressions.ParseLevel: the value and length of a floating-point literal are those of any reader; string literals, format directives and the evaluation of expressions are not modelled; texts hold no NUL character.
- ExpressionLanguage.AcceptedIff: the reader of floating-point literals is any that reads a literal the same alone and in front of a space or of what may follow a term, as that of `FloatReader.ReaderFits` does; infinities and what is not a number stand for numbers of their own, and the decimal point is that of the "C" locale.
- Includes.GetIncludes: a path stands for a file and a subtree in it; reading YAML is not modelled, and the root is not a path.
- Plugins.LoadPlugins: constructors do not fail, and duplicate names are refused before.
- NumpyStrides.RoundTripIff: products of strides do not overflow.
- ReductionSchedule.Agreement: the reduction is a maximum over local times that are real numbers and not negative; the conversion to `int` truncates without overflow.
- The plugins for HDF5, NetCDF, JSON, Python calls, user code, tracing and timing, which are mostly calls into other libraries.
- Logging, error messages, the search path for plugins other than its list syntax, and the C and Fortran interfaces other than multi-expose and transactions.
