# A Dafny model of the taco tensor core

taco compiles tensor algebra expressions into sparse kernels. This project
models the core the compiler rests on:

- the type vocabulary of `include/taco/type.h`: `DataType` and its kinds,
  the width-checked factories, `Dimension`, `Shape` and `Type`;
- the `TensorBase` object of `src/tensor.cpp`:
  - its constructor, with the default level array types and the dense mode indices;
  - `reserve`, and `insert` as far as `pack` relies on it;
  - `pack`: permute each coordinate by the mode ordering, sort lexicographically,
    split into columns and clear the buffer;
  - the `unpackTensorData` recurrence; the `getDimension`, `operator()` and
    `operator=` checks; the structural half of `equals`;
  - the file-name handling of `read` and `write`;
- the rewriter of `include/taco/index_notation/index_notation_rewriter.h`:
  - the nine expression kinds and five statement kinds;
  - the `expr`/`stmt` result slots, and the default handlers that rebuild a
    node from its rewritten children;
  - the three `replace` functions;
- the Matrix Market reader and writer of `src/io/mtx_file_format.cpp`.

Files and modules:

| file | module | what it holds |
|---|---|---|
| `results.dfy` | `Results` | `Option`, `Result` and the error kinds (user error, internal error, not supported yet, invalid argument) |
| `types.dfy` | `Types` | `DataType`, the factories, `type<T>()`, `Dimension`, `Shape`, `Type` |
| `storage.dfy` | `StorageModel` | mode types, `Format`, mode indices, default level array types, `unpackTensorData` |
| `coordinates.dfy` | `Coordinates` | coordinate records, `lexicographicalCmp`, the sort `pack` relies on, column split helpers |
| `tensor.dfy` | `Tensors` | class `TensorBase` with its buffer and `pack`; `equals` on structure |
| `filenames.dfy` | `FileNames` | `getExtension`, the name `read` derives, the dispatch of `read` and `write` |
| `notation.dfy` | `IndexNotation` | the index expression and statement trees |
| `rewriter.dfy` | `Rewriting` | class `IndexNotationRewriter` and `replace` |
| `streams.dfy` | `Streams` | the parts of `std::getline`, `operator>>` and `operator<<` the reader and writer use |
| `mtx.dfy` | `MatrixMarket` | `readFile` and `writeFile` |

Modelling choices:

- `TensorBase` is a class. Its buffer is a `seq` of records (coordinates,
  value bytes). `coordinateBufferUsed` still counts bytes, so one record is
  `coordinateSize == order * 4 + numBytes` of them.
- A ghost `log` records each insertion and each pack in order.
- `pack` hands its arguments to `storage::pack`. The model keeps those
  arguments as `PackedFrom(call)`.
- The rewriter is a class whose `expr` and `stmt` fields are the result
  slots. A subclass's overriding `visit` methods are a parameter: a
  function from a node to an optional replacement.
- `readFile` works on the lines of the file. It is split into three
  methods: the header loop, the loop over the remaining lines, and one
  pass of that loop.
- The reader is proved against specification functions: `HeaderOf`,
  `BodyLines`, `States` (the parse state each line leaves) and
  `ConvertedPrefix` (how many values convert before the first one that
  throws).
- `std::stod` is a parameter. It returns `None` where it would throw
  (`std::invalid_argument` or `std::out_of_range`). Otherwise it returns the bytes the tensor
  stores for the value: the source reads a `double` and hands it to
  `insert`, and the parameter stands for both steps.
- `operator>>` into a `char` on an empty or blank line leaves the variable
  unset. Its value is the parameter `junk`.

## Model

| member | source | states |
|---|---|---|
| Types.KindsAreExactlyTheListed | include/taco/type.h:18-35 | every kind is one of the sixteen listed, and they are pairwise distinct |
| Types.DataType.GetKind | include/taco/type.h:41-44 | a data type is determined by its kind: `DataType(getKind()) == this` |
| Types.DataType.GetNumBits | include/taco/type.h:58-59 | a defined type's width is a whole number of bytes between 8 and 128 bits; `Bool` takes 8 |
| Types.DataType.GetNumBytes | include/taco/type.h:55-56 | between 1 and 16 bytes, and exactly the bit width divided by 8 |
| Types.UndefinedType | include/taco/type.h:37-38 | the default data type has kind `Undefined` and belongs to none of the five classes |
| Types.ExactlyOneClass | include/taco/type.h:46-52 | every defined type is exactly one of bool, unsigned, signed, float or complex |
| Types.UInt | include/taco/type.h:71 | succeeds exactly for 8, 16, 32, 64 and 128 bits, giving an unsigned type of that width; any other width is an internal error |
| Types.Int | include/taco/type.h:77 | the same for signed integers |
| Types.Float | include/taco/type.h:83 | succeeds exactly for 32 and 64 bits; otherwise an internal error |
| Types.Complex | include/taco/type.h:86 | succeeds exactly for 64 and 128 bits; otherwise an internal error |
| Types.FactoryDefaults | include/taco/type.h:71-83 | the default widths give `UInt32`, `Int32` and `Float64` |
| Types.TypeOf | include/taco/type.h:92-159 | `type<T>()` maps each host type to the kind of its `sizeof` width; an unsupported host type is an internal error |
| Types.Dimension.GetSize | include/taco/type.h:221-222 | a variable dimension reports size 0 and a fixed one a positive size |
| Types.VariableDimension | include/taco/type.h:209-210 | `Dimension()` is variable, not fixed, and has size 0 |
| Types.FixedDimension | include/taco/type.h:212-213 | `Dimension(n)` has size `n`; it is fixed exactly when `n > 0` |
| Types.DimensionExclusive | include/taco/type.h:215-219 | every dimension is either variable or fixed, never both |
| Types.Shape.Iterate | include/taco/type.h:253-257 | iterating a shape yields its `getOrder()` dimensions, in `getDimension` order |
| Types.ScalarShape | include/taco/type.h:238-239 | the default shape has order 0 |
| Types.MakeShape | include/taco/type.h:241-245 | a shape built from dimensions has their number as order and returns each by index |
| Types.ShapeEquality | include/taco/type.h:263 | two shapes are equal exactly when their orders and all their dimensions agree |
| Types.Type.GetOrder | include/taco/type.h:280 | a type's order is its shape's order |
| Types.DefaultType | include/taco/type.h:273-274 | the default type is a `Float64` scalar |
| Types.MakeType | include/taco/type.h:276-277 | `Type(dtype, shape)` returns both parts unchanged, and its order is the shape's |
| Types.TypeWithoutShapeIsScalar | include/taco/type.h:277 | `Type(dtype)` has the empty shape, so order 0 |
| StorageModel.DefaultArrayTypes | src/tensor.cpp:97-105 | a Dense mode gets one `Int32` array type and a Sparse mode two; any other mode type gets none |
| StorageModel.DefaultLevelArrayTypes | src/tensor.cpp:93-108 | succeeds exactly when every mode type is Dense or Sparse, with one list per mode as `DefaultArrayTypes` gives; otherwise not supported yet |
| StorageModel.CompleteFormat | src/tensor.cpp:88-109 | a format whose order differs from the tensor's is a user error; one with enough array types is kept; otherwise the defaults are filled in, keeping mode types and ordering |
| StorageModel.InitialModeIndices | src/tensor.cpp:117-125 | a Dense mode's index holds one array, the dimension its ordering entry names; every other mode's index is empty |
| StorageModel.UnpackTensorData | src/tensor.cpp:457-483 | fails exactly when a mode is neither Dense nor Sparse; otherwise it yields one well-formed index per mode and a value count that follows the Dense-multiplies, Sparse-reads-`pos[numVals]` recurrence |
| Coordinates.LexCmpFrom | src/tensor.cpp:211-219 | from position `i` on, the result is 0 or the difference at the first position where the coordinates differ |
| Coordinates.LexCmp | src/tensor.cpp:211-219 | the result is 0 or `a[k] - b[k]` for a `k` below `n` before which `a` and `b` agree |
| Coordinates.LexCmpZero | src/tensor.cpp:211-219 | `lexicographicalCmp` returns 0 exactly when the first `n` coordinates agree |
| Coordinates.LexCmpAntisymmetric | src/tensor.cpp:211-219 | swapping the arguments negates the result, so any two coordinates are ordered one way or the other |
| Coordinates.LexLeqTransitive | src/tensor.cpp:211-219 | the order the comparison induces is transitive |
| Coordinates.InsertSorted | src/tensor.cpp:266-268 | inserting a record adds exactly that record: one more element and the same multiset plus it |
| Coordinates.InsertSortedKeepsOrder | src/tensor.cpp:266-268 | inserting into a sorted sequence keeps it sorted |
| Coordinates.SortRecords | src/tensor.cpp:266-268 | the sort `pack` relies on returns a permutation of its input |
| Coordinates.SortRecordsSorted | src/tensor.cpp:266-268 | and that permutation is sorted by `lexicographicalCmp` on the first `n` coordinates |
| Coordinates.Permute | src/tensor.cpp:256-258 | `permuteBuffer[j] == coordinate[permutation[j]]` for every mode |
| Coordinates.Column | src/tensor.cpp:281-305 | column `d` holds coordinate `d` of every record, in record order |
| Coordinates.ValuesOf | src/tensor.cpp:287 | the values of the records, in record order |
| Tensors.PermuteRecords | src/tensor.cpp:253-263 | every buffered coordinate is reordered by the mode ordering; values and record order are untouched |
| Tensors.TensorBase.constructor | src/tensor.cpp:85-152 | the format is completed; Dense modes get their dimension; the buffer starts empty; allocation size is `1 << 20`; the record size is `order * 4 + numBytes` |
| Tensors.TensorBase.GetDimension | src/tensor.cpp:167-170 | succeeds exactly for an existing mode and returns its dimension; otherwise a user error |
| Tensors.TensorBase.GetType | src/tensor.cpp:131-139 | the tensor variable's type has the component type and one dimension per mode, equal to it when it fits a `size_t` |
| Tensors.TensorBase.Access | src/tensor.cpp:348-359 | an access succeeds exactly with one index variable per mode and is an access of the tensor's variable; otherwise a user error |
| Tensors.TensorBase.AssignScalar | src/tensor.cpp:556-565 | only a tensor of order 0 may be assigned an expression without index variables; it then holds `makeReductionNotation` of the assignment to itself; otherwise a user error and no assignment |
| Tensors.TensorBase.SetAssignment | src/tensor.cpp:563-565 | the tensor's variable holds the given assignment after `makeReductionNotation` |
| Tensors.TensorBase.SetName | src/tensor.cpp:154-157 | the name becomes the given one |
| Tensors.TensorBase.SetAllocSize | src/tensor.cpp:202-204 | the allocation size becomes the given one |
| Tensors.TensorBase.Reserve | src/tensor.cpp:180-184 | the buffer grows by `n` zeroed records, `n * coordinateSize` bytes, and keeps its old contents |
| Tensors.TensorBase.Insert | src/tensor.cpp:151 | a coordinate of the right length is written as one record of `coordinateSize` bytes at the first unused place; otherwise a user error with nothing changed |
| Tensors.TensorBase.PermutedDimensions | src/tensor.cpp:241-247 | `permutedDimensions[i] == dimensions[permutation[i]]` |
| Tensors.TensorBase.Pack | src/tensor.cpp:222-331 | order 0: the value of the first record becomes the only value, and `coordinateBufferUsed` is kept; otherwise the packer gets the permuted, sorted used records and the used count drops to 0; the buffer is cleared in both cases |
| Tensors.TensorBase.PackEntries | src/tensor.cpp:241-328 | the branch for order one and up, with the same new state |
| Tensors.TensorBase.PermuteBuffer | src/tensor.cpp:249-264 | the first `n` records are permuted in place; the rest are untouched |
| Tensors.TensorBase.SortBuffer | src/tensor.cpp:266-268 | the first `n` records become the sorted permuted records |
| Tensors.TensorBase.PackCallOfColumns | src/tensor.cpp:322-328 | the columns and values of the sorted records are the packer's arguments |
| Tensors.SplitColumns | src/tensor.cpp:271-321 | the loop yields each coordinate column and the values of all sorted records, keeping every record |
| Tensors.PackKeepsEveryRecord | src/tensor.cpp:292-312 | the packer gets exactly the used records (as a multiset, after permutation), sorted lexicographically, with the permuted dimensions and the tensor's format |
| Tensors.EqualsStructure | src/tensor.cpp:639-678 | tensors with different component types, orders or dimensions are unequal; otherwise `Bool` and `Undefined` are internal errors and the rest go on to compare values |
| Tensors.EqualsStructureSymmetric | src/tensor.cpp:639-655 | the structural comparison never calls a tensor unequal to itself and does not depend on argument order |
| FileNames.AfterLast | src/tensor.cpp:743-745 | `substr(find_last_of(c) + 1)`: what follows the last `c`, or the whole string when it holds no `c` (so a name without a `.` is its own extension); used for the extension and for the base name |
| FileNames.ExtensionAfterLastDot | src/tensor.cpp:743-745 | appending `.ext` makes `ext` the extension |
| FileNames.Stem | src/tensor.cpp:787 | a base name up to its first `.` |
| FileNames.Underscored | src/tensor.cpp:788 | every `-` becomes `_` and nothing else changes |
| FileNames.TensorNameOf | src/tensor.cpp:786-789 | the derived name holds no `/`, `.` or `-` |
| FileNames.TensorNameOfPath | src/tensor.cpp:786-789 | a tensor read from `dir/stem.ext` or from `stem` is named after the stem, with dashes turned into underscores |
| FileNames.HandlerFor | src/tensor.cpp:748-763 | `.ttx` and `.mtx` go to the Matrix Market handler, `.tns` and `.rb` to their own |
| FileNames.FileTypeOf | src/tensor.cpp:767-784 | the extensions `ttx`, `tns`, `mtx` and `rb` are recognised, each giving its own file type; any other is a user error |
| FileNames.ReadDispatch | src/tensor.cpp:766-792 | reading succeeds exactly for a recognised extension, with the handler for it and the derived name |
| FileNames.WriteDispatch | src/tensor.cpp:836-856 | an `.mtx` file needs a tensor of order 2, otherwise an internal error; an unknown extension is a user error |
| FileNames.TtxAndMtxShareTheReader | src/tensor.cpp:750-754 | `.ttx` and `.mtx` files are read by the same reader |
| Rewriting.DefaultExprRewriteIsIdentity | include/taco/index_notation/index_notation_rewriter.h:48-64 | with nothing overridden, rewriting an expression returns it unchanged |
| Rewriting.DefaultStmtRewriteIsIdentity | include/taco/index_notation/index_notation_rewriter.h:48-70 | with nothing overridden, rewriting a statement returns it unchanged |
| Rewriting.IndexNotationRewriter.constructor | include/taco/index_notation/index_notation_rewriter.h:12-45 | the overrides and the two result slots are set as given |
| Rewriting.IndexNotationRewriter.RewriteExpr | include/taco/index_notation/index_notation_rewriter.h:17-24 | `rewrite(e)` leaves its result in the `expr` slot and returns it; the result is the override's, or the default rebuild |
| Rewriting.IndexNotationRewriter.AcceptExpr | include/taco/index_notation/index_notation_rewriter.h:17-24 | dispatching an expression leaves the rewritten expression in `expr` |
| Rewriting.IndexNotationRewriter.VisitExpr | include/taco/index_notation/index_notation_rewriter.h:56-64 | the default handlers rebuild the node from its rewritten operands |
| Rewriting.IndexNotationRewriter.RewriteStmt | include/taco/index_notation/index_notation_rewriter.h:36-44 | `rewrite(s)` leaves its result in the `stmt` slot and returns it |
| Rewriting.IndexNotationRewriter.AcceptStmt | include/taco/index_notation/index_notation_rewriter.h:36-44 | dispatching a statement leaves the rewritten statement in `stmt` |
| Rewriting.IndexNotationRewriter.VisitStmt | include/taco/index_notation/index_notation_rewriter.h:66-70 | the default statement handlers rebuild the node from its rewritten parts |
| Rewriting.IndexNotationRewriter.RewriteEach | include/taco/index_notation/index_notation_rewriter.h:69-70 | the statements of a `Multi` or `Sequence` are rewritten one by one, in order |
| Rewriting.ReplaceExprs | include/taco/index_notation/index_notation_rewriter.h:74-76 | a key is replaced by its value without looking inside it; a negation, square root, sum, difference, product, quotient or reduction that is not a key is rebuilt from its replaced operands, keeping a reduction's operator and variable; accesses and literals that are not keys stay as they are |
| Rewriting.ReplaceWithoutMatchIsIdentity | include/taco/index_notation/index_notation_rewriter.h:74-76 | with no key inside the expression, and in particular with an empty map, `replace` is the identity |
| Rewriting.ReplaceSingleShot | include/taco/index_notation/index_notation_rewriter.h:74-76 | replacing `A(i)` by zero in `A(i) + B(i)` gives `0 + B(i)` |
| Rewriting.ReplaceStmts | include/taco/index_notation/index_notation_rewriter.h:82-86 | a statement key is replaced by its value; an assignment gets its right-hand side replaced; a `forall` keeps its variable and replaces its body; a `where` replaces its consumer and producer; a `multi` or `sequence` replaces each of its statements in place |
| Rewriting.ReplaceStmtsEmptyIsIdentity | include/taco/index_notation/index_notation_rewriter.h:82-86 | with two empty maps, `replace` is the identity on statements |
| Rewriting.ReplaceVars | include/taco/index_notation/index_notation_rewriter.h:78-80 | renaming index variables keeps the shape of the expression: with the variables blanked out, input and result are equal |
| Rewriting.ReplaceVarsRenamesEachOccurrence | include/taco/index_notation/index_notation_rewriter.h:78-80 | the index variables of the result, in the order they occur, are those of the input each replaced by its image at its own place |
| Rewriting.SkeletonAndOccurrencesDetermine | include/taco/index_notation/index_notation_rewriter.h:78-80 | two expressions with the same structure and the same sequence of index variables are equal |
| Rewriting.ReplaceVarsIsTheRenaming | include/taco/index_notation/index_notation_rewriter.h:78-80 | any expression with the input's structure whose variables are the renamed variables, position by position, is the result of `replace` |
| Rewriting.RenameKeepsPositions | include/taco/index_notation/index_notation_rewriter.h:78-80 | with `i -> k`, `A(i, j)` becomes `A(k, j)` |
| Rewriting.ReplaceVarsRenamesEveryOccurrence | include/taco/index_notation/index_notation_rewriter.h:78-80 | the variables of the result are exactly the renamed variables of the input |
| Rewriting.ReplaceVarsEmptyIsIdentity | include/taco/index_notation/index_notation_rewriter.h:78-80 | with an empty map, renaming is the identity |
| Streams.GetLines | src/io/mtx_file_format.cpp:22 | the lines `std::getline` yields hold no line break, and there are none exactly for empty text |
| Streams.GetLinesJoinLines | src/io/mtx_file_format.cpp:46-50 | lines without breaks, each written with `std::endl`, are read back by `std::getline` as the same lines |
| Streams.ExtractChar | src/io/mtx_file_format.cpp:25 | `iss >> c` skips blanks and reads one non-blank character; on a failed stream or at the end it leaves `c` unset |
| Streams.ExtractInt | src/io/mtx_file_format.cpp:30 | `iss >> n` on a failed stream changes nothing; when it succeeds it consumes a whole digit run |
| Streams.ExtractToken | src/io/mtx_file_format.cpp:37 | `iss >> s` reads a non-empty run of non-blank characters, or leaves `s` unset when it fails |
| Streams.IntToString | src/io/mtx_file_format.cpp:50 | `operator<<` writes an `int` as a numeral that denotes it |
| Streams.ExtractIntReadsNumeral | src/io/mtx_file_format.cpp:30 | a numeral after blanks and before a blank or the end is read back as its number |
| MatrixMarket.FirstChar | src/io/mtx_file_format.cpp:23-25 | on a line with a non-blank character, the first character read is not blank |
| MatrixMarket.HeaderIndexFrom | src/io/mtx_file_format.cpp:22-33 | the header is the first line whose first character is not `%`; there is none exactly when every line is a comment |
| MatrixMarket.HeaderOf | src/io/mtx_file_format.cpp:22-33 | without a header line the three out-parameters keep their values |
| MatrixMarket.ReadHeader | src/io/mtx_file_format.cpp:22-33 | the header loop reads `nrow ncol nnzero` from the first non-comment line and leaves the lines after it for the entry loop |
| MatrixMarket.States | src/io/mtx_file_format.cpp:35-37 | one parse state per line after the header |
| MatrixMarket.StatesStep | src/io/mtx_file_format.cpp:35-37 | each line starts from the state the line before it left, so `rowind`, `colind` and `val` persist across lines |
| MatrixMarket.ConvertedPrefix | src/io/mtx_file_format.cpp:38 | the loop gets through exactly the lines before the first value `std::stod` rejects |
| MatrixMarket.InsertionsUpTo | src/io/mtx_file_format.cpp:39 | one insertion per line that was got through |
| MatrixMarket.EveryBodyLineInserts | src/io/mtx_file_format.cpp:35-40 | line `j` inserts `(rowind-1, colind-1)` with the value of its own state |
| MatrixMarket.ReadFile | src/io/mtx_file_format.cpp:14-42 | the header as `HeaderOf` gives it; for a matrix, one insertion per line after the header until a value does not convert, then one `pack` exactly when none failed; the packed entry count is the number of those lines |
| MatrixMarket.ReadBody | src/io/mtx_file_format.cpp:35-41 | the entry loop followed by `pack` only if nothing threw |
| MatrixMarket.ReadEntries | src/io/mtx_file_format.cpp:35-40 | the entry loop logs the insertions of the converted prefix; it succeeds exactly when every value converts; a tensor of another order accepts no line |
| MatrixMarket.ReadEntry | src/io/mtx_file_format.cpp:36-39 | one pass: parse, convert (invalid argument when `stod` throws), insert (user error when the tensor is not a matrix) |
| MatrixMarket.EntryLineIsOneBased | src/io/mtx_file_format.cpp:37-39 | a line `r c v` is read as row `r`, column `c` and value text `v` |
| MatrixMarket.CommentAfterHeaderInserts | src/io/mtx_file_format.cpp:35-39 | a `%` line after the header is not skipped: `rowind` becomes 0, and `colind` and `val` keep the previous line's values |
| MatrixMarket.NameLine | src/io/mtx_file_format.cpp:48 | the name line is a comment line, without a break when the name has none |
| MatrixMarket.HeaderLine | src/io/mtx_file_format.cpp:50 | the size line has no break and does not start with `%` or a blank |
| MatrixMarket.WriteFile | src/io/mtx_file_format.cpp:44-51 | the text is four comment lines (the third names the tensor) then the size line, each ended by a break |
| MatrixMarket.WriteThenRead | src/io/mtx_file_format.cpp:44-51 | reading back what `writeFile` wrote finds the header on the fifth line and returns the written `nrow`, `ncol` and `nnzero`, with no entry lines |
| MatrixMarket.WrittenLinesReadBack | src/io/mtx_file_format.cpp:44-51 | the written text splits back into the five written lines |
| MatrixMarket.WrittenHeaderIsFound | src/io/mtx_file_format.cpp:46-50 | the four written comment lines are skipped and the size line is the header |
| MatrixMarket.HeaderAfterComments | src/io/mtx_file_format.cpp:22-33 | after four comment lines, a non-comment fifth line is the header |
| MatrixMarket.ReadsWrittenHeader | src/io/mtx_file_format.cpp:30 | parsing the written size line returns the three numbers written |

## Left out

- Tensors.TensorBase.Insert: `insert` is declared in `tensor.h`, which is not part of this model. It is modelled only by the effect `pack` relies on: one record per call, written at the first unused place.
- Tensors.TensorBase.constructor: requires the format completion to succeed. The user error for a mismatched order and the not-supported error for another mode type are stated by `StorageModel.CompleteFormat` and `StorageModel.DefaultLevelArrayTypes`.
- Tensors.TensorBase.Pack: for order 0 it requires a record in the buffer, as the source reads the first record without checking.
- Tensors.TensorBase.Pack: for order 0 the source empties the buffer but keeps the used count. Later insertions then write past the end of the buffer. `Insert` requires the used count to fit the buffer, so the model does not cover inserting into a scalar after it was packed.
- Tensors.TensorBase.AssignScalar: `makeReductionNotation` is a parameter; its body is not part of this model. The contract says the tensor holds its image of the assignment, not what that image is.
- Tensors.TensorBase.GetType: the `int`-to-`size_t` conversion of a negative dimension is written as a wrap-around; the contract speaks only of dimensions that fit.
- `storage::pack` and the index it builds are not part of this model. `pack` records the arguments it passes (`PackedFrom`).
- The duplicate check in `pack` compares two freshly allocated pointers, so it never drops a record. The model keeps every record (`Tensors.PackKeepsEveryRecord`).
- `lexicographicalCmp` subtracts two `int`s, which can overflow. The model compares the unbounded difference.
- `qsort` is not stable. The model sorts by insertion, which fixes one order among records with equal coordinates.
- The value half of `equals` (`equalsTyped`, the per-kind scalar comparison) is left out; only the structural prefix is modelled.
- `compile`, `assemble`, `compute`, `evaluate`, `packTensorData`, `freeTensorData`, `getTacoTensorT`, the printing functions and the source/IR getters are left out; they call the code generator and the module loader.
- The `.tns` and `.rb` readers and writers are left out. The model only says which handler each extension reaches.
- `MatrixMarket.ReadFile`: the file is given as its lines. `std::stod` is a parameter, and so is the character `operator>>` leaves in an unset `char`. Floating-point parsing is not modelled.
- MatrixMarket.ReadFile: the source parses every value as a `double` and inserts that `double`, whatever the component type. Here `stod` stands for the parse and the conversion to the component's bytes together. For a component type other than Float64 the outcome depends on the `insert` of `tensor.h`, which is not part of this model, so the success condition is stated for this combined conversion and not for `insert<double>`.
- MatrixMarket.ReadBody: the same combined conversion as `ReadFile`; the source inserts a `double`.
- MatrixMarket.ReadEntries: the same combined conversion as `ReadFile`; the source inserts a `double`.
- MatrixMarket.ReadEntry: every value `stod` rejects is reported as an invalid argument. The source throws `std::out_of_range` instead for a value too large for a `double`, such as `1e999`; the model does not tell the two exceptions apart.
- MatrixMarket.ReadEntry: inserts the bytes `stod` yields, where the source inserts a `double`; the conversion to the component type is folded into `stod`.
- `MatrixMarket.ReadEntries` and `MatrixMarket.ReadEntry` take the line parser as a parameter; `ReadFile` passes the `operator>>` model (`ParseEntry`).
- `MatrixMarket.WriteThenRead`: a tensor name with a line break is excluded from the round trip, since it splits the name line.
- `MatrixMarket.ReadFile`: the `int` out-parameters are unbounded; overflow in `operator>>` is not modelled.
- `replace` looks expressions and statements up by node identity; the model compares them structurally.
- The unions `ComponentTypeUnion` and `IndexTypeUnion` are left out; they only store values.
- `max_type` and the bodies of the `DataType` functions are in `type.cpp`, which is not part of this model. Widths follow the conventional sizes, and `sizeof(long)` is 8.
- A mode type other than Dense or Sparse stands for every other mode type; the model only uses it to take the not-supported path.
