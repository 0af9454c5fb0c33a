# TensorFlow graph import and VE device runtime, modelled in Dafny

This project models two parts of TensorFlow.

**The GraphDef importer** (`import_model.cc`) turns a TensorFlow graph into an
MLIR function of the `tf_executor` dialect. `ImporterBase` is a class whose
fields the importer updates step by step:
- the graph;
- the node order;
- the back edges it removed;
- the shape refiner;
- the map from nodes to the operations built for them;
- the function body under construction.

It is modelled as the class `Importer.Importer`. The module and the table from
library function names to symbol names are shared between an importer and its
child importers; they live in the class `Importer.Module`. Each step of the
import is a method of `Importer.Importer`:
- removing back edges and recording them;
- seeding the shape refiner and refining shapes to a bounded fixpoint;
- converting every node into an operation;
- converting called library functions on demand;
- restoring the back edges;
- wiring arguments and returns.

Each method is proved against specification functions. Those functions live
in these modules: `BackEdges`, `Shapes`, `AttrConvert`, `NodeConvert`,
`EdgeOrder`, `Ir` and `TfGraph`.

Three more pieces come from the same file:
- the LegacyFedInput preprocessing of a GraphDef (`LegacyInputs`);
- the inference of the main function's signature from the declared inputs
  and output arrays (`MainSignature`);
- the naming of the objects of a SavedModel's object graph (`ObjectNames`).

**The VE device** (`ve_device.cc`) runs kernels on an NEC Vector Engine. The
model covers five operations:
- the sub-allocator that hands out aligned device blocks with a header word;
- kernel calls;
- the loading of the kernel table;
- the process-wide handle factory;
- the device's choice of allocator.

The VEO runtime library's answers become parameters of these methods.

Collaborators whose code is not part of this model are function-valued fields
of `ImportConfig.Env`:
- graph cloning and back edge removal (BackEdgeHelper);
- reverse post order;
- pruning;
- the shape refiner's shape functions;
- shape construction;
- unique function names;
- attribute name mangling;
- tensor decoding.

Validity of the graph is a subset type, so the properties those collaborators
guarantee are part of their types.

## Model

| member | source | states |
|---|---|---|
| Importer.Module.constructor | tensorflow/compiler/mlir/tensorflow/translate/import_model.cc:103-113 | A new module has no functions and an empty name table. |
| Importer.Importer.constructor | tensorflow/compiler/mlir/tensorflow/translate/import_model.cc:103-113 | A new importer keeps the library, the import configuration, the shared module and the collaborators. All of its per-graph state is empty, and its shape refiner is fresh. |
| Importer.Importer.RemoveBackedges | tensorflow/compiler/mlir/tensorflow/translate/import_model.cc:378-416 | A failure to clone is passed on. If one source leaves by two different outputs, the result is FailedPrecondition. Otherwise the graph is the clone without back edges, the two back-edge maps are what the recording loop builds, and the nodes are in reverse post order. |
| BackEdges.Record | tensorflow/compiler/mlir/tensorflow/translate/import_model.cc:397-408 | The recording loop fails only with FailedPrecondition and the message about more than one backedge output. |
| BackEdges.RecordSucceeds | tensorflow/compiler/mlir/tensorflow/translate/import_model.cc:397-408 | Recording from edge k succeeds exactly when no later edge leaves a recorded source, or another later edge's source, from a different output. |
| BackEdges.RecordOuts | tensorflow/compiler/mlir/tensorflow/translate/import_model.cc:399-405 | After recording, the output map covers the old keys plus every later source. Old entries stay, and each source maps to its back-edge output. |
| BackEdges.RecordDstKeys | tensorflow/compiler/mlir/tensorflow/translate/import_model.cc:406-407 | The destination map covers the old keys plus every later edge's destination. |
| BackEdges.RecordDstLast | tensorflow/compiler/mlir/tensorflow/translate/import_model.cc:406-407 | A destination maps to the last removed edge into it. |
| BackEdges.RecordKeepsUntouched | tensorflow/compiler/mlir/tensorflow/translate/import_model.cc:406-407 | A destination that no later edge enters keeps its entry. |
| BackEdges.RecordBackEdges | tensorflow/compiler/mlir/tensorflow/translate/import_model.cc:397-408 | The loop fails exactly when two removed edges leave one node from different outputs. Otherwise every source maps to its single back-edge output and every destination to its last removed edge, and nothing else is recorded. |
| TfGraph.FilterMembership | tensorflow/compiler/mlir/tensorflow/translate/import_model.cc:426-434 | The out-edge, in-edge and remaining-edge filters hold exactly the edges with the stated endpoint. |
| TfGraph.Rewire | tensorflow/compiler/mlir/tensorflow/translate/import_model.cc:428-431 | A moved edge leaves the placeholder and keeps its destination. It stays a control edge if it was one; a data edge now leaves port 0. |
| TfGraph.RewireAll | tensorflow/compiler/mlir/tensorflow/translate/import_model.cc:426-432 | Every out-edge is rewired in order. |
| TfGraph.MoveFirstOutEdge | tensorflow/compiler/mlir/tensorflow/translate/import_model.cc:426-432 | One turn of the rewiring loop removes the first out-edge and appends its rewired copy. The out-edges left are the rest of the old ones. |
| TfGraph.MoveOutEdges | tensorflow/compiler/mlir/tensorflow/translate/import_model.cc:426-432 | The rewiring loop leaves the edges that do not leave the input, followed by every out-edge of the input rewired to the placeholder, in order. |
| TfGraph.ReplacedGraphValid | tensorflow/compiler/mlir/tensorflow/translate/import_model.cc:418-437 | The graph after the substitution is valid again. |
| TfGraph.ReplaceWithPlaceholderNode | tensorflow/compiler/mlir/tensorflow/translate/import_model.cc:418-437 | The Placeholder gets the next id, the input's name, the declared shape and dtype, and one output. The input node is gone. The edges are the rewired out-edges minus the input's in-edges. |
| TfGraph.PlaceholderTakesOverOutEdges | tensorflow/compiler/mlir/tensorflow/translate/import_model.cc:418-437 | After the substitution nothing refers to the replaced node. Every out-edge other than a self-loop now leaves the placeholder. Every other edge survives. |
| TfGraph.MovedEdgesLeaveP | tensorflow/compiler/mlir/tensorflow/translate/import_model.cc:428-431 | Every rewired edge leaves the placeholder, from port 0 when it carries data. |
| TfGraph.RewiredEdgesKept | tensorflow/compiler/mlir/tensorflow/translate/import_model.cc:426-436 | No out-edge of the input that is not a self-loop is lost. |
| ImportConfig.GetInputOutputNodes | tensorflow/compiler/mlir/tensorflow/translate/import_model.cc:439-461 | Success exactly when every declared input and output array names a node. The result is the set of those names. Otherwise the error is FailedPrecondition naming the first missing one. |
| ImportConfig.SeedInputShapes | tensorflow/compiler/mlir/tensorflow/translate/import_model.cc:891-904 | For a library function's `_input_shapes`, each input argument that no later argument shadows is declared with its own dtype and shape i. Nothing else is declared. A list longer than the signature is an error. |
| ImportConfig.DeclareStep | tensorflow/compiler/mlir/tensorflow/translate/import_model.cc:896-903 | Declaring argument i keeps both halves of the loop invariant. |
| Importer.Importer.SeedInput | tensorflow/compiler/mlir/tensorflow/translate/import_model.cc:486-505 | A declared input gets its declared attributes in place when it is placeholder-like. Otherwise a Placeholder replaces it, and an input with several outputs is refused with FailedPrecondition. Any other node is left alone. |
| Importer.Importer.SeedNode | tensorflow/compiler/mlir/tensorflow/translate/import_model.cc:474-555 | One turn of the seeding loop does the graph step, gives the resulting node a refiner context and sets its attribute-given shapes. A node missing from the graph is Internal. |
| Importer.SeedStep | tensorflow/compiler/mlir/tensorflow/translate/import_model.cc:474-555 | One seeded node keeps three invariants: every visited node has a context and every visited declared input carries its declared dtype and shape; inputs that were not placeholder-like are gone; nodes not visited yet are unchanged. |
| Importer.SeedStepSkipped | tensorflow/compiler/mlir/tensorflow/translate/import_model.cc:486-487 | A node that is not a declared input keeps the seeding invariants. |
| Importer.SeedStepInPlace | tensorflow/compiler/mlir/tensorflow/translate/import_model.cc:501-504 | A placeholder-like declared input keeps the seeding invariants once its attributes are set in place. |
| Importer.SeedStepReplaced | tensorflow/compiler/mlir/tensorflow/translate/import_model.cc:489-500 | A replaced declared input keeps the seeding invariants. |
| Importer.ReplacedKeepsSeeded | tensorflow/compiler/mlir/tensorflow/translate/import_model.cc:497-508 | After the replacement, the Placeholder has a context and carries the declared input. |
| Importer.Importer.SetOutputShapes | tensorflow/compiler/mlir/tensorflow/translate/import_model.cc:526-536 | Output i of the node's context holds the handle of `_output_shapes` entry i. Every other context is unchanged. |
| Importer.Importer.AnnotateShapes | tensorflow/compiler/mlir/tensorflow/translate/import_model.cc:510-554 | A ReadVariableOp gets every `_output_shapes` entry. An `_Arg` gets its `shape` attribute as output 0, or the unknown shape when it has none. Other nodes are untouched. |
| Importer.Importer.SeedShapeRefiner | tensorflow/compiler/mlir/tensorflow/translate/import_model.cc:474-555 | After the loop over all ordered nodes, the seeding invariants hold for all of them. |
| Importer.Importer.AddNodesToShapeRefiner | tensorflow/compiler/mlir/tensorflow/translate/import_model.cc:464-644 | The refiner is fresh and seeded. The graph is the seeded graph, fixed up and pruned when pruning is on. The nodes are in reverse post order, and the contexts are the bounded fixpoint of the shape functions. |
| Importer.Importer.PrepareConvert | tensorflow/compiler/mlir/tensorflow/translate/import_model.cc:925-929 | PrepareConvert is RemoveBackedges followed by AddNodesToShapeRefiner. On success every ordered node is in the graph, in reverse post order. |
| Shapes.ConvertElementTypeAndShape | tensorflow/compiler/mlir/tensorflow/translate/import_model.cc:688-713 | An unknown rank gives an unranked type. Otherwise each dimension keeps its known size and an unknown size becomes -1. |
| Shapes.ConvertedEqualImpliesSame | tensorflow/compiler/mlir/tensorflow/translate/import_model.cc:588-607 | Two shapes that convert to the same IR type pass the convergence test. |
| Shapes.SameInferredShapeIsCoarser | tensorflow/compiler/mlir/tensorflow/translate/import_model.cc:588-607 | The converse fails: an unknown size matches a known one although the IR types differ. |
| Shapes.ConvertSubtypes | tensorflow/compiler/mlir/tensorflow/translate/import_model.cc:715-732 | No handle data gives no subtypes. Otherwise each subtype is converted with its own dtype. |
| Shapes.ConvertDataTypeAndShape | tensorflow/compiler/mlir/tensorflow/translate/import_model.cc:669-686 | A variant dtype carries its converted subtypes. Any other dtype goes through the codec. |
| Shapes.Step | tensorflow/compiler/mlir/tensorflow/translate/import_model.cc:614-632 | One UpdateNode keeps the set of nodes that have contexts. |
| Shapes.PassFrom | tensorflow/compiler/mlir/tensorflow/translate/import_model.cc:612-635 | A round keeps the context keys and never clears the changed flag. |
| Shapes.Fixpoint | tensorflow/compiler/mlir/tensorflow/translate/import_model.cc:609-643 | The loop runs at most two rounds (kMaxIterationCount). It runs one more round while something changed, and keeps the context keys. |
| Shapes.PassFromSucceeds | tensorflow/compiler/mlir/tensorflow/translate/import_model.cc:612-635 | With shape functions that succeed, a round succeeds. |
| Shapes.FixpointSucceeds | tensorflow/compiler/mlir/tensorflow/translate/import_model.cc:609-643 | The loop itself never fails, converged or not. |
| Shapes.FixpointStopsWhenUnchanged | tensorflow/compiler/mlir/tensorflow/translate/import_model.cc:609-643 | A first round that changes nothing ends the loop after one round. |
| Shapes.ShapeRefiner.constructor | tensorflow/compiler/mlir/tensorflow/translate/import_model.cc:465-466 | A new refiner has no contexts. |
| Shapes.ShapeRefiner.AddNode | tensorflow/compiler/mlir/tensorflow/translate/import_model.cc:507-508 | AddNode records the node's computed context, or leaves the contexts alone and fails. |
| Shapes.ShapeRefiner.SetOutput | tensorflow/compiler/mlir/tensorflow/translate/import_model.cc:532-535 | Output i of the node becomes h. A missing node or output is Internal and changes nothing. |
| Shapes.ShapeRefiner.UpdateAndCompare | tensorflow/compiler/mlir/tensorflow/translate/import_model.cc:614-632 | One UpdateNode call, and whether an output changed, agree with Step. |
| Shapes.RefineToFixpoint | tensorflow/compiler/mlir/tensorflow/translate/import_model.cc:609-643 | The refinement loop leaves the contexts and the round count that Fixpoint computes. |
| NodeConvert.KeptOutputsMembers | tensorflow/compiler/mlir/tensorflow/translate/import_model.cc:1252-1261 | The result types cover exactly the outputs other than the back-edge output. |
| NodeConvert.KeptOutputsIndex | tensorflow/compiler/mlir/tensorflow/translate/import_model.cc:1252-1261 | Result k is output k below the skipped index and output k+1 from it on. |
| NodeConvert.KeptOutputsAscending | tensorflow/compiler/mlir/tensorflow/translate/import_model.cc:1252-1261 | Result types follow output order. |
| NodeConvert.InferTypes | tensorflow/compiler/mlir/tensorflow/translate/import_model.cc:658-667 | Success exactly when every listed output's type infers. The types come back in order. |
| NodeConvert.CollectResultTypes | tensorflow/compiler/mlir/tensorflow/translate/import_model.cc:1252-1261 | Success exactly when every kept output infers. Result k is the inferred type of the k-th kept output. |
| Importer.Importer.ResultTypes | tensorflow/compiler/mlir/tensorflow/translate/import_model.cc:1252-1261 | ConvertNode's result types are every output except the recorded back-edge output, as the refiner inferred them. |
| EdgeOrder.Insert | tensorflow/compiler/mlir/tensorflow/translate/import_model.cc:1272-1276 | Inserting an edge adds it to the multiset. |
| EdgeOrder.StableSort | tensorflow/compiler/mlir/tensorflow/translate/import_model.cc:1272-1276 | The sort permutes the incoming edges. |
| EdgeOrder.StableSortSorted | tensorflow/compiler/mlir/tensorflow/translate/import_model.cc:1272-1276 | The sorted edges are ordered by the comparator. |
| EdgeOrder.StableSortStable | tensorflow/compiler/mlir/tensorflow/translate/import_model.cc:1272-1276 | Edges the comparator ties keep their relative order. |
| EdgeOrder.SortedEdgeLayout | tensorflow/compiler/mlir/tensorflow/translate/import_model.cc:1272-1276 | Data edges come before control edges. Data edges ascend by destination input. |
| NodeConvert.ResolveEdge | tensorflow/compiler/mlir/tensorflow/translate/import_model.cc:1283-1314 | A _SOURCE edge is skipped when it is the only edge, and is FailedPrecondition otherwise. A control edge from _Arg is dropped. An unconverted predecessor is the reverse post order error. A control edge uses the predecessor's last result; a data edge uses its result at the source output. |
| NodeConvert.GatherPrefixFailure | tensorflow/compiler/mlir/tensorflow/translate/import_model.cc:1283-1314 | The first failing edge decides the error of the operand loop. |
| NodeConvert.ResolveOperands | tensorflow/compiler/mlir/tensorflow/translate/import_model.cc:1283-1314 | The operand loop computes Gather over the sorted edges. |
| NodeConvert.GatherMeaning | tensorflow/compiler/mlir/tensorflow/translate/import_model.cc:1283-1314 | When the operands resolve: every edge's source is in the graph; no _SOURCE edge appears unless it is the only one; the data and control operands are the sources' values in edge order. |
| NodeConvert.GatherSources | tensorflow/compiler/mlir/tensorflow/translate/import_model.cc:1284-1292 | Every resolved edge has a source node, and no _SOURCE unless it is alone. |
| NodeConvert.GatherData | tensorflow/compiler/mlir/tensorflow/translate/import_model.cc:1312-1313 | Each data operand is the data edge's source result, in order. |
| NodeConvert.GatherControls | tensorflow/compiler/mlir/tensorflow/translate/import_model.cc:1293-1311 | Each control operand is the last result of the control edge's source, in order. |
| Importer.Importer.NodeOperands | tensorflow/compiler/mlir/tensorflow/translate/import_model.cc:1270-1314 | The operands come from the sorted in-edges, resolved against the converted nodes. |
| Importer.Importer.OperationInputs | tensorflow/compiler/mlir/tensorflow/translate/import_model.cc:1252-1314 | The result types come first, then the operands. The first failure is returned. |
| NodeConvert.CreateOperation | tensorflow/compiler/mlir/tensorflow/translate/import_model.cc:1150-1221 | Executor operations get an extra control result, with control operands after the data operands. NextIteration becomes a source at the top of the body and a sink fed by its token. Any other operation is wrapped in an island over the control operands that yields every result. Existing operations are kept, and ids stay below the next id. |
| NodeConvert.OpNameFor | tensorflow/compiler/mlir/tensorflow/translate/import_model.cc:1239-1247 | The name is `tf.` plus the type name, with `.sink` for a back-edge source, and tf.If or tf.While for the If and While families. |
| NodeConvert.YieldAll | tensorflow/compiler/mlir/tensorflow/translate/import_model.cc:1218-1219 | An island yields every result of the wrapped operation. |
| NodeConvert.PlainAttrs | tensorflow/compiler/mlir/tensorflow/translate/import_model.cc:1319-1331 | The converted list has one entry per non-function attribute. |
| NodeConvert.NodeAttrs | tensorflow/compiler/mlir/tensorflow/translate/import_model.cc:1316-1362 | Succeeds exactly when the non-function attributes and the sorted function attributes convert. The list is the converted non-function attributes in iteration order, then the sorted function attributes expanded, then name and device; for If and While, is_stateless comes last and is true exactly for the stateless variants. |
| NodeConvert.PlainAttrsEntries | tensorflow/compiler/mlir/tensorflow/translate/import_model.cc:1319-1331 | Entry j of the converted non-function attributes is the j-th non-function attribute under its own name with its value converted. |
| NodeConvert.PlainAttrsSucceeds | tensorflow/compiler/mlir/tensorflow/translate/import_model.cc:1319-1331 | Converting the non-function attributes fails exactly when one of their values does not convert. |
| NodeConvert.FuncEntriesAppend | tensorflow/compiler/mlir/tensorflow/translate/import_model.cc:1337-1340 | The expansions of two runs of function attributes are those of the first followed by those of the second. |
| NodeConvert.FuncEntriesSingle | tensorflow/compiler/mlir/tensorflow/translate/import_model.cc:1337-1340 | One function attribute expands to its own entries. |
| NodeConvert.PlainAttrsExtend | tensorflow/compiler/mlir/tensorflow/translate/import_model.cc:1319-1331 | One more non-function attribute appends its conversion. |
| NodeConvert.PlainAttrsSkip | tensorflow/compiler/mlir/tensorflow/translate/import_model.cc:1319-1331 | A function attribute is set aside by the first loop. |
| NodeConvert.PlainAttrsStable | tensorflow/compiler/mlir/tensorflow/translate/import_model.cc:1319-1331 | Converted attributes do not change when the name table grows later. |
| NodeConvert.FuncEntriesStable | tensorflow/compiler/mlir/tensorflow/translate/import_model.cc:1337-1340 | Expanded function attributes do not change when the name table grows. |
| Importer.Importer.ConvertPlainAttrs | tensorflow/compiler/mlir/tensorflow/translate/import_model.cc:1319-1331 | The attribute loop computes PlainAttrs under the final name table. |
| Importer.Importer.ConvertFuncAttrs | tensorflow/compiler/mlir/tensorflow/translate/import_model.cc:1333-1340 | The function attributes are sorted by name and each one is expanded. |
| Importer.Importer.ConvertNodeAttributes | tensorflow/compiler/mlir/tensorflow/translate/import_model.cc:1316-1362 | ConvertNode's attributes are NodeAttrs under the final name table. The table only grows. |
| AttrConvert.ConvertTensors | tensorflow/compiler/mlir/tensorflow/translate/import_model.cc:793-796 | Success exactly when every tensor decodes. The decoded tensors come back in order. |
| AttrConvert.ListedFuncAttrs | tensorflow/compiler/mlir/tensorflow/translate/import_model.cc:797-803 | Each listed function becomes its symbol. A function with nested attributes is refused. |
| AttrConvert.AttrSpec | tensorflow/compiler/mlir/tensorflow/translate/import_model.cc:757-816 | A function value is an Unknown error here. An unset value becomes a unit attribute. A placeholder is Unimplemented. A converted list holds no function with nested attributes. |
| AttrConvert.ListFlatteningRoundTrip | tensorflow/compiler/mlir/tensorflow/translate/import_model.cc:775-806 | The flattening order ints, strings, floats, bools, types, shapes loses nothing: read back by kind, it gives the list again. |
| AttrConvert.UnflattenAppend | tensorflow/compiler/mlir/tensorflow/translate/import_model.cc:775-806 | Reading back a concatenation merges the two read-backs. |
| AttrConvert.UnflattenScalars | tensorflow/compiler/mlir/tensorflow/translate/import_model.cc:776-792 | The six scalar runs read back as the list's scalars. |
| AttrConvert.UnflattenInts | tensorflow/compiler/mlir/tensorflow/translate/import_model.cc:777-778 | The int run reads back as the ints. |
| AttrConvert.UnflattenStrs | tensorflow/compiler/mlir/tensorflow/translate/import_model.cc:779-780 | The string run reads back as the strings. |
| AttrConvert.UnflattenFloats | tensorflow/compiler/mlir/tensorflow/translate/import_model.cc:781-782 | The float run reads back as the floats. |
| AttrConvert.UnflattenBools | tensorflow/compiler/mlir/tensorflow/translate/import_model.cc:783-784 | The bool run reads back as the bools. |
| AttrConvert.UnflattenTypes | tensorflow/compiler/mlir/tensorflow/translate/import_model.cc:785-788 | The type run reads back as the types. |
| AttrConvert.UnflattenShapes | tensorflow/compiler/mlir/tensorflow/translate/import_model.cc:789-792 | The shape run reads back as the shapes. |
| AttrConvert.FuncAttrEntries | tensorflow/compiler/mlir/tensorflow/translate/import_model.cc:734-747 | A function attribute becomes `base` with the function's symbol, followed by one `base.key` entry per nested attribute, converted. |
| AttrConvert.NestedEntries | tensorflow/compiler/mlir/tensorflow/translate/import_model.cc:741-745 | Nested attribute k becomes `base.key_k` with its converted value. |
| AttrConvert.ExpandedNamesDistinct | tensorflow/compiler/mlir/tensorflow/translate/import_model.cc:734-747 | Distinct nested keys give distinct entry names, none equal to `base`. |
| AttrConvert.FuncAttrs | tensorflow/compiler/mlir/tensorflow/translate/import_model.cc:1319-1327 | The set-aside function attributes are no more than the attributes. |
| AttrConvert.FuncAttrsMembers | tensorflow/compiler/mlir/tensorflow/translate/import_model.cc:1319-1327 | The set-aside attributes are exactly those holding a function. |
| AttrConvert.SortByName | tensorflow/compiler/mlir/tensorflow/translate/import_model.cc:1333-1336 | Sorting the function attributes permutes them. |
| AttrConvert.SortByNameSorted | tensorflow/compiler/mlir/tensorflow/translate/import_model.cc:1333-1336 | The function attributes come out ordered by name. |
| AttrConvert.ListedFuncAttrsStable | tensorflow/compiler/mlir/tensorflow/translate/import_model.cc:797-803 | Listed functions convert the same way under any larger name table. |
| AttrConvert.AttrSpecStable | tensorflow/compiler/mlir/tensorflow/translate/import_model.cc:757-816 | A converted value stays the same under any larger name table. |
| AttrConvert.NestedEntriesStable | tensorflow/compiler/mlir/tensorflow/translate/import_model.cc:741-745 | Nested entries stay the same under any larger name table. |
| AttrConvert.FuncAttrEntriesStable | tensorflow/compiler/mlir/tensorflow/translate/import_model.cc:734-747 | The expansion stays the same under any larger name table. |
| Importer.Importer.ConvertAttributeValue | tensorflow/compiler/mlir/tensorflow/translate/import_model.cc:757-816 | The result is AttrSpec under the table as it stands afterwards. Only the functions of a list are converted on demand. The table only grows. |
| Importer.Importer.ConvertFunctionCallAttribute | tensorflow/compiler/mlir/tensorflow/translate/import_model.cc:734-747 | The result is FuncAttrEntries under the final table, with the function converted first. |
| Importer.Importer.ConvertFunctionCallName | tensorflow/compiler/mlir/tensorflow/translate/import_model.cc:749-755 | The function is converted on demand and referred to by its symbol. A function missing from the library is FailedPrecondition. |
| Importer.DefAttrs | tensorflow/compiler/mlir/tensorflow/translate/import_model.cc:857-867 | Each of a library function's own attributes is converted and named by its mangled name, in order. |
| Importer.DefAttrsStable | tensorflow/compiler/mlir/tensorflow/translate/import_model.cc:857-867 | A library function's converted attributes do not change when the table grows. |
| Importer.LibFunctionAttrs | tensorflow/compiler/mlir/tensorflow/translate/import_model.cc:857-886 | The attributes are the function's own, then the stateful flag exactly when the signature is stateful, then the gradient's symbol when the function has a gradient. |
| Importer.LibFunctionAttrsStable | tensorflow/compiler/mlir/tensorflow/translate/import_model.cc:857-886 | The attribute list does not change when the table grows. |
| Importer.Importer.ConvertDefAttrs | tensorflow/compiler/mlir/tensorflow/translate/import_model.cc:857-867 | The loop over the function's own attributes computes DefAttrs. |
| Importer.Importer.ConvertLibFunctionAttrs | tensorflow/compiler/mlir/tensorflow/translate/import_model.cc:857-886 | The function gets its attribute list as LibFunctionAttrs describes it, with the gradient converted first. |
| Importer.Importer.ConvertFunctionBody | tensorflow/compiler/mlir/tensorflow/translate/import_model.cc:891-921 | A child importer that shares the module and table prepares the body, infers its type and converts it under the function's symbol. |
| Importer.Importer.ConvertLibFunction | tensorflow/compiler/mlir/tensorflow/translate/import_model.cc:833-923 | A function that already has a symbol name is left alone. Otherwise the name is recorded first. A function missing from the library is FailedPrecondition. On success the function is named, and the table and module only grow. |
| Importer.PendingCountIsSize | tensorflow/compiler/mlir/tensorflow/translate/import_model.cc:836-841 | The on-demand conversion measure is the number of library functions without a name. |
| Importer.PendingShrinks | tensorflow/compiler/mlir/tensorflow/translate/import_model.cc:836-841 | Naming a function before converting it lowers that measure, so the recursion ends. |
| Importer.PendingMonotone | tensorflow/compiler/mlir/tensorflow/translate/import_model.cc:836-841 | A growing table never raises the measure. |
| Importer.Importer.InferLibFunctionType | tensorflow/compiler/mlir/tensorflow/translate/import_model.cc:1433-1466 | The argument types are output 0 of the _Arg nodes and the result types are input 0 of the _Retval nodes, as the refiner inferred them. Success exactly when all infer. |
| Importer.Importer.LibArgTypes | tensorflow/compiler/mlir/tensorflow/translate/import_model.cc:1445-1453 | Each argument type is output 0 of its _Arg node. |
| Importer.Importer.LibRetTypes | tensorflow/compiler/mlir/tensorflow/translate/import_model.cc:1455-1463 | Each result type is input 0 of its _Retval node. |
| Importer.OutputsZero | tensorflow/compiler/mlir/tensorflow/translate/import_model.cc:818-831 | A function body's arguments and returns are output 0 of each node, in order. |
| Importer.Importer.AddOperation | tensorflow/compiler/mlir/tensorflow/translate/import_model.cc:1365-1366 | The created operation is recorded as the node's value. |
| Importer.Importer.ConvertOperation | tensorflow/compiler/mlir/tensorflow/translate/import_model.cc:1250-1366 | The operation that NodeSpec describes is created and recorded, or the first failure is returned. |
| Importer.Importer.AddSpecifiedOperation | tensorflow/compiler/mlir/tensorflow/translate/import_model.cc:1365-1366 | The described operation is created and recorded as the node's value. |
| Importer.Importer.ConvertNode | tensorflow/compiler/mlir/tensorflow/translate/import_model.cc:1223-1369 | _SOURCE and _SINK are skipped. A called library function is converted first and lends its symbol. On success the node's operation is recorded as NodeSpec describes. On failure the body is unchanged. Existing operations stay, a well-formed body stays well formed, and node values stay below the next id. |
| Importer.Importer.ConvertNodes | tensorflow/compiler/mlir/tensorflow/translate/import_model.cc:952-954 | After the loop every operation node in the order has a value. The operations already in the body stay; a well-formed body (every operand names an existing result) stays well formed; node values stay below the next operation id. |
| Importer.GatherUses | tensorflow/compiler/mlir/tensorflow/translate/import_model.cc:1283-1314 | Every data and control operand the operand loop yields is a result of an operation already in the body, with an index within its results. |
| Importer.NodeSpecUses | tensorflow/compiler/mlir/tensorflow/translate/import_model.cc:1283-1314 | The operands and control operands of a node's operation use only results of operations already in the body. |
| Importer.CreateKeepsWellFormed | tensorflow/compiler/mlir/tensorflow/translate/import_model.cc:1150-1221 | createOperation on a well-formed body, with operands that use existing results, leaves a well-formed body. |
| Importer.RecordedGrows | tensorflow/compiler/mlir/tensorflow/translate/import_model.cc:1364-1368 | Recording a node's operation keeps the existing operations, keeps the body well formed when the operands use existing results, and keeps node values below the next id. |
| Importer.RecordedKeepsBody | tensorflow/compiler/mlir/tensorflow/translate/import_model.cc:1223-1369 | Converting one node keeps the existing operations, keeps a well-formed body well formed, and keeps node values below the next operation id. |
| Importer.Visited | tensorflow/compiler/mlir/tensorflow/translate/import_model.cc:474-475 | The visited set is exactly the ids of the order. |
| Importer.NodesOf | tensorflow/compiler/mlir/tensorflow/translate/import_model.cc:579-581 | Ordered nodes are looked up in order, and the lookup fails exactly when one is missing. |
| Ir.ReplaceAllUses | tensorflow/compiler/mlir/tensorflow/translate/import_model.cc:1424-1427 | replaceAllUsesWith touches every operation and the operations that islands wrap, and keeps the keys. |
| Ir.ReplaceInOp | tensorflow/compiler/mlir/tensorflow/translate/import_model.cc:1424-1427 | Within one operation, only operands change. |
| Ir.ReplaceInOperands | tensorflow/compiler/mlir/tensorflow/translate/import_model.cc:1424-1427 | Each operand is replaced pointwise. |
| Ir.ReplaceAllUsesRemovesUses | tensorflow/compiler/mlir/tensorflow/translate/import_model.cc:1424-1427 | After replacing v by a different w, nothing uses v. |
| Ir.ReplaceKeepsNoUses | tensorflow/compiler/mlir/tensorflow/translate/import_model.cc:1424-1427 | A replacement never introduces a use of another value. |
| Ir.InsertBefore | tensorflow/compiler/mlir/tensorflow/translate/import_model.cc:1419-1420 | Inserting adds the new operation and keeps the others. |
| Ir.Erase | tensorflow/compiler/mlir/tensorflow/translate/import_model.cc:1428-1429 | Erasing removes the operation and only that one. |
| Ir.RedirectAll | tensorflow/compiler/mlir/tensorflow/translate/import_model.cc:1424-1427 | The result-by-result replacement keeps the operation keys. |
| Ir.RedirectStep | tensorflow/compiler/mlir/tensorflow/translate/import_model.cc:1424-1427 | One more turn of the replacement loop moves result k as well. |
| Ir.RedirectRemovesUses | tensorflow/compiler/mlir/tensorflow/translate/import_model.cc:1424-1427 | After k turns no operation uses any of the first k results of the old operation. |
| Importer.Importer.RedirectUses | tensorflow/compiler/mlir/tensorflow/translate/import_model.cc:1424-1427 | The replacement loop computes RedirectAll. |
| BackEdges.SpliceOperand | tensorflow/compiler/mlir/tensorflow/translate/import_model.cc:1407-1415 | The rebuilt operands are the old ones with the source's result inserted at the edge's input. |
| BackEdges.SpliceRemoves | tensorflow/compiler/mlir/tensorflow/translate/import_model.cc:1407-1415 | Removing the inserted operand gives back the original operands. |
| Importer.Importer.ReplaceOperation | tensorflow/compiler/mlir/tensorflow/translate/import_model.cc:1419-1430 | The new operation goes in front of the old one and takes over all uses of its results, and the old one is erased. |
| Importer.Importer.AddBackedge | tensorflow/compiler/mlir/tensorflow/translate/import_model.cc:1397-1431 | The destination is rebuilt with the NextIteration source's result 0 spliced in. Every use of an old result moves to the same result of the new operation. A missing operation is Internal and changes nothing. |
| Importer.Importer.AddBackedges | tensorflow/compiler/mlir/tensorflow/translate/import_model.cc:1383-1395 | Every recorded destination is visited once, and the body afterwards is RestoreAll over the order taken. On success every recorded back edge runs from a NextIteration to a Merge; a FailedPrecondition means one of them does not. |
| BodyEdits.BackedgeCheck | tensorflow/compiler/mlir/tensorflow/translate/import_model.cc:1398-1421 | AddBackedge succeeds exactly when the sink has a token operand, the destination exists and the input position is within or just past its operands; otherwise Internal. |
| BodyEdits.RestoreOne | tensorflow/compiler/mlir/tensorflow/translate/import_model.cc:1384-1393 | One back edge succeeds exactly when it runs from a NextIteration to a Merge, both nodes were converted and AddBackedge can rebuild; an invalid edge is the FailedPrecondition with the source message, anything else Internal. |
| BodyEdits.RestoreAllSnoc | tensorflow/compiler/mlir/tensorflow/translate/import_model.cc:1384-1393 | Restoring one more destination is RestoreOne on the body restored so far. |
| BodyEdits.RestoreAllChecked | tensorflow/compiler/mlir/tensorflow/translate/import_model.cc:1384-1393 | After success every restored edge was valid; a FailedPrecondition carries the invalid-backedge message and names an invalid edge. |
| BodyEdits.RestoreAllMoves | tensorflow/compiler/mlir/tensorflow/translate/import_model.cc:1397-1431 | After restoring, the k-th destination is replaced by operation nextOpId + k with the NextIteration token spliced in, its uses moved there, and every other operation kept with its uses moved. |
| BodyEdits.RestoreAllRestores | tensorflow/compiler/mlir/tensorflow/translate/import_model.cc:1397-1431 | For each restored edge: the Merge operation is gone from the body and the block and nothing uses any of its results; the new operation is in both and is the old Merge with the source token at the edge input. |
| BodyEdits.RestoreAllUnused | tensorflow/compiler/mlir/tensorflow/translate/import_model.cc:1424-1429 | After restoring, nothing uses any result of a replaced destination. |
| Importer.Importer.AddRecordedBackedge | tensorflow/compiler/mlir/tensorflow/translate/import_model.cc:1384-1393 | The body becomes RestoreOne of the recorded edge: checked, then restored. On an error nothing changes, and a FailedPrecondition means the edge is not from a NextIteration to a Merge. |
| Ir.RedirectOp | tensorflow/compiler/mlir/tensorflow/translate/import_model.cc:1424-1427 | Redirecting touches only the operands. |
| BodyEdits.InputOp | tensorflow/compiler/mlir/tensorflow/translate/import_model.cc:990-1000 | The `.input` operation keeps the wrapped operation's attributes, result types and operands, renames it with `.input` and appends block argument i. |
| BodyEdits.YieldOnly | tensorflow/compiler/mlir/tensorflow/translate/import_model.cc:1001-1005 | After the replacement the island yields the chosen result of the input operation in every position. |
| BodyEdits.InputStepKeepsNoUses | tensorflow/compiler/mlir/tensorflow/translate/import_model.cc:990-1008 | Rebuilding an island adds no use of any value other than the block argument. |
| BodyEdits.WireTraceSnoc | tensorflow/compiler/mlir/tensorflow/translate/import_model.cc:970-1011 | A trace of n loop turns followed by one more turn is a trace of n + 1 turns. |
| BodyEdits.SubstStep | tensorflow/compiler/mlir/tensorflow/translate/import_model.cc:982 | Replacing the uses of one more _Arg result composes with the substitution of the earlier ones. |
| BodyEdits.RewiredSubst | tensorflow/compiler/mlir/tensorflow/translate/import_model.cc:985-1009 | Rebuilding an island around its `.input` operation commutes with substituting block arguments. |
| BodyEdits.ArgStep | tensorflow/compiler/mlir/tensorflow/translate/import_model.cc:981-986 | A turn on an _Arg node keeps Wired with that node's island added to the removed ones. |
| BodyEdits.InputStep | tensorflow/compiler/mlir/tensorflow/translate/import_model.cc:988-1009 | A turn on another input node keeps Wired with that node's island added to the rewired ones. |
| BodyEdits.TraceWired | tensorflow/compiler/mlir/tensorflow/translate/import_model.cc:970-1011 | After n turns over argument nodes with distinct operations: the _Arg islands are gone from the body and the block, every other input island wraps its `.input` operation fed by its block argument, every other operation stays, and each use of an _Arg result 0 is now its block argument. |
| BodyEdits.WiredNoUses | tensorflow/compiler/mlir/tensorflow/translate/import_model.cc:982-984 | After wiring nothing uses result 0 of an _Arg island. |
| Importer.Importer.WireArgument | tensorflow/compiler/mlir/tensorflow/translate/import_model.cc:970-1011 | Succeeds exactly when the node has an island (and, for a non-_Arg node, the index names a wrapped result); the new body is the WireTurn of the old one: an _Arg island is replaced by block argument i and erased, any other input is rebuilt around its `.input` operation. On error nothing changes. |
| Importer.Importer.ConvertArgs | tensorflow/compiler/mlir/tensorflow/translate/import_model.cc:970-1011 | The bodies after each turn form a WireTrace from the old body to the new one; on an Internal error the trace stops at the argument that could not be wired. |
| Importer.Importer.ConvertRets | tensorflow/compiler/mlir/tensorflow/translate/import_model.cc:1013-1033 | A _Retval or _DeviceRetval returns the single operand of its wrapped operation, and its island is erased; more operands are Unimplemented. Any other node returns its result at the given index. |
| Importer.Importer.FetchReturn | tensorflow/compiler/mlir/tensorflow/translate/import_model.cc:1014-1032 | One return node is fetched as RetFetched describes. |
| Importer.Importer.ControlRets | tensorflow/compiler/mlir/tensorflow/translate/import_model.cc:1035-1038 | Each control return is the last (control) result of the node's operation; a missing node is Internal. |
| Importer.Importer.ConvertFunctionArgAndRets | tensorflow/compiler/mlir/tensorflow/translate/import_model.cc:964-1045 | The arguments are wired (a full WireTrace). The fetch is the returns as RetsFetched gives them, then the last result of each control return node, in order; an Unimplemented failure names a return with several operands. |
| Importer.Importer.Convert | tensorflow/compiler/mlir/tensorflow/translate/import_model.cc:931-962 | The function is added to the module. Every node is converted in reverse post order, giving the body `built`. The back edges are restored over it: the visiting order covers exactly the recorded destinations, `built` has its ids below the next id, and the first body of the WireTrace is `RestoreAll` of `built` in that order, so RestoreAllRestores applies to it. When the importer starts well formed, `built` is well formed and the node values lie below its next id. The final body is the end of the WireTrace, less the operations wiring removed, and its fetch is Fetched from the returns and control returns. |
| LegacyInputs.AnyReadsNonPrimary | tensorflow/compiler/mlir/tensorflow/translate/import_model.cc:311-315 | True exactly when some input reads a non-primary output of the node. |
| LegacyInputs.HasNonPrimaryOutputInUse | tensorflow/compiler/mlir/tensorflow/translate/import_model.cc:308-322 | True exactly when some input of some node starts with `node:` and is not `node:0`. |
| LegacyInputs.PrimaryReadsDoNotCount | tensorflow/compiler/mlir/tensorflow/translate/import_model.cc:312 | The bare name, `node:0` and `^node` do not count; `node:k` for any other k does. |
| LegacyInputs.PlaceholderAttrs | tensorflow/compiler/mlir/tensorflow/translate/import_model.cc:343-346 | The Placeholder's only attributes are the declared dtype and shape. |
| LegacyInputs.UpdateLegacyFedInputNode | tensorflow/compiler/mlir/tensorflow/translate/import_model.cc:324-348 | An undeclared node is unchanged. A declared one becomes an input-less Placeholder with the declared dtype and shape only, or InvalidArgument when a non-primary output is in use. |
| LegacyInputs.UpdateFailsIff | tensorflow/compiler/mlir/tensorflow/translate/import_model.cc:324-348 | The update fails exactly for a declared input with a non-primary output in use. |
| LegacyInputs.UpdateIdempotent | tensorflow/compiler/mlir/tensorflow/translate/import_model.cc:324-348 | Once replaced, updating the node again changes nothing. |
| MainSignature.ParsePort | tensorflow/compiler/mlir/tensorflow/translate/import_model.cc:1623-1628 | An empty port is 0. A parsed port is an int32. |
| MainSignature.BareNameIsPortZero | tensorflow/compiler/mlir/tensorflow/translate/import_model.cc:1619-1628 | A bare node name denotes output 0. |
| MainSignature.PortRoundTrip | tensorflow/compiler/mlir/tensorflow/translate/import_model.cc:1619-1628 | Splitting `name:port` gives back the name and the port, for every int32 port. |
| MainSignature.NegativePortPassesRangeCheck | tensorflow/compiler/mlir/tensorflow/translate/import_model.cc:1669 | The check as written accepts `y:-1`, which names no output. |
| MainSignature.LastNamed | tensorflow/compiler/mlir/tensorflow/translate/import_model.cc:1609-1614 | The slot holds the last ordered node with the name, and is empty exactly when none has it. |
| MainSignature.KeyIndex | tensorflow/compiler/mlir/tensorflow/translate/import_model.cc:1611-1613 | `specs.inputs.find` gives the key's position, or nothing when the key is absent. |
| MainSignature.MatchOutputs | tensorflow/compiler/mlir/tensorflow/translate/import_model.cc:1617-1630 | For a node whose name is an output array, every output array naming it gets the node and its port. A bad port is InvalidArgument naming the spec. |
| MainSignature.ScanNode | tensorflow/compiler/mlir/tensorflow/translate/import_model.cc:1609-1631 | One node fills the slot of its declared input and the slots of its output arrays. |
| MainSignature.CollectEndpoints | tensorflow/compiler/mlir/tensorflow/translate/import_model.cc:1605-1632 | Failure exactly when some output array's port does not parse. Otherwise input slot k holds the last node named by key k, and output slot i holds that output array's last node and port. |
| MainSignature.CheckInputsFound | tensorflow/compiler/mlir/tensorflow/translate/import_model.cc:1634-1640 | OK exactly when every input slot is filled. Otherwise InvalidArgument names the first missing input. |
| MainSignature.CheckOutputsFound | tensorflow/compiler/mlir/tensorflow/translate/import_model.cc:1641-1646 | OK exactly when every output slot exists and is filled. Otherwise InvalidArgument names the first missing one. |
| MainSignature.ArgTypes | tensorflow/compiler/mlir/tensorflow/translate/import_model.cc:1657-1665 | There is one argument type per declared input, through the dtype and shape codecs. Success exactly when all convert. |
| MainSignature.RetTypes | tensorflow/compiler/mlir/tensorflow/translate/import_model.cc:1667-1676 | There is one result type per output array, whose index names an output. The first failure is returned. |
| MainSignature.FindEndpoints | tensorflow/compiler/mlir/tensorflow/translate/import_model.cc:1605-1647 | A bad port is InvalidArgument, and a missing input fails. On success the nodes are those the scan found. |
| MainSignature.InferMainFunctionType | tensorflow/compiler/mlir/tensorflow/translate/import_model.cc:1600-1679 | A bad port or a missing input fails. On success argument k is output 0 of the last node named by input k, typed by its declared dtype and shape. Result i is the output array's node and port, with a port that names an output, typed by the refiner. |
| ObjectNames.Visit | tensorflow/compiler/mlir/tensorflow/translate/import_model.cc:1854-1881 | Only constants, functions and variables are recorded. A named node's first record is its joined path. |
| ObjectNames.VisitChildren | tensorflow/compiler/mlir/tensorflow/translate/import_model.cc:1868-1880 | The walk over a node's children records only named kinds. |
| ObjectNames.ChildRecords | tensorflow/compiler/mlir/tensorflow/translate/import_model.cc:1869-1879 | A child on the stack is not entered. |
| ObjectNames.AppendNames | tensorflow/compiler/mlir/tensorflow/translate/import_model.cc:1861 | Appending records keeps untouched lists and never leaves an empty one. |
| ObjectNames.AppendNamesConcat | tensorflow/compiler/mlir/tensorflow/translate/import_model.cc:1854-1881 | Appending two runs of records is appending one, then the other. |
| ObjectNames.NameLessStrictTotal | tensorflow/compiler/mlir/tensorflow/translate/import_model.cc:1797-1798 | The (ends in digit, UTF-8 byte length, text) comparator is a strict total order. |
| ObjectNames.NameLessCountsBytes | tensorflow/compiler/mlir/tensorflow/translate/import_model.cc:1797-1798 | Lengths are compared in UTF-8 bytes: "ab" sorts before the two-byte "é". |
| ObjectNames.InsertName | tensorflow/compiler/mlir/tensorflow/translate/import_model.cc:1779-1799 | Inserting into a sorted list keeps it sorted and adds the name. |
| ObjectNames.SortNames | tensorflow/compiler/mlir/tensorflow/translate/import_model.cc:1779-1799 | The sort orders the names by the comparator and permutes them. |
| ObjectNames.SortedUnique | tensorflow/compiler/mlir/tensorflow/translate/import_model.cc:1777-1799 | Two sorted orderings of the same names are equal, so the names do not depend on the traversal. |
| ObjectNames.ExportedAmong | tensorflow/compiler/mlir/tensorflow/translate/import_model.cc:1800-1804 | An empty export list keeps every name. |
| ObjectNames.ExportedAmongMembers | tensorflow/compiler/mlir/tensorflow/translate/import_model.cc:1800-1804 | The kept names are exactly the exported ones. |
| ObjectNames.LeadingDigits | tensorflow/compiler/mlir/tensorflow/translate/import_model.cc:1843-1845 | The digits at the start of a string are its longest all-digit prefix. |
| ObjectNames.SymbolNameId | tensorflow/compiler/mlir/tensorflow/translate/import_model.cc:1810-1823 | The node id can be read back from a default or pretty symbol name. |
| ObjectNames.SymbolNamesDistinct | tensorflow/compiler/mlir/tensorflow/translate/import_model.cc:1810-1845 | Different objects never share a symbol-table name. |
| ObjectNames.SortedAll | tensorflow/compiler/mlir/tensorflow/translate/import_model.cc:1776-1805 | Once every object is sorted, the names map is each list sorted. |
| ObjectNames.ObjectNames.constructor | tensorflow/compiler/mlir/tensorflow/translate/import_model.cc:1765-1824 | The object names are the walk's records, each list sorted. Every object with an exported name has its exported names recorded. Every named object gets a pretty name. |
| ObjectNames.ObjectNames.RecursivelyVisitObjectGraph | tensorflow/compiler/mlir/tensorflow/translate/import_model.cc:1854-1881 | The walk appends Visit's records. The path and stack are restored afterwards. |
| ObjectNames.ObjectNames.VisitChild | tensorflow/compiler/mlir/tensorflow/translate/import_model.cc:1868-1880 | One child is entered with its name on the path and its id on the stack, unless it is already there. |
| ObjectNames.ObjectNames.SortAndExport | tensorflow/compiler/mlir/tensorflow/translate/import_model.cc:1776-1805 | Each list is sorted in place, and the exported names are collected. |
| ObjectNames.ObjectNames.SortOne | tensorflow/compiler/mlir/tensorflow/translate/import_model.cc:1779-1804 | One more object is sorted and has its exported names collected. |
| ObjectNames.ObjectNames.KeepExported | tensorflow/compiler/mlir/tensorflow/translate/import_model.cc:1800-1804 | The loop pushes exactly the exported names, in order. |
| ObjectNames.ObjectNames.NamePretty | tensorflow/compiler/mlir/tensorflow/translate/import_model.cc:1810-1823 | Every named object, and no other, gets the default name, `__`, and its first exported name, or its first name when none is exported. |
| ObjectNames.ObjectNames.GetExportedNames | tensorflow/compiler/mlir/tensorflow/translate/import_model.cc:1826-1833 | An object without exported names has none. |
| ObjectNames.ObjectNames.GetSymbolTableName | tensorflow/compiler/mlir/tensorflow/translate/import_model.cc:1835-1845 | The default `__sm_node` name is used when there is no pretty name. |
| ObjectNames.SymbolTableNamesDistinct | tensorflow/compiler/mlir/tensorflow/translate/import_model.cc:1810-1845 | After construction no two objects share a symbol-table name. |
| ObjectNames.DiagnoseMultipleConcreteFunctions | tensorflow/compiler/mlir/tensorflow/translate/import_model.cc:1912-1940 | OK exactly when no exported function has other than one concrete function. Otherwise InvalidArgument names the first such object's exported names. |
| Strings.LexLessIrreflexive | tensorflow/compiler/mlir/tensorflow/translate/import_model.cc:1797-1798 | No string is less than itself under std::string ordering. |
| Strings.LexLessTransitive | tensorflow/compiler/mlir/tensorflow/translate/import_model.cc:1797-1798 | The ordering is transitive. |
| Strings.LexLessTotal | tensorflow/compiler/mlir/tensorflow/translate/import_model.cc:1797-1798 | Distinct strings are ordered one way or the other. |
| Strings.LexLessAsymmetric | tensorflow/compiler/mlir/tensorflow/translate/import_model.cc:1797-1798 | The ordering is asymmetric. |
| Strings.Utf8Length | tensorflow/compiler/mlir/tensorflow/translate/import_model.cc:1797 | The byte size of a name's UTF-8 encoding: between one and four bytes per character, one per character exactly for ASCII. |
| Strings.NatToString | tensorflow/compiler/mlir/tensorflow/translate/import_model.cc:1843-1845 | Rendering a number gives a non-empty string of digits. |
| Strings.NatToStringRoundTrip | tensorflow/compiler/mlir/tensorflow/translate/import_model.cc:1843-1845 | Reading the digits back gives the number. |
| Strings.NatToStringInjective | tensorflow/compiler/mlir/tensorflow/translate/import_model.cc:1843-1845 | Different numbers render differently. |
| Strings.IntToString | tensorflow/compiler/mlir/tensorflow/translate/import_model.cc:1670-1671 | An integer renders as digits with an optional '-'. |
| Strings.Before | tensorflow/compiler/mlir/tensorflow/translate/import_model.cc:1619-1621 | The text before the first ':' is a prefix without ':'. |
| Strings.After | tensorflow/compiler/mlir/tensorflow/translate/import_model.cc:1619-1621 | The text after the first ':' completes the split. |
| Strings.SplitJoined | tensorflow/compiler/mlir/tensorflow/translate/import_model.cc:1619-1621 | Splitting takes apart what joining put together. |
| Strings.SimpleAtoi | tensorflow/compiler/mlir/tensorflow/translate/import_model.cc:1623-1625 | SimpleAtoi only yields int32 values. |
| Strings.SimpleAtoiRoundTrip | tensorflow/compiler/mlir/tensorflow/translate/import_model.cc:1623-1625 | Every int32 reads back from its rendering. |
| TfTypes.Lookup | tensorflow/compiler/mlir/tensorflow/translate/import_model.cc:1611-1612 | A key is found exactly when some entry has it, and then with an entry's value. |
| TfTypes.Assign | tensorflow/compiler/mlir/tensorflow/translate/import_model.cc:502-503 | Assignment sets the key and leaves every other key alone. |
| VeDevice.Add64 | tensorflow/core/common_runtime/ve/ve_device.cc:238-239 | Size arithmetic wraps at 2^64 and is exact without overflow. |
| VeDevice.AndNot | tensorflow/core/common_runtime/ve/ve_device.cc:240 | `x & ~m` is no larger than x. |
| VeDevice.AndNotPow2 | tensorflow/core/common_runtime/ve/ve_device.cc:240 | Clearing the bits below a power of two rounds down to a multiple of it. |
| VeDevice.AlignedAddress | tensorflow/core/common_runtime/ve/ve_device.cc:240 | The returned address is a 64-bit value. |
| VeDevice.AlignedAddressFits | tensorflow/core/common_runtime/ve/ve_device.cc:238-244 | For a power-of-two alignment and a block that does not wrap, the address is aligned. Its header word lies in the raw block, and the payload fits behind it. |
| VeDevice.VeMemAllocator.constructor | tensorflow/core/common_runtime/ve/ve_device.cc:214 | The allocator keeps its VEO handle. |
| VeDevice.VeMemAllocator.Alloc | tensorflow/core/common_runtime/ve/ve_device.cc:238-244 | Alloc asks for payload plus alignment plus header, returns the aligned address, and stores the raw address in the header word. |
| VeDevice.VeMemAllocator.Free | tensorflow/core/common_runtime/ve/ve_device.cc:248-256 | Free hands free_mem the raw address read from the header word. |
| VeDevice.VeMemAllocator.AllocThenFree | tensorflow/core/common_runtime/ve/ve_device.cc:238-255 | Freeing what Alloc returned frees the raw address that alloc_mem gave, for any alignment. |
| VeDevice.Veo.constructor | tensorflow/core/common_runtime/ve/ve_device.cc:33 | A new handle has no kernels, no memory and no calls. |
| VeDevice.Veo.Compute | tensorflow/core/common_runtime/ve/ve_device.cc:62-89 | The status is ComputeStatus. A call is issued exactly when the kernel is known. |
| VeDevice.ComputeStatus | tensorflow/core/common_runtime/ve/ve_device.cc:62-89 | OK exactly when the kernel is known, the request is valid, and both the wait and the kernel return 0. Each failure is Internal with its own message. |
| VeDevice.Veo.LoadKernelSyms | tensorflow/core/common_runtime/ve/ve_device.cc:130-169 | The status is LoadStatus. The kernel map gains the rows loaded before the first missing symbol. |
| VeDevice.LoadStatus | tensorflow/core/common_runtime/ve/ve_device.cc:130-169 | OK exactly when both calls succeed, the read succeeds and every function has a symbol. Otherwise the error is the call's error, "Failed to read mem", or "Failed to get symbol" naming the first missing function. |
| VeDevice.LoadedRows | tensorflow/core/common_runtime/ve/ve_device.cc:157-166 | The loop enters no more rows than the table has. |
| VeDevice.FirstMissing | tensorflow/core/common_runtime/ve/ve_device.cc:157-166 | The first row whose function has no symbol. |
| VeDevice.TableMap | tensorflow/core/common_runtime/ve/ve_device.cc:157-166 | The map entries cover exactly the rows' names. |
| VeDevice.TableMapLastWins | tensorflow/core/common_runtime/ve/ve_device.cc:165 | A later row with the same name overrides an earlier one. |
| VeDevice.LoadedTableHasEveryKernel | tensorflow/core/common_runtime/ve/ve_device.cc:157-168 | After a successful load every name maps to the nonzero symbol of its last row. |
| VeDevice.VeoFactory.constructor | tensorflow/core/common_runtime/ve/ve_device.cc:430-432 | The factory starts without a handle. |
| VeDevice.VeoFactory.GetOrCreate | tensorflow/core/common_runtime/ve/ve_device.cc:409-421 | The first call creates and keeps the handle and returns init's status, handing out the handle only on OK. Later calls return the same handle with OK. |
| VeDevice.Allocator.constructor | tensorflow/core/common_runtime/ve/ve_device.cc:456 | An allocator keeps its name. |
| VeDevice.VeDevice.constructor | tensorflow/core/common_runtime/ve/ve_device.cc:456-461 | The device holds the CPU allocator and a fresh VE allocator, which differ. |
| VeDevice.VeDevice.GetAllocator | tensorflow/core/common_runtime/ve/ve_device.cc:326-331 | The CPU allocator is returned exactly for host memory, and the VE allocator otherwise. |

## Left out

- The VEO runtime library is not part of this model. Its answers to alloc_mem, veo_call_async, veo_call_wait_result, veo_read_mem, veo_get_sym and get_num_kernels become parameters. VEO::init is the `initStatus` parameter of GetOrCreate.
- VeDevice.VeMemAllocator.Alloc: host and device memory are one address space here, and the header word is an entry of a map from addresses to words.
- The kernel table's fixed 256-character name fields, and the mutexes of VEOFactory and of the locking device context, are not modelled.
- The device contexts' tensor copies, MakeTensorFromProto, VEDevice::Init and the device factory's environment variables are not modelled.
- VeDevice.VeMemAllocator.Free: the `num_bytes` argument is ignored, as in the source.
- ObjectNames.NameLessStrictTotal: an empty name counts as not ending in a digit. The source reads `back()` of an empty string, which is undefined.
- Hash-map and edge-set iteration order (`std::unordered_map` in the importer, the object names map, and the `Node::out_edges()`/`in_edges()` sets) is not pinned down: loops over such maps visit the ids in whatever order the model picks, and TfGraph.MoveOutEdges moves out edges in the order of the edge sequence. Every stated property holds for any order; the only visible effect is the order of control operands: the importer's stable sort puts data edges in input order, but control edges keep the order of the edge set.
- Shape inference, reverse post order, pruning, graph cloning without back edges, source/sink fix-up, unique function names, attribute name mangling and ConvertTensorProto are parameters (`ImportConfig.Env`). Their own algorithms are not part of this model.
- ImportConfig.SeedInputShapes: an `_input_shapes` list longer than the signature is an error. The source checks it only in debug builds.
- Debug locations (GetLocation, GetLocationStr, the debug info) are not modelled. Operations carry no location.
- LegacyInputs.UpdateLegacyFedInputNode: the source updates the NodeDef in place. Here the updated node is returned.
- PreprocessGraphDef's AddDefaultsToNodeDef needs the op registry, which is not part of this model. Only the LegacyFedInput replacement is modelled.
- MainSignature.CollectEndpoints: when several output arrays have bad ports, the contract says only that the error names one of them. The source names the first it meets.
- Lookups that the source assumes succeed become Internal errors in the model: a node or inference context that must exist, or an operation that must have been created.
- Importer.Importer.ConvertLibFunction: the stateful flag and the gradient are modelled. The FunctionDef's own argument and result attributes are not part of this model.
- Floating-point attribute values are carried as 32-bit patterns and never computed on.
- TfGraph.ReplaceWithPlaceholderNode: always succeeds. The source returns the error of `builder.Finalize` (import_model.cc:424) and of each `Graph::UpdateEdge` (import_model.cc:428); Graph::UpdateEdge is not part of this model. So a control out-edge of the replaced node, which the source hands to UpdateEdge with `Graph::kControlSlot` as the new output, is moved like any other edge here.
- BackEdges.RecordDstLast: a destination with two removed back edges keeps the last one. The source has only `DCHECK(!back_edge_dst_inputs_.contains(edge.dst))` at import_model.cc:406, so this is the release-build behaviour; a debug build aborts.
- ObjectNames.NameLess: the tie-break on equal byte lengths compares characters. For UTF-8 this is the same order as comparing bytes, which std::string does; the model states it without proving it.
- BodyEdits.TraceWired: stated for argument nodes whose operations are distinct. The source does not check this; with a repeated node, the second turn finds the island already erased or rebuilt.

## Findings

| source | as written | input that shows it | evidently intended | confidence | as-written member | corrected member |
|---|---|---|---|---|---|---|
| tensorflow/compiler/mlir/tensorflow/translate/import_model.cc:1669 | the output-index check rejects only `num_outputs <= index`, and the port parse at 1623-1628 accepts a sign | output array `y:-1` on a node with one output: the port parses to -1 and passes the check | reject every index outside `0 <= index < num_outputs` | not executed | MainSignature.NegativePortPassesRangeCheck | MainSignature.InferMainFunctionType |
