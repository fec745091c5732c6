# Staged pass pipelines and XeTile-to-XeGPU index logic, in Dafny

This project models two parts of a compiler toolchain built on MLIR and proves properties about them.

**The staged pass-pipeline scheduler** (`dpcomp/src/compiler/compiler.cpp`).
- A pipeline registry declares stages in order. Each stage has a name, a pass pipeline and a list of jump names.
- `PassManagerSchedule` builds the stage graph from those declarations:
  - each stage's successor is the stage declared after it;
  - each jump name becomes an edge to the stage of that name.
- `run` is a state machine:
  - it starts at the first stage and runs the current stage's passes;
  - it stops with failure as soon as a stage fails;
  - otherwise it reads the module's jump markers. It takes the first registered edge whose name is among them and removes that marker, or else it follows the successor;
  - it succeeds when no stage comes next.
- `CompilerContextImpl::run` collects the error diagnostics, each followed by its notes. On failure it reports "MLIR pipeline failed", the collected text, a line break and the module dump.

Modules:
- `PipelineStage` holds the stage graph nodes: the `Stage` class with `AddJump` and `SetNextStage`, `get_jump`, the transition taken after a stage, and the IR-printing pass-name `Checker`.
- `PassSchedule` holds construction (`CreateStages`, `WireJumps`, the `PassManagerSchedule` constructor) and execution (`PassManagerSchedule.Run`).
  - Both are state-changing methods over `Stage` and `ModuleOp` objects.
  - Both are proved against the pure functions `BuiltGraph` and `Execute`.
  - The lemmas about the schedule are stated over `BuiltGraph` and `Execute`.
- `Diagnostics` holds the diagnostic handler: a class that appends to its `err` buffer.
- `CompilerContext` holds the compiler context's `run` and its failure report.
- A stage's pass pipeline is an opaque function value from module state to the outcome: success flag, new module state and diagnostics.

**The XeTile-to-XeGPU conversion** (`lib/Conversion/XeTileToXeGPU/XeTileOpConversion.cpp`). These rewrite patterns lower a tiled operation into a grid of block operations. The model keeps their index and shape arithmetic. It represents each XeGPU or vector operation it creates as a symbolic value.

Modules:
- `ShuffleMasks` holds the `stack` and `concat` shuffles and `getMask`. `GetMask` fills an `array` with `std::iota` runs, as the source does.
- `UnpackPack` holds the pairwise merge `transform` and the unpack/pack re-blocking: stack, extract and concatenate on dimension 0 and dimension 1.
- `InitTile` holds `getBlockArrayLength`, the merging of static and dynamic offsets, and the grid of `create_nd_desc` descriptors.
- `LoadTile` holds the vnni split, `array_length` and the loads and extracts.
- `StorePrefetch` holds the count checks of `store_tile` and `prefetch_tile` and the operations they emit.
- `TileMma` holds the `dpas` chains of `tile_mma`.
- `TileCommon` and `Wrappers` hold the row-major position `Pos(i, j, w) = i * w + j`, flattening, decimal printing, `Option` and `Rewrite`.
  - `Rewrite` records a pattern's outcome: rewritten to operations, match failure, or an op error with its message.

Each pattern's `matchAndRewrite` is a method with the source's loops, and its `ensures` ties the result to a function of the inputs. The lemmas prove what the source promises about that function.

Two facts about the scheduler shape the model:
- **Jump targets.** Jump names are resolved as stage names (dpcomp/src/compiler/compiler.cpp:149-153), so an edge leads to the stage of the same name. The worked example therefore uses a jump named "parse" (`PassSchedule.LoopBackRunsOptimizeTwice`).
- **At least one stage.** `run` reads `stages[0]` unchecked (dpcomp/src/compiler/compiler.cpp:168), so the model requires at least one stage.

## Model

| member | source | states |
|---|---|---|
| PipelineStage.Stage.AddJump | dpcomp/src/compiler/compiler.cpp:76-80 | a non-empty marker name is required; the edge is appended after the existing ones; the successor is unchanged |
| PipelineStage.Stage.SetNextStage | dpcomp/src/compiler/compiler.cpp:97-101 | only a stage without a successor may get one; afterwards the successor is that stage and the edges are unchanged |
| PipelineStage.FirstMatch | dpcomp/src/compiler/compiler.cpp:84-92 | the index found is the first edge whose marker is among the names; no earlier edge matches; nothing is found exactly when no edge matches |
| PipelineStage.GetJump | dpcomp/src/compiler/compiler.cpp:82-95 | no jump exactly when the marker list is absent or matches no edge; otherwise the returned jump is an edge whose marker is present, and no earlier edge's marker is present |
| PipelineStage.EdgeOrderBeatsMarkerOrder | dpcomp/src/compiler/compiler.cpp:85-90 | with edges A then B and markers B then A, edge A is taken: registration order beats marker order |
| PipelineStage.RemoveMarker | dpcomp/src/compiler/compiler.cpp:177 | the removed name no longer occurs; every other marker keeps its number of occurrences; the list does not grow |
| PipelineStage.Transition | dpcomp/src/compiler/compiler.cpp:174-181 | what follows a successful stage leaves the IR untouched; control goes either to the successor with the module unchanged (always so when no edge matches) or to the target of an edge whose marker is present, with that marker removed |
| PipelineStage.TransitionTakesFirstEdge | dpcomp/src/compiler/compiler.cpp:174-178 | when edge e is the first matching edge, control goes to its target and only that marker is removed from the module |
| PipelineStage.TransitionFollowsSuccessor | dpcomp/src/compiler/compiler.cpp:179-181 | when markers are absent or none matches, control goes to the successor and the module is unchanged |
| PipelineStage.ConsumeFront | dpcomp/src/compiler/compiler.cpp:58-59 | a present prefix is removed exactly (prefix + result is the input); otherwise the name is unchanged |
| PipelineStage.Checker | dpcomp/src/compiler/compiler.cpp:56-61 | a pass is selected only if its name is a listed name, bare or behind the MSVC prefix, the GCC prefix or both in that order |
| PipelineStage.CheckerIgnoresAnonymousNamespace | dpcomp/src/compiler/compiler.cpp:56-61 | a pass name is selected exactly when it is in the list, with or without the MSVC prefix, the GCC prefix, or the MSVC prefix followed by the GCC one |
| PassSchedule.CheckStages | dpcomp/src/compiler/compiler.cpp:131-137 | no error exactly when every stage name from i on is non-empty and not declared earlier; a reported error is a real violation |
| PassSchedule.CheckJumps | dpcomp/src/compiler/compiler.cpp:146-150 | no error exactly when every remaining jump name is non-empty and names a declared stage; a reported error is a real violation |
| PassSchedule.CheckDecls | dpcomp/src/compiler/compiler.cpp:124-155 | construction's assertions pass exactly when the declarations are well formed; a failing check names a real violation |
| PassSchedule.StageIndex | dpcomp/src/compiler/compiler.cpp:149 | a declared name resolves to a stage of that name, and no earlier stage bears it |
| PassSchedule.BuiltGraph | dpcomp/src/compiler/compiler.cpp:128-161 | one node per declaration, keeping its passes and one edge per declared jump; every edge target and successor names a stage of the graph |
| PassSchedule.BuiltGraphShape | dpcomp/src/compiler/compiler.cpp:128-161 | the graph keeps declaration order; stage i's successor is i+1 and the last has none; each declared jump becomes an edge, in order, to the stage of that name |
| PassSchedule.NameIndexAt | dpcomp/src/compiler/compiler.cpp:137-138 | after n declarations the map holds exactly the first n names, each mapped to a stage bearing it |
| PassSchedule.NameIndexFinds | dpcomp/src/compiler/compiler.cpp:149 | with unique names the complete map finds exactly the declared names, at the index name resolution gives |
| PassSchedule.AddStage | dpcomp/src/compiler/compiler.cpp:128-142 | a fresh stage with no edges and no successor; when not the first, the previous stage's successor becomes it; the other stages are unchanged |
| PassSchedule.CreateStages | dpcomp/src/compiler/compiler.cpp:124-144 | one fresh, distinct stage per declaration, each linked to the next; the name map holds exactly the declared names, each at its stage |
| PassSchedule.BuiltGraphAt | dpcomp/src/compiler/compiler.cpp:146-155 | node i of the graph is stage i's passes, its resolved jumps and its successor |
| PassSchedule.WireStage | dpcomp/src/compiler/compiler.cpp:147-154 | the stage's edges become its jump names resolved through the map, in order; the successor is unchanged |
| PassSchedule.WireJumps | dpcomp/src/compiler/compiler.cpp:146-155 | after wiring, every stage's node is the corresponding node of the built graph |
| PassSchedule.PassManagerSchedule.constructor | dpcomp/src/compiler/compiler.cpp:114-164 | well-formed declarations give a valid schedule of fresh stages whose graph is the built graph |
| PassSchedule.Execute | dpcomp/src/compiler/compiler.cpp:166-184 | a run executes at most fuel stages, exactly fuel when fuel runs out, and starts with the first stage on the given module |
| PassSchedule.ExecuteStep | dpcomp/src/compiler/compiler.cpp:169-182 | one step: failure after the stage fails; success when no stage follows; otherwise the run continues from the chosen stage with the stage's diagnostics first |
| PassSchedule.ExecuteIsWalk | dpcomp/src/compiler/compiler.cpp:169-182 | the stages run form a walk of the graph: consecutive visits follow a successful transition (edge or successor), and the first visit is the start |
| PassSchedule.ExecuteEnds | dpcomp/src/compiler/compiler.cpp:170-183 | a run visits no stage only when no fuel is given; the last visit explains the outcome: failure, success with no next stage, or continuation when fuel ran out |
| PassSchedule.ExecuteReportsStageDiagnostics | dpcomp/src/compiler/compiler.cpp:171 | the diagnostics of a run are those of the visited stages, concatenated in visit order |
| PassSchedule.LinearPipelineRunsInOrder | dpcomp/src/compiler/compiler.cpp:168-182 | without jumps and with every stage succeeding, the stages from cur on run once each, in order, and the run succeeds |
| PassSchedule.FailureStopsPipeline | dpcomp/src/compiler/compiler.cpp:170-173 | in a jump-free linear graph (stage i followed by i+1, no edges) whose stages cur..k-1 succeed and whose stage k fails on every module, the run fails after exactly stages cur..k; no later stage runs. The general stop-on-failure step is `ExecuteStep`, and `ExecuteEnds` gives the end of any run |
| PassSchedule.PassManagerSchedule.Run | dpcomp/src/compiler/compiler.cpp:166-184 | the status, the final module and the handler's text are those of the run of the graph from stage 0 |
| PassSchedule.PassManagerSchedule.RunStage | dpcomp/src/compiler/compiler.cpp:170-181 | one loop turn: the stage's passes run and report; after success, the next stage and the marker update are the transition's |
| PassSchedule.LinearScheduleRunsInOrder | dpcomp/src/compiler/compiler.cpp:128-184 | a built schedule without jumps whose stages succeed runs every stage once, in declaration order, and succeeds |
| PassSchedule.LoopBackPipelineBuildsLoopBackStages | dpcomp/src/compiler/compiler.cpp:124-161 | the parse/optimize/emit declarations are accepted and build the expected three-node graph |
| PassSchedule.LoopBackStagesRun | dpcomp/src/compiler/compiler.cpp:166-184 | on that graph the stages run parse, optimize, parse, optimize, emit; the run succeeds with the marker consumed |
| PassSchedule.LoopBackRunsOptimizeTwice | dpcomp/src/compiler/compiler.cpp:166-184 | the schedule built from the declarations runs optimize exactly twice, then emit, and succeeds |
| Diagnostics.Captured | dpcomp/src/compiler/compiler.cpp:201-208 | the handler writes nothing exactly when every error diagnostic seen renders as empty text |
| Diagnostics.ErrorsOf | dpcomp/src/compiler/compiler.cpp:202 | keeps only error-severity diagnostics, and keeps every one of them |
| Diagnostics.ErrorsOfAppend | dpcomp/src/compiler/compiler.cpp:202 | filtering keeps emission order: the errors of a joined stream are those of the first part, then those of the second |
| Diagnostics.NotesTextSnoc | dpcomp/src/compiler/compiler.cpp:204-206 | each further note adds a line break and the note's text |
| Diagnostics.CapturedAppend | dpcomp/src/compiler/compiler.cpp:201-208 | the text captured from two batches is the text of the first, then the text of the second |
| Diagnostics.CapturedExtends | dpcomp/src/compiler/compiler.cpp:201-208 | a log that captures one batch and then another ends with the text of both batches, in order |
| Diagnostics.CapturedKeepsOnlyErrors | dpcomp/src/compiler/compiler.cpp:201-208 | the captured text depends only on the error diagnostics |
| Diagnostics.CapturedWithoutErrors | dpcomp/src/compiler/compiler.cpp:201-208 | a stream without errors captures nothing |
| Diagnostics.DiagnosticHandler.Handle | dpcomp/src/compiler/compiler.cpp:201-208 | the buffer grows by exactly the captured text of the diagnostic: nothing for a non-error, the error and its notes otherwise |
| Diagnostics.DiagnosticHandler.HandleAll | dpcomp/src/compiler/compiler.cpp:201-208 | handling a batch appends its captured text |
| CompilerContext.OutcomeOf | dpcomp/src/compiler/compiler.cpp:211-216 | the budget is reported spent exactly when the run ran out of fuel; a pipeline-failed report comes only from a failed run and is the header, the captured error text, a line break and the final module's dump |
| CompilerContext.FailureReport | dpcomp/src/compiler/compiler.cpp:212-215 | the report is the header, then the captured text, then a line break, then the module dump, each at its place |
| CompilerContext.ReportOnlyOnFailure | dpcomp/src/compiler/compiler.cpp:211-216 | an error is reported exactly when the pipeline fails; success is silent |
| CompilerContext.ReportIgnoresNonErrors | dpcomp/src/compiler/compiler.cpp:201-216 | the outcome is unchanged when the non-error diagnostics are dropped |
| CompilerContext.SilentFailureReportsDump | dpcomp/src/compiler/compiler.cpp:211-215 | a failure that raised no error reports the header, a line break and the dump |
| CompilerContext.Context.Run | dpcomp/src/compiler/compiler.cpp:198-218 | the module ends as the schedule's run leaves it, and the outcome is that run's report |
| ShuffleMasks.IotaFill | lib/Conversion/XeTileToXeGPU/XeTileOpConversion.cpp:70-71 | the range holds v, v+1, ... in order and the rest of the array is unchanged |
| ShuffleMasks.StackMask | lib/Conversion/XeTileToXeGPU/XeTileOpConversion.cpp:49-51 | the stack mask is 0 .. 2*rows-1 in order |
| ShuffleMasks.StackKeepsLayout | lib/Conversion/XeTileToXeGPU/XeTileOpConversion.cpp:33-52 | shuffling with that mask puts the rows of the second operand below those of the first |
| ShuffleMasks.GetMask | lib/Conversion/XeTileToXeGPU/XeTileOpConversion.cpp:57-74 | the mask has size1 + size2 entries and is, row by row, the c1 indices of the first operand's row followed by the c2 of the second's |
| ShuffleMasks.FillMaskRow | lib/Conversion/XeTileToXeGPU/XeTileOpConversion.cpp:64-72 | one loop pass extends the filled prefix by row i of the mask |
| ShuffleMasks.MaskRowFilled | lib/Conversion/XeTileToXeGPU/XeTileOpConversion.cpp:65-71 | the two iota runs of row i end at the start of row i+1 and leave the prefix through row i |
| ShuffleMasks.ConcatMaskLength | lib/Conversion/XeTileToXeGPU/XeTileOpConversion.cpp:61-63 | the mask has rows*c1 + rows*c2 entries |
| ShuffleMasks.ConcatMaskAt | lib/Conversion/XeTileToXeGPU/XeTileOpConversion.cpp:64-72 | slot j of row i is i*c1+j for j < c1, and size1 + i*c2 + (j-c1) otherwise |
| ShuffleMasks.ConcatMaskLayout | lib/Conversion/XeTileToXeGPU/XeTileOpConversion.cpp:57-74 | the mask length, and every slot's two-part row layout |
| ShuffleMasks.ConcatMaskExample | lib/Conversion/XeTileToXeGPU/XeTileOpConversion.cpp:76-83 | for 2x4 with 2x3 the mask is 0 1 2 3 8 9 10 4 5 6 7 11 12 13, as documented |
| ShuffleMasks.ConcatMaskInRange | lib/Conversion/XeTileToXeGPU/XeTileOpConversion.cpp:98-99 | every mask entry concat uses indexes one of the two flattened operands |
| ShuffleMasks.MaskEntryInRange | lib/Conversion/XeTileToXeGPU/XeTileOpConversion.cpp:98-99 | each slot of an equal-shape mask lies in 0 .. 2*rows*cols-1 |
| ShuffleMasks.UnflattenAt | lib/Conversion/XeTileToXeGPU/XeTileOpConversion.cpp:100-102 | the shape cast to rows x w puts flat element i*w+j at row i, column j |
| ShuffleMasks.UnflattenCons | lib/Conversion/XeTileToXeGPU/XeTileOpConversion.cpp:100-102 | cutting a non-empty vector gives its first w elements, then the cut of the rest |
| ShuffleMasks.UnflattenUniform | lib/Conversion/XeTileToXeGPU/XeTileOpConversion.cpp:100-102 | the cast has h rows of w elements |
| ShuffleMasks.Concat | lib/Conversion/XeTileToXeGPU/XeTileOpConversion.cpp:84-104 | concatenating two r x c vectors gives r rows of 2c elements |
| ShuffleMasks.ConcatAt | lib/Conversion/XeTileToXeGPU/XeTileOpConversion.cpp:84-104 | element j of row i of the result is element j of row i of the first operand followed by row i of the second |
| ShuffleMasks.ConcatKeepsLayout | lib/Conversion/XeTileToXeGPU/XeTileOpConversion.cpp:76-104 | flatten, shuffle with getMask and cast back puts row i of the second operand to the right of row i of the first |
| UnpackPack.Pairs | lib/Conversion/XeTileToXeGPU/XeTileOpConversion.cpp:130-133 | one round halves the number of values |
| UnpackPack.PairsKeepTree | lib/Conversion/XeTileToXeGPU/XeTileOpConversion.cpp:126-134 | a round of pairwise merges keeps a power-of-two count and the balanced merge of the whole |
| UnpackPack.Transform | lib/Conversion/XeTileToXeGPU/XeTileOpConversion.cpp:124-136 | transform of a power-of-two list returns its balanced merge |
| UnpackPack.TreeLeaves | lib/Conversion/XeTileToXeGPU/XeTileOpConversion.cpp:124-136 | merging blocks that are not themselves merges keeps every block, in order |
| UnpackPack.StackedLayout | lib/Conversion/XeTileToXeGPU/XeTileOpConversion.cpp:180-190 | block (t, j) of the stacked grid holds blocks nums*t .. nums*t+nums-1 of column j, in order |
| UnpackPack.StackRows | lib/Conversion/XeTileToXeGPU/XeTileOpConversion.cpp:180-190 | the band loop emits the stacked grid |
| UnpackPack.StackFirstLoop | lib/Conversion/XeTileToXeGPU/XeTileOpConversion.cpp:167-178 | the first loop of the stack branch as written keeps the sets already handed on, and every set it hands on afterwards holds only blocks gathered so far or taken from the inputs |
| UnpackPack.StackOnDim0AsWritten | lib/Conversion/XeTileToXeGPU/XeTileOpConversion.cpp:164-190 | the stack branch as written ends with the intended stacked grid and has extra values in front exactly when the first loop hands on some set |
| UnpackPack.StackFirstLoopOnFourBlocks | lib/Conversion/XeTileToXeGPU/XeTileOpConversion.cpp:167-178 | on four blocks in one column stacked in pairs, the first loop hands on one set, blocks 0 and 1 |
| UnpackPack.StackOnDim0AsWrittenEmitsExtra | lib/Conversion/XeTileToXeGPU/XeTileOpConversion.cpp:164-190 | the stack branch as written yields three values where the intended grid is two |
| UnpackPack.ExtractedRows | lib/Conversion/XeTileToXeGPU/XeTileOpConversion.cpp:191-192 | the dim-0 extraction has outGrids[0] * inGrids[1] entries |
| UnpackPack.RowPieceStep | lib/Conversion/XeTileToXeGPU/XeTileOpConversion.cpp:205-216 | each loop iteration writes slice k of block (i, j) to i*nums*g1 + j + k*g1 and disturbs no earlier write |
| UnpackPack.RowPiecesComplete | lib/Conversion/XeTileToXeGPU/XeTileOpConversion.cpp:191-218 | once every iteration has run, the resized vector is exactly the dim-0 extraction |
| UnpackPack.ExtractRows | lib/Conversion/XeTileToXeGPU/XeTileOpConversion.cpp:191-218 | the extract loops leave intermediates equal to the dim-0 extraction |
| UnpackPack.ExtractedRowsFilled | lib/Conversion/XeTileToXeGPU/XeTileOpConversion.cpp:192-214 | when the output grid is a multiple of the input grid, every entry is a slice: none stays at its default value |
| UnpackPack.ConcatGroupsLength | lib/Conversion/XeTileToXeGPU/XeTileOpConversion.cpp:237-248 | every complete run of nums values becomes one group; a shorter tail is dropped |
| UnpackPack.ConcatGroupsAt | lib/Conversion/XeTileToXeGPU/XeTileOpConversion.cpp:237-248 | group t is made of values nums*t .. nums*t+nums-1, in order |
| UnpackPack.ConcatGroupsRun | lib/Conversion/XeTileToXeGPU/XeTileOpConversion.cpp:241-246 | group t is the balanced concatenation of the t-th run of nums values |
| UnpackPack.ConcatStep | lib/Conversion/XeTileToXeGPU/XeTileOpConversion.cpp:241-246 | pushing one value either completes a group, which is merged and emitted, or extends the pending set |
| UnpackPack.ConcatDone | lib/Conversion/XeTileToXeGPU/XeTileOpConversion.cpp:239-248 | when every value is consumed, the emitted groups are exactly the concatenation groups |
| UnpackPack.ConcatPush | lib/Conversion/XeTileToXeGPU/XeTileOpConversion.cpp:241-246 | one turn of the concat loop keeps the loop's progress invariant |
| UnpackPack.ConcatColumns | lib/Conversion/XeTileToXeGPU/XeTileOpConversion.cpp:236-248 | the concatenation loops emit the concatenation groups of the intermediate grid |
| UnpackPack.PiecesOf | lib/Conversion/XeTileToXeGPU/XeTileOpConversion.cpp:264-269 | a value is cut into exactly n vertical pieces |
| UnpackPack.ExtractedColumnsLayout | lib/Conversion/XeTileToXeGPU/XeTileOpConversion.cpp:259-271 | n values give n*nums pieces; piece k of value q sits at q*nums + k and is the slice at column offset k * blk[1] |
| UnpackPack.PushPieces | lib/Conversion/XeTileToXeGPU/XeTileOpConversion.cpp:264-269 | the innermost loop appends the nums pieces of one value |
| UnpackPack.ExtractColumns | lib/Conversion/XeTileToXeGPU/XeTileOpConversion.cpp:249-271 | the dim-1 extract loops emit the dim-1 extraction of the intermediate grid |
| UnpackPack.SliceSizes | lib/Conversion/XeTileToXeGPU/XeTileOpConversion.cpp:193-201 | slice sizes are the block sizes, except that the vnni axis (0 for B, 1 for A) is divided by the factor |
| UnpackPack.Dim0Count | lib/Conversion/XeTileToXeGPU/XeTileOpConversion.cpp:160-222 | the dim-0 step leaves an outGrids[0] x inGrids[1] grid |
| UnpackPack.Dim1Count | lib/Conversion/XeTileToXeGPU/XeTileOpConversion.cpp:220-272 | the dim-1 step leaves the pack's outGrids[0] x outGrids[1] grid |
| UnpackPack.UnpackPackOutcome | lib/Conversion/XeTileToXeGPU/XeTileOpConversion.cpp:138-276 | the pair is lowered exactly when the unpack is paired and no vnni value needs concatenating (an op error otherwise), to one value per block of the pack's grid |
| UnpackPack.SameBlockingIsIdentity | lib/Conversion/XeTileToXeGPU/XeTileOpConversion.cpp:162-226 | a pack with the unpack's own blocking gives back the unpack's inputs unchanged |
| UnpackPack.UnpackPack | lib/Conversion/XeTileToXeGPU/XeTileOpConversion.cpp:117-277 | matchAndRewrite computes the pattern's outcome: the error, or the dim-0 step followed by the dim-1 step |
| InitTile.BlockArrayLength | lib/Conversion/XeTileToXeGPU/XeTileOpConversion.cpp:280-282 | the array length is the largest number of blocks of block_width elements that fits in 512 bits |
| InitTile.NestedDivision | lib/Conversion/XeTileToXeGPU/XeTileOpConversion.cpp:281 | dividing by a and then by b gives the largest number of runs of a*b that fit |
| InitTile.ArrayLength | lib/Conversion/XeTileToXeGPU/XeTileOpConversion.cpp:309-312 | array_length is positive and is 1 unless the tile is for a load and wider than one block |
| InitTile.Width | lib/Conversion/XeTileToXeGPU/XeTileOpConversion.cpp:314 | a descriptor covers a positive width |
| InitTile.Blocks | lib/Conversion/XeTileToXeGPU/XeTileOpConversion.cpp:316-317 | the block grid has two dimensions: the descriptors that fit along each axis |
| InitTile.BlocksCoverTile | lib/Conversion/XeTileToXeGPU/XeTileOpConversion.cpp:316-317 | every block of the grid `Blocks(shape, innerBlk, width)` lies inside the tile, and one more row or column of blocks would not fit: the remainder along each axis is smaller than a block |
| InitTile.CountDynamic | lib/Conversion/XeTileToXeGPU/XeTileOpConversion.cpp:323 | the number of dynamic static offsets is at most the number of offsets |
| InitTile.MergedOffsets | lib/Conversion/XeTileToXeGPU/XeTileOpConversion.cpp:319-329 | there is one offset per static offset |
| InitTile.MergedOffsetsAt | lib/Conversion/XeTileToXeGPU/XeTileOpConversion.cpp:322-329 | offset i is static offset i as a constant, or, when it is dynamic, the dynamic operand numbered by the dynamic offsets before it |
| InitTile.MergeOffsets | lib/Conversion/XeTileToXeGPU/XeTileOpConversion.cpp:319-329 | the merging loop computes the merged offsets |
| InitTile.DescRow | lib/Conversion/XeTileToXeGPU/XeTileOpConversion.cpp:347-364 | row i holds one descriptor per block column |
| InitTile.DescGridLayout | lib/Conversion/XeTileToXeGPU/XeTileOpConversion.cpp:346-365 | descriptor (i, j) sits at i*b1+j, starts innerBlk[0]*i rows and width*j columns past the tile's offsets, and has the inner block's shape and the array length |
| InitTile.CreateRow | lib/Conversion/XeTileToXeGPU/XeTileOpConversion.cpp:347-364 | the inner loop creates the descriptors of row i |
| InitTile.CreateDescs | lib/Conversion/XeTileToXeGPU/XeTileOpConversion.cpp:345-365 | the two loops create the descriptor grid, row by row |
| InitTile.LowerInitTile | lib/Conversion/XeTileToXeGPU/XeTileOpConversion.cpp:291-369 | matchAndRewrite computes the pattern's outcome |
| InitTile.InitTileOutcome | lib/Conversion/XeTileToXeGPU/XeTileOpConversion.cpp:301-317 | the op is rewritten exactly when the tile is 2D with two inner block sizes (an op error otherwise), to blocks[0] * blocks[1] descriptors |
| LoadTile.VnniOnlyForNarrowDpasOperands | lib/Conversion/XeTileToXeGPU/XeTileOpConversion.cpp:444-450 | vnni applies exactly to dpas operands of at most 16 bits; its axis is 0 exactly for operand B |
| LoadTile.VnniSplitKeepsElements | lib/Conversion/XeTileToXeGPU/XeTileOpConversion.cpp:465-466 | splitting an axis by the factor and appending the factor keeps the element count |
| LoadTile.LoadShapeElements | lib/Conversion/XeTileToXeGPU/XeTileOpConversion.cpp:460-470 | the load shape gains one dimension for vnni and one for an array; it keeps the block's element count times the array length; vnni ends with the factor |
| LoadTile.SourceValues | lib/Conversion/XeTileToXeGPU/XeTileOpConversion.cpp:473-483 | one value per source, or array_length of them for an array load |
| LoadTile.LoadSource | lib/Conversion/XeTileToXeGPU/XeTileOpConversion.cpp:458-483 | the loop body gives the source's load, or its blocks extracted in order |
| LoadTile.LowerLoadTile | lib/Conversion/XeTileToXeGPU/XeTileOpConversion.cpp:424-488 | matchAndRewrite computes the pattern's outcome: nothing without inner blocks, else the values of each source in turn |
| LoadTile.LoadedValuesLayout | lib/Conversion/XeTileToXeGPU/XeTileOpConversion.cpp:457-484 | with a common array length, value s*per+i is source s's load, or block i extracted from it |
| StorePrefetch.StoreErrorNamesCounts | lib/Conversion/XeTileToXeGPU/XeTileOpConversion.cpp:506-509 | the error message holds both counts in decimal, each readable back at its place, and ends with a line break |
| StorePrefetch.LowerStoreTile | lib/Conversion/XeTileToXeGPU/XeTileOpConversion.cpp:499-523 | matchAndRewrite computes the pattern's outcome |
| StorePrefetch.StoreRoundTrip | lib/Conversion/XeTileToXeGPU/XeTileOpConversion.cpp:505-519 | a store is rewritten exactly when the counts agree; the descriptors and the values can then be read back from the stores, in order |
| StorePrefetch.PrefetchRow | lib/Conversion/XeTileToXeGPU/XeTileOpConversion.cpp:403-407 | a row of the prefetch grid has shape[1] descriptors |
| StorePrefetch.PrefetchResult | lib/Conversion/XeTileToXeGPU/XeTileOpConversion.cpp:383-393 | rewritten exactly when the tile is 4D with shape[0]*shape[1] descriptors; a match failure when not 4D; the documented error otherwise |
| StorePrefetch.PrefetchRowOps | lib/Conversion/XeTileToXeGPU/XeTileOpConversion.cpp:403-407 | the j loop prefetches row i's descriptors in order |
| StorePrefetch.LowerPrefetchTile | lib/Conversion/XeTileToXeGPU/XeTileOpConversion.cpp:380-413 | matchAndRewrite computes the pattern's outcome |
| StorePrefetch.PrefetchVisitsEveryTileInOrder | lib/Conversion/XeTileToXeGPU/XeTileOpConversion.cpp:402-408 | a rewritten prefetch visits every descriptor exactly once, in the tile's order |
| TileMma.MmaResult | lib/Conversion/XeTileToXeGPU/XeTileOpConversion.cpp:539-548 | rewritten exactly when both shapes are 4D and the grids match; otherwise the rank error or the size error |
| TileMma.MmaRow | lib/Conversion/XeTileToXeGPU/XeTileOpConversion.cpp:564-576 | a row of the result has one block per column built so far |
| TileMma.ChainOrder | lib/Conversion/XeTileToXeGPU/XeTileOpConversion.cpp:568-574 | after s steps the chain starts from the initial accumulator and takes A[i*K+k] and B[k*N+j] for k = 0 .. s-1, in order |
| TileMma.Accumulate | lib/Conversion/XeTileToXeGPU/XeTileOpConversion.cpp:565-574 | the (i, j) loop body builds the chain starting from C[i*N+j], or from nothing without C |
| TileMma.AccumulateRow | lib/Conversion/XeTileToXeGPU/XeTileOpConversion.cpp:564-576 | the j loop builds row i of the result |
| TileMma.LowerTileMma | lib/Conversion/XeTileToXeGPU/XeTileOpConversion.cpp:532-580 | matchAndRewrite computes the pattern's outcome |
| TileMma.MmaLayout | lib/Conversion/XeTileToXeGPU/XeTileOpConversion.cpp:550-578 | M*N results in row-major order; result (i, j) chains A[i*K+k] with B[k*N+j] for k = 0 .. K-1, starting from C[i*N+j] when C is present |
| TileCommon.DecimalRoundTrip | lib/Conversion/XeTileToXeGPU/XeTileOpConversion.cpp:508-509 | the decimal text of a count reads back as that count |

## Left out

- MLIR `PassManager` configuration is not modelled: the verifier, statistics, timing and IR printing (dpcomp/src/compiler/compiler.cpp:40-71) are library calls. Only the `Checker` predicate is kept.
- Multithreading (`disableMultithreading`, dpcomp/src/compiler/compiler.cpp:49, 64) is concurrency policy with no logic to state.
- What the passes do (`pm.run`, dpcomp/src/compiler/compiler.cpp:105) is an opaque function value per stage. It maps the module state to a success flag, the new state and the diagnostics raised.
- A diagnostic's notes are raised with it, in order. The model keeps neither the source location nor the printing format of `operator<<` for diagnostics: a diagnostic is its text.
- `stages_map` (dpcomp/src/compiler/compiler.cpp:126, 137, 149) is keyed by the address `name.data()` of the name's characters. The model looks names up by string equality, assuming that equal names share storage as the registry provides them.
- PassSchedule.PassManagerSchedule.Run: requires at least one stage, because the source reads `stages[0]` unchecked (dpcomp/src/compiler/compiler.cpp:168).
- PassSchedule.PassManagerSchedule.Run: a `fuel` bound replaces the do-while loop's unbounded iteration. A jump cycle can run forever, and the model instead stops with `OutOfFuel`, which CompilerContext reports as `BudgetSpent`.
- `plier::remove_pipeline_jump_marker` and `get_pipeline_jump_markers` are not part of this model. The markers are a list attribute that may be absent, and removal deletes every occurrence of the name.
- `scoped_diag_handler`, `raw_string_ostream` and `report_error` (dpcomp/src/compiler/compiler.cpp:200-216) are framework I/O. The handler is an object the run writes to, and the report is returned as a value instead of raised.
- `module.print` is a `render` parameter of `Context.Run`.
- PassSchedule.PassManagerSchedule.constructor: the registry callback (`populate_pass_manager` and `sink`) is given as the declaration list, and the stage construction options as the pass pipeline value.
- PassSchedule.PassManagerSchedule.constructor: the assertions become the precondition `WellFormed`. `CheckDecls` models which assertion fails.
- MLIR op construction is not modelled: `rewriter.create`, `replaceOp`, `eraseOp`, insertion points, locations, element types and the cache-hint attributes. Created operations are symbolic values.
- `emitOpError` is modelled as `OpError` with the message text. The op-name prefix and the location MLIR adds are not modelled.
- `isForDPASA`, `isForDPASB`, `isForLoad`, whether the unpack's operand comes from a load, and the element bit width are inputs.
- TileMma.LowerTileMma and LoadTile.LowerLoadTile: the adaptor's value counts are assumed to match the grids (`MmaOperands`), and vnni descriptors are assumed to be at least 2D (`LoadOperands`). The source relies on both without checking: it indexes `AValues[i*K+k]`, `BValues[k*N+j]` and `CValues[i*N+j]` (XeTileOpConversion.cpp:567-570), and `shape[axis]` with axis 1 (465).
- InitTile.MergedOffsets: `createOrFold` of `arith.addi` is not folded. Offsets are symbolic sums whose values `Eval` gives.
- Index arithmetic uses unbounded integers. 64-bit overflow of `int64_t` and `index` values is not modelled.
- InitTile.LowerInitTile: requires non-zero divisors and at least two offsets (`InitTileOperands`). The source divides by `innerBlk[0]` and `width` and reads `offsets[0]` and `offsets[1]` without checking.
- UnpackPack.UnpackPack: assumes the unpack's and the pack's grids and blocks describe the same vector (`Blocking`).
  - Equal blocks come with equal grids.
  - Growing blocks divide the grid by a power of two. This keeps the stack loops' indices in bounds and makes the `transform` assertion hold.
  - Shrinking blocks require the output grid to be a multiple of the input grid. The source also accepts other shrinking blockings, for example 48 rows re-blocked from 24 to 16, where the grid goes from 2 to 3 and `nums` = 1. On such inputs the dim-0 step leaves null entries in the resized `intermediates` (XeTileOpConversion.cpp:192-214), and the dim-1 step emits fewer values than the pack's grid holds (259-271). The model does not cover those inputs, so the count `outGrids[0] * outGrids[1]` in `UnpackPackOutcome` and `Dim1Count` is proved only under divisibility.
- UnpackPack.UnpackPack: the vnni factor (`inputs.front()`'s innermost dimension, XeTileOpConversion.cpp:198-199, 255-256) is a parameter, and a positive factor is required.
- UnpackPack.UnpackPack: the stack-on-dim-0 branch is modelled by the corrected `StackRows` (see Findings). The code as written is captured by `StackOnDim0AsWritten`.
- UnpackPack.Transform: requires a power-of-two number of values. This is exactly when the source's evenness assertion holds in every round and a value is left to return.
- StorePrefetch.PrefetchResult: the message is kept verbatim, "LoadTileOp" included.
- TileMma.MmaResult: with K = 0 and no C the source pushes a null value. The model gives `NoAcc`.
- `SgUpdateTileOffsetOpPattern` (XeTileOpConversion.cpp:583-605) and `populateXeTileOpConversionPatterns` (607-614) are outside the modelled core.
- ShuffleMasks.StackMask: `stack` builds a mask of `2 * shape[0]` entries, so it shuffles the two vectors row by row. The model states the mask and its effect on sequences of rows, and does not re-derive the element-level shuffle of LLVM's `shufflevector`.

## Findings

| source | as written | input that shows it | evidently intended | confidence | as-written member | corrected member |
|---|---|---|---|---|---|---|
| lib/Conversion/XeTileToXeGPU/XeTileOpConversion.cpp:164-190 | The stack-on-dim-0 branch runs two loops that both push into `intermediates`. The first loop (168-178) pushes its merges before the second loop's, and it never empties `valSet` between columns. | `inGrids` = [4, 1], `outGrids` = [2, 1] and `nums` = 2, with inputs 0..3. The result is [stack(0,1), stack(0,1), stack(2,3)]: three values for a two-block pack. | Only the second loop (180-190): [stack(0,1), stack(2,3)], one stack of `nums` consecutive rows per output block. | not executed | UnpackPack.StackOnDim0AsWrittenEmitsExtra | UnpackPack.StackRows |
