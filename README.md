# Wiring transform: annotation gathering

A Dafny model of the part of CIRCT's FIRRTL `WiringTransformPass` that has code
behind it. The pass walks a circuit and collects two kinds of wiring markers:

- `firrtl.passes.wiring.SourceAnnotation`
- `firrtl.passes.wiring.SinkAnnotation`

Each marker carries a route name in its `portName` member. The pass records
the markers in four maps and removes every marker it consumes from the IR.
Its `transform` step then reports each source route that has no sinks.

The lowest-common-ancestor search, port punching and wiring that the file
header describes have no code in the source. They are not modelled.

Layout:

- `ir.dfy` (module `Ir`): the IR slice the pass sees.
  - `Anno` is a Source, a Sink or any other annotation. `Classify` reads a raw class and `portName` the way the `isClass` tests do.
  - `Kept` is what survives the pass's removal callbacks.
  - `Op` is a class. An operation's annotations and a module's per-port annotations are fields that the pass rewrites in place.
- `route_table.dfy` (module `RouteTable`): the pass's maps as a value (`Table`), plus what one annotation, one port, one module, one operation and a whole walk do to them. The lemmas here state the properties.
- `wiring_transform.dfy` (module `WiringTransform`): the pass object.
  - The class `WiringTransformPass` holds `sinkArgs`, `srcArg`, `sinkOpsMap`, `srcOpsMap` and the emitted diagnostics as fields.
  - Its methods are the two removal callbacks, the port and operation branches of `gatherAnnotations`, the walk of `runOnOperation`, and `transform`.
  - Each method's `ensures` ties the new field values to the `RouteTable` functions of the old ones.

A diagnostic is modelled as a record of kind, route name and operation. The
kinds are `AmbiguousSource` and `MissingSink`.

## Model

| member | source | states |
|---|---|---|
| Ir.Classify | lib/Dialect/FIRRTL/Transforms/WiringTransform.cpp:92-98 | an annotation is a Sink iff its class is the sink class, and a Source iff its class is the source class; a marker's route name is its `portName` member |
| Ir.ClassifyKeepsClass | lib/Dialect/FIRRTL/Transforms/WiringTransform.cpp:36-39 | reading a raw annotation never loses its class string |
| Ir.ClassifyRoundTrip | lib/Dialect/FIRRTL/Transforms/WiringTransform.cpp:36-39 | an annotation whose class is not a marker class, or a marker with its own name, reads back as itself |
| Ir.Kept | lib/Dialect/FIRRTL/Transforms/WiringTransform.cpp:90-109 | after removal no Source or Sink is left; an annotation survives iff it was present and is not a marker; a list without markers is unchanged |
| Ir.KeptConcat | lib/Dialect/FIRRTL/Transforms/WiringTransform.cpp:120-137 | removal keeps the surviving annotations in their original order (it distributes over concatenation) |
| Ir.MapKept | lib/Dialect/FIRRTL/Transforms/WiringTransform.cpp:90-109 | every port keeps its own annotation list minus the markers; the port count is unchanged |
| RouteTable.OpAnnosSinks | lib/Dialect/FIRRTL/Transforms/WiringTransform.cpp:121-125 | on an operation, each Sink for `n` appends exactly one entry, the operation, to the sink list of `n`, after the existing entries |
| RouteTable.ModulePortsSinks | lib/Dialect/FIRRTL/Transforms/WiringTransform.cpp:92-97 | on a module, each Sink port annotation for `n` appends the module once, so a module with several sink ports appears several times |
| RouteTable.WalkSinkList | lib/Dialect/FIRRTL/Transforms/WiringTransform.cpp:87-139 | over a walk, the sink list of `n` is the old list followed by one entry per Sink met, in traversal order |
| RouteTable.PortAnnosArgs | lib/Dialect/FIRRTL/Transforms/WiringTransform.cpp:92-97 | a Sink on port `argNum` appends `argNum` to `sinkArgs[n][module]` once per Sink; the entries of every other operation are unchanged |
| RouteTable.ModulePortsArgs | lib/Dialect/FIRRTL/Transforms/WiringTransform.cpp:90-109 | after a module's ports, `sinkArgs[n][module]` gains the numbers of its sink ports for `n`, in port order, one per Sink annotation |
| RouteTable.OpAnnosFrame | lib/Dialect/FIRRTL/Transforms/WiringTransform.cpp:120-136 | operation-level markers never change `sinkArgs` or `srcArg` |
| RouteTable.ModulePortsStrip | lib/Dialect/FIRRTL/Transforms/WiringTransform.cpp:90-136 | on sink lists, sources and diagnostics, a module's ports act like one operation carrying all port annotations in port order |
| RouteTable.GatherStrip | lib/Dialect/FIRRTL/Transforms/WiringTransform.cpp:87-139 | `gatherAnnotations` updates sink lists, sources and diagnostics as if the examined annotations sat on one operation |
| RouteTable.OpAnnosErrors | lib/Dialect/FIRRTL/Transforms/WiringTransform.cpp:126-133 | diagnostics only grow; each new one is an ambiguous-source error reported at the visited operation, for a route it carries a Source for |
| RouteTable.OpAnnoStepSources | lib/Dialect/FIRRTL/Transforms/WiringTransform.cpp:126-133 | `insert` fills a missing source entry silently, and keeps an existing entry while adding exactly one ambiguous-source error |
| RouteTable.OpAnnosSources | lib/Dialect/FIRRTL/Transforms/WiringTransform.cpp:120-136 | first source wins: an existing entry is kept, otherwise the operation becomes the entry iff it carries a Source for `n`; every Source for `n` either fills the entry or is reported once |
| RouteTable.FirstSource | lib/Dialect/FIRRTL/Transforms/WiringTransform.cpp:102-105 | the first operation in walk order that carries a Source for `n`, with none before it |
| RouteTable.WalkSources | lib/Dialect/FIRRTL/Transforms/WiringTransform.cpp:87-139 | over a walk, the source of `n` is the one recorded before, else the first source met; every other Source for `n` is reported exactly once |
| RouteTable.PortAnnosSrcArg | lib/Dialect/FIRRTL/Transforms/WiringTransform.cpp:98-106 | a port Source for `n` always sets `srcArg[n]` to the port number, ambiguous or not; without one `srcArg[n]` is unchanged |
| RouteTable.LastSourcePort | lib/Dialect/FIRRTL/Transforms/WiringTransform.cpp:90-101 | the last port of a module that carries a Source for `n`, with none after it |
| RouteTable.ModulePortsSrcArg | lib/Dialect/FIRRTL/Transforms/WiringTransform.cpp:90-109 | after a module's ports, `srcArg[n]` is the last Source port for `n` (the latest write wins), or unchanged if there is none |
| RouteTable.AmbiguousSourceSplitsEntry | lib/Dialect/FIRRTL/Transforms/WiringTransform.cpp:101-105 | two port sources for one name on two modules leave `srcOpsMap` on the first module, `srcArg` on the second module's port, and one ambiguous-source error |
| RouteTable.OpAnnosIdle | lib/Dialect/FIRRTL/Transforms/WiringTransform.cpp:120-136 | an operation whose annotations hold no marker changes no map and emits nothing |
| RouteTable.PortAnnosIdle | lib/Dialect/FIRRTL/Transforms/WiringTransform.cpp:90-109 | a port whose annotations hold no marker changes no map and emits nothing |
| RouteTable.ModulePortsIdle | lib/Dialect/FIRRTL/Transforms/WiringTransform.cpp:90-109 | a module whose ports hold no marker changes no map and emits nothing |
| RouteTable.GatherConsumes | lib/Dialect/FIRRTL/Transforms/WiringTransform.cpp:87-139 | gathering is consuming: visiting an operation again after gathering changes no map, emits nothing, and changes no annotation |
| RouteTable.WalkConsumes | lib/Dialect/FIRRTL/Transforms/WiringTransform.cpp:49-54 | a second walk over the output of a walk adds nothing to any map, emits no diagnostic, and leaves the IR as it is |
| RouteTable.OwedCount | lib/Dialect/FIRRTL/Transforms/WiringTransform.cpp:68-75 | a diagnostic list with exactly the owed missing-sink errors, one per name, has one entry per source name that has no sink list |
| WiringTransform.WiringTransformPass.constructor | lib/Dialect/FIRRTL/Transforms/WiringTransform.cpp:58-64 | the pass starts with all four maps empty and no diagnostics |
| WiringTransform.WiringTransformPass.PushSink | lib/Dialect/FIRRTL/Transforms/WiringTransform.cpp:95 | `sinkOpsMap[n]` gains the operation at its end; nothing else changes |
| WiringTransform.WiringTransformPass.InsertSource | lib/Dialect/FIRRTL/Transforms/WiringTransform.cpp:102-105 | a new name is inserted; a taken name keeps its entry and one ambiguous-source error is emitted |
| WiringTransform.WiringTransformPass.PortAnnoCallback | lib/Dialect/FIRRTL/Transforms/WiringTransform.cpp:91-108 | the port callback asks for removal iff the annotation is a marker, and updates the maps as one port-annotation step |
| WiringTransform.WiringTransformPass.OpAnnoCallback | lib/Dialect/FIRRTL/Transforms/WiringTransform.cpp:120-135 | the operation callback asks for removal iff the annotation is a marker, and updates the maps as one operation-annotation step |
| WiringTransform.WiringTransformPass.RemoveFromPort | lib/Dialect/FIRRTL/Transforms/WiringTransform.cpp:90-109 | one port's annotations: the kept list is the input minus its markers, and the maps advance over every annotation in order |
| WiringTransform.WiringTransformPass.RemoveFromOp | lib/Dialect/FIRRTL/Transforms/WiringTransform.cpp:120-136 | an operation's annotations: the kept list is the input minus its markers, and the maps advance over every annotation in order |
| WiringTransform.WiringTransformPass.GatherModule | lib/Dialect/FIRRTL/Transforms/WiringTransform.cpp:89-109 | module branch: every port is visited in order with its index as `argNum`, each port keeps its non-markers, and the module's own annotations are untouched |
| WiringTransform.WiringTransformPass.GatherOp | lib/Dialect/FIRRTL/Transforms/WiringTransform.cpp:110-138 | operation branch: the annotations lose their markers; an operation with no annotations leaves the pass and the operation entirely unchanged |
| WiringTransform.WiringTransformPass.GatherAnnotations | lib/Dialect/FIRRTL/Transforms/WiringTransform.cpp:87-139 | the maps advance by the gather step of the visited operation, and the operation becomes its gathered form |
| WiringTransform.WiringTransformPass.RunOnOperation | lib/Dialect/FIRRTL/Transforms/WiringTransform.cpp:49-54 | the walk visits every operation once, in order; the maps become the walk of the old maps, and every operation becomes its gathered form |
| WiringTransform.WiringTransformPass.Transform | lib/Dialect/FIRRTL/Transforms/WiringTransform.cpp:68-85 | appends exactly the "cannot find corresponding sink" errors owed (one per source name absent from `sinkOpsMap`, at the source operation) and no others; no two share a name; earlier diagnostics are kept |

## Left out

- The lowest-common-ancestor lookup, port punching and wiring. The file header (lines 10-15) describes them, but the only call toward them (line 81) is commented out, so there is no behaviour to model. The source also never calls `transform` from `runOnOperation`. The model provides it as a separate method.
- Debug printing (`LLVM_DEBUG`, and the unconditional `llvm::dbgs()` print of each sink at line 80). This is output only.
- Diagnostic locations and message text. A diagnostic is a (kind, name, operation) record.
- The `InstanceGraph` analysis lookup, `markAllAnalysesPreserved` and pass registration. These are framework plumbing with no effect on the maps.
- The MLIR `walk` and the `AnnotationSet` library. The walk is a sequence of distinct operations visited in the order given. An annotation set is a list. Writing back an empty set is the same as writing back nothing.
- A marker annotation without a `portName` string member. The source dereferences a null attribute in that case. The model assumes every marker carries its name.
- The iteration order of `srcOpsMap` in `transform`. The method picks names in an unspecified order. The new diagnostics are therefore described as a set with one entry per name, not as a sequence.
- Errors for a route that has sinks but no source. The pass's design calls for one, but the code emits none. `transform` checks only sources against `sinkOpsMap`. The model follows the code. `Transform`'s contract states that such names get no diagnostic.
- `Operation *` identity is modelled by object identity of `Op`. `StringRef` keys are modelled by string values.
