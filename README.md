# Python binding generator, modelled in Dafny

This project models the core of `python/generator.cpp`. That tool reads the
core library's C header, already parsed into a list of named types and a list
of functions, and writes two Python modules:

- the **binding module**, which holds:
  - a `ctypes` definition for every one-segment structure, enumeration,
    scalar and array type;
  - the structure layouts (`_fields_`), in an order where every structure
    comes after each structure that one of its members names directly as
    its type (a member typed by an alias of a structure does not hold it
    back);
  - for every function with a one-segment name, a native binding
    (`restype`, and `argtypes` unless the function is variadic) and a
    wrapper. A variadic function whose name starts with `BNLog` gets an untyped `*args`
    pass-through; every other function gets a typed wrapper that converts
    string arguments, decodes and frees string results, and maps null
    pointers to `None`. Functions with multi-segment names get nothing.
- the **enumeration module**, with one `enum.IntEnum` class per C
  enumeration with a one-segment name.

The model is split by the generator's own stages:

| file | module | what it holds |
|---|---|---|
| `typemodel.dfy` | `TypeModel` | the parsed declarations: type descriptors (class, width, signedness), members, parameters, enumeration members, qualified names |
| `text.dfy` | `Text` | decimal printing (`%d`, `PRId64`) with its parser, joining with a separator and splitting it back |
| `nameorder.dfy` | `NameOrder` | the ordering of qualified names that `std::set` visits them in |
| `renderer.dfy` | `TypeRenderer`, `RendererProperties` | `OutputType` (exact `ctypes` rendering) and `OutputSwizzledType` (Python annotation rendering), and what they promise |
| `typedefs.dfy` | `TypeSection`, `TypeSectionProperties` | the type-definition loop: structure classes, enumeration aliases and `IntEnum` classes, scalar and array aliases |
| `resolver.dfy` | `StructResolver` | the structure resolver as an imperative fixed-point loop over `set` state, proved against a specification of readiness and layering |
| `emitter.dfy` | `FunctionEmitter`, `EmitterProperties` | the keyword table, parameter naming, the call string (built by a loop, as in the source), return conventions and wrapper bodies |
| `generator.dfy` | `Generator` | one run after parsing: type section, structure section, function section, and the exit code |

Output is modelled as the text written to each stream. Each section is a
function of the parsed input, and properties are proved about that text.
The resolver and the call-string builder change state step by step in the
source, so they are `method`s with loops. Each one's `ensures` ties its
result to a specification function, and the properties are proved about
those functions.

## Model

| member | source | states |
|---|---|---|
| TypeModel.AsInt64 | python/generator.cpp:376-379 | an unsigned 64-bit enumeration value printed with `PRId64` reads as the signed value congruent to it modulo 2^64, in [-2^63, 2^63), non-negative exactly when it is below 2^63 |
| Text.NatString | python/generator.cpp:557-558 | the decimal text of an index is non-empty and all digits, starts with '0' exactly for 0, and has no leading zero |
| Text.NatStringRoundTrip | python/generator.cpp:557-558 | the decimal text of an index is all digits, non-empty, and parses back to the index |
| Text.NatStringInjective | python/generator.cpp:557-558 | different indices print differently |
| Text.Int64StringRoundTrip | python/generator.cpp:378 | the printed value of an enumeration member parses back to its signed 64-bit reading |
| Text.JoinSplitRoundTrip | python/generator.cpp:579-604 | a non-empty comma-free list joined with ", " splits back into the same list (an empty list is not covered: its joined text "" splits into one empty piece) |
| NameOrder.LeastExists | python/generator.cpp:397-400 | every non-empty set of pending names has a least name, the one a pass over a `std::set` visits first |
| NameOrder.NameLessTotal | python/generator.cpp:397-400 | any two distinct qualified names are ordered one way or the other (with NameLessIrreflexive, NameLessTransitive and NameLessAsymmetric: a strict total order) |
| TypeRenderer.StripLibraryPrefix | python/generator.cpp:111-123 | a name longer than two characters loses a leading "BN"; every other name is unchanged |
| TypeRenderer.EnumTypeName | python/generator.cpp:370-373 | an enumeration's alias is its name followed by "Enum", less a leading "BN" when the name is longer than "BN" |
| RendererProperties.IntegerRendering | python/generator.cpp:76-104 | an integer renders by width as `c_byte`, `c_short`, `c_int` (widths 1, 2, 4) or `c_longlong` (any other width), with the `u` prefix exactly when it is unsigned |
| RendererProperties.ScalarRendering | python/generator.cpp:73-110 | `bool` renders as `c_bool`, a float as `c_float` at width 4 and `c_double` otherwise, and an integer of any width but 1, 2 or 4 as `c_longlong`/`c_ulonglong`, whatever the return and callback flags |
| RendererProperties.PointerPriority | python/generator.cpp:124-154 | for a pointer of any width and signedness, the rules apply in source order: the callback convention or a `void *` first (`c_void_p`), then a `char *` (a byte pointer in a result position, `c_char_p` elsewhere), then a function pointer (`CFUNCTYPE` of its result and parameters), then `ctypes.POINTER(...)` of the target |
| RendererProperties.CallbackReturnIsOpaque | python/generator.cpp:124-130 | any pointer rendered under the callback convention is `ctypes.c_void_p` |
| RendererProperties.FlagsOnlyReachTopPointer | python/generator.cpp:69-163 | the return and callback flags change only a pointer's rendering, and the return flag only a `char *`'s |
| RendererProperties.EnumReferenceRendering | python/generator.cpp:111-123 | a reference to an enumeration, of any width and signedness and under either flag, renders in both renderings as the stripped name plus "Enum", the alias the type section writes |
| RendererProperties.SwizzledAgreesWithExact | python/generator.cpp:166-228 | the annotation rendering equals the exact rendering if and only if the type is not a scalar, a `void *` or a `char *` |
| RendererProperties.SwizzledScalarsAndHandles | python/generator.cpp:170-219 | scalars annotate as `bool`/`int`/`float`, `void *` as `Optional[ctypes.c_void_p]`, `char *` as `Optional[str]`, unknown classes as `None` in both renderings |
| RendererProperties.RenderTypeBalanced | python/generator.cpp:69-163 | every exact rendering of a type whose names hold no parentheses has balanced parentheses |
| RendererProperties.RenderSwizzledTypeBalanced | python/generator.cpp:166-228 | every annotation rendering of such a type has balanced parentheses |
| RendererProperties.ParamTypeListBalanced | python/generator.cpp:138-150 | the argument list of a `CFUNCTYPE` rendering is balanced |
| TypeSectionProperties.EnumMembersRoundTrip | python/generator.cpp:375-379 | reading the written `IntEnum` body back gives every member in declaration order with its signed value |
| TypeSectionProperties.EnumLineRoundTrip | python/generator.cpp:378 | one member line reads back as its name and signed value |
| TypeSectionProperties.EnumNamesAgree | python/generator.cpp:368-375 | an enumeration's `ctypes` alias is the name every reference to it renders as, and its class carries the same stripped name |
| TypeSectionProperties.PropertiesEmptyIffNoStringField | python/generator.cpp:349-364 | a structure gets property text exactly when some field is a 1-byte signed pointer |
| TypeSectionProperties.StructClassHasBody | python/generator.cpp:344-366 | a structure class always has a body: its property pairs, and `pass` exactly when it has no text field, then its `Handle` alias |
| TypeSectionProperties.DefinitionKinds | python/generator.cpp:338-388 | a qualified name writes nothing; scalars and arrays alias their exact rendering; pointers, functions, references and unknown classes write nothing; only enumerations write to the enumeration module |
| StructResolver.BlocksAppend | python/generator.cpp:423-451 | the structure text of two consecutive runs of names is the concatenation of their texts |
| StructResolver.RequiresDependency | python/generator.cpp:409-421 | the member scan reports a wait if and only if some member names a structure that is not finished |
| StructResolver.Visit | python/generator.cpp:401-452 | one visited name: a qualified name or an entry that is neither a structure with members nor an alias is dropped, a waiting structure is deferred, anything else is written and finished; the pass invariant is kept |
| StructResolver.RunPass | python/generator.cpp:397-452 | a pass writes, in ascending name order, exactly the pending structures and aliases that did not wait, defers the rest, reports progress if and only if it wrote something, and each deferred name waits on a structure unfinished when it was visited |
| StructResolver.ReadyIsTopological | python/generator.cpp:395-461 | an order in which each entry was ready when written puts every structure after each structure that one of its members names directly as its type |
| StructResolver.StuckSetIsEmpty | python/generator.cpp:454-460 | under a layering, the unfinished schedulable structures cannot all be waiting: the set of all of them is empty whenever each one waits |
| StructResolver.StuckRefutesLayering | python/generator.cpp:454-460 | a non-empty set of structures left waiting proves there is no well-founded containment layering (a genuine cycle, or a structure containing one without members) |
| StructResolver.OrderGivesLayering | python/generator.cpp:395-461 | a complete order of ready structures gives a well-founded layering |
| StructResolver.EnumOnlyHeader | python/generator.cpp:395-460 | a header whose only type is an enumeration resolves, has a layering, yet schedules nothing |
| StructResolver.ResolveStructures | python/generator.cpp:390-461 | as written: the written order is duplicate-free, ready in turn, and its text is the structure blocks; it succeeds exactly when containment is layered and either there are no types or something is schedulable; on failure the reported names are the unfinished structures, each waiting on one |
| StructResolver.ResolveStructuresFixed | python/generator.cpp:390-461 | with the stopping rule corrected: succeeds if and only if containment is layered, writing every structure and alias; on failure reports a non-empty set of waiting structures |
| FunctionEmitter.Lookup | python/generator.cpp:554-555 | a keyword is found exactly when the table lists it, and the value returned is the one listed for it |
| FunctionEmitter.KeywordTableIsRenaming | python/generator.cpp:30-66 | every replacement is its keyword plus "_", no keyword ends in "_", and none starts with "ar" |
| FunctionEmitter.RenamingFacts | python/generator.cpp:30-66 | through such a table a keyword becomes itself plus "_", its replacement is not renamed again, and no synthetic `argN` name is a keyword |
| FunctionEmitter.ParamNameIsSafe | python/generator.cpp:553-558 | a parameter's Python name is never empty and never a keyword: a keyword gets "_" appended, an empty name becomes `arg` plus its index, anything else is kept |
| FunctionEmitter.SignatureAndCallAgree | python/generator.cpp:551-569 | the signature and the call name parameter i alike: the signature lists it after the earlier parameters as `name: annotation`, and the call passes the same name, wrapped in `cstr(...)` only when the signature annotates it `Optional[str]` (`:581-600`) |
| FunctionEmitter.BuildCall | python/generator.cpp:579-604 | the call built by appending "arg, " and trimming the last separator is the binding's name applied to the arguments joined by ", " |
| FunctionEmitter.ArgumentText | python/generator.cpp:583-599 | the argument text built step by step (keyword replaced, an empty name turned into `arg` and the index, a C string wrapped in `cstr` when converting) is the argument the call specification lists for that parameter |
| FunctionEmitter.CallArgCommaFree | python/generator.cpp:583-599 | an argument of the call contains no comma when the parameter name has none |
| FunctionEmitter.CallArgumentsRecoverable | python/generator.cpp:579-604 | for a function with at least one parameter, the text between the call's parentheses splits back into exactly the argument list |
| EmitterProperties.SyntheticNamesDistinct | python/generator.cpp:557-558 | two unnamed parameters at different positions get different names |
| EmitterProperties.StringArgumentsConverted | python/generator.cpp:590-599 | an argument is wrapped in `cstr` if and only if conversion is on and the parameter is a `char *`; otherwise it is passed by name |
| EmitterProperties.ConventionRules | python/generator.cpp:473-495 | a string result is a pointer result; string results are 1-byte signed pointers other than `BNAllocString`'s; only `BNFreeString` and `BNRustFreeString` skip conversion; the Rust free routine is chosen exactly for `BNRust` names |
| EmitterProperties.StringResultFreedOnce | python/generator.cpp:606-631 | a wrapper body frees native memory exactly once when the result is a string and never otherwise, the free being the third line with the chosen routine; the null check appears exactly for non-string pointer results |
| EmitterProperties.AllocStringExemption | python/generator.cpp:487-503 | `BNAllocString`'s result renders as `ctypes.c_void_p` and its wrapper frees nothing |
| EmitterProperties.FreeStringArgumentsStayNative | python/generator.cpp:506-526 | the free-string functions declare arguments as in a result position (a `char *` as a byte pointer), annotate them exactly, and pass them unconverted |
| EmitterProperties.StringResultAnnotation | python/generator.cpp:571-577 | a `char *` result is annotated `Optional[Optional[str]]` |
| EmitterProperties.VariadicWrapperMismatch | python/generator.cpp:527-572 | a variadic function outside the `BNLog` family gets a binding and a wrapper whose signature lists no parameters while its call passes one argument per declared parameter |
| EmitterProperties.LogFunctionsPassThrough | python/generator.cpp:527-545 | a variadic `BNLog` function gets its binding and a pass-through converting every argument, `BNLog` itself keeping `level` first |
| Generator.TypeMapOf | python/generator.cpp:391-394 | the lookup table holds exactly the parsed names |
| Generator.TypeMapOfLastEntryWins | python/generator.cpp:391-394 | each parsed name is bound to the type of its last entry, a later entry of the same name replacing an earlier one |
| Generator.Generate | python/generator.cpp:337-633 | exit code 0 exactly when structure containment is layered; the binding text is the type section, the structure blocks in a topological order and, on success only, the function section; on failure the reported names are non-empty and are the unwritten structures; the enumeration text is every enumeration class in parser order |

## Left out

- Parsing the header, the parser settings, the include paths, opening files and the argument check (python/generator.cpp:230-298): the model starts from the parsed type and function lists and returns the text each stream receives.
- The fixed prelude of both modules (python/generator.cpp:299-335) and the fixed closing block of the binding module after the function section (python/generator.cpp:635-644: `max_confidence`, `handle_of_type`, the `BNSetBundledPluginDirectory` call) are constant text and are not modelled; `Generate`'s binding text ends with the function section.
- Messages to standard error are not modelled. This covers the colour-coded parse diagnostics and the cycle report. The reported names are modelled as the returned set.
- `types[...]` lookups are modelled over the parsed types: the local `types` map (python/generator.cpp:242) is never filled in the source, so its lookups would yield null references. Every structure member's named reference is required to resolve, as the header's types do.
- StructResolver.ResolveStructures, ResolveStructuresFixed: require every member reference to name a parsed type; the source's behaviour on a dangling reference (a null dereference) is not modelled.
- QualifiedName's printable form is modelled as the segments joined by "::"; binaryninjaapi.h is not part of this model.
- The keyword table is modelled as a list of pairs searched from the front; its keys are distinct, so this is the `std::map` lookup.
- Generator.Generate: uses the corrected stopping rule (ResolveStructuresFixed); the as-written rule is modelled by ResolveStructures, see Findings.
- EmitterProperties.SyntheticNamesDistinct: a declared parameter literally named `argN` can collide with a synthetic name at another position; the model does not exclude this and proves distinctness only among synthetic names.
- Structures with zero members: python/generator.cpp:407 never finishes them. They are dropped without counting as progress, and a structure containing one waits forever. The model follows the code.
- The cycle report: python/generator.cpp:457-458 reports every structure still waiting, including those that only contain a cyclic one. The model follows the code.
- Members typed by an alias or an array: python/generator.cpp:412-414 waits only when the member's own type is a named reference to a structure, and an alias entry is written on first sight (python/generator.cpp:444-451). So a structure whose member is typed by an alias of an unfinished structure, or by an array of one (`Inner a[2]`), is written without waiting, and the ordering the model proves (`ReadyIsTopological`) covers only structures named directly as a member's type. The model follows the code.
- The visiting order of a pass assumes that `QualifiedName`'s `operator<` compares segments lexicographically, as `NameLess` defines it; binaryninjaapi.h is not part of this model.
- Type descriptors carry width and signedness for every class. The source tests width and signedness alone for text fields and string results (python/generator.cpp:352, 430, 473-475), and the model keeps that weaker test as written.
- Thread safety, the core library's allocation behaviour and what Python does with the written modules are outside the generator and not modelled.

## Findings

| source | as written | input that shows it | evidently intended | confidence | as-written member | corrected member |
|---|---|---|---|---|---|---|
| python/generator.cpp:395-460 | a pass that writes nothing aborts the run with "Detected dependency cycle" and exit code 1, even when no structure was deferred | a header whose only type is an enumeration (`BNLogLevel`): the first pass writes nothing and defers nothing, so the run fails with an empty cycle list | stop with an error only when some structure is still waiting; a pass that neither writes nor defers ends the loop successfully | not executed; low impact, since the real header always has structures | StructResolver.ResolveStructures (with StructResolver.EnumOnlyHeader) | StructResolver.ResolveStructuresFixed |
