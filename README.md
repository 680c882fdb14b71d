# ImGuiNET binding generator: rule passes and output cleanup

This project models the part of the ImGuiNET generator that makes its own
decisions about the C# bindings that the CppSharp code generator produces
for Dear ImGui. That part has two pieces.

**The rule passes of the generator library (`MyLibrary`).** Before generation,
`Preprocess` runs four passes in a fixed order:
1. Ignore two enumerations, every enumeration whose name ends in `Private_`,
   and every enumeration item whose name ends in `_BEGIN`, `_END`, `_COUNT`,
   `_SIZE` or `_OFFSET`.
2. Move the declarations of the single namespace in `imgui.h` up into the unit.
3. Mark three classes as value types.
4. Ignore a fixed list of classes, methods and one function.

After generation, `Postprocess` runs four more passes:
1. Ignore a fixed list of properties, one method and one class.
2. Rename five delegate typedefs of the `Delegates` namespace and merge them
   into the `imgui.h` unit.
3. Mark as flags every enumeration of that unit whose name contains `Flags`.
4. Make every `ImVector<T>` property of the unit's classes read-only.

In the model, every lookup in these passes must find exactly one declaration,
or the run stops. The source guarantees this for its LINQ `Single` calls; for
CppSharp's own lookup helpers it is the model's choice (see "Left out").

**The command-line program (`Program`).** `Main` chooses what to do from
its arguments: show the usage, generate the old version, generate the new
version, or clean up. `Cleanup` rewrites a generated `imgui.cs` with thirteen
literal replace-all steps, always in the same order.

The declaration graph is modelled on values. A declaration is a `Decl`
datatype: a namespace, enumeration, class, typedef or function. A
translation unit is a file name plus its top-level declarations. The mutable
`ASTContext` is `Ast.AstContext`, a class with one field `units` that the
pass methods reassign.

Each pass is a `method` that `modifies` the context. Its `ensures` ties the
new state and the outcome to a specification function of the old state. The
lemmas then state what that function does:
- when the pass succeeds;
- what it changes;
- what it leaves alone;
- which lookups a later pass can still make.

CppSharp's lookup helpers are modelled as "find exactly one, else fail"
functions: `FindCompleteEnum`, `FindCompleteClass`, `IgnoreClassWithName`,
`SetClassAsValueType`, `SetPropertyAsReadOnly` and `FindTypedef`. LINQ's
`Single` is modelled the same way. An exception becomes an `Err` result that
names the lookup that failed. `ArgumentOutOfRangeException` of `Ignore`
becomes `ArgumentOutOfRange`.

Modules:
- `Text` (`text.dfy`): ordinal `EndsWith`/`Contains`, the left-to-right
  replace-all of `StringBuilder.Replace`, and a `StringBuilder` class whose
  `Replace` loop is proved equal to it.
- `Ast` (`ast.dfy`): the declaration graph, the exactly-one lookups, and the
  CppSharp helpers the passes call.
- `MyLibrary` (`mylibrary.dfy`): the rule passes, their specifications, and
  `Preprocess`/`Postprocess`.
- `Program` (`program.dfy`): `Cleanup` and the argument dispatch of `Main`.
- `Scenarios` (`scenarios.dfy`): concrete inputs run through the
  specifications.

## Model

| member | source | states |
|---|---|---|
| Ast.FindSingle | imgui.NET.Generator/MyLibrary.cs:183 | `Single` over a sequence: Found(i) means element i is the only one satisfying the predicate; Missing exactly when none does; Ambiguous exactly when two do |
| Ast.FindSingleOnly | imgui.NET.Generator/MyLibrary.cs:183 | when exactly one element satisfies the predicate, the lookup returns that element's index |
| Ast.FoundExactlyOne | imgui.NET.Generator/MyLibrary.cs:183 | the lookup finds something exactly when one element, and only one, satisfies the predicate |
| Ast.FindDecl | imgui.NET.Generator/MyLibrary.cs:95-101 | a by-name lookup of a class, enumeration or function over the top-level declarations of all units: Found names the only match, Missing means no declaration matches, Ambiguous means two do |
| Ast.FindDeclUnique | imgui.NET.Generator/MyLibrary.cs:95-101 | the lookup succeeds exactly when the named declaration exists once |
| Ast.FindDeclSameNames | imgui.NET.Generator/MyLibrary.cs:95-101 | two graphs with the same kinds and names at every position give the same lookup result |
| Ast.IgnoreDecl | imgui.NET.Generator/MyLibrary.cs:94-99 | `IgnoreClassWithName`/`IgnoreFunctionWithName`/`FindCompleteEnum(..).ExplicitlyIgnore()`: succeeds exactly when the name is unique; then that one declaration is marked ignored and every other position is unchanged |
| Ast.IgnoreDeclMissing | imgui.NET.Generator/MyLibrary.cs:94-99 | the failure is "no match" exactly when no declaration of that kind has the name |
| Ast.SetDeclKeepsNames | imgui.NET.Generator/MyLibrary.cs:94-105 | replacing a declaration with one of the same kind, name and members leaves every lookup seeing the same names |
| Ast.MarkIgnored | imgui.NET.Generator/MyLibrary.cs:143 | `ExplicitlyIgnore` sets the ignored flag and keeps kind, name and members |
| Ast.SetClassAsValueType | imgui.NET.Generator/MyLibrary.cs:195-197 | succeeds exactly when the class name is unique; then only that class becomes a value type |
| Ast.IgnoreClassMethod | imgui.NET.Generator/MyLibrary.cs:101 | `IgnoreClassMethodWithName` succeeds only when the class name is unique |
| Ast.SetPropertyAsReadOnly | imgui.NET.Generator/MyLibrary.cs:319 | succeeds exactly when the class is unique and exactly one of its properties has the name |
| Ast.IgnoreClassProperty | imgui.NET.Generator/MyLibrary.cs:103-105 | definition: the one class with that name, then `Properties.Single(p => p.Name == name)`, then that property alone is flagged ignored; a missing name (null) matches no property. IgnorePropertyEffect and UnnamedPropertyFails prove what it does |
| Ast.FoldStopsAtFailure | imgui.NET.Generator/MyLibrary.cs:200-213 | once a step of a rule list fails, the later steps do not run and the failure is the result |
| Ast.DeclCountAppend | imgui.NET.Generator/MyLibrary.cs:183-189 | the number of declarations, nested ones included, of a concatenation is the sum of the parts |
| MyLibrary.Ignore | imgui.NET.Generator/MyLibrary.cs:90-108 | an unknown `IgnoreType` value fails with `ArgumentOutOfRange` |
| MyLibrary.ApplyRule | imgui.NET.Generator/MyLibrary.cs:90-109 | definition: one table row, given to Ignore with its class name, member name and kind. IgnoreSucceedsIff proves when it succeeds |
| MyLibrary.IgnoreSucceedsIff | imgui.NET.Generator/MyLibrary.cs:90-108 | an ignore rule succeeds exactly when all its lookups resolve: a unique class, function or enumeration; or a unique class with exactly one member of that name; a property rule without a member name always fails |
| MyLibrary.UnnamedPropertyFails | imgui.NET.Generator/MyLibrary.cs:104 | a property rule whose member name is null matches no property |
| MyLibrary.IgnoreMethodSucceedsIff | imgui.NET.Generator/MyLibrary.cs:100-102 | a method rule succeeds exactly when the class is unique and has exactly one method of that name |
| MyLibrary.IgnorePropertySucceedsIff | imgui.NET.Generator/MyLibrary.cs:103-105 | a property rule succeeds exactly when the class is unique and has exactly one property of that name |
| MyLibrary.OnePropertyFound | imgui.NET.Generator/MyLibrary.cs:104 | `Properties.Single(p => p.Name == name)` succeeds exactly when one property has that name |
| MyLibrary.OneMethodFound | imgui.NET.Generator/MyLibrary.cs:101 | the method lookup succeeds exactly when one method has that name |
| MyLibrary.IgnorePropertyEffect | imgui.NET.Generator/MyLibrary.cs:103-105 | on a unique class: fails with "no match" exactly when no property has the name; on success, only that property is marked ignored and every other declaration is unchanged |
| MyLibrary.IgnoreMethodEffect | imgui.NET.Generator/MyLibrary.cs:100-102 | on a unique class: fails with "no match" exactly when no method has the name; on success, only that method is marked ignored and every other declaration is unchanged |
| MyLibrary.IgnoreKeepsNames | imgui.NET.Generator/MyLibrary.cs:90-108 | an ignore rule changes only flags, never the names and kinds a later lookup sees |
| MyLibrary.ResolvesSameNames | imgui.NET.Generator/MyLibrary.cs:90-108 | whether a rule resolves depends only on the names and kinds in the graph |
| MyLibrary.IgnoreAll | imgui.NET.Generator/MyLibrary.cs:200-212 | definition: the rules applied in table order, each to the graph the previous one left; the first failure ends the table. IgnoreAllResolves proves when it succeeds, IgnoreAllKeepsNames what it keeps |
| MyLibrary.IgnoreAllKeepsNames | imgui.NET.Generator/MyLibrary.cs:200-213 | a successful rule list keeps every name and kind |
| MyLibrary.IgnoreAllResolves | imgui.NET.Generator/MyLibrary.cs:200-213 | a rule list succeeds exactly when every rule resolves in the ORIGINAL graph: earlier rules never disturb the lookups of later ones |
| MyLibrary.ApplyIgnoreRules | imgui.NET.Generator/MyLibrary.cs:200-213 | the loop over the rules gives the outcome and the new graph of the rule list's specification |
| MyLibrary.PreprocessIgnores | imgui.NET.Generator/MyLibrary.cs:200-213 | applies the eleven preprocessing rules in order |
| MyLibrary.PostprocessIgnores | imgui.NET.Generator/MyLibrary.cs:224-242 | applies the sixteen postprocessing rules in order |
| MyLibrary.GetImGuiTranslationUnit | imgui.NET.Generator/MyLibrary.cs:219-222 | returns the only unit named `imgui.h`; fails with "no match" exactly when there is none, and with "more than one" exactly when there are two |
| MyLibrary.HeaderSameFileNames | imgui.NET.Generator/MyLibrary.cs:219-222 | two graphs whose units have the same file names in the same order, whatever their declarations, give the same `imgui.h` lookup result |
| MyLibrary.IsSentinel | imgui.NET.Generator/MyLibrary.cs:147-172 | definition: an item name ending, by ordinal comparison, in `_BEGIN`, `_END`, `_COUNT`, `_SIZE` or `_OFFSET`. CountIsSentinel and NoneIsNoSentinel are instances |
| MyLibrary.NormalizeEnumeration | imgui.NET.Generator/MyLibrary.cs:141-172 | an enumeration ending in `Private_` is ignored with its items untouched; any other enumeration keeps its name and flags, and an item ends up ignored exactly when it already was or its name ends in a sentinel suffix |
| MyLibrary.NormalizeUnit | imgui.NET.Generator/MyLibrary.cs:139-174 | each top-level declaration of a unit is normalized, in place |
| MyLibrary.NormalizeEnumerations | imgui.NET.Generator/MyLibrary.cs:139-174 | the nested loop over units and declarations normalizes every unit |
| MyLibrary.IgnoreSentinelItems | imgui.NET.Generator/MyLibrary.cs:147-173 | the loop over the items ignores exactly the sentinel items and leaves the others as they were |
| MyLibrary.PreprocessEnumerationsSpec | imgui.NET.Generator/MyLibrary.cs:132-175 | definition: ignore `ImGuiModFlags_`, then `ImGuiNavInput_`, each failing when not exactly one enumeration has the name, then normalize every top-level declaration of every unit. The pass method is proved equal to it, and NormalizeEnumeration states the per-declaration effect |
| MyLibrary.PreprocessEnumerations | imgui.NET.Generator/MyLibrary.cs:132-175 | ignores `ImGuiModFlags_` and `ImGuiNavInput_`, each of which must exist once, then normalizes every enumeration |
| MyLibrary.EnumerationsKeepHeader | imgui.NET.Generator/MyLibrary.cs:136-174 | the enumeration pass keeps the `imgui.h` lookup result |
| MyLibrary.Emptied | imgui.NET.Generator/MyLibrary.cs:187 | clearing a namespace keeps its name and parent and leaves no members |
| MyLibrary.FlattenNamespace | imgui.NET.Generator/MyLibrary.cs:177-190 | definition: the `imgui.h` unit, its single namespace, that namespace emptied in place, and its former declarations appended to the unit. FlattenNamespaceEffect and FlattenNamespaceNeedsOne prove what it does |
| MyLibrary.FlattenNamespaceEffect | imgui.NET.Generator/MyLibrary.cs:181-189 | with one namespace in `imgui.h`: its members are appended to the unit in order, the namespace stays empty in its place, every other declaration and unit is unchanged, and the total number of declarations is kept |
| MyLibrary.FlattenNamespaceNeedsOne | imgui.NET.Generator/MyLibrary.cs:183 | the pass fails with "no match" exactly when `imgui.h` has no namespace, and with "more than one" exactly when it has two |
| MyLibrary.PreprocessNamespace | imgui.NET.Generator/MyLibrary.cs:177-190 | the pass gives the outcome and graph of the flattening specification |
| MyLibrary.SetValueTypes | imgui.NET.Generator/MyLibrary.cs:192-198 | definition: `SetClassAsValueType` for `ImDrawVert`, `ImVec2` and `ImVec4` in that order, the first failure ending the pass. SetValueTypesEffect proves what it does |
| MyLibrary.SetValueTypesEffect | imgui.NET.Generator/MyLibrary.cs:192-198 | succeeds exactly when `ImDrawVert`, `ImVec2` and `ImVec4` are each unique; then exactly those three classes become value types |
| MyLibrary.ValueTypeKeepsNames | imgui.NET.Generator/MyLibrary.cs:195-197 | marking a value type keeps every name a later lookup sees |
| MyLibrary.PreprocessValueTypes | imgui.NET.Generator/MyLibrary.cs:192-198 | the pass gives the outcome and graph of the value-type specification |
| MyLibrary.WithName | imgui.NET.Generator/MyLibrary.cs:252-253 | renaming keeps kind and parent and sets the name |
| MyLibrary.WithParent | imgui.NET.Generator/MyLibrary.cs:271 | re-parenting keeps kind and name and sets the parent |
| MyLibrary.Target | imgui.NET.Generator/MyLibrary.cs:252-265 | the new name of a typedef is the target of the rename whose source it is; there is none exactly when no rename has that source |
| MyLibrary.OneTypedefFound | imgui.NET.Generator/MyLibrary.cs:252 | `FindTypedef` succeeds exactly when one typedef has that name |
| MyLibrary.RenameTypedef | imgui.NET.Generator/MyLibrary.cs:252-253 | definition: `FindTypedef(from).Name = to`: the one typedef named `from` gets the name `to`. OneTypedefFound proves when it succeeds |
| MyLibrary.RenameAll | imgui.NET.Generator/MyLibrary.cs:252-265 | definition: the renames of a table applied in order, the first failure ending them. RenameAllEffect proves what they do |
| MyLibrary.RenameAllEffect | imgui.NET.Generator/MyLibrary.cs:252-265 | for renames with distinct sources and no target equal to a source, the renames succeed exactly when each source names one typedef; then every source typedef gets its target name and everything else is kept |
| MyLibrary.RenameStep | imgui.NET.Generator/MyLibrary.cs:252-265 | one more rename is found in the partly renamed namespace exactly when it is found in the original one |
| MyLibrary.DelegateRenamesUnambiguous | imgui.NET.Generator/MyLibrary.cs:252-265 | the five delegate renames have distinct sources, and no target is a source |
| MyLibrary.MoveAll | imgui.NET.Generator/MyLibrary.cs:269-272 | every moved declaration keeps kind and name and gets the new parent |
| MyLibrary.MergeDelegates | imgui.NET.Generator/MyLibrary.cs:244-280 | definition: the merge with the five delegate renames of the source. DelegatesMergeSucceedsIff proves when it succeeds |
| MyLibrary.MergeDelegatesWith | imgui.NET.Generator/MyLibrary.cs:244-280 | definition: the `imgui.h` unit, its one `Delegates` namespace, the renames, then the renamed declarations re-parented and appended to the unit, with the namespace emptied. MergeDelegatesSucceedsIff and MergeDelegatesEffect prove what it does |
| MyLibrary.MergeDelegatesSucceedsIff | imgui.NET.Generator/MyLibrary.cs:248-265 | for any rename table whose sources are distinct and whose targets are no source, with `imgui.h` and `Delegates` unique: the merge succeeds exactly when each source name is one typedef of the namespace |
| MyLibrary.DelegatesMergeSucceedsIff | imgui.NET.Generator/MyLibrary.cs:248-265 | with `imgui.h` and `Delegates` unique, the pass succeeds exactly when each of the five delegate names is one typedef of the namespace |
| MyLibrary.MergeDelegatesEffect | imgui.NET.Generator/MyLibrary.cs:248-279 | for any such rename table, on success: the unit gains the namespace's declarations in order, each renamed and re-parented to the unit; the namespace stays, emptied; every other declaration and unit is unchanged |
| MyLibrary.Flattened | imgui.NET.Generator/MyLibrary.cs:277-279 | the unit keeps its file name and every declaration but the namespace, which is emptied in place, and the appended declarations follow in order |
| MyLibrary.MergeDelegatesShape | imgui.NET.Generator/MyLibrary.cs:248-279 | on success the renames succeeded, other units are untouched, and the unit is its old declarations with the namespace emptied, followed by the renamed namespace members re-parented to the unit |
| MyLibrary.MovedRenamed | imgui.NET.Generator/MyLibrary.cs:252-272 | for any such rename table, the renamed and moved member k is member k renamed by its rename, if any, with the new parent |
| MyLibrary.PostprocessDelegates | imgui.NET.Generator/MyLibrary.cs:244-280 | the pass gives the outcome and graph of the merge specification |
| MyLibrary.RenameDelegates | imgui.NET.Generator/MyLibrary.cs:252-265 | the five `FindTypedef(..).Name = ..` statements compute the rename specification |
| MyLibrary.Reparent | imgui.NET.Generator/MyLibrary.cs:269-275 | the loop that sets `Namespace` on each member computes the re-parenting specification |
| MyLibrary.IsFlagsCandidate | imgui.NET.Generator/MyLibrary.cs:288-290 | definition: an enumeration whose name contains `Flags`. ExampleIsCandidate is an instance |
| MyLibrary.MarkFlags | imgui.NET.Generator/MyLibrary.cs:290-295 | definition: a candidate gets `isFlags` set, whether or not it was already set; anything else is kept. MarkFlagsEffect proves what the pass does with it |
| MyLibrary.MarkFlagsSpec | imgui.NET.Generator/MyLibrary.cs:282-301 | definition: the `imgui.h` unit with MarkFlags applied to each of its top-level declarations. MarkFlagsEffect and MarkFlagsIdempotent prove what it does |
| MyLibrary.MarkAll | imgui.NET.Generator/MyLibrary.cs:288-300 | each declaration is marked independently and stays in its place |
| MyLibrary.MarkFlagsEffect | imgui.NET.Generator/MyLibrary.cs:282-300 | succeeds exactly when `imgui.h` is unique; then an enumeration of that unit whose name contains `Flags` is flags afterwards and otherwise unchanged; every other declaration and unit is unchanged |
| MyLibrary.MarkFlagsIdempotent | imgui.NET.Generator/MyLibrary.cs:288-300 | running the flags pass twice gives the same graph as running it once |
| MyLibrary.PostprocessEnumerations | imgui.NET.Generator/MyLibrary.cs:282-301 | the loop gives the outcome and graph of the flags specification |
| MyLibrary.IsVectorProperty | imgui.NET.Generator/MyLibrary.cs:313-317 | definition: a property whose type is a specialisation of the template named `ImVector` |
| MyLibrary.Sealed | imgui.NET.Generator/MyLibrary.cs:313-319 | definition: an ImVector property becomes read-only, any other is kept |
| MyLibrary.SealVectors | imgui.NET.Generator/MyLibrary.cs:303-325 | definition: when each visited class and property name is unique at its turn, every class of the `imgui.h` unit has its properties sealed; otherwise the pass fails. SealVectorsEffect proves what it does |
| MyLibrary.SealedFirst | imgui.NET.Generator/MyLibrary.cs:311-323 | after visiting the first j properties of a class, exactly those that are `ImVector` are read-only; names and kinds are kept |
| MyLibrary.SealedBefore | imgui.NET.Generator/MyLibrary.cs:309-324 | the classes before the loop position are fully sealed; the ones after it are untouched |
| MyLibrary.SealAll | imgui.NET.Generator/MyLibrary.cs:309-324 | every class of the unit is sealed, each in its place |
| MyLibrary.SealVectorsEffect | imgui.NET.Generator/MyLibrary.cs:303-324 | a property of a class of `imgui.h` is read-only afterwards exactly when it was before or it is an `ImVector`; nothing else in the graph changes |
| MyLibrary.SealStep | imgui.NET.Generator/MyLibrary.cs:319 | the `SetPropertyAsReadOnly` call for the next `ImVector` property succeeds exactly when the class is unique in the whole graph and the property name is unique in the class; it then seals exactly that property |
| MyLibrary.SealClassLookup | imgui.NET.Generator/MyLibrary.cs:319 | halfway through the loop, the class lookup by name still lands on the class being visited exactly when its name is unique |
| MyLibrary.SealPropertyLookup | imgui.NET.Generator/MyLibrary.cs:319 | halfway through a class, the property lookup still lands on the property being visited exactly when its name is unique |
| MyLibrary.OnePropertyNamed | imgui.NET.Generator/MyLibrary.cs:319 | the property lookup succeeds exactly when one property has that name |
| MyLibrary.SealSkip | imgui.NET.Generator/MyLibrary.cs:313-317 | a property that is not an `ImVector` is passed over without change |
| MyLibrary.SealNext | imgui.NET.Generator/MyLibrary.cs:309-311 | finishing one class is starting the next |
| MyLibrary.SealNone | imgui.NET.Generator/MyLibrary.cs:309 | before the loop starts nothing is sealed |
| MyLibrary.SealClassVectors | imgui.NET.Generator/MyLibrary.cs:311-324 | the inner loop over a class's properties passes exactly when every lookup it makes resolves, and then seals the whole class |
| MyLibrary.PostprocessProperties | imgui.NET.Generator/MyLibrary.cs:303-325 | the nested loop passes exactly when the sealing specification succeeds, and then leaves its graph |
| MyLibrary.PreprocessSpec | imgui.NET.Generator/MyLibrary.cs:61-67 | definition: the enumeration, namespace, value-type and ignore passes in that order, the first failure ending the chain. Preprocess is proved equal to it |
| MyLibrary.PostprocessSpec | imgui.NET.Generator/MyLibrary.cs:74-80 | definition: the ignore, delegate, enumeration and property passes in that order, the first failure ending the chain. Postprocess is proved to succeed exactly when it does, with its graph |
| MyLibrary.PreprocessNeedsHeader | imgui.NET.Generator/MyLibrary.cs:61-67 | preprocessing can succeed only when there is exactly one `imgui.h` unit |
| MyLibrary.PostprocessNeedsHeader | imgui.NET.Generator/MyLibrary.cs:74-79 | postprocessing can succeed only when there is exactly one `imgui.h` unit |
| MyLibrary.Preprocess | imgui.NET.Generator/MyLibrary.cs:61-72 | runs enumerations, namespace, value types and ignores in that order, stopping at the first failure |
| MyLibrary.Postprocess | imgui.NET.Generator/MyLibrary.cs:74-84 | runs ignores, delegates, enumerations and properties in that order, stopping at the first failure |
| Scenarios.ExampleFlagsScenario | imgui.NET.Generator/MyLibrary.cs:139-172 | an `ExampleFlags_` enumeration with items `_None`, `_A`, `_COUNT` keeps its name, becomes flags, and only `_COUNT` is ignored |
| Scenarios.ExampleNormalized | imgui.NET.Generator/MyLibrary.cs:147-172 | the preprocessing of that enumeration ignores only the `_COUNT` item |
| Scenarios.ExampleIsCandidate | imgui.NET.Generator/MyLibrary.cs:290 | the name `ExampleFlags_` qualifies for the flags pass |
| Scenarios.NoneIsNoSentinel | imgui.NET.Generator/MyLibrary.cs:147-172 | `ExampleFlags_None` ends in none of the five sentinel suffixes |
| Scenarios.CountIsSentinel | imgui.NET.Generator/MyLibrary.cs:159-162 | `ExampleFlags_COUNT` is a sentinel |
| Scenarios.IgnoreMethodScenario | imgui.NET.Generator/MyLibrary.cs:100-102 | on a class `Foo` with methods `Bar` and `Qux`, ignoring `Bar` flags only `Bar` and leaves `Qux` alone, and ignoring `Baz` fails with "no match" |
| Text.ReplaceAll | ImGuiNET.Generator/Program.cs:71-147 | definition: one left-to-right scan that replaces each occurrence of a non-empty pattern and resumes behind it, so matches never overlap and inserted text is never rescanned. ReplaceAllStep, ReplaceAllLeadingMatch and ReplacementNotRescanned state this |
| Text.StringBuilder.Replace | ImGuiNET.Generator/Program.cs:71-74 | the scanning loop leaves the left-to-right, non-overlapping replace-all of the old content |
| Text.ReplaceAllWithoutOccurrence | ImGuiNET.Generator/Program.cs:71-147 | text without the pattern comes back unchanged |
| Text.ReplaceAllSelf | ImGuiNET.Generator/Program.cs:71-147 | replacing a pattern by itself is the identity |
| Text.ReplaceAllLeadingMatch | ImGuiNET.Generator/Program.cs:71-74 | a leading match is replaced and the inserted text is never rescanned |
| Text.ReplaceAllCopiesPrefix | ImGuiNET.Generator/Program.cs:71-74 | a prefix none of whose characters can start the pattern is copied unchanged and the scan continues behind it |
| Text.ReplaceAllStep | ImGuiNET.Generator/Program.cs:71-74 | one step of the scan: a match at position i is replaced and the scan resumes behind it; otherwise the character is copied and the scan moves on by one |
| Text.ScanBounds | ImGuiNET.Generator/Program.cs:71-74 | nothing is scanned at the start, and a scan that reached the end has built the whole replace-all |
| Text.ScanStep | ImGuiNET.Generator/Program.cs:71-74 | each step of the scan keeps the built text a prefix of the replace-all: a match appends the replacement and skips the pattern, otherwise one character is copied |
| Program.ApplySteps | ImGuiNET.Generator/Program.cs:69-147 | definition: each step a full replace-all over the previous result, in list order. ApplyStepsAppend and ApplyStepsWithoutPatterns state its laws |
| Program.Cleaned | ImGuiNET.Generator/Program.cs:69-147 | definition: ApplySteps with `CleanupSteps`, the thirteen literal (pattern, replacement) pairs of the source in source order. The examples below compute it |
| Program.Cleanup | ImGuiNET.Generator/Program.cs:60-150 | a missing file leaves the file system unchanged; otherwise only that file is rewritten, with its cleaned content |
| Program.ApplyEach | ImGuiNET.Generator/Program.cs:69-147 | the replace calls, made in order on one builder, give the steps applied in sequence |
| Program.ApplyStepsAppend | ImGuiNET.Generator/Program.cs:69-147 | applying two step lists one after the other is applying their concatenation |
| Program.ApplyStepsWithoutPatterns | ImGuiNET.Generator/Program.cs:69-149 | text that contains none of the patterns is kept |
| Program.CleanedWithoutLiterals | ImGuiNET.Generator/Program.cs:69-149 | cleanup is the identity on text that contains none of the thirteen patterns |
| Program.ShortTextKeptFrom | ImGuiNET.Generator/Program.cs:83-147 | text shorter than every remaining pattern is kept by the remaining steps |
| Program.PatternLengths | ImGuiNET.Generator/Program.cs:71-147 | there are thirteen steps, and these are the lengths of their patterns |
| Program.QuotedNameRestored | ImGuiNET.Generator/Program.cs:71-79 | `"imgui"` in quotes comes back unchanged: the second step undoes the first one inside quotes |
| Program.FirstStepInsideQuotes | ImGuiNET.Generator/Program.cs:71-74 | the first step capitalises the name inside quotes |
| Program.QuotesRestored | ImGuiNET.Generator/Program.cs:76-79 | the second step puts the quoted name back in lower case |
| Program.UnquotedNameCapitalised | ImGuiNET.Generator/Program.cs:71-79 | a bare `imgui` becomes `ImGui` |
| Program.ReplacementNotRescanned | ImGuiNET.Generator/Program.cs:71-74 | in `imguimgui` only the first match is replaced, and the result still contains `imgui` |
| Program.CleanupNotIdempotent | ImGuiNET.Generator/Program.cs:71-74 | cleanup is not idempotent: `imguimgui` cleans to `ImGuimgui`, which cleans again to `ImGuImGui` |
| Program.SymbolsQualifierDeleted | ImGuiNET.Generator/Program.cs:144-147 | `.__Symbols` is deleted |
| Program.HasFlag | ImGuiNET.Generator/Program.cs:24 | definition: some argument equals the flag under ASCII case-insensitive comparison. ContainsIgnoreCase is proved equal to it |
| Program.Plan | ImGuiNET.Generator/Program.cs:13-55 | definition: with no arguments only the usage; otherwise old, new and the two cleanups, each when its flag is present. UsageExactlyWithoutArguments, PlanInFixedOrder, PlanIgnoresArgumentOrder and PlanIgnoresCase state its properties |
| Program.ContainsIgnoreCase | ImGuiNET.Generator/Program.cs:24 | the loop finds the flag exactly when some argument equals it ignoring case |
| Program.Dispatch | ImGuiNET.Generator/Program.cs:11-58 | the actions `Main` takes are those of the plan for its arguments |
| Program.UsageExactlyWithoutArguments | ImGuiNET.Generator/Program.cs:13-20 | usage is shown exactly when there are no arguments, and then nothing is generated or cleaned |
| Program.PlanInFixedOrder | ImGuiNET.Generator/Program.cs:24-55 | the actions always come in the order old, new, cleanup |
| Program.PlanIgnoresArgumentOrder | ImGuiNET.Generator/Program.cs:24-55 | permuting the arguments does not change the actions |
| Program.PlanIgnoresCase | ImGuiNET.Generator/Program.cs:24-50 | arguments equal ignoring case give the same actions |

## Behaviour worth noting

- **Pass order.** The enumeration pass runs before namespace flattening
  (`MyLibrary.cs:64-65`). So it sees only the top-level declarations of each
  unit, and enumerations still inside the `imgui.h` namespace are not
  normalized.
- **Namespace flattening.** It leaves the emptied namespace node in the unit.
  It also leaves the `Namespace` (parent) field of the moved declarations as
  it was (`MyLibrary.cs:185-189`). Only the delegate merge re-parents
  (`MyLibrary.cs:271`).
- **Flags marking.** It is a separate postprocessing pass over the direct
  enumerations of the `imgui.h` unit (`MyLibrary.cs:288`). It is not part of
  enumeration preprocessing.

## Left out

- Setup, SetupPasses, PreprocessPasses, RemovePass: these configure CppSharp's driver options and edit its list of passes, and that library is not part of this model.
- UnitGenerated and UpdateGeneratedContent: they rewrite CppSharp's generated code blocks, which are foreign types outside this model.
- CleanupEnumerations and ProduceSummary are not part of this model.
- Console output, logging and ConsoleColorScope: these only write to the console.
- The `OLD` and `NEW` directories that `Main` creates, and the copies of the console output it writes to `OLD\output.txt` and `NEW\output.txt` through AggregateConsoleOut: these file writes are not modelled; the dispatch plan records only that generation runs.
- File and directory I/O: the file system is a map from path to text. `Path.Combine` with the current directory is not modelled; a path is a string.
- ConsoleDriver.Run, the code generator itself: it appears only as a `Generate` action of the dispatch plan.
- Node identity and aliasing: the declaration graph is a value. A pass that edits a node edits the one declaration at that position.
- Nested lookups: CppSharp's global lookups search the direct declarations of each unit.
- Several matches in CppSharp's helpers: what `FindCompleteEnum`, `FindCompleteClass`, `IgnoreClassWithName`, `IgnoreFunctionWithName`, `IgnoreClassMethodWithName`, `SetClassAsValueType`, `SetPropertyAsReadOnly`, `FindNamespace` and `FindTypedef` do when several declarations match is not modelled; the model fails with "more than one match" instead.
- Null-returning lookups: `FindCompleteEnum`, `FindNamespace` and `FindTypedef` return null when they find nothing. The dereference then throws. The model fails with "no match" at the lookup.
- MyLibrary.PostprocessProperties: states only whether the pass fails, not which error it reports; a failed lookup aborts the whole run in the code.
- MyLibrary.Postprocess: states only whether postprocessing fails, not which error it reports, for the same reason.
- Program.ContainsIgnoreCase: case folding covers ASCII letters only, not the full Unicode ordinal case-insensitive comparison.
- The `Enhanced` flag's branches in `Preprocess` and `Postprocess` are empty and are not modelled.
