# ExtensionGenerator, modelled in Dafny

`ExtensionGenerator` is a Roslyn incremental source generator. The host hands it the
method symbols that carry `System.ComponentModel.DescriptionAttribute`. For each one
it collects the pair (method name, description), where the description is the first
constructor argument of the first such attribute, with every `"` escaped as `\"`.
When at least one pair was collected, it registers one generated C# file,
`AppExtension.generated.cs`. That file declares an extension method
`ListMethodDescriptions(this App app)`, which returns a `Dictionary<string, string>`
initialised with `{"name", "description"}` for each pair, the pairs joined by `", "`
in collection order.

The project has five modules, one per part of the generator:

- `Wrappers` (`wrappers.dfy`): `Option` stands for a nullable reference. `Result` stands for a step that may throw.
- `Escaping` (`escaping.dfy`): ordinal `String.Replace`, and the description escaping `Replace("\"", "\\\"")` built on it.
- `Collection` (`collection.dfy`): symbols, attributes, the `FirstOrDefault` marker lookup, the body of the `foreach` loop, and the loop itself. The loop is the method `Collect`, proved against the specification function `Collected`.
- `Rendering` (`rendering.dfy`): the template, `Select` + `string.Join`, and the decision whether to emit.
- `Generator` (`generator.dfy`): the host's `SourceProductionContext` as a class with a list of added sources, plus `DoGenerate`, `RegisterAppExtension` and the output callback.

Inputs are `seq<Option<Method>>`. A `None` is a null symbol, which the host's transform
(`TargetSymbol as IMethodSymbol`) can produce. Attribute classes and argument values
are display strings. A `None` there is a class that did not resolve or a null argument
value. A run ends in one of three ways:

- a fault that aborts it (`Failure`);
- no registered source (`Success(None)`);
- exactly one registered source (`Success(Some(source))`).

The generator lacks three behaviours that a reader might expect, and the model
follows the code in each:

- Empty descriptions are not dropped.
- Duplicate method names are not merged. Both entries stay, in input order. The
  generated dictionary initializer would throw for them when the generated code runs.
- A marker attribute whose constructor argument 0 is missing or null is not skipped
  silently. The loop throws: `ConstructorArguments[0]` is out of range, or `.Value!.ToString()`
  dereferences null. The whole run then fails and nothing is registered.

## Model

| member | source | states |
|---|---|---|
| `Escaping.Replace` | generator/ExtensionGenerator.cs:50 | ordinal `String.Replace`; no contract of its own, characterised by `ReplaceAbsent` and, for the escaping patterns, by `EscapeCons` and `UnescapeEscape` |
| `Escaping.Escape` | generator/ExtensionGenerator.cs:50 | `Replace("\"", "\\\"")`; no contract of its own, characterised by `EscapeChar`, `EscapeAppend`, `EscapeLength`, `EscapeQuotesPreceded`, `EscapeIdentity` and `UnescapeEscape` |
| `Collection.Contribution` | generator/ExtensionGenerator.cs:38-51 | the loop body for one symbol; no contract of its own, characterised by `ContributionSkips` and `ContributionOfMarked` |
| `Collection.Collected` | generator/ExtensionGenerator.cs:35-53 | the loop's outcome as a value; no contract of its own, characterised by `CollectedWithoutFault`, `CollectedFirstFault`, `CollectedFailsIffFault`, `CollectedAppend` and `CollectedFaultSticks`, and implemented by `Collect` |
| `Rendering.EntryLiteral` | generator/ExtensionGenerator.cs:80 | the `Select` lambda `{"name", "desc"}`; no contract of its own, its use is fixed by `RenderLayout` and `GenerateSingle` |
| `Rendering.Literals` | generator/ExtensionGenerator.cs:80 | the `Select` over the entries, in list order; no contract of its own, its use is fixed by `RenderLayout` |
| `Rendering.Join` | generator/ExtensionGenerator.cs:80 | `string.Join`; no contract of its own, characterised by `JoinAt`, `SeparatorBefore`, `JoinLength`, `OffsetStep` and `JoinAppend` |
| `Rendering.Render` | generator/ExtensionGenerator.cs:68-84 | the template text; no contract of its own, characterised by `RenderLayout` and `GenerateSingle` |
| `Generator.Generate` | generator/ExtensionGenerator.cs:30-58 | the outcome of `DoGenerate` as a value; no contract of its own, characterised by `GenerateEmitsIffMarked`, `GenerateFailsIffFault`, `GenerateEmpty` and `GenerateSingle`, and realised by `DoGenerate` |
| `Escaping.ReplaceAbsent` | generator/ExtensionGenerator.cs:50 | `String.Replace` leaves a string unchanged when the pattern never occurs in it |
| `Escaping.EscapeCons` | generator/ExtensionGenerator.cs:50 | escaping handles the first character (a `"` becomes `\"`, any other character stays) and then the rest |
| `Escaping.EscapeChar` | generator/ExtensionGenerator.cs:50 | a single `"` becomes `\"`; every other character is left unchanged |
| `Escaping.EscapeAppend` | generator/ExtensionGenerator.cs:50 | escaping works character by character: `Escape(a + b) == Escape(a) + Escape(b)` |
| `Escaping.EscapeLength` | generator/ExtensionGenerator.cs:50 | the escaped length is the input length plus the number of `"` in the input |
| `Escaping.EscapeQuotesPreceded` | generator/ExtensionGenerator.cs:50 | every `"` in the escaped text comes directly after a `\` |
| `Escaping.EscapeHeadNotQuote` | generator/ExtensionGenerator.cs:50 | escaped text never begins with `"` |
| `Escaping.EscapeIdentity` | generator/ExtensionGenerator.cs:50 | escaping changes a string exactly when it contains a `"` (both directions) |
| `Escaping.UnescapeEscape` | generator/ExtensionGenerator.cs:50 | round trip: replacing each `\"` by `"` in the escaped text gives back the input |
| `Collection.FirstMarker` | generator/ExtensionGenerator.cs:38-41 | `FirstOrDefault` yields nothing exactly when no attribute's class is the marker; otherwise it yields a marker attribute of the method |
| `Collection.FirstMarkerAt` | generator/ExtensionGenerator.cs:38-41 | the attribute used is the first marker in declaration order; later markers are never looked at |
| `Collection.FirstMarkerExists` | generator/ExtensionGenerator.cs:38-43 | a method that carries the marker has a first marker position |
| `Collection.ContributionOfMarked` | generator/ExtensionGenerator.cs:43-51 | for a method whose first marker is at `j`: no argument 0 throws index-out-of-range; a null argument 0 throws null-reference; otherwise the entry is (method name, escaped argument 0) |
| `Collection.ContributionSkips` | generator/ExtensionGenerator.cs:36-44 | a symbol is skipped silently exactly when it is null or has no marker attribute (both directions) |
| `Collection.Collect` | generator/ExtensionGenerator.cs:35-53 | the `foreach` loop appending to the local list returns exactly `Collected(methods)`: the full list, or the fault of the symbol that threw |
| `Collection.CollectedFaultSticks` | generator/ExtensionGenerator.cs:45-49 | once the symbols seen so far have faulted, the run's outcome is that fault whatever follows |
| `Collection.CollectedSingle` | generator/ExtensionGenerator.cs:36-52 | a single symbol is collected as its own contribution: a fault, an empty list or a one-entry list |
| `Collection.MatchingAppend` | generator/ExtensionGenerator.cs:36-53 | the reference filter keeps input order: `Matching(a + b) == Matching(a) + Matching(b)` |
| `Collection.MatchingMembers` | generator/ExtensionGenerator.cs:36-52 | a method is kept exactly when it is a non-null input symbol carrying the marker |
| `Collection.CollectedWithoutFault` | generator/ExtensionGenerator.cs:35-53 | without faults the list has one entry per matching method (duplicates included), in input order, and entry k is what matching method k contributes |
| `Collection.CollectedFirstFault` | generator/ExtensionGenerator.cs:45-49 | the first symbol that throws decides the fault; symbols after it are never processed |
| `Collection.CollectedFailsIffFault` | generator/ExtensionGenerator.cs:45-49 | the loop fails exactly when some symbol's body throws (both directions) |
| `Collection.CollectedAppend` | generator/ExtensionGenerator.cs:35-53 | collecting `a + b` gives the entries of `a` followed by those of `b`: no sorting, merging or dropping |
| `Collection.CollectedKeepsDuplicates` | generator/ExtensionGenerator.cs:45-51 | collecting the same symbols twice gives the same entries twice: no deduplication |
| `Rendering.Emit` | generator/ExtensionGenerator.cs:55-67 | no source exactly when the list is empty; otherwise one source named `AppExtension.generated.cs` holding the rendered template |
| `Rendering.JoinLength` | generator/ExtensionGenerator.cs:80 | `string.Join` ends exactly where the last part ends |
| `Rendering.OffsetStep` | generator/ExtensionGenerator.cs:80 | each part starts right after the previous part and one separator |
| `Rendering.JoinAt` | generator/ExtensionGenerator.cs:80 | the joined text holds part k at its offset |
| `Rendering.SeparatorBefore` | generator/ExtensionGenerator.cs:80 | every part but the first directly follows the separator |
| `Rendering.JoinAppend` | generator/ExtensionGenerator.cs:80 | joining two non-empty lists puts exactly one separator between their joined texts |
| `Rendering.FramedJoinAt` | generator/ExtensionGenerator.cs:68-84 | a joined text placed between a header and a footer keeps the header, the footer and every part's position |
| `Rendering.RenderLayout` | generator/ExtensionGenerator.cs:68-84 | the generated text is the fixed header, then each entry's `{"name", "desc"}` literal in list order with `", "` between them, then the fixed footer |
| `Generator.SourceProductionContext.AddSource` | generator/ExtensionGenerator.cs:66-67 | adding a source appends exactly that (hint name, text) to the context's sources |
| `Generator.RegisterAppExtension` | generator/ExtensionGenerator.cs:61-85 | registers exactly one source, `AppExtension.generated.cs`, whose text is the rendered template |
| `Generator.DoGenerate` | generator/ExtensionGenerator.cs:30-59 | on a fault nothing is registered and the fault is reported; otherwise the context gains the source `Generate` gives, or nothing when the list is empty |
| `Generator.OnSourceOutput` | generator/ExtensionGenerator.cs:23-27 | the output callback discards the compilation: its effect depends only on the symbol half of the combined input |
| `Generator.GenerateEmitsIffMarked` | generator/ExtensionGenerator.cs:36-58 | without faults a source is registered exactly when some input symbol is a method carrying the marker, and always under the fixed name |
| `Generator.GenerateFailsIffFault` | generator/ExtensionGenerator.cs:43-53 | a run aborts exactly when some symbol's loop body throws |
| `Generator.GenerateEmpty` | generator/ExtensionGenerator.cs:55-58 | no symbols, no source |
| `Generator.GenerateSingle` | generator/ExtensionGenerator.cs:45-84 | one method with a quote-free description yields header + `{"name", "description"}` + footer |
| `Generator.EscapeQuotedWord` | generator/ExtensionGenerator.cs:50 | `He said "hi"` is escaped to `He said \"hi\"` (for any quote-free prefix and word) |
| `Generator.SameNameKept` | generator/ExtensionGenerator.cs:45-51 | two methods with the same name, whatever their descriptions, both give entries (name, escaped description), in input order |
| `Generator.DescribedMethod` | generator/ExtensionGenerator.cs:38-51 | a method whose only attribute is the marker with a quote-free argument contributes that argument unchanged |

## Left out

- Roslyn wiring in `Initialize` is not modelled: `ForAttributeWithMetadataName` with its syntax predicate and symbol transform, `CompilationProvider.Combine`, `Collect()`, `RegisterSourceOutput` and incremental caching. The model starts from the collected symbol array, null entries included.
- The symbol API is abstracted away: `GetAttributes`, `AttributeClass?.ToDisplayString()` and `TypedConstant.Value.ToString()`. Attribute classes and argument values are already strings. Argument kinds other than a value, such as arrays, are not modelled.
- How the host reports an exception thrown by the generator is not modelled: a fault is returned as a value and nothing is registered.
- `SourceProductionContext.AddSource` is reduced to appending to a list. Its hint-name validation and its error on a repeated hint name belong to the host. `DoGenerate` calls it at most once per run.
- The meaning of the generated C# is not modelled. The method name is inserted unescaped. Backslashes in a description are not escaped, so a description ending in `\` or containing `\n` turns into a broken or different string literal. Duplicate names make the dictionary initializer throw when the generated code runs.
- The template's line breaks are `\n`, as in the source file. A checkout with `\r\n` line endings would put `\r\n` into the verbatim string.
- `Rendering.RenderLayout` states each entry's position through `Literals(es)[k]` rather than `EntryLiteral(es[k])`. `Literals` is the `Select` and is defined as `EntryLiteral` applied to each entry, so the two are the same.
- The method name carried by `Fault` (`IndexOutOfRange`, `NullReference`) is a label the model adds to tell runs apart. The C# exceptions carry no method name, and the host's failure report does not name the method either.
- Strings are sequences of Unicode scalar values, while C# strings are UTF-16 code units. Ordinal replacement of U+0022 gives the same result in both, but a C# string holding a lone surrogate cannot be represented in the model.
