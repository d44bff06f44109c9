# Models of SONiC's build and configuration tooling

SONiC's Python tooling contains several kernels that rewrite data and must not change its
meaning, or must undo one another. This project models ten of them in Dafny and proves what
they promise. Where a promise does not hold for every input, the exact condition is proved, as
an if and only if, and where it matters a concrete input shows the failure.

| files | what they model |
|---|---|
| PinLayers, PinModules, PinAdjust, PinNormalForm, PinConfig, PinOverwrite, VersionModule | version pins in layers keyed by (type, distribution, architecture): overwrite, adjust, subtract, generated configurations |
| VersionFiles | version file names and their text |
| CriticalPath | the memoised longest dependency chain with cycle breaking |
| XpathTokens, JsonPointers, YangSchema, ConfigDbPaths, ConfigDbPathLaws, ConfigDbXpaths | splitting and joining xpaths, and converting ConfigDB paths to xpaths and back through a cache |
| YangValues, YangEntries, YangTrees, YangTables | ConfigDB tables to YANG data and back: values, list entries, containers, whole databases |
| YangKeyLaws, YangEntryLaws, YangEntryTrips, YangEntrySettles, YangTreeLaws, YangTreeTrips | the round trip of that translation |
| YangPlacement | when a table is translated, and where each of its items goes |
| YangTyping | what the YANG data of a table looks like: types of values, entries, inner containers |
| YangSeparators | what a path left by a failed load changes |
| Translation | the translator object with its element path |
| BuildVersions, SbomMerge | version normal forms and the greedy merge of component lists |
| Leafrefs | backlinks and the search for data that refers to a subtree |
| EcmpBanks | banks of next hops and least common multiples |
| Breakout | child ports over the lanes of a parent |
| Reconcile | the JSON patch that brings client certificate settings to their desired state |
| Texts, Decimals, Dicts, Bindings | strings, numerals and dictionaries as Python treats them |

Conventions. Python exceptions are the value `Err`. A dictionary that is read is the sequence of
its items in insertion order; one that is only filled is a map, since its order is never used.
An object whose methods update it is a class; each method is proved equal to a function on
values, and the laws are lemmas about those functions. Strings are sequences of characters.

Where documentation and code disagree the code is followed: the critical path is called the longest
chain, which exists only on acyclic graphs (`FindCriticalPath`), and containers inside lists are
called empty where the code tests that they are not.

Three results may surprise. `adjust` keeps every effective pin on the intended hierarchy, but not
in general: an architecture-level pin can be uncovered (`AdjustPreservesIff`). Loading filtered
files loses nothing even without that hierarchy, and neither does subtracting a default module
unless two of its components share a key, as the files `versions-deb-buster` and
`versions-deb-buster-all` make them; then a pin can come back (`SubtractLosslessIff`). And after a
failed load the translator keeps its element path, so the next load may translate its first table
under the wrong name (`LoadAfterFailure`); `HarmlessIff` says for which tables that matters.

## Model

| member | source | states |
|---|---|---|
| PinModules.EffectiveIsStack | scripts/versions_manager.py:245-250 | Visiting every inheritable layer in sorted order gives the pins of the levels generic, arch-only, dist-only, dist+arch laid over one another, for every module and query |
| PinModules.CtypesExact | scripts/versions_manager.py:300-306 | Grouping lists every component type that occurs, each once |
| PinModules.CtypesInOrder | scripts/versions_manager.py:300-306 | A type listed before another occurs before any component of the other |
| PinModules.DefaultedForAll | scripts/versions_manager.py:28-37 | A component without a distribution or an architecture is inherited by the queries of every one |
| VersionModules.Component.constructor | scripts/versions_manager.py:28-37 | A missing distribution or architecture becomes `all` |
| VersionModules.Component.Clone | scripts/versions_manager.py:55-56 | A new object with the same key and pins |
| VersionModules.Component.Merge | scripts/versions_manager.py:58-61 | The pins become the old ones overridden by the given ones, or the other way round when not overwriting |
| VersionModules.Component.Subtract | scripts/versions_manager.py:63-66 | Exactly the entries equal to a given entry disappear |
| VersionModules.Component.CheckOverwritable | scripts/versions_manager.py:127-134 | True exactly for the same type, and equal or flagged wildcard distribution and architecture |
| VersionModules.Component.CheckInheritable | scripts/versions_manager.py:137-144 | True exactly when the other key has the same type and equal or wildcard distribution and architecture |
| VersionModules.Component.CleanInfo | scripts/versions_manager.py:173-178 | Architecture and, for types other than deb or when forced, distribution become `all`; nothing else changes |
| VersionModules.SortedComponents | scripts/versions_manager.py:164-171 | The same objects in the stable order of their order keys |
| VersionModules.ComponentsPerCtypes | scripts/versions_manager.py:300-306 | Types in order of first occurrence, each with its components in order |
| VersionModules.InheritedPins | scripts/versions_manager.py:285-298 | The fold of the pins of the inheritable components, in the order visited |
| VersionModules.VersionModule.AdjustComponentsForCtype | scripts/versions_manager.py:285-298 | Each component of a type loses what it inherits from those before it as already reduced; empty ones go |
| VersionModules.VersionModule.Adjust | scripts/versions_manager.py:271-276 | The components, rewritten in place, hold exactly `PinModules.Adjust` of what they held, and no new objects appear |
| PinAdjust.AdjustMeaning | scripts/versions_manager.py:271-298 | After adjusting, the pins of a query are generic + arch-only + dist-only without what all its components only repeat from generic + dist+arch of the old layers, for every module |
| PinAdjust.AdjustPreservesIff | scripts/versions_manager.py:271-298 | Adjusting keeps the effective pins of a query if and only if no pin is masked there: reset to the generic version by every component of the distribution that pins it, under a different architecture-level version |
| PinAdjust.ChainNeverMasked | scripts/versions_manager.py:194-196 | In the hierarchy generic < dist < dist+arch no pin is ever masked |
| PinAdjust.AdjustCanChangeMeaning | scripts/versions_manager.py:271-298 | Three concrete layers whose effective pins adjusting changes |
| PinNormalForm.AdjustPreservesChain | scripts/versions_manager.py:271-298 | On chain-shaped modules adjusting changes no effective pin of any query |
| PinNormalForm.AdjustIrredundant | scripts/versions_manager.py:285-298 | No component of an adjusted module is empty or repeats an inherited entry, for every module |
| PinNormalForm.AdjustIdempotent | scripts/versions_manager.py:271-276 | Adjusting twice is adjusting once, for every module |
| VersionModules.VersionModule.MergeInto | scripts/versions_manager.py:194-208 | Every component the incoming one may overwrite takes its pins; the flag tells whether there was one |
| VersionModules.VersionModule.MergeSorted | scripts/versions_manager.py:194-208 | Incoming components, generic first, are merged or appended as cleaned clones: `PinConfig.MergeAll`, whose laws for all flags are those of PinOverwrite |
| VersionModules.VersionModule.Overwrite | scripts/versions_manager.py:194-208 | The module holds exactly `PinConfig.Overwrite` of the two modules; old objects are reused and the rest are fresh |
| PinConfig.MergeAllDistinct | scripts/versions_manager.py:194-208 | Overwriting never stores two components under one key, whatever the flags |
| PinConfig.OverwriteLayerLaw | scripts/versions_manager.py:194-208 | With default flags, every key holds its old pins overridden by the incoming pins of the same key |
| PinConfig.MergeAllFlagged | scripts/versions_manager.py:194-208 | With any flags, a component that is there takes, in order, the pins of every incoming one that may overwrite it |
| PinOverwrite.OverwritableIff | scripts/versions_manager.py:127-134 | A component is overwritten under its own key and under the wildcards the flags allow, and nowhere else |
| PinOverwrite.MergeAllKeys | scripts/versions_manager.py:194-208 | After an overwrite with any flags every key is an old one, or the type of an incoming component with architecture `all` if that flag is set and distribution `all` if that flag is set and the type is not deb |
| PinOverwrite.MergeAllCreated | scripts/versions_manager.py:194-208 | With any flags, a key that was not there appears exactly when some incoming component reaches nothing and is stored there; it holds the fold of the incoming components that may overwrite it, from that one on |
| PinOverwrite.NewTypeForAll | scripts/versions_manager.py:194-208 | With both flags, the components of a type other than deb that the module did not have become one component for all distributions and architectures with their pins folded in order |
| PinOverwrite.SpecificWins | scripts/versions_manager.py:194-208 | With any flags, a pin comes from the incoming component with the greatest key among those that reach the component and have it, and stays if there is none |
| PinConfig.OverwriteChainLaw | scripts/versions_manager.py:194-208 | On chain-shaped modules the effective pins after an overwrite, adjustment included, are the generic-to-specific fold of the old layers each overridden by the incoming one |
| VersionModules.VersionModule.ConfigOf | scripts/versions_manager.py:245-250 | The effective pins of one component type at a query |
| VersionModules.VersionModule.GetConfigModule | scripts/versions_manager.py:228-243 | The generated components are exactly `PinConfig.ConfigModule` of the default and this module, neither of which changes |
| PinConfig.ConfigModuleExact | scripts/versions_manager.py:228-243 | A generated module has one component per type of the overwritten default, holding its effective pins, and nothing else |
| PinConfig.ConfigClosedForm | scripts/versions_manager.py:228-250 | The generated pins as a function of the components of both modules at the levels of the query only, for every pair of modules |
| PinConfig.FilteredLoadLossless | scripts/versions_manager.py:308-335 | Loading only the files that match the query, of both modules, generates the same configuration, for every pair of modules |
| PinConfig.LoadedExact | scripts/versions_manager.py:320-335 | A filtered load keeps exactly the components that some query with the given names inherits |
| VersionModules.VersionModule.Subtract | scripts/versions_manager.py:252-269 | The module holds exactly `PinConfig.Subtract` of what it held and of the default module, which does not change |
| PinConfig.SubtractLossless | scripts/versions_manager.py:252-269 | Subtracting the default module changes no generated pin of any query when both modules are chain-shaped or the default has one component under each key |
| PinConfig.SubtractLosslessIff | scripts/versions_manager.py:252-269 | For any modules and query, it changes no generated pin if and only if none resurfaces: one that the module repeats from the last default component of the distribution and from the generic level, while another default component there differs and the architecture level pins something else |
| PinConfig.SubtractCanLose | scripts/versions_manager.py:252-269 | Four concrete default components, two under one key, with which subtracting changes a generated pin |
| PinConfig.SubtractIrredundant | scripts/versions_manager.py:252-269 | Of each type, the subtracted module keeps no empty component and no pin that the default module and the components before it generate anyway |
| PinConfig.MergeAllEchoes | scripts/versions_manager.py:194-208 | After an overwrite all components under a key agree on a version if and only if the incoming pins give it, or give nothing and the old components agree |
| VersionModules.VersionModule.Clone | scripts/versions_manager.py:386-394 | Fresh copies of the components of the selected types |
| VersionModules.CloneDivides | scripts/versions_manager.py:386-394 | Cloning some types and cloning without them divides the components; excluding a type wins over including it |
| VersionFiles.FileNameTripIff | scripts/versions_manager.py:153-162 | A file name gives back type, distribution and architecture if and only if none holds a dash |
| VersionFiles.FileNameIff | scripts/versions_manager.py:153-162 | For dash-free parts the file name is the only one with prefix `versions`, no empty part and no final `all` that reads as these parts |
| VersionFiles.ReadNameIgnores | scripts/versions_manager.py:315-335 | Parts behind the architecture are ignored |
| VersionFiles.NoDashNoName | scripts/versions_manager.py:315-319 | A file name is skipped if and only if it has no dash |
| VersionFiles.GetVersions | scripts/versions_manager.py:39-53 | Line by line, the dictionary of packages and versions of a file |
| VersionFiles.FileTripIff | scripts/versions_manager.py:39-76 | Dumped pins, in any order, are read back unchanged if and only if every name is non-empty, trimmed, one line and lower case in Python files, and every version trimmed, one line, without `==` and without a leading `=` |
| CriticalPath.ChainFinder.LongestChain | scripts/build-dep-graph.py:83-102 | On every graph it ends and returns a walk to its package that repeats none but its first; on acyclic graphs a longest one; memo entries keep these properties and the in-progress set is restored |
| CriticalPath.ChainFinder.BestOf | scripts/build-dep-graph.py:94-98 | The longest of the chains of the dependencies |
| CriticalPath.FindCriticalPath | scripts/build-dep-graph.py:78-109 | On every graph the result is a walk to a listed package in which each depends on the one before it, repeats no package but its first, and has a dependency in it if a listed package has one; when all packages with dependencies are listed it bounds all chains if and only if the graph is acyclic, and on acyclic graphs always |
| CriticalPath.UnboundedOnCycles | scripts/build-dep-graph.py:78-109 | On a cyclic graph with all its packages listed no length bounds the chains |
| CriticalPath.AcyclicChainsAreSimple | scripts/build-dep-graph.py:78-109 | On acyclic graphs a chain repeats no package |
| XpathTokens.QuoteStrEnd | src/sonic-yang-mgmt/sonic_yang_path.py:342-352 | Stops at the closing quote or the end; the token automaton continues from there |
| XpathTokens.PredicateEnd | src/sonic-yang-mgmt/sonic_yang_path.py:329-339 | Stops at the closing bracket outside quotes, or beyond the end |
| XpathTokens.TokenEnd | src/sonic-yang-mgmt/sonic_yang_path.py:317-327 | Stops at the first slash outside brackets and quotes, or beyond the end |
| XpathTokens.XpathSplit | src/sonic-yang-mgmt/sonic_yang_path.py:45-67 | The tokens cut by the automaton; the empty text is an error |
| XpathTokens.JoinSplitIff | src/sonic-yang-mgmt/sonic_yang_path.py:34-67 | Joining the tokens of a non-empty xpath gives it back if and only if it starts with a slash, whatever is left open |
| XpathTokens.SplitJoinIff | src/sonic-yang-mgmt/sonic_yang_path.py:34-67 | Splitting joined tokens gives them back if and only if the list is not `[""]` and every token is without outside slashes and, except the last, closed |
| ConfigDbXpaths.SplitSteps | src/sonic-yang-mgmt/sonic_yang_path.py:34-67 | An xpath written as steps with predicates is split into its steps, whatever slashes, brackets and other quotes its literals hold |
| JsonPointers.ParseFormat | src/sonic-yang-mgmt/sonic_yang_path.py:24-32 | Formatting tokens as a JSON pointer and parsing it gives the tokens back |
| JsonPointers.FormatParse | src/sonic-yang-mgmt/sonic_yang_path.py:24-32 | A pointer that parses is the canonical text of its tokens |
| JsonPointers.EscapeReplaces | src/sonic-yang-mgmt/sonic_yang_path.py:24-32 | Escaping replaces `~` by `~0` and then `/` by `~1` |
| JsonPointers.UnescapeReplaces | src/sonic-yang-mgmt/sonic_yang_path.py:24-32 | A token decodes if and only if every `~` stands before 0 or 1; then `~1` is replaced by `/` and after that `~0` by `~` |
| ConfigDbPathLaws.EntryTripIff | src/sonic-yang-mgmt/sonic_yang_path.py:185-272 | The trip of the tokens of an entry, a field or an inner field, exactly |
| ConfigDbPathLaws.ContainerTripIff | src/sonic-yang-mgmt/sonic_yang_path.py:145-300 | The trip of the tokens of anything below a container, exactly |
| ConfigDbPathLaws.SchemaForm | src/sonic-yang-mgmt/sonic_yang_path.py:145-300 | The schema xpath of a path is its data xpath without the predicates |
| ConfigDbPathLaws.PathTripIff | src/sonic-yang-mgmt/sonic_yang_path.py:69-142 | A ConfigDB path to an address of the schema converts to an xpath, and the xpath converts back to the same path if and only if key values have no outer blanks and printed values no single quote |
| ConfigDbXpaths.XpathStarts | src/sonic-yang-mgmt/sonic_yang_path.py:100-112 | The tokens of every xpath, in data and schema form, begin with module and top-level container and then the table |
| ConfigDbXpaths.EntryXpath | src/sonic-yang-mgmt/sonic_yang_path.py:145-215 | The xpath of an entry as a text: module, top-level container, table, containers, list, and in data form one `[key='value']` per key in schema order |
| ConfigDbXpaths.FieldXpath | src/sonic-yang-mgmt/sonic_yang_path.py:185-272 | The xpath of a field is that of its entry and the leaf, or the inner list with the field as the value of its key; a name the list does not have is an error |
| ConfigDbXpaths.EntryRefused | src/sonic-yang-mgmt/sonic_yang_path.py:185-215 | A key with another number of values than the list has keys has no data xpath |
| ConfigDbXpaths.LeafXpath | src/sonic-yang-mgmt/sonic_yang_path.py:145-184 | The xpath of a leaf of a container, or an error if there is no such leaf |
| ConfigDbXpaths.KeysInAnyOrder | src/sonic-yang-mgmt/sonic_yang_path.py:386-458 | Predicates of an entry are read in any order; the key has the values in schema order |
| ConfigDbXpaths.WrongKeys | src/sonic-yang-mgmt/sonic_yang_path.py:386-458 | Another number of predicates, or none for some key, is an error |
| ConfigDbXpaths.FieldBack | src/sonic-yang-mgmt/sonic_yang_path.py:459-503 | The name of a field is read back, any other name is an error |
| ConfigDbXpaths.ElementBack | src/sonic-yang-mgmt/sonic_yang_path.py:459-503 | An element of a leaf-list leads to the leaf-list, an element of anything else is an error |
| ConfigDbPaths.Converter.ConfigDbPathToXpath | src/sonic-yang-mgmt/sonic_yang_path.py:69-119 | Whatever was asked before, the answer is that of the conversion without a cache, whose texts the rows of ConfigDbXpaths give; earlier answers stay |
| ConfigDbPaths.Converter.XpathToConfigDbPath | src/sonic-yang-mgmt/sonic_yang_path.py:122-142 | The path the schema gives for an xpath |
| ConfigDbPathLaws.RoundTripThroughCache | src/sonic-yang-mgmt/sonic_yang_path.py:69-142 | After any history of cached conversions a path makes its round trip under the same condition |
| YangValues.ThroughIff | src/sonic-yang-mgmt/sonic_yang_ext.py:232-242 | A scalar survives conversion, printing and conversion back if and only if it is canonical for its type: integers and decimals in the canonical form of sections 9.2 and 9.3 of RFC 7950, no boolean, any other text |
| YangValues.SentIff | src/sonic-yang-mgmt/sonic_yang_ext.py:232-242 | A text handed to the library comes back unchanged if and only if it is canonical for its type |
| YangValues.SeparatedIff | src/sonic-yang-mgmt/sonic_yang_ext.py:246-250 | A separated string survives if and only if its pieces are trimmed, kept and canonical |
| YangValues.ValueTripIff | src/sonic-yang-mgmt/sonic_yang_ext.py:227-284 | A field value comes back unchanged if and only if it has ConfigDB's form for its leaf |
| YangTyping.ScalarTyped | src/sonic-yang-mgmt/sonic_yang_ext.py:232-242 | In the YANG data an unsigned integer is the number its text says, an error if it says none, and any other value its text |
| YangTyping.NumberTyped | src/sonic-yang-mgmt/sonic_yang_ext.py:232-242 | The decimal numeral of n becomes the number n, for every n and width |
| YangTyping.ScalarShown | src/sonic-yang-mgmt/sonic_yang_ext.py:234-236 | A list or dictionary for a scalar counts as the text Python prints for it |
| YangTyping.ElementsTyped | src/sonic-yang-mgmt/sonic_yang_ext.py:244-278 | A list is typed element by element |
| YangTyping.EmptyElement | src/sonic-yang-mgmt/sonic_yang_ext.py:252-268 | Without a schema default empty texts in a list leave no trace |
| YangTyping.EmptyList | src/sonic-yang-mgmt/sonic_yang_ext.py:269-282 | An empty list is refused if and only if the schema has a default |
| YangTyping.TextByPiece | src/sonic-yang-mgmt/sonic_yang_ext.py:33-42 | For the eight separated fields a text counts as the list of its stripped pieces |
| YangTyping.TextByCharacter | src/sonic-yang-mgmt/sonic_yang_ext.py:244-268 | For every other leaf-list a text counts as the list of its characters |
| YangTyping.DictByName | src/sonic-yang-mgmt/sonic_yang_ext.py:263-268 | A dictionary for a leaf-list counts as the list of its names |
| YangValues.ValueSettles | src/sonic-yang-mgmt/sonic_yang_ext.py:616-641 | What comes back is accepted again, and is in ConfigDB's form unless the data tree refuses it |
| YangKeyLaws.KeyTripIff | src/sonic-yang-mgmt/sonic_yang_ext.py:195-208 | A primary key comes back unchanged if and only if it has as many parts as keys and each is in printed form and not empty, a zero number or boolean |
| YangEntryLaws.CreateKeyIs | src/sonic-yang-mgmt/sonic_yang_ext.py:595-610 | The key put together from printed key leaves is the join of their texts |
| YangTyping.PlainEntryHolds | src/sonic-yang-mgmt/sonic_yang_ext.py:397-453 | An entry holds each field in its type, the stripped parts of the primary key as texts under the other keys in order, and nothing else |
| YangTyping.Type1EntryHolds | src/sonic-yang-mgmt/sonic_yang_ext.py:315-364 | A Type 1 entry holds one inner entry per field in order, with its name under the inner key and its text under the value leaf |
| YangTyping.InnerValueIs | src/sonic-yang-mgmt/sonic_yang_ext.py:318-330 | The value leaf of an inner list is the last leaf that is not its key |
| YangEntryTrips.InnerFieldsIff | src/sonic-yang-mgmt/sonic_yang_ext.py:315-364 | The fields of a Type 1 entry come back if and only if names and values are canonical |
| YangEntryTrips.EntryTripIff | src/sonic-yang-mgmt/sonic_yang_ext.py:397-453 | A table entry comes back from its list unchanged if and only if it is in ConfigDB's form and its list is named to be translated back |
| YangEntrySettles.EntrySettles | src/sonic-yang-mgmt/sonic_yang_ext.py:725-763 | An entry that comes back has no more fields, is accepted by its list again, and after a second trip is in ConfigDB's form |
| YangTreeLaws.TreeSteps | src/sonic-yang-mgmt/sonic_yang_ext.py:506-552 | The trip of a table is the trips of what its lists, containers and leaves took |
| YangTreeTrips.ArrangedExact | src/sonic-yang-mgmt/sonic_yang_ext.py:506-552 | Lists, containers and leaves together take every item of a table exactly once |
| YangTreeTrips.TreeTripItems | src/sonic-yang-mgmt/sonic_yang_ext.py:792-810 | The trip of a table is the trip of each item, in the order of the schema |
| YangTreeTrips.ListedOk | src/sonic-yang-mgmt/sonic_yang_ext.py:397-552 | In a table that comes back, every listed entry is in ConfigDB's form for the first list that accepts it |
| YangTreeTrips.ReturnedIff | src/sonic-yang-mgmt/sonic_yang_ext.py:397-552 | A table comes back unchanged if and only if it is well typed, for every schema of the supported class |
| YangPlacement.ListHoldsItsItems | src/sonic-yang-mgmt/sonic_yang_ext.py:397-552 | A list of a translated table holds one entry for each item it is the first list in schema order to accept, in order, and nothing else |
| YangPlacement.EveryItemPlaced | src/sonic-yang-mgmt/sonic_yang_ext.py:397-552 | Every item of a translated table is in the tree: as an entry of the first list that accepts it, else as the node of the container with its name, else as the converted value of the leaf with its name |
| YangPlacement.TreeExact | src/sonic-yang-mgmt/sonic_yang_ext.py:476-552 | Under a container's name the tree holds the node of the item no list took, under a leaf's name its converted value, and nothing under names the schema does not have |
| YangPlacement.TreeDistinct | src/sonic-yang-mgmt/sonic_yang_ext.py:506-552 | A translated table holds every name at most once |
| YangPlacement.AcceptsIff | src/sonic-yang-mgmt/sonic_yang_ext.py:397-453 | A list accepts an item if and only if the key has as many parts as the list has keys and every field is a leaf whose value converts; a Type 1 list asks nothing of the fields |
| YangPlacement.TreeOkIff | src/sonic-yang-mgmt/sonic_yang_ext.py:506-552 | A table is translated without an error if and only if each item is accepted by a list, or is named like a container that translates it, or like a leaf that converts it |
| YangTyping.InnerContainerHolds | src/sonic-yang-mgmt/sonic_yang_ext.py:476-500 | Under the name of an inner container there is an empty node for a missing or empty item, else the data of the dictionary given, if there is any |
| YangTyping.OddListIgnored | src/sonic-yang-mgmt/sonic_yang_ext.py:516-524 | A single list not named after its container takes nothing |
| YangTyping.ListTakes | src/sonic-yang-mgmt/sonic_yang_ext.py:516-531 | Any other list holds the entry of every item that it is the first to accept |
| YangTyping.ReturnsIff | src/sonic-yang-mgmt/sonic_yang_ext.py:725-745 | A list is translated back if and only if its name holds `_LIST` |
| YangTables.CropExact | src/sonic-yang-mgmt/sonic_yang_ext.py:162-183 | Cropping divides the tables by whether the schema knows them; none is lost |
| YangTyping.TablesExact | src/sonic-yang-mgmt/sonic_yang_ext.py:557-574 | Each table is stored under its module and top-level container and the container's name, in order, with the tree of its own items |
| YangTables.ClearStart | src/sonic-yang-mgmt/sonic_yang_ext.py:557-574 | With a clear path each table is translated under its own name; so it is with one left by the same table |
| YangTables.StaleStartMatters | src/sonic-yang-mgmt/sonic_yang_ext.py:557-574 | With a path left by table PORT a concrete table X is split at commas, with a clear one it is not |
| YangSeparators.LeafAgreesIff | src/sonic-yang-mgmt/sonic_yang_ext.py:244-250 | A leaf reads every value alike under two table names if and only if it has the same separator under both |
| YangSeparators.TreeSame | src/sonic-yang-mgmt/sonic_yang_ext.py:506-552 | If all leaf-lists of a schema have the same separators under two table names, both give the same tree or error for every dictionary |
| YangSeparators.HarmlessStart | src/sonic-yang-mgmt/sonic_yang_ext.py:557-574 | A load whose first table has the same separators under the name left on the path gives the data of a load with a clear path |
| YangSeparators.HarmlessIff | src/sonic-yang-mgmt/sonic_yang_ext.py:557-574 | A name left on the path is harmless to every load that starts with a given table if and only if all leaf-lists of the table have the same separators under both names |
| Translation.LoadAfterFailure | src/sonic-yang-mgmt/sonic_yang_ext.py:557-574 | Of two translators of one schema that load the same tables, the one that failed on table PORT before ends with other data |
| YangTables.TablesTripIff | src/sonic-yang-mgmt/sonic_yang_ext.py:946-996 | Loading a ConfigDB and reading it back returns the loaded tables if and only if every table is non-empty and well typed |
| Translation.Translator.ExtractKey | src/sonic-yang-mgmt/sonic_yang_ext.py:195-208 | The stripped parts of a primary key under the keys of a list, or an error when the counts differ |
| Translation.Translator.FindYangTypedValue | src/sonic-yang-mgmt/sonic_yang_ext.py:227-284 | A field's value in the type of its leaf, selected by the first and last names of the path |
| Translation.Translator.XlateEntry | src/sonic-yang-mgmt/sonic_yang_ext.py:397-453 | One entry of a list, or an error; the path is restored either way |
| Translation.Translator.XlateList | src/sonic-yang-mgmt/sonic_yang_ext.py:397-456 | The accepted entries go to the list and leave the dictionary, the others stay; the path is restored |
| Translation.Translator.XlateLists | src/sonic-yang-mgmt/sonic_yang_ext.py:506-531 | Each list sees what the earlier ones left |
| Translation.Translator.XlateContainers | src/sonic-yang-mgmt/sonic_yang_ext.py:476-500 | Each inner container takes the item with its name; an error leaves the path at or below where it was |
| Translation.Translator.XlateLeaves | src/sonic-yang-mgmt/sonic_yang_ext.py:538-552 | The rest must be leaves; anything left over is an error, which leaves the path at or below where it was |
| Translation.Translator.XlateContainer | src/sonic-yang-mgmt/sonic_yang_ext.py:506-552 | The data of a container, or an error; on success the path is restored, after an error it still starts with the old one |
| Translation.Translator.CreateKey | src/sonic-yang-mgmt/sonic_yang_ext.py:595-610 | The primary key of an entry, or an error for a missing, empty, zero or false key |
| Translation.Translator.RevFindYangTypedValue | src/sonic-yang-mgmt/sonic_yang_ext.py:616-641 | A leaf's value as ConfigDB keeps it |
| Translation.Translator.RevXlateEntry | src/sonic-yang-mgmt/sonic_yang_ext.py:688-763 | One list entry back into a primary key and its fields |
| Translation.Translator.RevXlateList | src/sonic-yang-mgmt/sonic_yang_ext.py:725-763 | The dictionary with every entry of the list assigned, if the list is one that is translated back |
| Translation.Translator.RevXlateContainer | src/sonic-yang-mgmt/sonic_yang_ext.py:792-810 | The dictionary rebuilt from lists, containers and leaves; on success the path is restored |
| Translation.Translator.CropConfigDB | src/sonic-yang-mgmt/sonic_yang_ext.py:162-183 | The input keeps exactly the known tables, the rest are set aside |
| Translation.Translator.XlateTable | src/sonic-yang-mgmt/sonic_yang_ext.py:560-572 | One table translated and the path cleared, or a failure that leaves its name on the path |
| Translation.Translator.XlateConfigDBtoYang | src/sonic-yang-mgmt/sonic_yang_ext.py:557-574 | Every table translated, the first under the path an earlier failure left; a failure leaves the tables before it translated and the path starting with the name the failing table was read under |
| Translation.Translator.LoadData | src/sonic-yang-mgmt/sonic_yang_ext.py:946-973 | Crops, translates and hands the data to the library; succeeds if and only if both do, else there is no data tree, and after a failed translation the path starts with the name the failing table was read under |
| Translation.Translator.RevXlateYangtoConfigDB | src/sonic-yang-mgmt/sonic_yang_ext.py:815-839 | Every table rebuilt from the data |
| Translation.Translator.GetData | src/sonic-yang-mgmt/sonic_yang_ext.py:978-996 | The tables rebuilt from the data tree, or an error when nothing is loaded |
| Translation.Translator.LoadAndGet | src/sonic-yang-mgmt/sonic_yang_ext.py:946-996 | From a clear path, loading and reading back gives the known tables if and only if each is non-empty and well typed; the unknown ones are set aside |
| BuildVersions.NormalizeVersion | scripts/build_sbom.py:770-778 | The loop computes the version without epoch and suffixes |
| BuildVersions.BareSettled | scripts/build_sbom.py:770-778 | No suffix chain is left at the end |
| BuildVersions.BareRemovesChain | scripts/build_sbom.py:764-778 | What is removed is used up by suffix chains at the end, each possibly before a newline, and nothing longer is; without newlines it is a single chain |
| BuildVersions.SuffixIgnored | scripts/build_sbom.py:764-778 | Appending any of the suffixes fips, sonic, sonic.N, bN, bNsonicM, debNuM, in any number, and a newline, never changes the normal form |
| BuildVersions.ChainSuffixes | scripts/build_sbom.py:762-765 | Every suffix chain is a run of these suffixes, each after a plus sign, and nothing else |
| BuildVersions.HasEpochIff | scripts/build_sbom.py:766-771 | An epoch is a number and a colon at the very start |
| BuildVersions.EpochIff | scripts/build_sbom.py:767-771 | Putting an epoch in front leaves the normal form alone if and only if the version has none yet |
| BuildVersions.NoiseIgnored | scripts/build_sbom.py:764-778 | Neither a number and a colon in front nor suffixes behind change the normal form of a version without an epoch |
| SbomMerge.SharesKeyIff | scripts/build_sbom.py:781-813 | Two components share a key if and only if they have the same package URL, the same reference of its own, or the same name and architecture with versions whose normal forms, or themselves where these are empty, agree |
| SbomMerge.NoiseShares | scripts/build_sbom.py:755-813 | A package and the same one with an epoch and build suffixes always share a key, whatever the case of its name |
| SbomMerge.MergeComponents | scripts/build_sbom.py:995-1017 | The nested loops compute the greedy fold over all sources in order |
| SbomMerge.KeptDisjoint | scripts/build_sbom.py:995-1017 | Merged components have pairwise disjoint key sets |
| SbomMerge.PlaceLaw | scripts/build_sbom.py:1005-1017 | A component is dropped without trace exactly when it has no keys; every other shares a key with the winner of its group |
| SbomMerge.Precedence | scripts/build_sbom.py:1006-1012 | A component joins the kept one that has its first known key, in the order package URL, reference, exact version, version up to epoch and suffixes |
| SbomMerge.GroupLaw | scripts/build_sbom.py:1005-1017 | Each merged component is the first of its group with CPE data promoted from the rest of the group in order |
| SbomMerge.PromotionLaw | scripts/build_sbom.py:1020-1034 | Promotion changes nothing but absent CPE data, which comes from the first of the group that has any |
| SbomMerge.MergeInStages | scripts/build_sbom.py:995-1017 | Merging a merged list with further components is merging all at once |
| SbomMerge.SourcesInOrder | scripts/build_sbom.py:995-1017 | A further source is merged behind what the earlier ones gave |
| Leafrefs.BacklinksExact | src/sonic-yang-mgmt/sonic_yang.py:618-636 | The backlink map is the exact inverse of the leafref-to-target relation |
| Leafrefs.SubtreeDependenciesExact | src/sonic-yang-mgmt/sonic_yang.py:647-671 | For an ancestor path, the dependencies are exactly the leafrefs with a target that is the path or the path followed by a slash and more; for no path or the root path all |
| Leafrefs.PathDependenciesExact | src/sonic-yang-mgmt/sonic_yang.py:647-671 | For a path of its own they are exactly the leafrefs with that target |
| Leafrefs.DependencyFinder.CacheSchemaDependencies | src/sonic-yang-mgmt/sonic_yang.py:618-636 | Builds the map once, if the leafrefs can be listed |
| Leafrefs.DependencyFinder.FindSchemaDependencies | src/sonic-yang-mgmt/sonic_yang.py:647-671 | The leafrefs recorded for a path, or for everything at or below it |
| Leafrefs.DependencyFinder.ResolveBacklinkData | src/sonic-yang-mgmt/sonic_yang.py:815-832 | Appends the matching data nodes not listed yet |
| Leafrefs.DependencyFinder.FindDataDependenciesNode | src/sonic-yang-mgmt/sonic_yang.py:787-802 | Depth first, appends the references to every leaf below a node |
| Leafrefs.DependencyFinder.FindDataDependencies | src/sonic-yang-mgmt/sonic_yang.py:741-770 | The references to everything below the nodes a path matches, or below all nodes for no path or the root path, without repetition |
| Leafrefs.DependenciesExact | src/sonic-yang-mgmt/sonic_yang.py:741-832 | The result repeats nothing and holds exactly the paths of data nodes whose leafref targets the schema of a leaf in the queried subtrees: leaves that hold the value of that leaf if it has one, and any other nodes |
| EcmpBanks.CalculateGcd | src/sonic-config-engine/minigraph.py:547-550 | The loop keeps the greatest common divisor of its two variables and ends with it |
| EcmpBanks.GcdGreatest | src/sonic-config-engine/minigraph.py:547-550 | It gives a common divisor that every common divisor divides |
| EcmpBanks.LcmLeast | src/sonic-config-engine/minigraph.py:537-542 | The product over the divisor is a common multiple that divides every common multiple |
| EcmpBanks.LcmUpToLeast | src/sonic-config-engine/minigraph.py:537-542 | A bank's term is a multiple of each of 1 to n and divides every number that is |
| EcmpBanks.LcmOfFirst | src/sonic-config-engine/minigraph.py:537-542 | The loop computes that term |
| EcmpBanks.CalculateLcmForEcmp | src/sonic-config-engine/minigraph.py:527-545 | The bucket size is the sum of the terms of the banks that have next hops |
| EcmpBanks.SameBankIff | src/sonic-config-engine/minigraph.py:563-570 | Two next hops share a bank if and only if they share a device |
| EcmpBanks.BankHolds | src/sonic-config-engine/minigraph.py:563-570 | The number of next hops in a bank is that of its device, and not zero |
| EcmpBanks.FineGrainedSize | src/sonic-config-engine/minigraph.py:527-571 | The bucket size is the sum over the different devices of the least common multiple of 1 to their number of next hops |
| Breakout.GetConfig | src/sonic-config-engine/portconfig.py:354-396 | Succeeds if and only if lanes, aliases and indexes suffice and no count is zero, and then gives exactly the child ports |
| Breakout.SlicesOfParent | src/sonic-config-engine/portconfig.py:354-396 | Child ports have different names and hold adjacent non-empty slices that together are the first lanes of the parent; all assigned lanes when port counts divide lane counts |
| Breakout.LanesReadBack | src/sonic-config-engine/portconfig.py:373-381 | The lane text of the i-th child port reads as the lanes of its slice, and its name is that of its first lane |
| Breakout.PortFields | src/sonic-config-engine/portconfig.py:366-394 | The j-th port of the k-th part of a mode, field by field: name, alias, lanes, index, speed of the part, number unless it is the only port, and FEC from 50G per lane on |
| Breakout.UpdateGet | src/sonic-config-engine/portconfig.py:446-446 | An update keeps the ports it does not name and takes the others as given |
| Breakout.ContiguousApart | src/sonic-config-engine/portconfig.py:370-394 | No two child ports share a lane |
| Breakout.PlatformPorts | src/sonic-config-engine/portconfig.py:426-446 | The ports of the parents, one update after the other, if every parent can be built |
| Breakout.UnionKeepsAll | src/sonic-config-engine/portconfig.py:426-446 | Parents with separate ranges never overwrite each other's ports |
| Reconcile.BuildEnabledPatch | dockers/docker-telemetry-sidecar/systemd_stub.py:239-278 | The loops build the patch that the rows below describe |
| Reconcile.EntryPathIff | dockers/docker-telemetry-sidecar/systemd_stub.py:271-276 | The path of an entry reaches that entry if and only if its name holds neither `/` nor `~` |
| Reconcile.PatchApplies | dockers/docker-telemetry-sidecar/systemd_stub.py:239-278 | Every operation of the patch applies, in order, and leads to the reconciled state; names need no escaping unless entries are patched one by one |
| Reconcile.ReconciledExact | dockers/docker-telemetry-sidecar/systemd_stub.py:239-278 | Authentication is set, an entry that grants the wanted roles stays as it is, any other listed entry holds exactly these roles, and nothing else changes |
| Reconcile.UpToDateIff | dockers/docker-telemetry-sidecar/systemd_stub.py:213-260 | An entry is left alone if and only if its stored role is a list whose texts, stripped and without empty ones, are the wanted roles, each as often |
| Reconcile.PatchGrants | dockers/docker-telemetry-sidecar/systemd_stub.py:239-278 | The patched database authenticates by certificate, and grants a client its wanted roles if and only if none of these is empty or has outer blanks |
| Reconcile.PatchEmptyIff | dockers/docker-telemetry-sidecar/systemd_stub.py:239-278 | There is nothing to patch if and only if authentication is set and every wanted role is granted |
| Reconcile.PatchOps | dockers/docker-telemetry-sidecar/systemd_stub.py:239-278 | Where the table has entries, one operation per client whose roles are missing, in order, replaces what is there and adds what is not |
| Reconcile.PatchTable | dockers/docker-telemetry-sidecar/systemd_stub.py:262-270 | Where it has none, one operation adds the table with exactly the missing entries |
| Reconcile.NormalizeIff | dockers/docker-telemetry-sidecar/systemd_stub.py:213-236 | Normalising keeps a list of roles if and only if none is empty or has outer blanks |
| Reconcile.ConvergesIff | dockers/docker-telemetry-sidecar/systemd_stub.py:289-302 | After the patch the next patch is empty if and only if no wanted role is empty or has outer blanks |

## Left out

- PinConfig.ConfigClosedForm: speaks of queries that name a distribution and an architecture, `all` included; so do the other laws about queries.
- PinConfig.MergeAllDistinct: assumes that the module that is overwritten has one component under each key.
- VersionModules.VersionModule.Overwrite: assumes that the two modules share no component objects.
- VersionModules.VersionModule.GetConfigModule: the loop that adds empty groups for types of the default module is not modelled, because empty groups are skipped right after.
- VersionFiles.FileTripIff: lower case is that of ASCII letters; sorting by case-folded names only orders the lines, and the law holds for every order. The apt preference format of dump is not modelled.
- Freezing and merging whole builds, default modules, printing and file globbing in versions_manager.py.
- ConfigDbPaths.Converter.ConfigDbPathToXpath: conversions that look up leaf-list values in a ConfigDB are not modelled; the cache does not distinguish them from the others.
- ConfigDbPathLaws.PathTripIff: speaks of paths to tables, containers, entries, fields other than keys and inner fields; key fields and inner value leaves are not told apart from their entries on the way back.
- YangTreeTrips.ReturnedIff: the schema class has no containers inside lists, whose non-empty values the code skips; children of a container have different names, as YANG requires.
- YangTables.TablesTripIff: the YANG library is represented by what it prints for the data it is given, following sections 6.1 and 6.3 of RFC 7951; it drops empty lists, leaf-lists and containers. Validation, value ranges, defaults it adds and duplicates it refuses are not modelled. Types other than numbers and booleans are taken to print back as the text they were given, and numbers are given in decimal.
- Translation.Translator.GetData: a leaf holds one scalar and a leaf-list a list in data the library prints; other shapes are errors here. The two-level dictionary of tables is one sequence of items, so tables are visited in loading order.
- Translation.Translator.FindYangTypedValue: integers are read as Python does for ASCII digits; other Unicode digits and the limit on their number are not modelled. Python's text for a list or dictionary is a parameter.
- Translation.Translator.XlateContainer: after an error the path is stated up to what the container appended to it; only its first name is used later.
- Translation.Translator.XlateConfigDBtoYang: what a failing table has filled in before its error is not modelled.
- Translation.Translator.RevXlateContainer: the path after an error is not stated.
- YangSeparators.HarmlessIff: that different separators can be noticed is proved where every leaf-list can be reached: lists of a container differ in key count, and none takes the items of its leaves and containers. HarmlessStart needs nothing of the kind.
- BuildVersions.NormalizeVersion: `\d` is an ASCII digit.
- SbomMerge.SharesKeyIff: folds the case of ASCII letters only.
- SbomMerge.MergeComponents: records are values; the code promotes CPE data in the caller's record.
- Leafrefs.DependenciesExact: the data tree, the schema paths of its nodes and the leafref targets are given; errors of the library count as no match.
- EcmpBanks.CalculateLcmForEcmp: the quotient is exact, where the code divides floating-point numbers; banks are numbered from 0, one for each device, as the caller numbers them.
- Breakout.GetConfig: parsing of breakout modes and the optional attributes copied from hwsku.json are not modelled; speeds and counts are non-negative.
- Reconcile.PatchApplies: needs the TELEMETRY gnmi object to exist, as adding a member does by section 4.1 of RFC 6902, and names that need no escaping where entries are patched one by one; YANG validation by the patch command is not modelled.
- Reconcile.ConvergesIff: certificate names are different. The branch that removes settings, and roles stored as JSON text, are not modelled; the latter are never up to date in the code either.
- YANG schema compilation, data validation and searching by xpath: the YANG library.
- Minigraph XML, platform file readers, daemons, scanners, licence and provenance code: reading and writing, with little to prove.
