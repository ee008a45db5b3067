# Verified models of the packet server's core algorithms

This project models, and proves properties of, four parts of the repository: the
protobuf descriptor pool, the ordered symbol index of a descriptor database, the packet
framing between client and server, and the integer formatting of the `fmt` library.
`dafny verify dfyconfig.toml` checks everything.

**Descriptor pool** (`Lib/protobuf/include/google/protobuf/descriptor.cc`).
`TablesSpec` and `Rollback` give the meaning of the insert-only tables with their undo
journals; `Tables` is the class that updates them in place. `Builder` holds the classes
`DescriptorPool` and `DescriptorBuilder`: loading imports recursively from a fallback
database, building a file inside one checkpoint, nested builds while names are looked up,
and either committing or rolling back. `PoolSpec`, `BuildSteps`, `BuilderSpec`,
`LookupSpec`, `NameIndexes` and `Declaring` state what these methods mean on pool values;
`ExpectedView` tells from the pool before a build and the proto alone what its references
can mean, which makes the condition for success one that a caller could check.
`RelativeNames`, `BuildLaws` and `GivenNames` say the same once more on plain strings and
lists: what a name written in a field stands for, when a package, imports and declarations
are in order, and which names a file gives; these laws name none of the definitions that
the methods share with their specifications. `CopyBack` is the proto that a built file is copied back into, which decides whether a file
offered again is the one that is there. `PoolContents` tells what a pool holds by names
alone, and `Loading` is the recursion of the fallback database as a pure function on that,
which the methods are proved to follow. `PoolProperties` is what follows for every pool
between calls. A pool is called healthy when the packages of its files are declared, as
they are between calls and in every build that has had no error; it is sound if the imports
of its files are recorded as well. `Oneofs` models the count / allocate / refill passes of
cross-linking.

**Symbol index** (`descriptor_database.cc`). `SymbolOrder` proves the facts about
byte-wise order, `DescriptorIndexes` the index itself.

**Packet framing** (`Shared/PacketBuffer.*`, `MServer/MServer/ClientSession.h`,
`PacketHandlerManager.h`). `Frames` is the wire format, `Dispatch` what receiving means,
`Outgoing` what sending means, `PacketBuffers` and `Sessions` the classes.

**Integer formatting** (`Shared/format.h`, `format.cc`). `Numerals` are the digits that
`DigitCount`, `DecimalText`, `DecimalParser`, `IntLayout`, `IntWriter` count, write and
read; `ArgLists` is the packed argument list.

Where the code does not do what its comments promise, the code is kept, a lemma names an
input, and the exact condition is proved:

* A descriptor index accepts a symbol that encloses an existing one when the new name
  sorts before every key and the second key is not nested in it
  (`DescriptorIndexes.AddedAncestorFree`, `MissHappens`, and `AfterMiss` for what lookups
  then lose).
* The branch of `DescriptorBuilder::AddSymbol` that "shouldn't be possible" is reached by
  an unnamed message outside any package (`NameIndexes.UnnamedMessageDisagrees`): exactly
  by a oneof and another member of one name, in a message with an empty full name, whose
  full names are both new (`Declaring.TwinsDisagree`); the build fails in every such case
  (`Builder.DescriptorBuilder.BuildFile`).
* A file may import itself, as it is in the file table before its imports are looked up
  (`ExpectedView.SelfImportIsAllowed`). Self-imports are the only import cycles
  (`PoolProperties.ImportCyclesAreSelfImports`).
* The wrap test of `parse_nonnegative_int` misses some numbers from 2^32 on
  (`DecimalParser.WrongExactly`, `TooBigAccepted`).
* `SetPacket` with an empty payload reports failure but leaves a header frame in the
  buffer (`PacketBuffers.PacketBuffer.SetPacket`, `Outgoing.FailedButQueued`,
  `EmptyPayloadIsQueued`); and a session whose sends fail never works off its backlog
  (`Outgoing.BacklogNeverShrinks`, `FullQueueIsStuck`).
* With a precision longer than the number, centred integers are filled on the left only
  (`IntLayout.CentredExactly`, `PreciseIsNotCentred`). Such a specification comes only from
  a caller that fills in a `FormatSpec` by hand: format strings refuse a precision for
  integers (`Shared/format.cc:1250-1253`) and printf has no centring.

## Model

| member | source | states |
|---|---|---|
| Rollback.NestedRollbackIsExact | Lib/protobuf/include/google/protobuf/descriptor.cc:340-375 | Over every balanced run of additions, allocations, inner checkpoints, clears and rollbacks between a checkpoint and its rollback, the rollback restores maps, lists, journals and checkpoints exactly. |
| Rollback.ClearKeepsAdditions | Lib/protobuf/include/google/protobuf/descriptor.cc:614-624 | Clearing instead keeps everything added; it stays undoable exactly while an outer checkpoint is open, and the journals are dropped with the last one. |
| Rollback.RunExtends | Lib/protobuf/include/google/protobuf/descriptor.cc:340-375 | Any run that keeps a checkpoint open leaves the state before that checkpoint recoverable. |
| Rollback.NoDanglingKeys | Lib/protobuf/include/google/protobuf/descriptor.cc:423-428 | After any run whose names are pool strings, every key in the symbol and file tables and in the journals is owned by a string not yet freed, and will be after any later rollback. |
| Rollback.StepKeepsOwned | Lib/protobuf/include/google/protobuf/descriptor.cc:610-671 | Each single operation keeps that ownership. |
| Tables.RollbackIsSafe | Lib/protobuf/include/google/protobuf/descriptor.cc:626-671 | What the erasures of a rollback leave in the tables reads only strings that survive the deletion that follows. |
| TablesSpec.Step | Lib/protobuf/include/google/protobuf/descriptor.cc:610-671 | Checkpoints stay nested: sizes recorded at outer checkpoints never exceed inner or present ones, and the depth changes as the operation says. |
| Tables.Tables.AddSymbol | Lib/protobuf/include/google/protobuf/descriptor.cc:768-776 | Inserts only an absent name, journals it exactly then, and reports which. Stated on the map and the journal. |
| Tables.Tables.AddFile | Lib/protobuf/include/google/protobuf/descriptor.cc:784-791 | The same for files. |
| Tables.Tables.AddExtension | Lib/protobuf/include/google/protobuf/descriptor.cc:824-832 | The same for extensions. The stored entry has the key and the field given, and the journal grows by the key. |
| Tables.Tables.AllocateString | Lib/protobuf/include/google/protobuf/descriptor.cc:846-850 | The string joins the pool's strings. |
| Tables.Tables.AllocateMessage | Lib/protobuf/include/google/protobuf/descriptor.cc:852-857 | The message joins the pool's messages. |
| Tables.Tables.AllocateFileTables | Lib/protobuf/include/google/protobuf/descriptor.cc:859-863 | The file tables join the pool's. |
| Tables.Tables.AllocateBytes | Lib/protobuf/include/google/protobuf/descriptor.cc:865-875 | The block is recorded, unless its size is 0. |
| Tables.Tables.AddCheckpoint | Lib/protobuf/include/google/protobuf/descriptor.cc:610-612 | Records all present sizes. |
| Tables.Tables.ClearLastCheckpoint | Lib/protobuf/include/google/protobuf/descriptor.cc:614-624 | Pops the checkpoint and commits when it was the last. |
| Tables.Tables.EraseSymbolsFrom | Lib/protobuf/include/google/protobuf/descriptor.cc:630-634 | Erases exactly the symbols journaled from there on, reading only keys whose strings are alive. |
| Tables.Tables.EraseFilesFrom | Lib/protobuf/include/google/protobuf/descriptor.cc:635-639 | The same for files. |
| Tables.Tables.EraseExtensionsFrom | Lib/protobuf/include/google/protobuf/descriptor.cc:640-644 | The same for extensions. |
| Tables.Tables.Truncate | Lib/protobuf/include/google/protobuf/descriptor.cc:646-670 | Cuts journals and lists back; requires that no key in the tables needs a freed string. |
| Tables.Tables.RollbackToLastCheckpoint | Lib/protobuf/include/google/protobuf/descriptor.cc:626-671 | Restores the recorded sizes and the tables, in an order that never reads a freed string. |
| Builder.DescriptorPool.FindFileByName | Lib/protobuf/include/google/protobuf/descriptor.cc:1028-1043 | A file the table has is returned and nothing changes. As long as linking asks for no symbol of a file that could be loaded, the contents of the pool afterwards, and whether the file is found, are exactly what the pure recursion `TryFile` over the contents before says. In every case the file is loaded if and only if it is buildable in the pool with its imports loaded, save those known bad by then, which is the pool before if they were there; a failed try adds nothing else. Every file that was loaded is the one the database has under that name. Between calls the pool stays settled: nothing pending, no checkpoint, packages closed, every file completely built and all its references meaning something acceptable and linked to it. |
| Builder.DescriptorPool.FindByName | Lib/protobuf/include/google/protobuf/descriptor.cc:702-724 | A symbol known before is found unchanged; another is found exactly if the database names a file for it worth loading, that file then stands in the table, and the symbol is known. The load is decided, and its outcome told by `TryFile`, as for files. Every file that was loaded is the one the database has under that name. |
| Builder.DescriptorPool.BuildFile | Lib/protobuf/include/google/protobuf/descriptor.cc:2676-2686 | Without a database, a name that is in the pool succeeds if and only if its file, copied back into a proto, is the one offered. Any other succeeds if and only if, told from the pool before the call and the proto alone, its package, imports and declarations are in order, every reference means something acceptable, and the other checks pass, which are a given predicate of the contents of that pool and the proto; then exactly this file, its symbols and its new packages are added. After a failure the tables are as before. When every operand belongs to a declaration, that condition is also stated as `CanBuild`, on strings and lists alone, and each link is then the symbol that its name stands for from the full name of the field or method it is written in. |
| Builder.DescriptorPool.BuildableMeans | Lib/protobuf/include/google/protobuf/descriptor.cc:3343-3521 | Spelled out: a file is buildable exactly if its name is free, package, imports and declarations are in order by `InOrder`, the other checks pass, and each name in each operand, seen from the full name of the declaration that the operand belongs to, stands for something of an acceptable kind. |
| RelativeNames.ReferencesMean | Lib/protobuf/include/google/protobuf/descriptor.cc:4162-4430 | All references of a file mean something acceptable exactly if every use, looked up from the full name of the field or method it is written in, stands for a known name of a kind accepted there: a message to extend or as a method type, a message or an enum as a field type left open. |
| RelativeNames.LinksMean | Lib/protobuf/include/google/protobuf/descriptor.cc:4162-4430 | Linked references are the symbols, full name and kind, that the names stand for. |
| Loading.RelativeFits | Lib/protobuf/include/google/protobuf/descriptor.cc:4215-4235 | In package foo with messages A and B, the type "A" written in foo.B.a stands for foo.A, and the file is in order. |
| Builder.DescriptorPool.TryFindFileInFallbackDatabase | Lib/protobuf/include/google/protobuf/descriptor.cc:1411-1423 | Succeeds exactly if the file is in the table afterwards. For a name that is neither pending nor known bad the outcome is that of building it in the pool with its imports loaded or known bad; after a failure the name is known bad. In a sound pool, contents and known bad names afterwards are those of `TryFile`, while nothing else is asked for. Every file that was loaded is the one the database has under that name. |
| Builder.DescriptorPool.IsSubSymbolOfBuiltType | Lib/protobuf/include/google/protobuf/descriptor.cc:1425-1445 | The loop finds exactly whether some proper dotted prefix is a known symbol that is not a package. |
| Builder.DescriptorPool.TryFindSymbolInFallbackDatabase | Lib/protobuf/include/google/protobuf/descriptor.cc:1447-1486 | Succeeds exactly if the name was not asked for in vain, no scope of it is a known symbol other than a package, and the file the database names was not there and stands now, which its build decides as for files; terminates, though it is reached from within builds, and only adds complete files. Every file that was loaded is the one the database has under that name. |
| Builder.DescriptorPool.BuildFileFromDatabase | Lib/protobuf/include/google/protobuf/descriptor.cc:2702-2715 | Returns the table's file exactly if the build stood, which the pool with the imports loaded decides; that file was built from the proto given; recursion ends as the loadable names shrink. Every file that was loaded is the one the database has under that name. |
| Builder.DescriptorBuilder.IsInPackage | Lib/protobuf/include/google/protobuf/descriptor.cc:2798-2803 | The file's package is the name or lies inside it. |
| Builder.DescriptorBuilder.RecordPublicDependencies | Lib/protobuf/include/google/protobuf/descriptor.cc:2805-2810 | Terminates on any import graph, adds only files reachable by public imports, and what it adds is closed under them. |
| Builder.DescriptorBuilder.RecordDependencies | Lib/protobuf/include/google/protobuf/descriptor.cc:3451-3455 | The dependency set is exactly what the direct imports reach by zero or more public imports. |
| LookupSpec.ClosedContainsReach | Lib/protobuf/include/google/protobuf/descriptor.cc:2805-2810 | A set closed under public imports contains all that its members reach. |
| Builder.DescriptorBuilder.FindSymbolNotEnforcingDeps | Lib/protobuf/include/google/protobuf/descriptor.cc:2812-2840 | Returns a symbol the table has; one it has not exactly if a file worth loading for it then stands in the table and declares it. |
| Builder.DescriptorBuilder.FindSymbol | Lib/protobuf/include/google/protobuf/descriptor.cc:2842-2879 | Only symbols of the file or its dependencies, or packages one of them is in, are seen. Once those packages are declared the answer is exactly that of the view before the call, whatever is loaded on the way. A name in the table before is found exactly if its file is the one being built or a dependency, or it is a package equal to or around the package of one of these. |
| Builder.DescriptorBuilder.LookupInScope | Lib/protobuf/include/google/protobuf/descriptor.cc:2921-2951 | One round: whether the scope settles the search, and with what, by the view before it. |
| Builder.DescriptorBuilder.LookupSymbolNoPlaceholder | Lib/protobuf/include/google/protobuf/descriptor.cc:2881-2953 | The string-chopping loop ends, and whatever it loads it finds in the view before the call what the component-list meaning of the name says: the innermost enclosing scope in which the first part is acceptable decides, even if the rest is missing there; otherwise the root. In every case the result stands under the name itself or under the name inside an enclosing scope. |
| LookupSpec.InnermostDecides | Lib/protobuf/include/google/protobuf/descriptor.cc:2891-2901 | The meaning is what the design promises: the innermost scope in which the first part settles the search, or the root if none does. |
| RelativeNames.MeaningStandsFor | Lib/protobuf/include/google/protobuf/descriptor.cc:2881-2953 | The meaning of a name is what it stands for, said on strings: after a leading dot the rest; else, of all scopes s with "s." before the place it is written in, the longest in which s.head is known and ends the search, head being the part before the first dot: of a longer name, a message, package, enum or service; of a whole type name, a message or enum. If none does, the name itself. |
| RelativeNames.ThroughScope | Lib/protobuf/include/google/protobuf/descriptor.cc:2929-2951 | From foo.bar, "baz.Q" stands for foo.baz.Q exactly if foo.baz is a message, a package, an enum or a service, and otherwise for baz.Q. |
| LookupSpec.ViewStable | Lib/protobuf/include/google/protobuf/descriptor.cc:2842-2879 | No file loaded later is ever seen by a build, neither its symbols nor its packages: the view stays the same through any loading, once the packages of the file and its dependencies are declared. |
| BuilderSpec.HealthySees | Lib/protobuf/include/google/protobuf/descriptor.cc:3387-3389 | They are declared in every build that has no error before its cross-linking, at any depth of nesting under healthy pools. |
| PoolProperties.ReferencesStayMeant | Lib/protobuf/include/google/protobuf/descriptor.cc:2842-2953 | Once a file is in a settled pool, whatever is loaded or built later, its references all still mean something acceptable, what they mean is what they are linked to, and what the file may use is the same. |
| PoolProperties.LoadsTrans | Lib/protobuf/include/google/protobuf/descriptor.cc:3327-3521 | Loading in several steps is loading: files stay whole, new symbols belong to new files, and in healthy pools the references of all new files mean something acceptable. |
| LookupSpec.ScopeChop | Lib/protobuf/include/google/protobuf/descriptor.cc:2913-2919 | Cutting a scope at its last dot drops its last component. |
| Names.JoinComponents | Lib/protobuf/include/google/protobuf/descriptor.cc:2913-2919 | Splitting a name at its dots and joining gives the name back. |
| Names.ComponentsJoin | Lib/protobuf/include/google/protobuf/descriptor.cc:2913-2919 | Joining dot-free components and splitting gives them back. |
| Builder.DescriptorBuilder.AddPackage | Lib/protobuf/include/google/protobuf/descriptor.cc:3125-3150 | Fails exactly when, walking outwards to the first known name, a component is not an identifier or that name is not a package; otherwise the package and all around it are declared and no package lacks its parent, although the walk stops at the first known one. |
| BuildLaws.PackageErrorMeans | Lib/protobuf/include/google/protobuf/descriptor.cc:3125-3150 | Declaring a package fails exactly if some name equal to it or around it, with nothing known between the two, is known as something else, or is unknown and its last part is not a word of letters, digits and underscores, by character code. |
| BuildLaws.PackageNamesMean | Lib/protobuf/include/google/protobuf/descriptor.cc:3137-3146 | The names that a package declares are itself and the names around it. |
| PoolProperties.PackagePrefixesArePackages | Lib/protobuf/include/google/protobuf/descriptor.cc:3125-3150 | Every dotted prefix of a package name is a package name. |
| Builder.DescriptorBuilder.AddSymbol | Lib/protobuf/include/google/protobuf/descriptor.cc:3087-3123 | Enters a new full name in both indexes, reports a known one, and notes the case in which the indexes disagree. |
| NameIndexes.UnnamedMessageDisagrees | Lib/protobuf/include/google/protobuf/descriptor.cc:3889-3909 | An unnamed message with a oneof and a field of one name reaches the branch, as a oneof's full name always gets a dot. |
| Declaring.DisagreesExactly | Lib/protobuf/include/google/protobuf/descriptor.cc:3094-3101 | A declaration reaches the branch if and only if its full name is new and an earlier one with a new full name is its twin: a oneof and another member, of one name, in a message whose full name is empty. |
| Declaring.TwinsDisagree | Lib/protobuf/include/google/protobuf/descriptor.cc:3094-3101 | So a whole list of declarations reaches it if and only if it contains such twins. |
| Declaring.DisagreeClashes | Lib/protobuf/include/google/protobuf/descriptor.cc:3094-3101 | Every list that does reports an error, as the message has an empty name. |
| Declaring.KeysListedStep | Lib/protobuf/include/google/protobuf/descriptor.cc:3973-3985 | Throughout, a parent other than an enum lists exactly the names given to it by declarations with new full names, despite the extra enum value entries. |
| Declaring.DeclaredStep | Lib/protobuf/include/google/protobuf/descriptor.cc:3087-3123 | What one more declaration adds to the names taken, the clashes and the agreement of the indexes. |
| Protos.DeclarationsWellNamed | Lib/protobuf/include/google/protobuf/descriptor.cc:3957-3962 | Every declared symbol gets the full name its parent and own name determine, enum values included. |
| Protos.DeclarationsUnnamedShow | Lib/protobuf/include/google/protobuf/descriptor.cc:3152-3169 | Something declared in a message without a full name implies a declaration with an empty name, which is an error. |
| Builder.DescriptorBuilder.Declare | Lib/protobuf/include/google/protobuf/descriptor.cc:3950-3985 | One declared thing: its name checked, its symbol registered, an enum value also under its enum; the error of a value that only its enum accepts is reported too. Afterwards the pair of an enum and its value is listed, as this symbol if it was not there. |
| Builder.DescriptorBuilder.DeclareSymbols | Lib/protobuf/include/google/protobuf/descriptor.cc:3473-3477 | Errors arise exactly from names that are no identifiers or already taken; the disagreeing branch is reached exactly if some declaration disagrees with an earlier one; the names taken grow by exactly those declared; without errors all symbols are declared and found the same way twice. Every enum value is listed under its own enum. |
| Builder.DescriptorBuilder.CollectImports | Lib/protobuf/include/google/protobuf/descriptor.cc:3391-3430 | Records the table's file for each import; fails exactly for a missing or repeated one. |
| Builder.DescriptorBuilder.CollectPublicImports | Lib/protobuf/include/google/protobuf/descriptor.cc:3432-3449 | Records valid indexes only; fails exactly if one is invalid. |
| Builder.DescriptorBuilder.ResolveDependencies | Lib/protobuf/include/google/protobuf/descriptor.cc:3391-3449 | Both together, stored in the descriptor. |
| Builder.DescriptorBuilder.CrossLinkField | Lib/protobuf/include/google/protobuf/descriptor.cc:4162-4371 | Succeeds exactly if every name means something acceptable in the view before the call, and then links each to the symbol it means; the first that does not ends it. |
| Builder.DescriptorBuilder.CrossLinkFile | Lib/protobuf/include/google/protobuf/descriptor.cc:4076-4097 | Fails exactly if some reference means nothing acceptable in the view before the call, whatever is loaded meanwhile; otherwise every reference is linked to the symbol it means. |
| Builder.DescriptorBuilder.StartFile | Lib/protobuf/include/google/protobuf/descriptor.cc:3343-3386 | The file enters the table exactly if its name was free. |
| Builder.DescriptorBuilder.DeclarePackage | Lib/protobuf/include/google/protobuf/descriptor.cc:3387-3389 | The package is declared, or its error noted; nothing else is added. |
| Builder.DescriptorBuilder.LinkImports | Lib/protobuf/include/google/protobuf/descriptor.cc:3391-3455 | Imports, public imports and the dependency set of the file. |
| Builder.DescriptorBuilder.BuildContents | Lib/protobuf/include/google/protobuf/descriptor.cc:3387-3477 | Up to cross-linking, errors arise exactly from package, imports and declarations, and the disagreeing branch is reported exactly by the condition on the declarations; without errors the build sees exactly what was to be expected from the pool before it and the proto. |
| BuildLaws.FineMeans | Lib/protobuf/include/google/protobuf/descriptor.cc:3387-3477 | Package, imports and declarations are in order exactly if nothing spoils the package, each import is a given file or the file itself, no two are equal, each public import is the index of one, each declared name is a word, and each declared full name is new: not known, not the package nor around it, not declared before. |
| GivenNames.FileGivesExactly | Lib/protobuf/include/google/protobuf/descriptor.cc:3457-3477 | The declarations give exactly the full names, with kinds, that the nested proto gives: messages at any depth, their oneofs, fields, extensions and enums, enum values beside their enum and listed under it, services and methods. |
| ExpectedView.ViewExpected | Lib/protobuf/include/google/protobuf/descriptor.cc:3387-3477 | What the build sees, names and kinds, is a function of the pool before it and the proto: imported symbols, packages, own declarations. |
| ExpectedView.DependenciesExpected | Lib/protobuf/include/google/protobuf/descriptor.cc:3451-3455 | The dependency set, told from the pool before the build. |
| ExpectedView.SelfImportIsAllowed | Lib/protobuf/include/google/protobuf/descriptor.cc:3406-3430 | Adding the file itself to its imports is never an error and changes nothing of what its references can mean. |
| Builder.DescriptorBuilder.EndBuild | Lib/protobuf/include/google/protobuf/descriptor.cc:3514-3520 | A failed build leaves the tables as before it, files loaded by nested builds included; a good one is committed complete. |
| Builder.DescriptorBuilder.LoadDependencies | Lib/protobuf/include/google/protobuf/descriptor.cc:3327-3341 | The pending list is restored, no recursive build can have added the file meanwhile, afterwards every import is in the table or known bad, what was loaded is what the database has, and nothing changes at all if every import was there. In a sound pool the outcome is that of trying the imports in order, by contents. |
| PoolContents.ExpectedByContents | Lib/protobuf/include/google/protobuf/descriptor.cc:2842-2879 | What the references of a file can mean is a function of the names, protos and kinds the pool holds: addresses do not matter. |
| PoolContents.AcceptableByContents | Lib/protobuf/include/google/protobuf/descriptor.cc:3343-3477 | So is whether its package, imports and declarations are in order ... |
| Builder.DescriptorPool.BuildableByContents | Lib/protobuf/include/google/protobuf/descriptor.cc:3343-3521 | ... and so whether its build succeeds. |
| PoolContents.ReachedByName | Lib/protobuf/include/google/protobuf/descriptor.cc:2805-2810 | Files reached by public imports through the table's pointers are reached by names through the protos ... |
| PoolContents.NameReached | Lib/protobuf/include/google/protobuf/descriptor.cc:2805-2810 | ... and conversely. |
| PoolContents.ContentJoined | Lib/protobuf/include/google/protobuf/descriptor.cc:3387-3477 | The contents once a file has been declared: the proto, its declarations and its new packages are added, and nothing else. |
| Loading.CourseIsFound | Lib/protobuf/include/google/protobuf/descriptor.cc:3327-3341 | Every file is found that is on a course: files of the database, imports before what imports them, each buildable whichever of the others have been loaded by then. |
| Loading.CourseLoads | Lib/protobuf/include/google/protobuf/descriptor.cc:1411-1423 | Loading a file of a course loads only that one and earlier ones, finds none bad and stays on the course. |
| Loading.SilentWithoutSymbols | Lib/protobuf/include/google/protobuf/descriptor.cc:1447-1486 | A database that names no file for any symbol is never asked for more. |
| Loading.TwoFilesAreACourse | Lib/protobuf/include/google/protobuf/descriptor.cc:3327-3341 | A file and another that imports it and uses its message are a course. |
| Builder.DescriptorBuilder.BuildInCheckpoint | Lib/protobuf/include/google/protobuf/descriptor.cc:3343-3521 | The part of a build inside its checkpoint: all or nothing. In a healthy pool it succeeds if and only if the file is buildable in the pool before it, database or not, and then links every reference to what it means; if it asks for nothing else, exactly the file, its symbols and its packages are added. |
| Builder.DescriptorBuilder.BuildFile | Lib/protobuf/include/google/protobuf/descriptor.cc:3291-3521 | The whole build: terminates by the loadable names, returns the table's file exactly if it stood, changes nothing else but adding complete files, and fails whenever the two indexes disagreed. In a healthy pool a new name that is not pending succeeds if and only if the file is buildable once its imports are loaded, and then every reference is linked to what it means. A name that is there succeeds if and only if its file is copied back as the proto offered. |
| CopyBack.MatchesExactly | Lib/protobuf/include/google/protobuf/descriptor.cc:3284-3309 | Between calls, a file offered once more is taken for the one that is there if and only if it is that file's proto with every type name written in full, from a leading dot, every field type left open filled in, and the rest as it is copied. |
| CopyBack.AgainExactly | Lib/protobuf/include/google/protobuf/descriptor.cc:3294-3298 | So the very proto a file was built from is accepted again if and only if it was written that way, with no type left open: the code's "canonical". |
| CopyBack.CopyBuildsAgain | Lib/protobuf/include/google/protobuf/descriptor.cc:1562-1737 | A round trip: a file copied back with the meanings of one pool has package, imports, declarations and references in order, in any pool that agrees on those meanings, exactly if its original has, and every name in it means the same. |
| Builder.DescriptorPool.CopyIsBuildable | Lib/protobuf/include/google/protobuf/descriptor.cc:1562-1737 | So the copy is buildable there exactly if the original is, when the other checks do not tell them apart. |
| CopyBack.CopiedInFull | Lib/protobuf/include/google/protobuf/descriptor.cc:1640-1664 | References linked to what they mean are copied as those full names, and open field types as what they turned out to be. |
| CopyBack.MatchesByItem | Lib/protobuf/include/google/protobuf/descriptor.cc:3284-3309 | Item by item, what a file taken for the one that is there must be: imports by file name, types as a dot and the linked full name, open field types as what is linked. |
| CopyBack.ImportsCopied | Lib/protobuf/include/google/protobuf/descriptor.cc:1562-1572 | The imports and public imports copied from the descriptor are those of the proto. |
| BuilderSpec.StoredResolved | Lib/protobuf/include/google/protobuf/descriptor.cc:4076-4097 | Once the links of the file are stored, every new file's references are in order and linked. |
| BuilderSpec.UnloadedShrinks | Lib/protobuf/include/google/protobuf/descriptor.cc:3311-3341 | Loading never enlarges the set of database names neither in the table nor pending. |
| BuildSteps.RollbackBuild | Lib/protobuf/include/google/protobuf/descriptor.cc:3514-3516 | Rolling a build back gives the tables before it, whatever was loaded inside. |
| BuildSteps.CommitBuild | Lib/protobuf/include/google/protobuf/descriptor.cc:3517-3519 | Committing keeps the pool invariant and every file that appeared is complete. |
| PoolProperties.StaysSettled | Lib/protobuf/include/google/protobuf/descriptor.cc:3514-3520 | Whatever was loaded or failed, a settled pool stays settled: every file whole and all its references in order. |
| PoolProperties.EmptySettled | Lib/protobuf/include/google/protobuf/descriptor.cc:335-375 | A new pool is settled. |
| PoolProperties.ImportCyclesAreSelfImports | Lib/protobuf/include/google/protobuf/descriptor.cc:3406-3430 | Even during a build, an import cycle among table files is a file importing itself. |
| PoolProperties.ImportsStayInTable | Lib/protobuf/include/google/protobuf/descriptor.cc:3406-3430 | Following imports from a table file never leaves the table. |
| PoolProperties.NoTraceOfFailedBuilds | Lib/protobuf/include/google/protobuf/descriptor.cc:3514-3520 | A reading of the settled pool that all calls keep: each symbol belongs to a complete file still in the table, whose references all mean something acceptable. |
| Oneofs.Message.CountFields | Lib/protobuf/include/google/protobuf/descriptor.cc:4123-4132 | Each oneof's count is the number of its fields. |
| Oneofs.Message.AllocateFields | Lib/protobuf/include/google/protobuf/descriptor.cc:4134-4147 | Each oneof gets an array of its own of that size; an error exactly if some oneof is empty. |
| Oneofs.Message.FillField | Lib/protobuf/include/google/protobuf/descriptor.cc:4149-4158 | The field goes to the next free slot and remembers it. |
| Oneofs.Message.LinkOneofs | Lib/protobuf/include/google/protobuf/descriptor.cc:4121-4159 | After the three passes each oneof holds exactly its fields in declaration order, every slot filled and none beyond, and fields[f.index_in_oneof] is f. |
| Oneofs.MembersExact | Lib/protobuf/include/google/protobuf/descriptor.cc:4121-4159 | The list of a oneof's fields contains each of them once, ascending, and nothing else. |
| SymbolOrder.BetweenIsNested | Lib/protobuf/include/google/protobuf/descriptor_database.cc:91-97 | As the dot sorts below every other legal character, a legal name between a name and something nested in it is nested in it. |
| SymbolOrder.LessTrans | Lib/protobuf/include/google/protobuf/descriptor_database.cc:214-224 | The byte-wise order is transitive. |
| SymbolOrder.LessTotal | Lib/protobuf/include/google/protobuf/descriptor_database.cc:214-224 | It is total. |
| SymbolOrder.LessMeans | Lib/protobuf/include/google/protobuf/descriptor_database.cc:214-224 | The first differing character decides; a name comes before its extensions. |
| SymbolOrder.SymbolNameByCode | Lib/protobuf/include/google/protobuf/descriptor_database.cc:235-247 | The legal characters by code. |
| DescriptorIndexes.ProbeIsFullScan | Lib/protobuf/include/google/protobuf/descriptor_database.cc:180-186 | In an ancestor-free index of legal keys the single probe answers, for any query string, like a scan of all keys. |
| DescriptorIndexes.ProbeMeans | Lib/protobuf/include/google/protobuf/descriptor_database.cc:180-224 | In any sorted index a key equal to the name is found with its value, and whatever is found belongs to a key that is the name or encloses it. |
| DescriptorIndexes.NeighboursMean | Lib/protobuf/include/google/protobuf/descriptor_database.cc:98-134 | Enclosing, enclosed and missed, on strings: "k." begins the name, "name." begins a key, or only the first key. |
| DescriptorIndexes.AddedMeans | Lib/protobuf/include/google/protobuf/descriptor_database.cc:86-134 | The whole effect of a call: the entry stored, and, from an ancestor-free index, the exact condition for acceptance, with definitions and once more on codes and prefixes. |
| DescriptorIndexes.FullScanUnique | Lib/protobuf/include/google/protobuf/descriptor_database.cc:180-186 | At most one key equals or encloses a name, so the order of the scan does not matter. |
| DescriptorIndexes.LastLessOrEqual | Lib/protobuf/include/google/protobuf/descriptor_database.cc:212-224 | No key after the probed one is at most the name, and the probed one is, unless all keys are greater and it is the first; it is the end only for an empty map. |
| DescriptorIndexes.NeighbourChecks | Lib/protobuf/include/google/protobuf/descriptor_database.cc:98-134 | The predecessor check finds any enclosing key and the successor check any nested key, except in the missed case. |
| DescriptorIndexes.AddedAncestorFree | Lib/protobuf/include/google/protobuf/descriptor_database.cc:86-134 | One call keeps the index ancestor-free if and only if it is not the missed case. |
| DescriptorIndexes.RunAncestorFree | Lib/protobuf/include/google/protobuf/descriptor_database.cc:86-134 | A whole run of calls does if and only if it never meets that case; order and legality survive every run. |
| DescriptorIndexes.AfterMiss | Lib/protobuf/include/google/protobuf/descriptor_database.cc:180-186 | After a miss exactly the names nested in the new key, sorting after the old first key and not inside it, are no longer found. |
| DescriptorIndexes.MissHappens | Lib/protobuf/include/google/protobuf/descriptor_database.cc:222-223 | With the one key "a.b", "a" is accepted, and then "a.c" is not found. |
| DescriptorIndexes.DescriptorIndex.FindLastLessOrEqual | Lib/protobuf/include/google/protobuf/descriptor_database.cc:212-224 | The last key at most the name, or the first key if all are greater. |
| DescriptorIndexes.DescriptorIndex.FindSymbol | Lib/protobuf/include/google/protobuf/descriptor_database.cc:180-186 | The answer of a full scan, or none. A key equal to the name, or, if no keys are nested, enclosing it, is answered with its own value. |
| DescriptorIndexes.DescriptorIndex.ValidateSymbolName | Lib/protobuf/include/google/protobuf/descriptor_database.cc:235-247 | Accepts exactly names of letters, digits, underscores and dots. |
| DescriptorIndexes.DescriptorIndex.AddSymbol | Lib/protobuf/include/google/protobuf/descriptor_database.cc:86-134 | From an ancestor-free index, accepts a name exactly if it is legal and either neither covered nor enclosing, or the missed case; refusals change nothing. Accepting adds exactly the entry of the given name and value. The condition is stated on character codes and prefixes as well. |
| DescriptorIndexes.AddedIsFound | Lib/protobuf/include/google/protobuf/descriptor_database.cc:86-186 | What was accepted is found at once with the value it was given, in the missed case too. |
| DescriptorIndexes.InsertedMembers | Lib/protobuf/include/google/protobuf/descriptor_database.cc:131 | An accepted entry joins the others and replaces none. |
| Frames.DecodeEncode | Shared/PacketBuffer.h:16-24 | Decoding undoes encoding and needs no byte after the frame. |
| Frames.EncodeDecode | Shared/PacketBuffer.h:16-24 | Encoding undoes decoding. |
| Frames.PrefixIncomplete | Shared/PacketBuffer.cpp:61-72 | A proper prefix of a frame is never taken for a frame. |
| Frames.FrameByByte | Shared/PacketBuffer.cpp:145-166 | A frame of number n and payload p is the bytes size % 256, size / 256, n % 256, n / 256 and p, with size 4 + |p|. |
| Frames.HeadByByte | Shared/PacketBuffer.cpp:47-113 | The head of the bytes c is complete exactly if 0 < c[0] + 256 c[1] <= |c|, and is then the number c[2] + 256 c[3] with the bytes from 4 to that size. |
| PacketBuffers.PacketBuffer.AppendBuffer | Shared/PacketBuffer.cpp:15-38 | Appends exactly if there is something to append and it fits beside the contents, compacting if needed; otherwise the contents stay. |
| PacketBuffers.PacketBuffer.IsAbleToGetPacket | Shared/PacketBuffer.cpp:61-72 | The head frame is complete. |
| PacketBuffers.PacketBuffer.ConsumePacket | Shared/PacketBuffer.cpp:74-78 | Drops exactly the head frame, and nothing if it has not arrived whole. |
| PacketBuffers.PacketBuffer.GetPacketSize | Shared/PacketBuffer.cpp:101-113 | c[0] + 256 c[1] of the contents c, 0 while fewer than two bytes are there. |
| PacketBuffers.PacketBuffer.GetPacketNo | Shared/PacketBuffer.cpp:47-59 | c[2] + 256 c[3] of the contents c, which hold a complete header. |
| PacketBuffers.PacketBuffer.ReArrange | Shared/PacketBuffer.cpp:125-131 | Compaction moves the contents to the front and keeps them. |
| PacketBuffers.PacketBuffer.TruncateBuffer | Shared/PacketBuffer.cpp:133-143 | Drops bytes from the front if there are that many. |
| PacketBuffers.PacketBuffer.SetHeader | Shared/PacketBuffer.cpp:145-166 | Size and number are written after the contents, each low byte first. |
| PacketBuffers.PacketBuffer.SetPacket | Shared/PacketBuffer.h:33-62 | Exactly if the frame fits, size % 256, size / 256, number % 256, number / 256 and the payload follow the contents, with size 4 + |payload|; reports success exactly if also the payload is not empty. |
| Sessions.PacketHandlerManager.Register | MServer/MServer/PacketHandlerManager.h:79-102 | The first handler of a number is kept and no other slot changes; on success the slot holds the handler given. |
| Sessions.PacketHandlerManager.Handle | MServer/MServer/PacketHandlerManager.h:48-116 | With n = c[2] + 256 c[3] and the payload c[4..size] of the contents c: the bytes up to size are consumed and (n, payload) dispatched exactly if slot n has a handler that parses the payload; success exactly if that handler, given what was dispatched before, also reports it. |
| Sessions.Session.HandleHead | MServer/MServer/ClientSession.h:80-92 | One step of the loop: the session consults its manager about the head of its own receive buffer. |
| Sessions.Session.OnRecv | MServer/MServer/ClientSession.h:60-93 | The reassembly loop on the sliding buffer has exactly the effect of draining the buffered bytes. |
| Sessions.Session.SendPacket | MServer/MServer/ClientSession.h:42-58 | Queues the packet and hands the oldest one to the socket; the buffer is always a concatenation of whole frames. On the bytes: the queued packet is the one given, low bytes first, and the first packet in the buffer, by its own size, leaves it. |
| Sessions.Session.SendHead | MServer/MServer/ClientSession.h:51-56 | The oldest frame moves from the buffer to the wire. |
| Sessions.EndToEnd | MServer/MServer/ClientSession.h:42-93 | A receiver that serves what a sender's socket took dispatches exactly the first frames that the sender accepted, however the stream was cut. |
| Dispatch.CutIndependent | MServer/MServer/ClientSession.h:60-93 | For served frames and any cut into chunks that leave room, no append fails and the state depends only on the bytes received, not on the cut. |
| Dispatch.ExactDispatch | MServer/MServer/ClientSession.h:60-93 | After each call exactly the frames that arrived whole are dispatched, in order, and the buffer is a proper prefix of the next frame. |
| Dispatch.ReachedDispatched | MServer/MServer/ClientSession.h:80-92 | The dispatched frames are the first ones, in order. |
| Dispatch.ReachedBuffered | MServer/MServer/ClientSession.h:80-92 | What is buffered is a proper prefix of the next frame. |
| Dispatch.DrainServed | MServer/MServer/ClientSession.h:80-92 | One pass of the loop over served frames dispatches exactly the whole ones. |
| Dispatch.DrainByByte | MServer/MServer/ClientSession.h:80-92 | One pass of the loop on bytes: slot c[2] + 256 c[3] decides; the frame stays if there is no handler or its payload does not parse, is taken otherwise, and the loop goes on exactly if the handler reports success. |
| Dispatch.ReceivedByByte | MServer/MServer/ClientSession.h:60-79 | A chunk that is empty or leaves more than 65535 bytes is lost whole; any other is appended before the loop. |
| Dispatch.ServedMeans | MServer/MServer/PacketHandlerManager.h:104-116 | Frames are served exactly if each finds in the slot of its own number a handler that parses it and reports success after the frames before. |
| Dispatch.ReceivedAllKeepsHistory | MServer/MServer/ClientSession.h:60-93 | Whatever the handlers do, dispatched frames and buffered bytes are exactly the bytes of the chunks not dropped. |
| Dispatch.RefusedBlocks | MServer/MServer/PacketHandlerManager.h:48-61 | A complete frame without handler, or that does not parse, blocks its session for good. |
| Outgoing.FifoConserving | MServer/MServer/ClientSession.h:42-58 | Over every run, frames sent followed by frames queued are the frames accepted, in order; one frame is sent per successful call. |
| Outgoing.SentByByte | MServer/MServer/ClientSession.h:42-58 | One call on bytes: what joins the buffer, and that exactly the first packet leaves it if the new one fits, has a payload and the socket takes it. |
| Outgoing.BacklogNeverShrinks | MServer/MServer/ClientSession.h:42-58 | The queue grows by each frame not taken and never shrinks. |
| Outgoing.FullQueueIsStuck | MServer/MServer/ClientSession.h:44-49 | A queue too full for every frame offered never changes again. |
| Outgoing.FailedButQueued | Shared/PacketBuffer.h:33-62 | Although the socket would take it, a packet fails and yet leaves a frame queued exactly if it has no payload and its header has room. |
| Outgoing.EmptyPayloadIsQueued | Shared/PacketBuffer.h:33-62 | Packet 1 without payload, on an empty queue, is such a packet. |
| Numerals.ValueNumeral | Shared/format.h:2406-2417 | Reading a numeral in its base gives the number back. |
| Numerals.NumeralByTable | Shared/format.h:2406-2417 | Each digit by itself: number j from the right is the table entry, in small or capital letters as asked, of the number divided j times by the base, modulo the base. |
| Numerals.NoLeadingZero | Shared/format.h:2406-2417 | Only zero's numeral starts with 0. |
| Numerals.NumeralLength | Shared/format.h:772-773 | A numeral has k digits exactly in the k-th power interval. |
| DigitCount.GuessWithinOne | Shared/format.h:774-779 | The bit-length guess is the digit count or one less, for every 64-bit number. |
| DigitCount.GuessCorrected | Shared/format.cc:639-663 | The power table is never left, and the corrected guess is the digit count. |
| DigitCount.TablesHoldPowers | Shared/format.cc:639-663 | The tables hold the powers of ten. |
| DigitCount.CountDigits64 | Shared/format.h:774-779 | The true number of decimal digits, for every 64-bit number. |
| DigitCount.CountDigits32 | Shared/format.h:798-803 | The same for 32 bits. |
| DigitCount.CountDigitsFallback | Shared/format.h:781-795 | The same for the division loop, for every number. |
| DecimalText.DigitPair | Shared/format.cc:632-637 | Every pair of the digit table spells its index. |
| DecimalText.FormatDecimal | Shared/format.h:806-828 | The digits of the value fill exactly their slot and nothing else is touched. |
| DecimalText.MagnitudeIsAbs | Shared/format.h:2047-2049 | The unsigned negation gives the true magnitude, for the most negative integer too. |
| DecimalText.FormatInt.Signed | Shared/format.h:2904-2945 | The text is the sign and the digits of the magnitude; the 22-byte buffer is never left. |
| DecimalText.FormatInt.Unsigned | Shared/format.h:2904-2948 | The same without sign, for every 64-bit number. |
| DecimalParser.ParseNonnegativeInt | Shared/format.cc:257-273 | Takes the whole run of digits and answers by the accumulated word and the wrap test. |
| DecimalParser.ParsedIsWanted | Shared/format.cc:263-271 | Exact below 2^32; from there on right if and only if the wrap test fires on some prefix or the value modulo 2^32 exceeds INT_MAX. |
| DecimalParser.WrongExactly | Shared/format.cc:263-271 | Whether a numeral is wrongly accepted depends on its value V alone: V is at least 2^32, no V / 10^k is smaller modulo 2^32 than V / 10^(k+1) is, and V modulo 2^32 is at most INT_MAX. |
| DecimalParser.WrongAfterOneWrap | Shared/format.cc:263-271 | If only the last digit leads past 2^32, exactly if V / 10 <= V modulo 2^32 <= INT_MAX. |
| DecimalParser.TooBigAccepted | Shared/format.cc:264 | 10000000000 is accepted as 1410065408. |
| DecimalParser.PrintThenParse | Shared/format.cc:257-273 | Printed digits, inside any text, are parsed back up to INT_MAX, and rejected from there to 2^32. |
| MemoryBuffers.MemoryBuffer.Grow | Shared/format.h:631-648 | New storage of at least the size asked for, with the same contents. |
| MemoryBuffers.MemoryBuffer.Resize | Shared/format.h:529-533 | The old contents stay in place, up to the new size. |
| MemoryBuffers.MemoryBuffer.Reserve | Shared/format.h:540-543 | Nothing visible changes, and there is room for the size asked for. |
| IntLayout.FieldLength | Shared/format.h:2314-2375 | A field is max(width, prefix + max(precision, digits)) wide, with the octal 0 dropped when the precision exceeds the digits. |
| IntLayout.FieldByCase | Shared/format.h:2345-2375 | The whole field, alignment by alignment, if the precision does not exceed the digits. |
| IntLayout.PreciseFieldByCase | Shared/format.h:2314-2343 | And if it does: zeros make up the difference, a trailing 0 of the prefix goes, and the fill is on one side. |
| IntLayout.CentredExactly | Shared/format.h:2314-2375 | A field to be centred is, exactly if the precision does not exceed the digits or leaves nothing to fill. |
| IntLayout.PreciseIsNotCentred | Shared/format.h:2314-2343 | The digit 5 with precision 3, to be centred in ten stars, becomes "*******005". |
| IntLayout.DigitsComplete | Shared/format.h:2393-2399 | Writing the digits in the prepared frame gives fill, prefix, inner padding, digits, fill after the earlier contents. |
| IntWriter.BasicWriter.FillPadding | Shared/format.h:2299-2312 | Half of the padding, rounded down, goes left of the content and the rest right of it. |
| IntWriter.BasicWriter.AlignNumber | Shared/format.h:2352-2374 | Each alignment puts prefix, padding and digit slot where the layout says. |
| IntWriter.BasicWriter.PrepareIntBuffer | Shared/format.h:2314-2375 | All branches, the recursion for a precision included, frame the digit slot as the layout says and keep earlier contents. |
| IntWriter.CountInBase | Shared/format.h:2406-2409 | The shift loops count the digits in base 2, 8 and 16. |
| IntWriter.WriteInBase | Shared/format.h:2412-2417 | They write exactly those digits, in the case asked for. |
| IntWriter.BasicWriter.WriteInt | Shared/format.h:2377-2457 | Appends the field of the value for every type letter, flag, alignment and value, and nothing for an unknown letter. |
| IntWriter.DigitsDecode | Shared/format.h:2377-2457 | The digits decode in the chosen base to the magnitude, without leading zeros. |
| IntWriter.DigitsByTable | Shared/format.h:2377-2457 | Letter by letter: x writes digits of "0123456789abcdef" in base 16, X of "0123456789ABCDEF", b and B base 2, o base 8, d or none base 10; no other letter is known. |
| IntWriter.PrefixByCase | Shared/format.h:2382-2435 | What sign, space and # write before the digits, letter by letter. |
| IntWriter.SomeFields | Shared/format.h:2377-2457 | 255 is "ff" with x and "0XFF" with # and X; 8 is "010", 5 is "0b101"; -7, +7 and " 7" with the sign flags. |
| IntWriter.BasicWriter.WriteDecimal | Shared/format.h:2035-2054 | Appends the sign and the decimal magnitude. |
| ArgLists.TypeAtIs | Shared/format.h:1336-1341 | The packed word gives the first sixteen types, and NONE after the last argument. |
| ArgLists.TypeAtMeans | Shared/format.h:1336-1341 | Type number i of the word is the word divided i times by 16, modulo 16. |
| ArgLists.PackedBelowSixteen | Shared/format.h:1358-1381 | Lists of fewer than sixteen arguments are packed, and only those; the type word has 64 bits. |
| ArgLists.Get | Shared/format.h:1358-1381 | The packed list is the plain list: the argument at each index, NONE for every index past the end, and no access outside the array. |

## Left out

- Sockets, accepting clients, the console client, logging and error texts; a send takes a whole frame or nothing, as an input of the call.
- Protobuf payloads are byte strings with a parse predicate; serializing a packet is taken to succeed.
- Sessions.PacketHandlerManager.Register: number 65535, for which the handler table has no slot although the bound test lets it through, is excluded.
- Sessions.PacketHandlerManager.Handle: frames that declare fewer than four bytes, and number 65535, are excluded.
- Sessions.Session.OnRecv: requires that the loop does not look at such a frame.
- PacketBuffers.PacketBuffer.SetPacket: payloads above 65531 bytes, whose size wraps in 16 bits, are excluded.
- Sessions.Session.SendPacket: the same payloads are excluded.
- Underlay pools, placeholders, weak and unknown imports, unused-import tracking, source information, the mutex and `InternalDontEnforceDependencies`: a pool has none of these.
- Message, enum, field, service and method descriptors are addresses; the names that its fields and methods refer to are given as a list in the order in which they are linked, each with the field or method it is written in and what it is for, from which follow the scope of the lookup, its mode and the acceptable types. Loading an extension from the database while linking, and the tables of fields, enum values and extensions by number, are not modelled.
- Builder.DescriptorPool.BuildFile: the checks of numbers, labels, extension ranges and default values are not modelled one by one; they are a given predicate of the contents of the pool before the build and the proto, part of the condition for success, and what they copy back is a given function. One of them looks up the default value of an enum field inside the enum found; what that lookup would load is not modelled.
- Builder.DescriptorPool.FindFileByName: when linking asks for a symbol of a file that is not loaded, the files that this loads are not told by `TryFile`, only that the load is decided by the pool with its imports loaded. Such a file may be tried while a file it imports is pending, and then counts as bad for the rest of the call, so that a later import of it fails.
- Option interpretation, aggregate options, dynamic messages and reflection.
- The pending list and the lists of known bad names are kept in the pool object instead of its tables; addresses are never reused.
- Builder.DescriptorBuilder.LookupSymbolNoPlaceholder: in a build that has failed before cross-linking, and so may lack packages, only that the result may be used and stands under a candidate name; likewise for the other lookups and for linking.
- Builder.DescriptorPool.FindByName: the filters by symbol type of the individual Find functions are not modelled.
- Files and extensions of the symbol index, and its iteration over extension numbers: plain map insertions.
- Floating point, wide characters, format string parsing, text and character output, and system error text.
- IntWriter.BasicWriter.PrepareIntBuffer: the returned place is an offset, so that an address kept across a reallocation of the buffer is not modelled.
- ArgLists.TypeAtIs: the bit operations on the type word are written as arithmetic modulo 2^64.
- Machine integers are unbounded where the code cannot leave their range: widths and precisions stay below 2^31, buffer positions below 65536.
