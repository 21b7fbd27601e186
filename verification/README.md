# ktsense: verified model

A Dafny model of the parts of ktsense that carry state, loops or arithmetic no finite set of examples settles, with
proofs of what they promise:

* **Graphs.** The interned simple graph, the strongly connected components by an explicit work stack, the cycles, the
  page rank, and the import graph on top (`Walks`, `Graphs`, `TarjanInvariant`, `Scc`, `PageRank`, `Imports`).
* **The start claim.** Any number of `daemon start` processes racing for one claim file, with a crash possible at every
  step, as a transition system (`StartClaim`).
* **The Java scanner.** The lexer, the tokenizer, the two brace walks and their agreement, the occurrence scan and its
  positions (`JavaTokens`, `JavaLexer`, `JavaHeaders`, `JavaEnclosing`, `JavaDeclarations`, `JavaAgreement`, `WordMatches`).
* **Budgeted packing.** The greedy emitter and its two clients, the repository map and the context bundle (`Budget`,
  `FileRanking`, `Omissions`, `MapUnits`, `MapConservation`, `RepoMap`, `Callers`, `MatchedLines`, `Sections`, `Context`).
* **Name closures.** The subtype search by simple name and the disambiguation hint (`Implementors`, `Pick`).
* **Spans and the cache.** Spans recovered from start lines, grouped references, and the fingerprint-guarded cache
  (`Spans`, `References`, `Cache`).

`Ordering` holds the orders and the stable sort of the standard library, `Options`, `Text` and `Skeleton` the shared values.

Loops are methods with invariants; what they compute is a function or a relation the main results are about. `Tarjan` and
`SkeletonCache` are classes, as they are in the program. Natural-number subtraction stands for the program's unchecked
`usize` subtraction: that a method verifies means that it never goes below zero.

## Where the code and its documentation part

The model follows the code. Each point is stated, with its exact condition or an input, by the members
named.

* `innermost_path` takes the last interval among those that open latest. Intervals are listed as they close, so of scopes
  that open on one line it takes the outer one, where the module documentation promises the innermost, and the method for a
  one-line method (`JavaEnclosing.ChosenIsInnermostExactly`, `JavaEnclosing.SharedLineIsAttributedToTheOuterScope`).
* A word of a condition that follows a class literal is taken for the name of a type, so a control block may open a type,
  where the module documentation makes it anonymous (`JavaEnclosing.ControlBlockIsAnonymousExactly`,
  `JavaAgreement.ClassLiteralOpensType`).
* An annotation with a qualified name is not skipped whole, as the documentation says: dots are no tokens, so only the first
  segment is, and its list is read like any other (`JavaTokens.UsePassedOverExactly`, `JavaAgreement.QualifiedUseIsListed`).
* `java_declarations` takes no note of the lists a brace stands in, so a block in the list of a call is listed as a member,
  where the documentation makes array initializers and anonymous classes anonymous (`JavaAgreement.BlocksAgreeExactly`,
  `JavaAgreement.BlockInCallIsListed`, `JavaAgreement.CallWithArrayIsListed`).
* `resolve_supertype_implementors` tells listed types apart by path and line only, so of two subtypes declared on one line
  one is lost (`Implementors.ExactOnlyWhenApart`, `Implementors.OneLinePairIsNeverExact`).
* A start that dies, or gives up waiting, between the spawn and the daemon's first answer lets the next start spawn a
  second daemon; short of an answering daemon that stops, nothing else does (`StartClaim.SecondSpawnExactlyAfterLoss`,
  `StartClaim.CrashWhileAwaitingSpawnsAnother`, `StartClaim.GivingUpSpawnsAnother`). One that gives up just after that answer
  reports a failure although its daemon runs (`StartClaim.GivingUpLateOnlyMisreports`).
* `regroup` strips every leading heading mark of a path, so a path that starts with one is shown under another name and
  counted as omitted too (`MapConservation.OmittedAreTheRest`, `MapConservation.HeadingPathIsCountedTwice`).
* `importer_counts` counts import statements, not files: a file that imports a name twice counts twice
  (`FileRanking.ImportersAreFilesExactly`, `FileRanking.ImportedTwiceCountsTwice`).
* The occurrence scan goes on one byte after each find, which is inside the first character when that takes several bytes;
  slicing there aborts (`WordMatches.WordBoundedMatches`, `WordMatches.NonAsciiNameAborts`).
* `classify_java_sites` keeps one site for each offset: of sites given twice, all but the last are taken for code
  (`WordMatches.KindsAreExactly`, `WordMatches.FirstOfTwoIsTakenForCode`).
* The cache is keyed by file alone, while a parse depends on the root as well, so its promise needs one root
  (`Cache.FreshExactlyWhenFaithful`, `Cache.InjectiveIsFaithful`).

## Model

| member | source | states |
|---|---|---|
| Graphs.FromEdges | crates/ktsense-core/src/rank.rs:37-61 | the built graph has exactly the given edges whatever their order or multiplicity, and numbers its nodes by first appearance; its lists are ascending and free of repetition |
| Graphs.Intern | crates/ktsense-core/src/rank.rs:103-115 | a node keeps its number once it has one and gets the next free one otherwise; the table numbers exactly the nodes seen |
| Graphs.EdgesAreTheEdgeSet | crates/ktsense-core/src/rank.rs:77-89 | listing the edges yields exactly the edge relation |
| Graphs.ContainsEdgeIsExact | crates/ktsense-core/src/rank.rs:91-101 | an edge is reported between two nodes if and only if it was given |
| Graphs.GraphDetermined | crates/ktsense-core/src/rank.rs:37-61 | two graphs built from the same list of edges are equal |
| Scc.Tarjan.constructor | crates/ktsense-core/src/scc.rs:47-75 | a fresh traversal has discovered nothing and holds the whole invariant of the algorithm |
| Scc.Tarjan.Enter | crates/ktsense-core/src/scc.rs:115-121 | discovering a node gives it the next index and puts it on top of the component stack, every other field unchanged |
| Scc.Tarjan.Lower | crates/ktsense-core/src/scc.rs:90-113 | a lowlink becomes the smaller of itself and the bound, every other field unchanged |
| Scc.Tarjan.PopDownTo | crates/ktsense-core/src/scc.rs:123-132 | the nodes popped are exactly the part of the component stack from the root upwards; the pop never meets an empty stack |
| Scc.Tarjan.CloseComponent | crates/ktsense-core/src/scc.rs:123-134 | what is closed is exactly the part of the stack from the root upwards, off the stack afterwards |
| Scc.Tarjan.LookAtChild | crates/ktsense-core/src/scc.rs:90-113 | looking at the next child of the top frame keeps the invariant and makes the termination measure smaller, entering the child only if it is new |
| Scc.Tarjan.Leave | crates/ktsense-core/src/scc.rs:90-113 | ending a frame closes its component or folds its lowlink into its parent; folding the lowlink of a closed child in is harmless |
| Scc.Tarjan.Walk | crates/ktsense-core/src/scc.rs:90-113 | the explicit-stack loop ends with nothing under way: every discovered node is closed and no edge leaves them, the start and all that was discovered before among them |
| Scc.Tarjan.Run | crates/ktsense-core/src/scc.rs:77-88 | after all walks every node is in exactly one closed group, and the groups, each sorted, come out in order |
| TarjanInvariant.EnterKeeps | crates/ktsense-core/src/scc.rs:90-121 | the invariant of the traversal survives opening a frame for an undiscovered child |
| TarjanInvariant.AdvanceKeeps | crates/ktsense-core/src/scc.rs:90-113 | it survives a child seen before: one on the stack bounds the lowlink, a closed one changes nothing |
| TarjanInvariant.LeaveKeeps | crates/ktsense-core/src/scc.rs:90-113 | it survives a finished node that reaches below itself and joins the segment of its parent |
| TarjanInvariant.CloseKeeps | crates/ktsense-core/src/scc.rs:90-134 | it survives closing a component: the popped segment is a maximal set of mutually reachable nodes that no edge leaves except to closed ones |
| Scc.StronglyConnectedComponents | crates/ktsense-core/src/scc.rs:17-19 | for every graph the answer lists the strongly connected components: maximal, disjoint, covering, each sorted and sorted among each other |
| Scc.ComponentsPartition | crates/ktsense-core/src/scc.rs:17-19 | any answer puts each node in exactly one component, and two nodes together if and only if each reaches the other |
| Scc.ComponentsDetermined | crates/ktsense-core/src/scc.rs:77-88 | the nodes and the edge relation alone determine the answer, order included |
| Scc.Cycles | crates/ktsense-core/src/scc.rs:23-31 | a node is in a reported cycle if and only if a nonempty walk leads back to it |
| Scc.ComponentCarriesCycle | crates/ktsense-core/src/scc.rs:23-31 | a component of two or more nodes carries a cycle through each member; a single node does exactly when it links to itself |
| Scc.CyclesDetermined | crates/ktsense-core/src/scc.rs:23-31 | the reported cycles depend on the nodes and the edge relation alone |
| PageRank.DanglingMass | crates/ktsense-core/src/rank.rs:157-167 | the scores of the nodes without out-edges are added up |
| PageRank.Iterate | crates/ktsense-core/src/rank.rs:157-177 | one round computes the defining equation for every node and the new scores add up to (1 - damping) plus damping times the old sum, so to 1 if those did: self-loops, dangling nodes and disconnected parts make no difference |
| PageRank.Rank | crates/ktsense-core/src/rank.rs:144-192 | the result is a permutation of the nodes with the scores after the given rounds, best first, ties by identity; the scores of a nonempty graph add up to exactly 1 |
| PageRank.BestFirst | crates/ktsense-core/src/rank.rs:178-192 | a node with a higher score comes first, and with equal scores the lesser node |
| PageRank.ScoresStayAboveTeleport | crates/ktsense-core/src/rank.rs:157-177 | for a damping between 0 and 1 no score ever drops below (1 - damping) / n |
| PageRank.ScoresDetermined | crates/ktsense-core/src/rank.rs:144-177 | the scores after a number of rounds are a function of the graph |
| PageRank.RankingDetermined | crates/ktsense-core/src/rank.rs:144-192 | the ranking, order included, is a function of the graph |
| Imports.BuildIndex | crates/ktsense-core/src/imports.rs:133-172 | the index answers exactly who declares a package, which names it has, and which files declare them; every list of paths is sorted and without repetition |
| Imports.SplitIsExact | crates/ktsense-core/src/imports.rs:175-179 | an import text is split into the package and the name around its last dot, in the one way there is, and not without a dot |
| Imports.ResolveIsExact | crates/ktsense-core/src/imports.rs:175-209 | an import resolves exactly when some file is in the package its text begins with, up to the last dot, and has the name behind it or that is the wildcard; its targets are exactly that package, or the files that do |
| Imports.BuildImportGraph | crates/ktsense-core/src/imports.rs:67-117 | the graph lists exactly the nodes, edges, external imports and cycles the set of files gives rise to |
| Imports.GraphShowsTheImports | crates/ktsense-core/src/imports.rs:67-117 | what an edge, a node and an external import of the graph mean in terms of the packages, paths and import texts of the files, in both directions, each listed once and in order |
| Imports.ImportGraphIgnoresOrder | crates/ktsense-core/src/imports.rs:67-117 | two lists with the same set of files have the same graph |
| Imports.CyclesHaveTwoMembers | crates/ktsense-core/src/imports.rs:83-117 | no node depends on itself, so every reported cycle has at least two members, each with an edge to another member |
| Ordering.StringOrderIsLexicographic | crates/ktsense-core/src/repo_map.rs:224-232 | strings, as the paths and packages, are ordered by their first different character, and a beginning of a string stands before it |
| Ordering.SortIsStable | crates/ktsense-core/src/repo_map.rs:520-541 | the sort keeps the order of elements that are tied |
| StartClaim.EveryRunIsSafe | crates/ktsense-cli/src/daemon.rs:146-246 | in every run of any number of starts, with crashes anywhere, every lock owner is at a step where it holds that lock, and every unreleased claim is on the file the path names |
| StartClaim.MutualExclusion | crates/ktsense-cli/src/daemon.rs:190-246 | at most one process holds a claim not yet released |
| StartClaim.AtMostOneHolder | crates/ktsense-cli/src/daemon.rs:190-246 | the same for every reachable state, with the claim path naming the inode the holder has locked |
| StartClaim.ReleaseRemovesOwnFile | crates/ktsense-cli/src/daemon.rs:190-194 | until its own unlink the path names the inode a holder has locked, so a release removes only its own file |
| StartClaim.OneDaemonHonestlyReported | crates/ktsense-cli/src/daemon.rs:92-114 | in every run in which no answering daemon is stopped and no spawner dies or gives up before its daemon answers: at most one daemon is spawned, whoever reports a running daemon is right, and a start that ended reports a start exactly when it spawned the daemon and did not give up waiting |
| StartClaim.EveryReportIsDeserved | crates/ktsense-cli/src/daemon.rs:92-176 | in every run, with any crashes and stops, a start that ended failed if and only if an open, a lock, a link count, a spawn or a wait of its own did; otherwise it reports a start exactly when it spawned and a running daemon exactly when it did not |
| StartClaim.RecheckFindsNoSpawner | crates/ktsense-cli/src/daemon.rs:146-176 | a claimant whose second look finds no daemon is the first that can spawn one |
| StartClaim.NobodyIsLockedOut | crates/ktsense-cli/src/daemon.rs:146-239 | whatever crashes left behind, a start running alone while no live process has the lock is granted the claim, or ends with the report of a live daemon with its claim released: that is where its own next steps lead, after eleven of them at most |
| StartClaim.CrashFreesTheClaim | crates/ktsense-cli/src/daemon.rs:215-239 | the death of a holder leaves its file unlocked, to be taken in place |
| StartClaim.NewcomerSpawns | crates/ktsense-cli/src/daemon.rs:92-114 | a newcomer that meets neither a daemon nor a locked claim spawns one |
| StartClaim.GrantedStartCompletes | crates/ktsense-cli/src/daemon.rs:105-113 | a granted start whose daemon comes up ends with the report that it started it, its claim removed |
| StartClaim.FailedDaemonIsReported | crates/ktsense-cli/src/daemon.rs:488-501 | one whose daemon fails gives up in the end and reports the failure |
| StartClaim.OneStepAtATime | crates/ktsense-cli/src/daemon.rs:92-246 | apart from failures, crashes and the replacement of a daemon, the state decides what a start does next |
| StartClaim.DaemonsAddUp | crates/ktsense-cli/src/daemon.rs:105-113 | over any run, the daemons spawned are those that came up, those that failed to, and those on their way |
| StartClaim.CrashWhileAwaitingSpawnsAnother | crates/ktsense-cli/src/daemon.rs:92-114 | whenever a holder dies while it awaits its daemon, the next start can spawn a second one |
| StartClaim.GivingUpSpawnsAnother | crates/ktsense-cli/src/daemon.rs:488-501 | the same when the holder runs out of patience before its daemon answers |
| StartClaim.AnotherSpawnExactly | crates/ktsense-cli/src/daemon.rs:92-176 | from a safe state another daemon can be spawned without losing one on the way if and only if a start is granted already, or no daemon answers and no spawner waits for one |
| StartClaim.AnotherSpawnExactlyAfterLoss | crates/ktsense-cli/src/daemon.rs:92-176 | where neither is so, an event makes another spawn possible if and only if the spawner dies or gives up before its daemon answers, or an answering daemon stops while no spawner waits |
| StartClaim.SecondSpawnExactlyAfterLoss | crates/ktsense-cli/src/daemon.rs:92-114 | the same after every run from the start that has spawned a daemon and lost nothing |
| StartClaim.GivingUpLateOnlyMisreports | crates/ktsense-cli/src/daemon.rs:488-501 | a spawner that gives up once its daemon answers reports a failure while the daemon runs, and no second one can be spawned |
| JavaTokens.AnnotationEndUnique | crates/ktsense-core/src/java_enclosing.rs:746-773 | where an annotation use ends is determined by the tokens alone |
| JavaTokens.SkipAnnotationUse | crates/ktsense-core/src/java_enclosing.rs:746-773 | skipping an annotation use arrives exactly there, brackets in its arguments balanced |
| JavaTokens.UsePassedOverExactly | crates/ktsense-core/src/java_enclosing.rs:746-773 | an annotation use is passed over whole if and only if its name has one segment; of a longer name only the first segment is |
| JavaHeaders.TypeNameExactly | crates/ktsense-core/src/java_enclosing.rs:201-228 | a header names a type if and only if some word of it, itself no class word, follows a class word or @interface with no word between |
| JavaHeaders.ControlBlockHasNoMemberName | crates/ktsense-core/src/java_enclosing.rs:10-16 | a header whose one list outside others stands behind a control keyword names no member |
| JavaHeaders.CallHasItsName | crates/ktsense-core/src/java_enclosing.rs:634-646 | a header whose one list outside others stands behind another word, with no class word, no arrow and no new before it, has that word as its member name |
| JavaLexer.Lex | crates/ktsense-core/src/java_text.rs:76-169 | one entry per character, with its byte offset and the state of the character-by-character automaton, although delimiters and escapes are taken in one stride |
| JavaLexer.LineCommentRuns | crates/ktsense-core/src/java_text.rs:76-169 | from // in code on, everything up to the line break is line comment, and code follows the break |
| JavaLexer.BlockCommentRuns | crates/ktsense-core/src/java_text.rs:76-169 | from /* in code on, everything up to the first end mark behind it is block comment, the mark too, and code follows |
| JavaLexer.TextBlockRuns | crates/ktsense-core/src/java_text.rs:76-169 | from three quotes in code on, everything up to the next three is text block, those too, and code follows |
| JavaLexer.LiteralRuns | crates/ktsense-core/src/java_text.rs:76-169 | from a quote in code on, everything up to the next quote of its kind that is not escaped is the literal, that too, and code follows |
| JavaLexer.CodeGoesOn | crates/ktsense-core/src/java_text.rs:76-169 | any other character of code is followed by code |
| JavaLexer.Tokenize | crates/ktsense-core/src/java_enclosing.rs:282-338 | the tokens are exactly those of the code characters, with the line and offset of their first character |
| JavaLexer.TokensAreExact | crates/ktsense-core/src/java_enclosing.rs:282-355 | each token stands at its line and offset, as the sign or the whole identifier there; none overlaps another, and every character outside them is no code, white space, or neither identifier nor sign |
| JavaLexer.TokensInOrder | crates/ktsense-core/src/java_enclosing.rs:282-338 | the lines of the tokens ascend |
| JavaLexer.TokensOfInOrder | crates/ktsense-core/src/java_enclosing.rs:282-338 | so do their byte offsets, strictly |
| JavaEnclosing.EnclosingIntervals | crates/ktsense-core/src/java_enclosing.rs:89-172 | the loop computes the walk of the transition function over all tokens and closes what is left open on the last line |
| JavaEnclosing.HeaderIsRead | crates/ktsense-core/src/java_enclosing.rs:183-239 | after every iteration the unit is what the tokens since the last boundary say: their last type name, the word before their last naming list, whether a new or an arrow is among them, and where they begin |
| JavaEnclosing.BraceOpensNamedScope | crates/ktsense-core/src/java_enclosing.rs:226-239 | the scope a brace opens is named by the type name of its header, or else, outside lists and without an arrow, by its member name, and has the path so far with that name |
| JavaEnclosing.ControlBlockIsAnonymousExactly | crates/ktsense-core/src/java_enclosing.rs:10-16 | a block with such a list behind a control keyword is anonymous if and only if no word of its header follows a class word |
| JavaEnclosing.ScopesAreLaminar | crates/ktsense-core/src/java_enclosing.rs:89-172 | over any tokens in line order there is one interval for each brace met; of any two, the braces of the earlier closed one stand between those of the other, and then its lines and path lie within the other, or they stand before both, and then it ends no later than the other opens |
| JavaEnclosing.ScopesStandAtBraces | crates/ktsense-core/src/java_enclosing.rs:89-172 | the positions by which scopes nest are those of the braces that opened and closed them, or past the last token for a scope left open |
| JavaEnclosing.BraceOpensListedScope | crates/ktsense-core/src/java_enclosing.rs:89-172 | every brace met has its scope among the intervals, opening on the line of the first word since the last boundary if its header names it and has one, and on the line of the brace otherwise, with the path of the names open behind it |
| JavaEnclosing.AfterKeeps | crates/ktsense-core/src/java_enclosing.rs:89-172 | after every iteration the stack of names is that of the named open scopes |
| JavaEnclosing.OpenPathsContinue | crates/ktsense-core/src/java_enclosing.rs:89-172 | the path of an open scope continues the path of every scope around it |
| JavaEnclosing.ScopesOf | crates/ktsense-core/src/java_enclosing.rs:89-172 | the same from the text of a file on |
| JavaEnclosing.ChosenIsLastGreatest | crates/ktsense-core/src/java_enclosing.rs:44-52 | the interval picked for a line contains it, opens latest of those that do, and is the last such |
| JavaEnclosing.ChosenIsInnermostExactly | crates/ktsense-core/src/java_enclosing.rs:44-52 | no other scope around the line lies between the braces of the one picked if and only if none that opens on the same line does, that is, if all of those ended before it began |
| JavaEnclosing.DistinctLinesGiveInnermost | crates/ktsense-core/src/java_enclosing.rs:44-52 | so no scope around the line lies in the one picked whenever the scopes around the line open on distinct lines |
| JavaEnclosing.SharedLineIsAttributedToTheOuterScope | crates/ktsense-core/src/java_enclosing.rs:20-52 | and one does for a method whose brace shares the line of its class: the line goes to the class, for a one-line method, too, which the module documentation gives to the method |
| JavaDeclarations.Declarations | crates/ktsense-core/src/java_enclosing.rs:459-558 | the loop lists exactly what the headers of the file declare, in order: at a brace the type named by the header, or else its member where no arrow is in between; at a semicolon in the body of a type a method, a field or nothing |
| JavaDeclarations.HeaderIsRead | crates/ktsense-core/src/java_enclosing.rs:588-655 | after every iteration all that is pending is determined by the tokens since the last boundary: each name with its line, the kind, the beginning, the open angle brackets and the number of header words |
| JavaDeclarations.ListsWhatHeadersDeclare | crates/ktsense-core/src/java_enclosing.rs:459-558 | after every iteration the list is what the headers read so far declare |
| JavaDeclarations.ListedExactly | crates/ktsense-core/src/java_enclosing.rs:459-558 | a declaration is listed if and only if some brace or semicolon declares it |
| JavaDeclarations.ListedType | crates/ktsense-core/src/java_enclosing.rs:663-667 | a type is listed, under the name its header gives it, exactly at the braces whose header names one |
| JavaDeclarations.ListedTypeKind | crates/ktsense-core/src/java_enclosing.rs:612-625 | its kind is that of the last class word of the header: class, interface, enum, record, or annotation for @interface |
| JavaDeclarations.ConstructorsExactly | crates/ktsense-core/src/java_enclosing.rs:663-722 | a constructor is listed exactly for the braces whose header names no type, has no arrow, and has a member name that is the innermost open type and at most one header word |
| JavaDeclarations.HeaderEnds | crates/ktsense-core/src/java_enclosing.rs:560-567 | the header of a listed declaration ends at the brace or semicolon that declares it |
| JavaDeclarations.HeadersFollowOneAnother | crates/ktsense-core/src/java_enclosing.rs:560-567 | over the tokens of any text the headers listed are not empty, in order, and apart |
| JavaAgreement.WalksAgree | crates/ktsense-core/src/java_enclosing.rs:89-277 | over any tokens and after every iteration the two walks stand at the same token, and the type stack of the one is the named stack of the other restricted to type scopes |
| JavaAgreement.SameTypesOpened | crates/ktsense-core/src/java_enclosing.rs:459-558 | every brace opens the same type, under the same name, or none, for both |
| JavaAgreement.OpenTypesAreOpenScopes | crates/ktsense-core/src/java_enclosing.rs:459-558 | after every iteration the types on the one stack are, in order, among the names on the other, and as many scopes are open for both |
| JavaAgreement.DeclaredTypesAreOnTheScopesPath | crates/ktsense-core/src/java_enclosing.rs:459-773 | the brace that opens a block for the one walk has a scope listed by the other, under a path of names that hold, in order, the types open there |
| JavaAgreement.TypesListedAreTypesOpened | crates/ktsense-core/src/java_enclosing.rs:89-558 | the types among the declarations listed are, name by name and in order, the types the braces of the enclosing walk open |
| JavaAgreement.ListedTypesHaveScopes | crates/ktsense-core/src/java_enclosing.rs:89-558 | each type listed, of tokens whose offsets ascend, has a scope, opened by the brace its header ends at, whose path ends in its name and has before it, in order, the types it is nested in |
| JavaAgreement.DeclaredBlockHasScope | crates/ktsense-core/src/java_enclosing.rs:89-558 | so has each method and constructor with a body that does not stand in a list |
| JavaAgreement.StatementStandsInItsType | crates/ktsense-core/src/java_enclosing.rs:543-552 | a declaration listed at a semicolon stands in a named scope: the innermost type it is nested in |
| JavaAgreement.BlockAgreesExactly | crates/ktsense-core/src/java_enclosing.rs:226-239 | a brace opens a scope under the name of what it declares, or none, if and only if it declares no member in a list |
| JavaAgreement.BlocksAgreeExactly | crates/ktsense-core/src/java_enclosing.rs:89-558 | the named scopes and the declared blocks have the same names in the same order if and only if no list holds such a block |
| JavaAgreement.BlockInCallIsListed | crates/ktsense-core/src/java_enclosing.rs:570-583 | a block in the list of a call is listed as a member under the name called, with an anonymous scope |
| JavaAgreement.CallWithArrayIsListed | crates/ktsense-core/src/java_enclosing.rs:570-583 | a call given an array initializer |
| JavaAgreement.QualifiedUseIsListed | crates/ktsense-core/src/java_enclosing.rs:724-773 | an annotation with a qualified name and a block in its list |
| JavaAgreement.ClassLiteralOpensType | crates/ktsense-core/src/java_enclosing.rs:10-16 | a condition with a class literal before a word: both walks open a type |
| WordMatches.WordBoundedMatches | crates/ktsense-cli/src/text_refs.rs:310-331 | the sites are the positions of exactly the whole-word occurrences, in order; the scan aborts if and only if the symbol occurs and starts with a character of several bytes |
| WordMatches.NonAsciiNameAborts | crates/ktsense-cli/src/text_refs.rs:310-331 | a text and a symbol on which it aborts |
| WordMatches.ByteOffsetOf | crates/ktsense-core/src/java_text.rs:175-189 | the offset is that of the one character standing at the line and UTF-16 column, and is absent if and only if none does |
| WordMatches.LineStartOffset | crates/ktsense-core/src/java_text.rs:193-207 | the offset of the first character of the line, absent when there are fewer lines |
| WordMatches.LocatesInverts | crates/ktsense-core/src/java_text.rs:175-189 | looking up the position of any character but a line break finds that character |
| WordMatches.PositionsDiffer | crates/ktsense-core/src/java_text.rs:175-189 | no two characters share a position |
| WordMatches.ClassifySites | crates/ktsense-core/src/java_text.rs:25-41 | a site is of the kind of the lexical state of its character; one that stands nowhere or is repeated later is taken for code |
| WordMatches.KindsAreExactly | crates/ktsense-core/src/java_text.rs:25-41 | every site that stands at a character gets the kind of that character if and only if those given again later stand in code |
| WordMatches.FirstOfTwoIsTakenForCode | crates/ktsense-core/src/java_text.rs:25-41 | two equal sites in a string: the first is taken for code |
| WordMatches.FoundSitesAreClassified | crates/ktsense-cli/src/text_refs.rs:310-331 | the two scans fit: each site found is classified by the very character its occurrence starts with |
| Implementors.BuildChildren | crates/ktsense-core/src/implementors.rs:68-78 | every name with exactly the nodes that name it as a supertype |
| Implementors.HitIffSubtype | crates/ktsense-core/src/implementors.rs:83-109 | the levels of names the search goes through are exactly the chains of supertype names of that length |
| Implementors.ResolveSupertypeImplementors | crates/ktsense-core/src/implementors.rs:68-109 | for every hierarchy, cyclic ones included, the search ends and lists no location twice; when the subtypes are on different lines it lists exactly those on a chain of length 1 to 8, each once, nearest first, through a parent one step nearer, named except at length 1 |
| Implementors.ExactOnlyWhenApart | crates/ktsense-core/src/implementors.rs:83-109 | the converse: an exact list without a repeated location exists only when the subtypes are on different lines |
| Implementors.OneLinePairIsNeverExact | crates/ktsense-core/src/implementors.rs:83-109 | two subtypes declared on one line: one of them is missing |
| Budget.EmitWithinBudget | crates/ktsense-core/src/budget.rs:40-67 | the longest prefix within the budget, and the sum of its estimates |
| Budget.NothingLongerFits | crates/ktsense-core/src/budget.rs:40-67 | every longer prefix exceeds the budget |
| Budget.LargerBudgetExtends | crates/ktsense-core/src/budget.rs:40-67 | the emission is determined by the budget, and a larger one only extends it |
| Budget.BoundCoversConcatenation | crates/ktsense-core/src/lib.rs:96-110 | for the byte ratio estimator the bound is never below the estimate of the concatenated text |
| Budget.RatioIsLeast | crates/ktsense-core/src/lib.rs:96-110 | the estimate is the least number of tokens that 3.6 bytes each are enough for |
| FileRanking.ImporterCounts | crates/ktsense-core/src/repo_map.rs:498-509 | each name with the number of imports of it, wildcards left out |
| FileRanking.ImportersAreFilesExactly | crates/ktsense-core/src/repo_map.rs:496-509 | a count is never below the number of files that import the name, and is that number if and only if no file imports the name twice |
| FileRanking.ImportedTwiceCountsTwice | crates/ktsense-core/src/repo_map.rs:496-509 | one file that imports a name twice: counted as two |
| FileRanking.ImportersIgnoreOrder | crates/ktsense-core/src/repo_map.rs:498-509 | the counts do not depend on the order of the files |
| FileRanking.PackageScores | crates/ktsense-core/src/repo_map.rs:483-494 | the scores are the page rank of the package import graph of the set of files |
| FileRanking.ScoreOfIsExact | crates/ktsense-core/src/repo_map.rs:511-516 | a file has the score of the row its package has in the ranking, and zero without a package or a row |
| FileRanking.OrderIsCentrality | crates/ktsense-core/src/repo_map.rs:224-232 | a file stands before another when its package is ranked higher, or as high and its declarations are referenced more by name, or as often and imported more by qualified name, or as often and its path comes first |
| FileRanking.QualifiedNameLeadsToIt | crates/ktsense-core/src/repo_map.rs:475-480 | the qualified name a declaration is counted under is an import text that resolves to it |
| FileRanking.ScoresDependOnTheFiles | crates/ktsense-core/src/repo_map.rs:483-494 | they depend on nothing but that set |
| FileRanking.StandsBeforeIsOrder | crates/ktsense-core/src/repo_map.rs:224-232 | score, then weight, then path is a total order |
| FileRanking.FileLeTellsApart | crates/ktsense-core/src/repo_map.rs:224-232 | files with different paths are never tied |
| FileRanking.HeaviestFirst | crates/ktsense-core/src/repo_map.rs:520-541 | the signatures of a file come most used first, ties by line |
| FileRanking.MostUsedFirst | crates/ktsense-core/src/repo_map.rs:520-541 | that is: most references to the name first, then most imports of the qualified name, then the line |
| FileRanking.SignaturesRead | crates/ktsense-core/src/repo_map.rs:520-541 | each listed declaration, in that order, reads as its own header without members, or in a focus and a compact map as its kind and name, and is left out if it has no header |
| FileRanking.SomethingListed | crates/ktsense-core/src/repo_map.rs:657-690 | whether a file has something to list depends on the visible matching declarations alone, compact or not |
| Omissions.GroupOmitted | crates/ktsense-core/src/repo_map.rs:373-389 | exactly the directories of the paths, each with its number of files, busiest first, ties by path |
| Omissions.ParentIsExact | crates/ktsense-core/src/repo_map.rs:391-397 | the directory of a path is the one the path names something directly in, or a dot for a path without a slash |
| Omissions.BusiestFirst | crates/ktsense-core/src/repo_map.rs:373-389 | a directory with more omitted files comes first, and with as many the one whose path does |
| Omissions.GroupsAddUp | crates/ktsense-core/src/repo_map.rs:373-389 | the counts of the directories add up to the number of paths |
| Omissions.FitDirectories | crates/ktsense-core/src/repo_map.rs:345-357 | the most directories whose line fits the room, even where a shorter line would not |
| Omissions.LineIsExact | crates/ktsense-core/src/repo_map.rs:398-416 | there is a line exactly when a directory is named, and it counts the others exactly when there are any |
| Omissions.NamedOneMore | crates/ktsense-core/src/repo_map.rs:398-416 | the line names each directory with its number of files, set off by commas |
| Omissions.DecimalReadsBack | crates/ktsense-core/src/repo_map.rs:398-416 | a number in the line reads back and has no leading zero |
| MapUnits.CollectUnits | crates/ktsense-core/src/repo_map.rs:237-252 | one heading and all signatures for each file with something to list, in order, and the count of the others |
| MapUnits.Regroup | crates/ktsense-core/src/repo_map.rs:735-749 | the loop computes the grouping that drops a heading without signatures |
| MapUnits.RegroupedPrefix | crates/ktsense-core/src/repo_map.rs:735-749 | any prefix of the units reads back as the whole files it holds and what there is of the next |
| MapUnits.PrefixShowsPrefix | crates/ktsense-core/src/repo_map.rs:735-749 | so the files shown are the first candidates, all but the last with every signature, none without any |
| MapUnits.TrimmedIsNoHeading | crates/ktsense-core/src/repo_map.rs:735-742 | a path is read back as it was if and only if it does not start like a heading |
| MapConservation.OmittedAreTheRest | crates/ktsense-core/src/repo_map.rs:361-369 | the omitted paths are exactly the candidates after the shown ones if and only if no shown path starts like a heading and none left out equals a shown one |
| MapConservation.OmittedAreAlwaysTheRest | crates/ktsense-core/src/repo_map.rs:361-369 | that holds however many files are shown if and only if no candidate path starts like a heading and all differ |
| MapConservation.ShownPlusOmitted | crates/ktsense-core/src/repo_map.rs:361-369 | with distinct paths that do not start like a heading, shown and omitted files are all the candidates |
| MapConservation.HeadingPathIsCountedTwice | crates/ktsense-core/src/repo_map.rs:735-742 | a file whose path starts like a heading is shown and counted as omitted |
| RepoMap.SummaryReserve | crates/ktsense-core/src/repo_map.rs:331-340 | the cost of naming all dropped directories, at most a quarter of the budget, nothing when none were dropped |
| RepoMap.BuildFocusSection | crates/ktsense-core/src/repo_map.rs:558-600 | the focus emits its matches with the first claim on the budget, and its count of omitted matches never goes below zero |
| RepoMap.BuildRankedPart | crates/ktsense-core/src/repo_map.rs:261-282 | the ranked part is emitted at the full budget, again with the reserve held back if files were dropped, and its summary fits the room left; no subtraction goes below zero |
| RepoMap.BuildRepoMap | crates/ktsense-core/src/repo_map.rs:208-300 | the map is the one the budget, the ranking and the request determine, and its bound never exceeds the budget |
| RepoMap.MapAnswersRequest | crates/ktsense-core/src/repo_map.rs:208-300 | the map has a focus, a fill mark and a count of other files exactly as the request asks, and names the path filter with the files before and after it |
| RepoMap.RestrictionIsExact | crates/ktsense-core/src/repo_map.rs:302-316 | the path filter keeps exactly the files whose path has one of its parts somewhere |
| RepoMap.BudgetIsKept | crates/ktsense-core/src/repo_map.rs:234-299 | focus, files and summary together stay within the budget |
| RepoMap.MapBoundIsSafe | crates/ktsense-core/src/repo_map.rs:234-299 | for plain paths the bound is at least the estimates of all lines printed, headings, signatures and the summary line, and for the byte ratio estimator at least that of the whole text |
| RepoMap.RepoMapConserves | crates/ktsense-core/src/repo_map.rs:208-300 | the files shown are the first of the kept files that have something to list, in order of centrality: by the rank of the package in the page rank of their imports, then by references, importers and path; with plain paths, shown, omitted and undeclaring files are all the kept files; directory counts add up to the omitted files |
| RepoMap.EverythingFits | crates/ktsense-core/src/repo_map.rs:265-279 | with plain paths, a map that is not focus-only and whose units all fit what the focus leaves of the budget holds nothing back and shows everything |
| RepoMap.FocusConserves | crates/ktsense-core/src/repo_map.rs:558-600 | every match of the focus is shown or counted as omitted, the shown ones first in rank order |
| RepoMap.OthersAreUnmatched | crates/ktsense-core/src/repo_map.rs:606-625 | a focus-only map counts exactly the files with something to list of which nothing matches |
| RepoMap.RepoMapIgnoresOrder | crates/ktsense-core/src/repo_map.rs:208-300 | files with distinct paths give the same map in whatever order they are found |
| Pick.SelectsExactly | crates/ktsense-core/src/pick.rs:37-53 | a candidate is selected if and only if it is the first of exactly that name, or no candidate has that name and the suffix fits it alone |
| Pick.ListsExactly | crates/ktsense-core/src/pick.rs:37-53 | the ambiguous answer lists exactly the candidates the suffix fits, and a miss means it fits none |
| Pick.DotSuffixIsSegments | crates/ktsense-core/src/pick.rs:75-85 | every dot-boundary suffix is a run of whole trailing segments |
| Pick.SegmentSuffix | crates/ktsense-core/src/pick.rs:57-72 | and every such run is a dot-boundary suffix |
| Pick.NoShorterSuffixIsUnique | crates/ktsense-core/src/pick.rs:57-72 | no dot-boundary suffix of the target shorter than the hint is unique among the candidates |
| Pick.HintPicksItsTarget | crates/ktsense-core/src/pick.rs:57-72 | for every candidate, duplicates and suffixes of one another included, resolving its hint selects a candidate of that name |
| Spans.SpansFromItsStart | crates/ktsense-core/src/references.rs:366-376 | a sibling spans a line exactly when it is the last to start on or before it, within the end of its parent |
| Spans.SiblingSpansDisjoint | crates/ktsense-core/src/references.rs:366-376 | no line belongs to two siblings |
| Spans.SiblingSpansCover | crates/ktsense-core/src/references.rs:366-376 | every line from the first sibling to the end of the parent belongs to one |
| Spans.EnclosedFromTheFirstOn | crates/ktsense-core/src/references.rs:348-362 | a line has an enclosing declaration if and only if it is not above the first declaration |
| Spans.InnermostIsLastStarted | crates/ktsense-core/src/references.rs:348-362 | the innermost declaration enclosing a line is the last one written to start on or before it, however they nest |
| Spans.SpanAtInnermost | crates/ktsense-core/src/references.rs:328-345 | the span found on a line is that of the innermost declaration starting there |
| Spans.SpanAndDeclarationAgree | crates/ktsense-core/src/references.rs:305-326 | both look-ups succeed on the same lines, and the span is that of the declaration found |
| References.GroupReferences | crates/ktsense-core/src/references.rs:196-226 | one group for each path with sites, in path order, each with the capped references of that path |
| References.KeptAreTheSites | crates/ktsense-core/src/references.rs:228-253 | the references of a group are those of the sites in the file, each with its line, column and enclosing declaration, without those above all top-level declarations unless asked for |
| References.ListedInOrder | crates/ktsense-core/src/references.rs:228-253 | the listed references ascend by line, on a line by column, and without a column first |
| References.QualifiedNameSplits | crates/ktsense-core/src/references.rs:154-167 | the qualified name of an enclosing declaration splits into the names of its chain that are any |
| References.CapCuts | crates/ktsense-core/src/references.rs:228-253 | a group lists the first of its references by line and column, and its omitted count is that of the others |
| References.GroupingConserves | crates/ktsense-core/src/references.rs:196-253 | every site is listed, counted as omitted, or a header site |
| References.ListedAreAttributed | crates/ktsense-core/src/references.rs:228-253 | with header sites dropped, every listed reference of a file with declarations has an enclosing declaration |
| References.HeaderIsUnenclosed | crates/ktsense-core/src/references.rs:256-266 | the header sites are exactly those no declaration encloses |
| References.AttributedToTheLastStarted | crates/ktsense-core/src/references.rs:268-274 | a site is attributed to the last declaration written to start on or before its line |
| Callers.CapCallers | crates/ktsense-core/src/context.rs:373-399 | a caller is kept exactly when fewer of its kind than the cap come before it, in the order given |
| Callers.CapsConserve | crates/ktsense-core/src/context.rs:373-399 | every caller is kept or counted; some of a kind are left out only when its cap is used up |
| MatchedLines.KeptIndices | crates/ktsense-core/src/context.rs:554-566 | exactly the lines within reach of a match, once each, ascending |
| MatchedLines.MatchedBody | crates/ktsense-core/src/context.rs:513-550 | the candidates are those of exactly these lines |
| MatchedLines.MatchedBodyIsExact | crates/ktsense-core/src/context.rs:513-566 | every shown line has its own text and number, and a gap before it exactly when it is not the first of the body and the line before it is not kept |
| MatchedLines.MatchedBodyPrints | crates/ktsense-core/src/render.rs:988-997 | whatever prefix the budget leaves, the printed text is the measured texts joined |
| Context.BuildContext | crates/ktsense-core/src/context.rs:311-350 | the bundle is made of the longest affordable prefix of what is offered in priority order |
| Context.CountAvailable | crates/ktsense-core/src/context.rs:681-706 | the counts are those of the units of each kind |
| Context.Regroup | crates/ktsense-core/src/context.rs:721-746 | each section gets the units of its kind, in order |
| Context.OfferedInPriorityOrder | crates/ktsense-core/src/context.rs:593-644 | declaration, body, outline, callers, annotated, Java and Kotlin mentions, implementors: in this order |
| Context.OfferedBySection | crates/ktsense-core/src/context.rs:593-644 | what each section has to offer, and that a section switched off offers nothing |
| Context.SectionsOffer | crates/ktsense-core/src/context.rs:593-672 | each section offers all it has when it is on and nothing when it is off: the signature, the lines, a block for each top-level declaration that renders as anything, the callers and mentions, the implementors |
| Context.OfferedTexts | crates/ktsense-core/src/context.rs:593-644 | every unit is measured by the text it is printed as |
| Context.SectionsConserve | crates/ktsense-core/src/context.rs:311-350 | every section lists the first of what it offered in the original order and counts exactly the rest |
| Context.PriorityIsKept | crates/ktsense-core/src/context.rs:311-350 | a section that lists anything implies that no section before it lost anything |
| Context.CallersConserve | crates/ktsense-core/src/context.rs:311-399 | with the callers section on, listed, dropped and capped callers are all the callers; the caps are ten and three, and none when nothing but the callers is asked for |
| Context.BoundIsSafe | crates/ktsense-core/src/context.rs:311-350 | the bound is within the budget and, for the byte ratio estimator, at least the estimate of the concatenated units |
| Context.WholeBodyIsAPrefix | crates/ktsense-core/src/context.rs:411-509 | the body begins on the definition line and shows the first lines as they read, neutralized; from its first to its last line are exactly the lines of the source in the span of the innermost declaration that starts there, and shown and omitted lines are all of them |
| Context.BodyRangeIsExact | crates/ktsense-core/src/context.rs:470-482 | a line is in the body range if and only if it is a line of the source that the span of the innermost declaration starting on the definition line holds |
| Context.BodyIsThereExactly | crates/ktsense-core/src/context.rs:470-495 | there is a body if and only if it is asked for and the declaration has lines, and it is a matched one exactly when a match is asked for |
| Context.MatchedBodyIsAPrefix | crates/ktsense-core/src/context.rs:411-448 | a matched body is made of exactly these lines too; cut by the budget it keeps the marks of the whole and prints as it was measured |
| Cache.Fingerprint | crates/ktsense-cli/src/cache.rs:144-153 | the loop computes 64-bit FNV-1a with wrap-around |
| Cache.PublishedValues | crates/ktsense-cli/src/cache.rs:144-153 | the published values of FNV-1a for no byte and for two short texts |
| Cache.XorIsBitwise | crates/ktsense-cli/src/cache.rs:144-153 | the exclusive or is that of each bit |
| Cache.SkeletonCache.Hit | crates/ktsense-cli/src/cache.rs:108-114 | an entry answers only for its own file and fingerprint |
| Cache.SkeletonCache.Store | crates/ktsense-cli/src/cache.rs:116-125 | the entry of the file is replaced, all others stay |
| Cache.SkeletonCache.Resolve | crates/ktsense-cli/src/cache.rs:89-106 | the answer is that of a fresh parse, parsing only on a miss; a failure is not remembered, a success is |
| Cache.EveryAnswerIsFresh | crates/ktsense-cli/src/cache.rs:89-125 | over any interleaving of edits and looking, parsing and storing by any number of requests, every answer is that of a fresh parse |
| Cache.FreshExactlyWhenFaithful | crates/ktsense-cli/src/cache.rs:89-125 | that holds in every run over some requests if and only if those that share file and fingerprint parse alike |
| Cache.InjectiveIsFaithful | crates/ktsense-cli/src/cache.rs:89-125 | one root and fingerprints that tell the contents of each file apart are enough |
| Cache.FailuresAreNeverStored | crates/ktsense-cli/src/cache.rs:102-105 | every entry is the successful parse of a content its file was requested with |
| Cache.StaleAnswer | crates/ktsense-cli/src/cache.rs:89-125 | two requests that share file and fingerprint but parse differently: a run that answers the second with the first |

## Left out

- The engine, the language server protocol, sockets, the asynchronous runtime, command lines, JSON shapes, routing, trace
  sessions and daemon status: input and output, or libraries.
- The parser, `neutralize`, the outline renderer and the single-line renderers of callers and mentions: functions the
  caller lends.
- Most of `render.rs`: string layout. Only the text of a matched body is modelled, because the budget measures it.
- `is_test_source`, the site and kind filters, exit codes and pluralization: single branches.
- The kernel in the claim model: an exclusive lock belongs to one open file and ends with its close or the death of its
  process, an unlink drops the name, and creating and opening is atomic. A removed file that nobody has open any more is
  forgotten, so that the reuse of its number is not modelled.
- Polling deadlines in the claim model: a start may give up, or look once more, at any time.
- Conformance of the lexer to the Java Language Specification: the automaton is modelled as written.
- Java header texts: a declaration has the byte range of its header; cutting it out, folding its white space, its supertypes
  and the package line are not modelled.
- `Unit` and `Pending` of the two Java walks are values passed along instead of objects updated in place; nothing else refers to
  them in the program. Vectors and maps that are local to a loop are sequence and map variables.
- Positions of braces in the scopes of the enclosing walk: carried for the statements about nesting, and not part of what
  the program keeps; nothing that is computed depends on them.
- Machine width: counts, offsets and indices are unbounded, where the program's are `usize` or `u32`. Line counts above the
  range of `u32`, and sums of estimates or weights above that of `usize`, are not modelled.
- Imports.BuildImportGraph: requires fewer files than the number that marks an unvisited node, the greatest `usize`; the same bound
  on the nodes of a graph stands before the traversal.
- PageRank.Rank: real arithmetic instead of floating point, so exact sums and ties are those of the reals.
- Budget.BoundCoversConcatenation: the ratio of 3.6 bytes to a token is exact, as 5 to 18.
- JavaEnclosing.ScopesOf: which characters are letters, digits or white space is a parameter; letters are taken to be
  alphanumeric, and a line break not to be.
- Spans.SpanAndDeclarationAgree: for siblings in ascending line order, with lines from one, which the extractor
  guarantees and the program asserts in debug builds.
- Cache.EveryAnswerIsFresh: that FNV-1a tells the contents of a file apart is a hypothesis, and reading a file is one step.
- Context.BuildContext: the index completeness, the applied filter and the symbol's name, which are passed through, are not
  carried.
- References.GroupReferences: the syntactic kind of a site and the qualified name with the package in front are not modelled.
