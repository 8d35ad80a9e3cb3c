# project-mind-mcp core algorithms: models and proofs

The project proves properties of the algorithms at the core of the indexer.

**The Aho-Corasick matcher** (`internal/pmm/ac.c`). Modules `Words`, `Bitmask`, `Trie`, `Failure`,
`AhoCorasick`, `Matching`, `ByteSearch`, `Automata`, `BatchScan`, `Lz4Scan`. `Words` holds the automaton theory on
words: longest suffix of a text that is a prefix of a pattern, failure links, what a node reports.
`Trie` and `Failure` relate the flat table to it, in particular during the breadth-first pass that
overwrites the table while it is still being read. `AhoCorasick` fills the real arrays in place,
against these. The result: a scan reports exactly the patterns that stand in the text, byte by byte
modulo the map that was given; the two batch scanners write exactly the matches of the single scan, cut off at their
capacity.

**Arena, node stack and tree walks.** `Arenas` (modulo 2^64 arithmetic, disjointness over any run),
`NodeStacks` (growth, in-place reversal), `EnvWalk` (iterative walk equals pruned recursion),
`Sequences`, `Trees`, `Flattening`, `TreeWalks`, `WalkDefs`, `WalkPaths`, `DefinitionWalk`, `WalkExamples` (the
definition walk with its ceiling and mutable scope field against a lexical recursion).

**Smaller loops with properties of whole runs.** `IdentTokens`, `IdentLoss`, `IdentExact`, `IdentRuns`
and `BodyTokens` (deduplication by linear probing), `Reexports`, `StubTables` and `StubWorklist` (star
re-exports in rounds), `RunWave` (bounded parallel scheduler), `DocChunks`, `Markdown` and
`MarkdownSections` (document chunking), `Leases` (a linked list
of project leases).

Some promises do not hold without a condition. They are stated with the condition under which they
do, exact unless said otherwise, beside an input for which they do not:

- An empty pattern is found by naive search in every text, but by the scan only past a letter that
  begins no pattern (`Matching.ScanIsSearchIff`, `Matching.EmptyPatternMissed`); the batch scan asks
  in addition that the letter be met below the root (`BatchScan.BatchIsScanIff`,
  `BatchScan.EmptyPatternSkipped`).
- A request near the top of `size_t` is granted without room for it (`Arenas.FitsIffNoWrap`,
  `Arenas.WrappedRequestGranted`).
- Pruning below a hit loses the hits nested in it (`EnvWalk.PruningIsExactIff`,
  `EnvWalk.NestedHitIsLost`).
- The comment on `resolve_reexports` speaks of a fixed point; eight rounds reach it exactly when every
  reachable name has a path of cost at most eight in the imports (`Reexports.SettlesIff`,
  `Reexports.ChainNeedsAllRounds`).
- Markdown lines longer than 8190 characters can be lost even though bodies may be 128 KiB
  (`Markdown.ConservedIff`, `Markdown.FirstLineKeptIff`), and so are filled sections past 512
  (`Markdown.SmallSectionsConservedIff`); plain text past 512 chunks is lost (`DocChunks.WholeIff`),
  and reported start lines run ahead by one per chunk.
- The definition walk loses nodes, with a warning, exactly when the height that the tree needs is more than
  the largest 256 * 2^n within the ceiling (`DefinitionWalk.RefusedIffTooHigh`, `WalkExamples.FirstClassIsLost`);
  a ceiling of twice the nodes is enough (`DefinitionWalk.RoomyCeiling`). Without a refusal it still reaches only
  the nodes on the paths it takes (`WalkPaths.WalkedIff`, `WalkExamples.ClassInMethodIsMissed`).
- A function body drops nodes silently exactly when its walk needs a stack of more than 512
  (`BodyTokens.DropsIff`, `BodyTokens.FirstIsDropped`).
- While a slot is empty, an identifier is lost when its hash was handled before, and only when its key
  (the hash with its lowest bit set) was handled before or there is no room (`IdentLoss.LostBounds`;
  `IdentRuns.NearMissIsLost` lies between the two, and where no hashes differ in the lowest bit alone
  they meet, `IdentLoss.LostIff`). It is repeated exactly over a full table (`IdentLoss.RepeatedIff`,
  `IdentRuns.FullRunRepeats`), which fewer than 256 different hashes never make
  (`IdentLoss.FullBounds`).

`dafny verify dfyconfig.toml` checks the whole project.

## Model

| member | source | states |
|---|---|---|
| `Words.LongestSuffixIsLongest` | internal/pmm/ac.c:117-134 | Every suffix of a text that is a prefix of some pattern is a suffix of the one the automaton stands at. |
| `Words.LongestSuffixStep` | internal/pmm/ac.c:243-247 | The state after one more byte depends on the text only through the state before it. |
| `Words.DeltaThroughFail` | internal/pmm/ac.c:117-134 | Both branches of the in-place completion: the transition of a missing edge, and the failure state of a child, are the transition of the failure state. |
| `Words.ReportsDeep` | internal/pmm/ac.c:122-129 | From depth two on, a node reports its own patterns and what its failure node reports, and nothing else. |
| `Words.ReportsShallow` | internal/pmm/ac.c:109-115 | Up to depth one a node reports exactly the patterns it spells; the root is merged into no child. |
| `Words.ReportsAtText` | internal/pmm/ac.c:243-247 | What is reported at the longest suffix of a text is exactly what ends where the text ends; an empty pattern only past a letter that begins no pattern. |
| `Words.OccursIffEnds` | internal/pmm/ac.c:234-249 | Occurring somewhere in a text is ending at some prefix of it. |
| `Words.NodesSplit` | internal/pmm/ac.c:76-85 | The trie nodes of a pattern list are those of the list without its last pattern and the prefixes of that pattern. |
| `Bitmask.ClearDropsLowest` | internal/pmm/ac.c:29 | Clearing with b & (b - 1) takes exactly the lowest id out of a mask's set of ids, and makes the mask smaller. |
| `Bitmask.TakeLowest` | internal/pmm/ac.c:391-398 | One turn of the loop over set bits: the least id of the mask, and the mask without it. |
| `Bitmask.WithBit` | internal/pmm/ac.c:86-88 | Setting bit p of a 64-bit mask adds exactly id p to the set it stands for. |
| `Bitmask.IdsInjective` | internal/pmm/ac.c:40 | Two masks with the same ids are the same mask. |
| `Trie.FlatUpdate` | internal/pmm/ac.c:79-82 | Writing entry s * alpha_size + c of the flat table changes cell (s, c) of its rows and no other. |
| `Trie.BeginPattern` | internal/pmm/ac.c:76-78 | A pattern of which nothing has been read yet adds no node. |
| `Trie.FollowEdge` | internal/pmm/ac.c:80-84 | An edge that is there leads to the node of the longer word, which stays a trie of the patterns read so far. |
| `Trie.AddEdge` | internal/pmm/ac.c:80-84 | A missing edge means that the longer word is no node yet; adding the next state for it keeps the table a trie, every node spelled once. |
| `Trie.RecordPattern` | internal/pmm/ac.c:86-89 | After a pattern its state holds its bit, if it has one of the 64, and its number; masks and numbers of all other states stay exact, duplicates of a pattern included. |
| `Trie.StateCount` | internal/pmm/ac.c:214 | The states are as many as the patterns have distinct prefixes, the empty one included. |
| `Trie.TotalLengthPrefix` | internal/pmm/ac.c:185-188 | The table that is allocated has room for every state that the patterns read so far can need. |
| `Failure.Shallow` | internal/pmm/ac.c:117-134 | Every state no deeper than the entry being expanded has been queued, and every shallower one has been expanded. |
| `Failure.QueueFits` | internal/pmm/ac.c:53-66 | No state is queued twice, so the queue never holds more entries than there are states. |
| `Failure.ChildIsNew` | internal/pmm/ac.c:121-129 | A child met while a row is expanded has not been queued before. |
| `Failure.Reading` | internal/pmm/ac.c:118-132 | When an entry is expanded the cell read from its own row is still a raw trie edge, the row of its failure state is another row and complete, and the cell read there is the true transition. |
| `Failure.RootChild` | internal/pmm/ac.c:109-115 | Queueing a child of the root with the root as failure state keeps the invariant of the pass. |
| `Failure.Child` | internal/pmm/ac.c:122-129 | Queueing a child keeps the invariant: its failure state is the longest proper suffix that is a node, its mask is final, and its output link is right. |
| `Failure.Hole` | internal/pmm/ac.c:130-132 | Overwriting a hole with the transition of the failure state keeps the invariant: one cell of the shared table goes from raw to finished. |
| `Failure.NextEntry` | internal/pmm/ac.c:117-119 | A finished row is the start of the next entry; no other row has been touched. |
| `Failure.AllExpanded` | internal/pmm/ac.c:117 | When the queue is exhausted every state has been in it. |
| `Failure.Finish` | internal/pmm/ac.c:102-138 | At the end every row is complete, every mask is exactly the patterns that the state reports, every link leads one failure step up, and each state was queued exactly once. |
| `AhoCorasick.ReadLetter` | internal/pmm/ac.c:78-85 | Reading a letter of a pattern in the flat table ends in the state of the longer word, with at most one state more. |
| `AhoCorasick.InsertPattern` | internal/pmm/ac.c:77-85 | A whole pattern is walked into the trie; the state returned spells it, and at most its length many states are added. |
| `AhoCorasick.Record` | internal/pmm/ac.c:86-89 | The masks and pattern numbers after a pattern are those of all patterns read so far. |
| `AhoCorasick.BuildTrie` | internal/pmm/ac.c:72-99 | Phase one leaves the trie of the mapped patterns, the root row closed by self-loops, and the own patterns of every state. |
| `AhoCorasick.QueueRootChildren` | internal/pmm/ac.c:109-115 | The first loop of phase two brings the pass to the end of the root row, with its invariant. |
| `AhoCorasick.VisitChild` | internal/pmm/ac.c:122-129 | One trie edge of the row at hand, in place: failure state, mask, link and queue end up as the invariant wants them. |
| `AhoCorasick.ExpandEntry` | internal/pmm/ac.c:118-133 | The whole row of a queue entry, in place, keeps the invariant; pattern numbers are not touched. |
| `AhoCorasick.DrainQueue` | internal/pmm/ac.c:117-134 | The breadth-first loop ends, in bounds of every table, with the queue exhausted and the invariant intact. |
| `AhoCorasick.BuildFailure` | internal/pmm/ac.c:102-138 | Phase two turns what phase one left into a finished automaton in the same tables. |
| `Matching.ReportIffEnds` | internal/pmm/ac.c:243-247 | An id is reported after e bytes exactly when its pattern ends there. |
| `Matching.VisitedIsMatched` | internal/pmm/ac.c:236-249 | The ids collected along a text are exactly those that naive substring search finds. |
| `Matching.EndsIffMatched` | internal/pmm/ac.c:236-249 | Naive search over the mapped text, said by positions. |
| `Matching.ScanStep` | internal/pmm/ac.c:243-247 | One lookup keeps the state at the longest suffix of the text read that is a prefix of a pattern. |
| `Matching.ScanIsSearchIff` | internal/pmm/ac.c:236-249 | With empty patterns allowed, the scan equals naive search for every pattern exactly when no pattern below 64 is empty or some letter of the text begins no pattern. |
| `Matching.EmptyPatternMissed` | internal/pmm/ac.c:86-88 | A text in which an empty pattern is missed. |
| `ByteSearch.FoundIs` | internal/pmm/ac.c:236-249 | Naive search over the mapped text and the mapped patterns is naive search over the bytes that were given. |
| `ByteSearch.PlainIsPiece` | internal/pmm/ac.c:194-200 | Without a map a pattern that is not empty is found exactly when it is a piece of the text. |
| `Automata.Automaton.Build` | internal/pmm/ac.c:176-218 | No automaton for an empty list; otherwise a finished one for these patterns and this map: without a map every byte is its own class, and 256 classes unless a size is given. Its states are as many as the mapped patterns have distinct prefixes, at most one more than their total length. |
| `Automata.Automaton.Assemble` | internal/pmm/ac.c:141-163 | Shrinking the tables to the exact state count loses nothing of the automaton. |
| `Automata.Automaton.ScanBitmask` | internal/pmm/ac.c:236-249 | For every text the mask stands for exactly the ids below 64 whose pattern stands in the text byte by byte, modulo the map that was given; without a map, whose pattern is a piece of the text. An empty pattern counts where a byte begins no pattern. |
| `Automata.Automaton.Step` | internal/pmm/ac.c:243-247 | A lookup stays inside the table and the next state reports exactly what ends there. |
| `Automata.MaxStates` | internal/pmm/ac.c:185-188 | One more than the total length of the patterns. |
| `BatchScan.AscendingExact` | internal/pmm/ac.c:391-398 | The order in which bits of one mask are reported: ascending, each once. |
| `BatchScan.NameIdsExact` | internal/pmm/ac.c:373-407 | A name reports each id met on it, and none twice. |
| `BatchScan.NameReports` | internal/pmm/ac.c:373-407 | A non-empty pattern below 64 is reported for a name exactly when it occurs in it; an empty one exactly past a letter below the root that begins no pattern. |
| `BatchScan.BatchIsScanIff` | internal/pmm/ac.c:367-410 | Batch scan and single scan agree on a name exactly when no pattern below 64 is empty, or every letter begins a pattern, or one that begins none is met below the root. |
| `BatchScan.EmptyPatternSkipped` | internal/pmm/ac.c:386-388 | A name for which the single scan reports an empty pattern and the batch scan does not. |
| `BatchScan.LinksFall` | internal/pmm/ac.c:400-405 | Every output link leads to a shallower state that reports nothing new, so the walk ends and adds nothing. |
| `BatchScan.ReportBits` | internal/pmm/ac.c:390-398 | The loop over one mask appends its ids in ascending order until the buffer is full, and notes them as seen. |
| `BatchScan.WalkLinks` | internal/pmm/ac.c:386-406 | The walk along the output links of one state appends exactly its ids that were not seen, cut off at the capacity. |
| `BatchScan.ScanName` | internal/pmm/ac.c:373-407 | One name appends its ids in report order behind the matches already there, cut off at the capacity. |
| `BatchScan.ScanBatch` | internal/pmm/ac.c:367-410 | What is written is the list of all matches of all names in order, or its prefix of max_matches entries. Every match names a pattern that stands in the bytes of the buffer that its name takes (if it is not empty), none comes twice, names ascend; and with room left every such pattern is matched. |
| `BatchScan.NameIsStanding` | internal/pmm/ac.c:374-385 | A name, as a slice of the buffer, reports a pattern that is not empty exactly when it stands in the bytes from its offset over its length. |
| `BatchScan.AllMatchesNames` | internal/pmm/ac.c:367-410 | Names are in range and ascend, and no match is listed twice. |
| `BatchScan.AllMatchesExact` | internal/pmm/ac.c:367-410 | With enough room a match is listed exactly for each name and each id that the name reports. |
| `Lz4Scan.HitsExact` | internal/pmm/ac.c:321-346 | The files reported are exactly those in which something is found, by increasing index, each with its ids. |
| `Lz4Scan.EntryIdsAre` | internal/pmm/ac.c:272-289 | What is found in an entry is found in the first bytes that the decompressor wrote for its data, as many as it returned. |
| `Lz4Scan.Scanner.GetBuffer` | internal/pmm/ac.c:258-267 | The buffer holds what is needed, grows in steps of 64 KiB, and is kept when it is large enough. |
| `Lz4Scan.Scanner.ScanFile` | internal/pmm/ac.c:272-289 | The mask of one file has exactly the ids whose pattern stands in the first bytes that the decompressor wrote, as many as it returned, whatever the buffer held before. |
| `Lz4Scan.Scanner.ScanEntry` | internal/pmm/ac.c:322-339 | Within a batch the mask of a file depends on that file alone: bytes left by earlier files do not matter. |
| `Lz4Scan.Scanner.ScanFiles` | internal/pmm/ac.c:298-349 | The batch returns the first max_matches files in which the single-file scan finds something, by increasing index, each with the mask of that scan: the ids of the patterns that stand in what the file decompresses to. With room left no such file is missing. |
| `Lz4Scan.Longest` | internal/pmm/ac.c:305-310 | No entry of the batch decompresses to more than the buffer that is asked for. |
| `Arenas.FitsIffNoWrap` | internal/pmm/arena.c:35-55 | The bytes handed out lie inside their block exactly when neither rounding up nor adding wraps modulo 2^64. |
| `Arenas.SmallNeverWraps` | internal/pmm/arena.c:39-46 | A request that an object can have the size of never wraps. |
| `Arenas.WrappedRequestGranted` | internal/pmm/arena.c:39-54 | A request that is granted without room for it, because the sum wraps. |
| `Arenas.AllocShape` | internal/pmm/arena.c:35-55 | A region starts 8-aligned where the used part of the block ended, or at the start of a block at least twice as large as the one before. |
| `Arenas.AllocAnswers` | internal/pmm/arena.c:16-55 | In whole numbers: a request is refused exactly when it is for nothing, when there is no block, or when it does not fit and 256 blocks are there or malloc refuses the larger of twice the last block and what is needed; else it gets the bytes behind those in use, or the first of the new block. |
| `Arenas.CapacityBound` | internal/pmm/arena.c:16-33 | All blocks together hold at most twice the current one, less 64 KiB. |
| `Arenas.LayAlloc` | internal/pmm/arena.c:35-55 | One more allocation keeps all regions pairwise disjoint, aligned and inside their blocks. |
| `Arenas.Arena.constructor` | internal/pmm/arena.c:7-14 | A new arena has one block of 64 KiB, or none when there is no memory. |
| `Arenas.Arena.AllocRegion` | internal/pmm/arena.c:35-55 | Over any run, a request that does not wrap keeps the arena valid: regions disjoint, aligned, in bounds, blocks doubling; a refused one changes neither blocks nor regions. |
| `Arenas.Arena.Grow` | internal/pmm/arena.c:16-33 | Growth adds one block behind the others, which stay as they are, up to 256. |
| `Arenas.Arena.Strndup` | internal/pmm/arena.c:68-77 | The copy is the first len bytes and a terminator, and the bytes of all earlier regions are unchanged, also across growth. |
| `Arenas.Arena.Destroy` | internal/pmm/arena.c:102-107 | No block and no region is left. |
| `NodeStacks.NodeStack.Push` | internal/pmm/extract_node_stack.h:33-47 | Growth by doubling, or to 512 from nothing, keeps what the stack holds; the node is on top. |
| `NodeStacks.NodeStack.Pop` | internal/pmm/extract_node_stack.h:50-52 | The node on top, and the stack without it. |
| `NodeStacks.NodeStack.PushChildren` | internal/pmm/extract_node_stack.h:66-84 | Pushing forward and reversing the new segment in place leaves the children so that they pop in source order. |
| `NodeStacks.NodeStack.ReverseFrom` | internal/pmm/extract_node_stack.h:75-83 | Swapping from both ends turns exactly the segment above base round. |
| `NodeStacks.NodeStack.PushChildrenIndexed` | internal/pmm/extract_node_stack.h:54-64 | The indexed loop that it replaces leaves the same stack. |
| `EnvWalk.IsEnvVarName` | internal/pmm/extract_env_accesses.c:121-138 | A name is accepted exactly when it has at least two characters, all upper case, digits or underscores, and an upper-case one. |
| `EnvWalk.EmitsAreHits` | internal/pmm/extract_env_accesses.c:158-163 | What the pruned recursion emits is what is hit among the nodes that it visits. |
| `EnvWalk.PruningIsExactIff` | internal/pmm/extract_env_accesses.c:163 | Not looking below a hit loses nothing exactly when no hit stands below another. |
| `EnvWalk.NestedHitIsLost` | internal/pmm/extract_env_accesses.c:158-163 | A hit below a hit that is not emitted. |
| `EnvWalk.FindHit` | internal/pmm/extract_env_accesses.c:149-161 | The access of a node: by the call lookup for call kinds, else for member kinds by the member lookup, when the key is a variable name. |
| `EnvWalk.Walk` | internal/pmm/extract_env_accesses.c:141-168 | The iterative walk emits exactly what the recursive preorder pruned below each hit emits, and visits the same nodes in the same order. |
| `TreeWalks.SiblingOrderDoesNotMatter` | internal/pmm/extract_defs.c:6667-6802 | Walks that differ only in the order among siblings meet the same entries, each as often. |
| `TreeWalks.PushedIs` | internal/pmm/extract_defs.c:6094-6125 | Of the frames of one node as many go on the stack as the ceiling leaves room for, the first ones; the others are refused. |
| `TreeWalks.RunKeepsWork` | internal/pmm/extract_defs.c:6673-6799 | Whatever is refused: what a walk visits, and what lies below what it refused, are the whole walk, each frame as often. |
| `TreeWalks.RunInOrder` | internal/pmm/extract_defs.c:6673-6799 | A walk that refuses nothing visits everything, in the order of the recursion. |
| `TreeWalks.RefusedIff` | internal/pmm/extract_defs.c:6094-6121 | Something is refused exactly when the height that the recursion needs, with the later siblings waiting below, is more than the stack can hold. |
| `TreeWalks.LimitIs` | internal/pmm/extract_defs.c:6094-6113 | A stack can hold the largest 256 * 2^n frames within its ceiling, and none under a ceiling below 256. |
| `TreeWalks.WorkStack.Push` | internal/pmm/extract_defs.c:6094-6121 | An entry goes on top, the stack doubling from 256, or is refused, with one warning, exactly when the largest doubling within the ceiling is full. |
| `WalkDefs.PushOrderExact` | internal/pmm/extract_defs.c:6177-6202 | The classes pushed for a class body are, as a multiset, its nested classes in source order, looked for through wrappers. |
| `WalkDefs.BelowAgree` | internal/pmm/extract_defs.c:6263-6285 | Iteration and lexical recursion descend from a node into the same smaller nodes. |
| `WalkDefs.PoppedIsLexical` | internal/pmm/extract_defs.c:6667-6802 | The frames in stack order are the frames of the lexical recursion, each as often, under the same scopes. |
| `WalkDefs.ScopedNodesAreAll` | internal/pmm/extract_defs.c:6667-6802 | The nodes of a tree, each with the scope that the named classes and namespaces around it open one in another, are all nodes of the tree, once each. |
| `WalkDefs.WalkedInScope` | internal/pmm/extract_defs.c:6769-6797 | Every frame walked is a node of the tree under the scope it has there, and no occurrence of a node is walked twice. |
| `WalkPaths.WalkedIff` | internal/pmm/extract_defs.c:6673-6799 | A frame is walked exactly when the walk takes a path to its node (no node above ends the walk, a class with a body is left through the first one, and in a body only wrappers stand above the next class) and its scope is what the names of the classes and namespaces on this path make. |
| `WalkPaths.ScopedIs` | internal/pmm/extract_defs.c:6236-6260 | The scope that a class or namespace opens is the one around it with its own name behind a dot, or the qualified top-level name. |
| `WalkPaths.DottedTwice` | internal/pmm/extract_defs.c:6236-6260 | Scopes opened one in another make the same qualified name as all their names at once. |
| `WalkPaths.DescentIs` | internal/pmm/extract_defs.c:6684-6798 | Where the walk goes on below a node, by language and kind. |
| `WalkPaths.EventsAre` | internal/pmm/extract_defs.c:6680-6789 | Which extractors run on a node, by language and kind: each once, under the scope of its frame. |
| `WalkExamples.InnerIsQualified` | internal/pmm/extract_defs.c:6236-6260 | The class C in the class B in the namespace a is walked, and defined, under the scope p.f.a.B. |
| `WalkExamples.ClassInMethodIsMissed` | internal/pmm/extract_defs.c:6177-6202 | A class that stands in a method of another class and is not walked. |
| `DefinitionWalk.WalkedAtMostOnce` | internal/pmm/extract_defs.c:6667-6802 | Each occurrence of a node in the tree is walked at most once. |
| `DefinitionWalk.PushReversed` | internal/pmm/extract_defs.c:6163-6173 | Children go on the stack from the last to the first; none of their work is lost track of when some are refused. |
| `DefinitionWalk.PushContainer` | internal/pmm/extract_defs.c:6184-6199 | One container: its classes on the frame stack, its wrappers on the inner stack, both from the last child to the first. |
| `DefinitionWalk.PushNested` | internal/pmm/extract_defs.c:6177-6202 | The inner walk ends and pushes exactly the classes of the body, in its order. |
| `DefinitionWalk.PushClassBody` | internal/pmm/extract_defs.c:6263-6285 | The nested classes of the first body container go on the stack, or all children when there is none. |
| `DefinitionWalk.Extract` | internal/pmm/extract_defs.c:6673-6793 | The extractors that run on a node, all under the scope in the mutable field, and where the branch taken goes on. |
| `DefinitionWalk.WalkNext` | internal/pmm/extract_defs.c:6673-6799 | One turn: the field holds the scope of the frame popped, its extractors have run, and what the rest of the walk visits and refuses is what it visited and refused before but for this frame; the work left gets smaller. |
| `DefinitionWalk.WalkIsLexical` | internal/pmm/extract_defs.c:6667-6802 | On a stack of any size, what is visited and what lies below what is refused are exactly the frames of the lexical walk. |
| `DefinitionWalk.RefusedIffTooHigh` | internal/pmm/extract_defs.c:6094-6121 | Something is refused exactly when the height that the tree needs is more than the stack can hold; else the walk is the whole one, in its order. |
| `DefinitionWalk.RoomyCeiling` | internal/pmm/extract_defs.c:6094-6121 | A ceiling of at least 256 and twice the nodes of the tree is enough. |
| `WalkExamples.FirstIsRefused` | internal/pmm/extract_defs.c:6094-6121 | On a stack of n frames the first of n + 1 classes side by side is refused and not visited. |
| `WalkExamples.FirstClassIsLost` | internal/pmm/extract_defs.c:6094-6121 | Under a ceiling of 300 the first of 257 classes has no definition extracted. |
| `DefinitionWalk.EventsSplit` | internal/pmm/extract_defs.c:6667-6802 | What the visited and the refused parts extract together is what the whole walk extracts. |
| `DefinitionWalk.VisitedAtMostOnce` | internal/pmm/extract_defs.c:6667-6802 | Also when frames were refused, each visited frame is a node of the tree under its scope there; no node is visited more often than it occurs, and with distinct nodes none twice. |
| `DefinitionWalk.WalkDefinitions` | internal/pmm/extract_defs.c:6667-6802 | For every tree and ceiling: every visited frame is reached by a path that the walk takes, under the dotted names of the classes and namespaces on it, and exactly the extractors of its node ran on it. Visited and refused are those of the walk on a stack of the largest 256 * 2^n frames within the ceiling, together exactly the lexical walk; a warning is raised, with something refused, exactly when the height the tree needs is more than that, and without one everything that can be reached is visited. |
| `DefinitionWalk.WalkTree` | internal/pmm/extract_defs.c:6667-6802 | The loop itself: visited, refused and extracted are those of the walk on a stack of this size. |
| `IdentTokens.ProbeFindsSeen` | internal/pmm/extract_defs.c:60-70 | The probing loop stops at its key exactly when probing from the slot of the hash meets the key before an empty slot, and runs through only on a full table. |
| `IdentTokens.SeenStays` | internal/pmm/extract_defs.c:60-70 | Inserting never hides a hash whose key probing met before. |
| `IdentTokens.InsertedIsSeen` | internal/pmm/extract_defs.c:60-70 | While there is an empty slot, the key of a hash that is put in is met by probing from then on; a full table stays as it is. |
| `IdentTokens.HashSpan` | internal/pmm/extract_defs.c:44-50 | The hash is the polynomial in 31 of the bytes modulo 2^32. |
| `IdentTokens.Note` | internal/pmm/extract_defs.c:60-70 | In the 256-slot array: whether the hash was seen, and the table with its key in the first empty slot. |
| `IdentTokens.TryAppend` | internal/pmm/extract_defs.c:53-80 | Appended exactly when probing does not meet the key and there is room; the buffer stays the words one space apart, with room for a terminator. |
| `IdentLoss.SeenHasKey` | internal/pmm/extract_defs.c:58-70 | After any run, a key is met by probing only if an identifier handled before has it. |
| `IdentLoss.HandledIsSeen` | internal/pmm/extract_defs.c:58-70 | After any run that leaves a slot empty, the key of every identifier handled before is met. |
| `IdentLoss.FullBounds` | internal/pmm/extract_defs.c:60-70 | A run of fewer than 256 different hashes leaves a slot empty; one of 256 different keys leaves none. |
| `IdentLoss.NoneTwice` | internal/pmm/extract_defs.c:52-80 | A run of fewer than 256 different hashes, or any that leaves a slot empty, appends every identifier at most once. |
| `IdentLoss.RepeatedIff` | internal/pmm/extract_defs.c:60-73 | An identifier already appended is appended again exactly when the table is full, probing does not meet its key and there is room. |
| `IdentLoss.FullTableRepeats` | internal/pmm/extract_defs.c:60-73 | Over a full table an identifier whose key is not met is appended each time. |
| `IdentRuns.FullRunRepeats` | internal/pmm/extract_defs.c:52-80 | A run in which that happens: 256 identifiers of 17 letters fill the table, and x is appended twice behind the 113 that the buffer took. |
| `IdentLoss.LostBounds` | internal/pmm/extract_defs.c:54-73 | While a slot is empty an identifier with a hash handled before is lost; and it is lost only if its key was handled before or there is no room. |
| `IdentLoss.LostIff` | internal/pmm/extract_defs.c:54-73 | After fewer than 256 different hashes, or while a slot is empty: if no identifier before has a hash that differs in the lowest bit alone, it is appended exactly when its hash is new and there is room. |
| `IdentExact.AllAppended` | internal/pmm/extract_defs.c:52-80 | At most 256 identifiers without colliding hashes and with room for all: each is appended once, in the order in which they first occur. |
| `IdentExact.JoinIsSpaced` | internal/pmm/extract_defs.c:71-78 | The buffer holds the words with one space, byte 32, between each two. |
| `IdentLoss.CollisionIsLost` | internal/pmm/extract_defs.c:54-73 | Of two identifiers with the same hash, handled while a slot is empty, the second is lost. |
| `IdentRuns.AaAndBBCollide` | internal/pmm/extract_defs.c:44-50 | Two different identifiers with the same hash. |
| `IdentRuns.NearMissIsLost` | internal/pmm/extract_defs.c:54-73 | An identifier that is lost although none before has its hash: ab behind Pp and aa, of which aa was pushed into its slot with the same key. |
| `BodyTokens.FewTokens` | internal/pmm/extract_defs.c:95-119 | With fewer tokens than the limit on words, a body that needs no higher stack than 512 has every token handled. |
| `BodyTokens.Turn` | internal/pmm/extract_defs.c:95-119 | One turn of the walk on the fixed stack: a leaf is handled or makes place for as many of its last children as find room. |
| `BodyTokens.DropsIff` | internal/pmm/extract_defs.c:95-119 | A child is dropped exactly when the walk, up to where it ends, needs a higher stack than the 512 nodes there are. |
| `BodyTokens.NeededAtMost` | internal/pmm/extract_defs.c:95-119 | No walk needs a higher stack than it has nodes to walk. |
| `BodyTokens.HandledOf` | internal/pmm/extract_defs.c:84-126 | What the walk handles: never a token oftener than it occurs; in source order from the first one on when the stack is high enough, and then all of them below the limit on words. |
| `BodyTokens.TokensAreLeaves` | internal/pmm/extract_defs.c:95-113 | The tokens of a body are the texts of its leaves of an identifier kind, of 1 to 63 bytes. |
| `BodyTokens.FirstIsDropped` | internal/pmm/extract_defs.c:109-119 | Of 513 identifiers side by side the first is dropped, and the result misses it. |
| `BodyTokens.ExtractTokens` | internal/pmm/extract_defs.c:84-126 | At most 128 words with spaces between them, each the text of an identifier leaf of the body of 1 to 63 bytes: those that the table and the buffer let through of the tokens that the walk on 512 nodes handles; a child is dropped exactly when the body needs a higher stack. Otherwise these are the tokens of the body in source order up to the limit on words; no token is handled twice in any case. Of a body of at most 512 nodes and fewer than 128 tokens, without collisions and with room, the words are its identifiers, each where it first occurs. |
| `Reexports.MergeNames` | scripts/gen-py-stdlib.py:270-291 | A star import carries exactly the short names of its target over. |
| `Reexports.MergeGrows` | scripts/gen-py-stdlib.py:273-281 | Entries that were there stay in front, and every further one is a copy of an entry of the target. |
| `Reexports.PathBrings` | scripts/gen-py-stdlib.py:261-291 | A name is in a module as soon as the rounds taken by some path of star imports to it are through, within a round up to the hop just processed. |
| `Reexports.EntryCame` | scripts/gen-py-stdlib.py:261-291 | Every entry has come along such a path from a module that had it originally, with the methods and bases it had there. |
| `Reexports.EntryIsReexported` | scripts/gen-py-stdlib.py:273-291 | Every entry behind the original ones is qualified by its module and came along a path from a module that had the short name: as the class that was there, methods and bases included, or as a function of this module. |
| `Reexports.HeldIffBrought` | scripts/gen-py-stdlib.py:252-291 | After k rounds a module holds exactly the names that a path of cost at most k brings, where a hop is free when it is processed after the hop before it. |
| `Reexports.WithinHops` | scripts/gen-py-stdlib.py:252-291 | After k rounds all names within k hops are held. |
| `Reexports.CompleteIff` | scripts/gen-py-stdlib.py:252-291 | All reachable names are held after k rounds exactly when each has a path of cost at most k in the imports. |
| `Reexports.RoundsGrow` | scripts/gen-py-stdlib.py:270-291 | Original entries stay in front in their order, and no copied name is added twice. |
| `Reexports.FixedEveryHop` | scripts/gen-py-stdlib.py:261-262 | A round that changes nothing is a true fixed point: no single star import changes anything. |
| `Reexports.FixedStays` | scripts/gen-py-stdlib.py:261-262 | Once a round changes nothing, no later one does. |
| `Reexports.SettledIsComplete` | scripts/gen-py-stdlib.py:261-291 | Once a round changes nothing, every reachable name is held. |
| `Reexports.SettlesIff` | scripts/gen-py-stdlib.py:259-262 | Round k + 1 changes nothing, and the tables after k rounds are a fixed point, exactly when every reachable name has a path of cost at most k in the imports. |
| `Reexports.ChainNeedsAllRounds` | scripts/gen-py-stdlib.py:259-262 | A chain of n imports in importer-first order needs exactly n rounds, so a chain of nine is cut short by the limit of eight. |
| `StubTables.CopyMissing` | scripts/gen-py-stdlib.py:270-291 | The in-place copy of one list, and whether it added anything. |
| `StubTables.Modules.TakeHop` | scripts/gen-py-stdlib.py:265-291 | One star import changes both lists of the importer, and reports whether it did; a missing target changes nothing. |
| `StubTables.Modules.TakeRound` | scripts/gen-py-stdlib.py:263-291 | One round takes all hops in dictionary order and reports exactly whether it changed anything. |
| `StubTables.Modules.ResolveReexports` | scripts/gen-py-stdlib.py:252-291 | Every module holds its own entries and behind them re-exported ones, qualified by its own name, with methods and bases of the original, none twice; and exactly the names that a path of cost at most eight brings. That is the result of eight rounds, although the loop stops early; it is a fixed point exactly when every reachable name has such a path, and the loop sees that itself exactly when cost seven is enough. |
| `StubWorklist.Enqueue` | scripts/gen-py-stdlib.py:238-247 | Exactly the targets not seen before are queued, when they have a file. |
| `StubWorklist.Load` | scripts/gen-py-stdlib.py:232-247 | Loading one module keeps every seen target with a file loaded or queued, and queues only what is wanted. |
| `StubWorklist.TakeSource` | scripts/gen-py-stdlib.py:228-247 | One turn keeps the worklist consistent, and there is one module less to load, or the queue is shorter. |
| `StubWorklist.CollectAllStubs` | scripts/gen-py-stdlib.py:201-249 | The worklist ends; every allowed module is loaded, each module once, none that is neither allowed nor the target of an earlier one, and every star target that has a file. |
| `RunWave.ReadSuites` | scripts/run-test-wave.py:75-85 | The names are accepted exactly when all are non-empty strings of lower-case letters, digits and underscores and no two are the same; the first malformed one is reported before any duplicate. |
| `RunWave.SuccessIsReal` | scripts/run-test-wave.py:322-337 | A line with exit code 0 means that the suite was started, that the first sweep that found it exited or overdue found it to have exited 0 by itself, and that its log has a summary; the line has its counts. |
| `RunWave.KillHasReason` | scripts/run-test-wave.py:391-415 | A line with exit code 124 means that the first sweep that found the suite exited or overdue saw that code, or saw it still running when its time, counted from its start, was up. |
| `RunWave.OneEnd` | scripts/run-test-wave.py:391-397 | Only one sweep can have been the first to find a suite exited or overdue. |
| `RunWave.LinesAgree` | scripts/run-test-wave.py:391-415 | What a line may say of a suite, but for the seconds, is settled by the starts and the sweeps that happened. |
| `RunWave.HeadEnds` | scripts/run-test-wave.py:371-387 | Starting the next suite keeps the books in order, or raises and leaves the books that say so. |
| `RunWave.LookEnds` | scripts/run-test-wave.py:391-416 | So does the look of a sweep at a suite: still awaited, ended for the first time it is found exited or overdue, or raised by this suite. |
| `RunWave.RaisedMeans` | scripts/run-test-wave.py:420-433 | In a wave that was broken off no suite is on record twice, and the one that raised did not start, end or stop as it should. |
| `RunWave.TruthTells` | scripts/run-test-wave.py:311-356 | What a line says in terms of the environment: 98 and no counts without a start, else the counts of the log, and the code the suite was found to have exited with (97 for 0 without a summary), or 124 when it was found running at least the slow time after its start for a slow suite, the ordinary time for any other. |
| `RunWave.GoingOnTells` | scripts/run-test-wave.py:391-397 | Every look at a suite but the last found it running with less than this time elapsed; so what is found exited or out of time ends there, and nothing else does. |
| `RunWave.PartitionStart` | scripts/run-test-wave.py:371-387 | Starting a suite keeps every suite in exactly one of pending, active and recorded. |
| `RunWave.PartitionRecord` | scripts/run-test-wave.py:409-415 | So does recording one; and also when it is written but not yet taken off, none is on record twice. |
| `RunWave.PartitionEnd` | scripts/run-test-wave.py:370 | With nothing pending and nothing active there is one line for every suite. |
| `RunWave.OneLineEach` | scripts/run-test-wave.py:83-85 | As names are distinct, each suite has at most one line, and exactly one at a normal end. |
| `RunWave.Scheduler.StartNext` | scripts/run-test-wave.py:372-387 | The head of the queue becomes active with the clock reading and the time of its name, or is recorded with exit code 98, or is lost with what was raised; nothing else changes, and at most jobs suites are active. |
| `RunWave.Scheduler.SettleOne` | scripts/run-test-wave.py:391-416 | What one suite of a sweep leaves in the books in each case: left alone, seen to exit, killed, killing raised, recording raised before or after the line. |
| `RunWave.Scheduler.RecordResult` | scripts/run-test-wave.py:311-342 | The line appended: 124 for a suite that was killed, 97 for exit 0 without a summary, else its own code, with the counts of its log and whole seconds. |
| `RunWave.Scheduler.Attend` | scripts/run-test-wave.py:391-416 | A suite is settled exactly when the sweep saw it exited or overdue, and told to stop exactly when it had not exited; its line is the one it should have; otherwise nothing changes. |
| `RunWave.Scheduler.Sweep` | scripts/run-test-wave.py:389-417 | A sweep looks at every suite active at its start; those that stay are not overdue when none was settled. |
| `RunWave.Scheduler.Turn` | scripts/run-test-wave.py:370-419 | In each turn twice the pending plus the active suites falls, or stays and the time left to the oldest falls. |
| `RunWave.Scheduler.StopAll` | scripts/run-test-wave.py:420-427 | Every suite still active is told to stop, one after the other, whatever was raised. |
| `RunWave.Scheduler.Run` | scripts/run-test-wave.py:359-427 | The wave ends. It ends normally exactly when every suite is started or refused and recorded without raising, and every one told to stop stops; then there is exactly one line for every suite. Else some suite raised, and all others before it in the queue are on record once or were active. No suite is started twice or on record twice. Every line tells how a sweep that was taken found the suite: exited with this code, or running when the time for a slow suite, or for any other, had passed since its start, and never before; besides those active at the end only such suites were told to stop, and no process is left unattended. |
| `RunWave.Scheduler.Finish` | scripts/run-test-wave.py:420-433 | What a wave that is through, or was broken off, leaves behind when the suites still active have been told to stop. |
| `DocChunks.ChunksConserve` | internal/pmm/extract_docs.c:275-311 | Chunks one after the other are the text. |
| `DocChunks.ChunkLengths` | internal/pmm/extract_docs.c:281-291 | Chunks but the last have 1752 to 3501 characters. |
| `DocChunks.ChunkCount` | internal/pmm/extract_docs.c:281-291 | How many chunks a text of a given length takes, from both sides. |
| `DocChunks.WholeIff` | internal/pmm/extract_docs.c:281-311 | The sections make up the whole text exactly when it takes at most 512 chunks; any text of up to 512 * 1752 characters does, none above 512 * 3501. |
| `DocChunks.FindCut` | internal/pmm/extract_docs.c:282-291 | A chunk ends behind the last newline at positions 1751 to 3500 if there is one, else after 3500 characters. |
| `DocChunks.ParsePlainChunks` | internal/pmm/extract_docs.c:275-316 | The bodies are the first 512 chunks, numbered, or one empty body: each stands in the text behind those before it and ends at the last newline among characters 1751 to 3500 from there, or after 3500. The start line of a section is ahead of the true line by the number of sections before it, and its end line is as far behind that as it has newlines. |
| `DocChunks.Document.AddSection` | internal/pmm/extract_docs.c:107-133 | A section is appended, or refused past the limit of 512 without a change. |
| `Markdown.LinesCover` | internal/pmm/extract_docs.c:169-171 | The lines, each ended by a newline, are the text up to a missing last newline. |
| `Markdown.StepHeld` | internal/pmm/extract_docs.c:173-266 | One line adds itself to the text held exactly when it is neither blank nor a heading and fits. |
| `Markdown.FoldHeld` | internal/pmm/extract_docs.c:169-270 | All content is held at the end exactly when every line fits at its turn. |
| `Markdown.ShortLinesFit` | internal/pmm/extract_docs.c:234-264 | Lines of at most 8190 characters always fit. |
| `Markdown.HugeLineIsLost` | internal/pmm/extract_docs.c:234-264 | A line of 131071 characters or more never fits. |
| `Markdown.FirstLineKeptIff` | internal/pmm/extract_docs.c:234-264 | A first line of content is kept exactly up to 16382 characters, although bodies may have eight times as many. |
| `Markdown.ConservedIff` | internal/pmm/extract_docs.c:156-273 | The bodies kept are exactly the content of the document if and only if every line fits at its turn and the sections past 512 have nothing in them. |
| `Markdown.FewSectionsConserved` | internal/pmm/extract_docs.c:156-273 | Short lines and at most 512 sections: nothing is lost. |
| `Markdown.PiecesBound` | internal/pmm/extract_docs.c:169-270 | Among short lines each section is closed by a heading or by the end, or holds more than 122880 characters. |
| `Markdown.ShortLinesConserved` | internal/pmm/extract_docs.c:156-273 | Short lines with few enough headings and characters, counted on the input: nothing is lost. |
| `Markdown.SmallSectionsConservedIff` | internal/pmm/extract_docs.c:156-273 | Short lines in sections of at most 122880 characters: nothing is lost exactly when the sections, counted on the input, are at most 512. |
| `Markdown.SectionLines` | internal/pmm/extract_docs.c:169-270 | Sections follow each other in the order of the lines; one that ends with the text is said to end a line behind the last. |
| `Markdown.ParseHeading` | internal/pmm/extract_docs.c:178-190 | The title is the text behind the marks and the blanks after them, cut to 511 characters. |
| `Markdown.Parser.TakeLine` | internal/pmm/extract_docs.c:234-266 | The body buffer after one line that is no heading: grown, flushed, or the line dropped. |
| `Markdown.Parser.TakeHeading` | internal/pmm/extract_docs.c:216-231 | A heading closes the section before it unless that is empty and not the first. |
| `Markdown.ParseLines` | internal/pmm/extract_docs.c:156-273 | The loop: the sections are the first 512 pieces of the text, with their headings, bodies and lines. |
| `MarkdownSections.HeadingTextIsTitle` | internal/pmm/extract_docs.c:178-190 | The title of a heading line starts behind all marks and the blanks after them, and is cut to 511 characters. |
| `MarkdownSections.ParsedAre` | internal/pmm/extract_docs.c:169-270 | Every section goes from its start line up to a heading, a line without room, or the end, with no heading between; it carries the title of the last heading up to its start line, the first one the introduction; and when all lines fit its body is what its lines say. |
| `MarkdownSections.ParseMarkdown` | internal/pmm/extract_docs.c:156-273 | At most 512 sections, each headed, placed and filled so; lines of at most 8190 characters always fit. |
| `Leases.WithoutLease` | src/main.c:304-319 | Taking an entry off the list takes exactly its native lease away. |
| `Leases.EndUndoesBegin` | src/main.c:254-320 | A mutation that is begun and ended leaves the list as it was. |
| `Leases.Mutation.Begin` | src/main.c:254-302 | A lease is taken exactly when the first answer that is not busy hands it out, and goes to the head of the list; on every failure, also without memory, and as long as the lock answers busy, list and native leases are as before. |
| `Leases.Mutation.AskOn` | src/main.c:259-301 | The first answer that is not busy decides, and until then nothing changes; a lease that comes with another status is given back. |
| `Leases.Mutation.FindNode` | src/main.c:309-312 | The first node of the project, and the one before it. |
| `Leases.Mutation.Unlink` | src/main.c:313-315 | Relinking takes exactly one node out and leaves the others in order. |
| `Leases.Mutation.End` | src/main.c:304-320 | The first lease of the project is unlinked and released; native leases and list stay the same set. |
| `Leases.Mutation.ReleaseAll` | src/main.c:322-330 | Nothing is left on the list and no native lease is held. |

## Left out

- Words.Reports, Matching.Matched: ids from 64 on. They only enter `output_list`, which no scanner reports, so nothing is said about them.
- BatchScan.WalkLinks: the links `output_next` are only shown to fall and to add nothing; they link through one failure state at most and are not claimed to list further patterns.
- Automata.Automaton.Build: the width of `int` (a total length or a table index beyond it) and failing allocation or reallocation are not modelled; every index is shown to lie in the table that is allocated. Every byte must map into the alphabet, as the caller must see to.
- Lz4Scan.Scanner.Decompress: LZ4 itself. The decompressor is an arbitrary function that stays in the room it is given and returns at most what it wrote; entry sizes are small enough for the rounding to stay in an `int`. The buffer belongs to one thread.
- Arenas.Arena.AllocRegion: `pmm_arena_sprintf` and `pmm_arena_strdup`, which format or measure and then copy like `pmm_arena_strndup`. The model keeps no per-block statistics.
- NodeStacks.NodeStack.Push: the arena behind the stack always has memory here, so the silent drop of a node without memory is left out, and the model stack is not laid out inside the model arena.
- EnvWalk.Walk: which callee and member texts are environment accesses, the quote stripping and the enclosing function are data of a node here, not computed.
- EnvWalk.FindHit: the key of a call or a member access is data of the node in the same way.
- DefinitionWalk.Extract: what each extractor defines; a run of one is recorded with its rule, node and scope.
- DefinitionWalk.WalkDefinitions: the extractors are events that carry rule, node and scope; what names and definitions they make of these is left out, as are the per-language name lookups (a node carries the name its scope lookup yields), the cursor that collects wide child lists, failing reallocation and the default ceiling of the environment.
- BodyTokens.ExtractTokens: the syntax tree is a tree of nodes with their texts; spans that would lie outside the source are not modelled. The fingerprint computed beside it is left out.
- Reexports.HeldIffBrought: parsing stub files, the allow list, and the C code that is generated from the tables. A module is an entry in two tables, not an object with two lists.
- StubWorklist.CollectAllStubs: the file system is a finite map from module name to stub file, in which the preference of `X.pyi` over `X/__init__.pyi` is already decided.
- RunWave.Scheduler.Run: processes, signals, logs and the clock are an arbitrary environment whose clock is monotone and advances over a sleep; the waits at the two test barriers are not separate steps, since raising in them has the effect of recording that raises before it writes. Killing a process tree is one step.
- MarkdownSections.ParseMarkdown, Markdown.ParseLines: anchors and their slugs, reStructuredText mode. The body buffer is a sequence with its size beside it.
- DocChunks.ParsePlainChunks: the anchors, which only repeat the part number. YAML, JSON, DOCX and PDF documents are not modelled.
- Leases.Mutation.Begin: the native lock answers arbitrarily, and the model runs over the answers given so far; a release always succeeds, since the program exits when one does not in time. The branch for builds with test seams, the waiting message and deadlines are left out.
- Version comparison and upgrade draining in `src/main.c`, heading slugs and the cut of comments at UTF-8 boundaries: a few comparisons or one pass over a string each, apart from the algorithms above.
- Tree-sitter grammars, call and channel extraction, the daemon, IPC, the embedding code and the user interface are not part of this model.
