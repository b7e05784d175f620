# Verified models of CLAIMS

CLAIMS is a parallel in-memory SQL engine. This project models the parts of it
whose correctness is not plain from reading one function, and proves what they
keep. Sequential code that works in place is modelled by classes, arrays and
loops; concurrent code by state machines whose steps are what the code does
between two points where another thread can run.

* **CSB+ tree** (`Arithmetic`, `CsbLayout`, `CsbTree`, `CsbBuild`, `CsbLinks`, `CsbLoader`,
  `CsbQuery`, `CsbDisk`, `CsbNode`, `CsbIndex`): bulk loading, point and range
  queries, saving and loading, node splits. A level is a sequence of groups of
  nodes; father, child, header and tailer pointers are maps over handles, so
  that a wrong or missing pointer is a wrong map. The main results are that the
  loaded tree is well-formed for every array, that every query gives the run
  of the array it asks for, and that a saved and reloaded tree is the same tree.
* **JSON** (`JsonText`, `JsonGrammar`, `JsonSyntax`, `JsonLexis`, `JsonDecode`,
  `JsonUnicode`, `JsonReader`, `JsonOrder`, `JsonRoundTrip`, `JsonParse`,
  `JsonPrint`, `JsonWriter`, `JsonDocument`): the reader as an object with a
  cursor, a stack of open values and an error list, against total functions
  that say what happens on every text; these against a grammar of token
  sequences, of which the reader accepts exactly the documents and gives their
  meaning; both writers, against the token sequence of a value; and the round
  trip through either. The format is that of RFC 8259. A `char` stands for a
  byte, and the character behind the end of the text is NUL. A value on the
  stack is written back into its parent when it is popped. A floating-point
  number is kept as the text it prints as, and scanning one is a parameter.
* **Core allocator** (`CpuCores`, `CpuRace`): threads, one global semaphore, one
  semaphore for each socket, one flag for each core. Testing a flag and clearing
  it are two steps, as in the code, or one; what holds in both cases is proved
  for both.
* **Daemon queues** (`DaemonQueues`): listeners, workers and senders around the
  command and the result queue.
* **Hash table** (`HashChains`, `HashTable`): bucket memory as words at
  addresses, the allocator and the two ways of iterating.
* **Partition binding** (`PartitionBinding`): round-robin placement, budgets,
  whole runs of binds and unbinds.
* **Filter kernel** (`FilterKernel`), **throughput window**
  (`ThroughputWindow`), **range partitioning** (`RangePartition`).

Five properties the code or its comments suggest do not hold, and are stated
with a concrete input and the exact condition under which they do:

* the four-way range query on a single-leaf tree follows a null pointer
  (`RangeQueryComparing`, `SingleLeafFallsThrough`);
* a reloaded tree is refused exactly when some entry's block offset exceeds 1023
  or its tuple offset 2046 (`Deserialize`, `InBoundsEntries`, `ReloadBound`, `ReloadRefused`);
* the code has no lock around testing a core's flag and clearing it, so a core
  can be held twice, exactly when two threads can meet inside a socket of two
  cores or more: with n threads, the sockets before it have at most n - 2 cores
  together (`ExclusiveExactly`, `RaceHoldsTwice`);
* a pause whose number of slices is a multiple of 2^32, or up to nine more,
  leaves stale counts in the window (`TruncationExact`,
  `LongPauseKeepsOldCounts`);
* asking for one bucket gives two, although the comment promises the next power
  of two (`Exponent`, `OneBucketBecomesTwo`).

`dafny verify dfyconfig.toml` checks the project.

## Model

| member | source | states |
|---|---|---|
| `CsbLayout.SharesLaws` | IndexManager/CSBPlusTree.cpp:739-754 | dividing m items over ceil(m/c) holders and levelling the last two gives sizes that sum to m, none above c, and none below the lower bound when there are at least two holders |
| `CsbLoader.PlanGroups` | IndexManager/CSBPlusTree.cpp:837-856 | the node counts of a level's groups are full ones, then the last two as they are or levelled, exactly the shares above |
| `CsbLoader.PlanLeaves` | IndexManager/CSBPlusTree.cpp:675-717 | the entry counts of the leaves are the shares of the array, in the one-group and in the several-groups branch alike |
| `CsbLoader.PlanLeafLevel` | IndexManager/CSBPlusTree.cpp:666-807 | group counts add up to the leaf count, leaf counts add up to the array length, every leaf is non-empty, within capacity and at least half full |
| `CsbLoader.FillNode` | IndexManager/CSBPlusTree.cpp:759-770 | a leaf receives the next entries of the array and its first key goes to the key array unless it is the very first leaf |
| `CsbLoader.FillLeaves` | IndexManager/CSBPlusTree.cpp:756-805 | the leaves concatenate to the array and the key array is filled exactly with the first key of every leaf but the first |
| `CsbLoader.ChainLeaves` | IndexManager/CSBPlusTree.cpp:809-817 | header and tailer pointers form one doubly linked list over all leaf groups, null at both ends |
| `CsbLoader.MakeLeafNodeGroup` | IndexManager/CSBPlusTree.cpp:661-819 | the leaf level holds the array in order, is linked, and leaves a key array of one key fewer than it has leaves |
| `CsbLoader.FillInnerNode` | IndexManager/CSBPlusTree.cpp:866-875 | an inner node takes the next keys and hands the key after them to the level above |
| `CsbLoader.FillInners` | IndexManager/CSBPlusTree.cpp:863-902 | every inner node has one key fewer than the group below it has nodes, and the upper key array is filled exactly |
| `CsbLoader.LinkLevel` | IndexManager/CSBPlusTree.cpp:904-919 | each inner node points to its own group below and every node of that group points back |
| `CsbBuild.LeafLevelOk` | IndexManager/CSBPlusTree.cpp:661-819 | leaves cut from the array by their sizes concatenate to it, and the key array is their first keys |
| `CsbBuild.AddLevel` | IndexManager/CSBPlusTree.cpp:823-921 | a level built over a separated stack keeps every separator equal to the first key under its right child, and its upper keys are the first keys of its nodes |
| `CsbBuild.InnerLevelFits` | IndexManager/CSBPlusTree.cpp:835-902 | inner nodes built from half-full groups are within capacity and at least half full |
| `CsbLoader.MakeInternalNodeGroup` | IndexManager/CSBPlusTree.cpp:823-921 | one more inner level keeps the stack: separators, links, occupancy, entries, and a key array for the next round |
| `CsbLoader.MakeRoot` | IndexManager/CSBPlusTree.cpp:617-654 | over a single group the one inner node is the root of a well-formed tree of exactly the entries |
| `CsbLoader.LoadLevels` | IndexManager/CSBPlusTree.cpp:466-656 | the level loop ends, and the tree is well-formed, holds exactly the array, is at most full and at least half full below the root |
| `CsbIndex.CSBPlusTree.BulkLoad` | IndexManager/CSBPlusTree.cpp:429-657 | loading any array, of any length, into a fresh index gives a well-formed index of exactly its entries; the depth is 0 for none and at least 2 above one leaf |
| `CsbIndex.SingleLeaf` | IndexManager/CSBPlusTree.cpp:434-450 | a single leaf is root, list head and list tail of a well-formed tree |
| `CsbTree.Determined` | IndexManager/CSBPlusTree.cpp:429-921 | the nodes fix the rest: two well-formed trees with the same levels are equal, pointers and leaf list included |
| `CsbQuery.CollectLaw` | IndexManager/CSBPlusTree.cpp:990-996 | grouping by block keeps, for each block, the tuple offsets of its entries in array order, and has no other block |
| `CsbQuery.ScanIs` | IndexManager/CSBPlusTree.cpp:1009-1030 | from the first entry that can match, the entries up to the first that does not are all those of the range |
| `CsbQuery.DescentStep` | IndexManager/CSBPlusTree.cpp:946-961 | choosing the child by the first separator not below the key keeps the start of the range under the node |
| `CsbQuery.Descend` | IndexManager/CSBPlusTree.cpp:944-961 | the descent ends in the leaf under which, or right after which, the range starts |
| `CsbQuery.StartFound` | IndexManager/CSBPlusTree.cpp:974-983 | the leaf scan stops at the start of the range, also when equal keys straddle leaves and groups |
| `CsbQuery.Walk` | IndexManager/CSBPlusTree.cpp:1009-1030 | walking the leaf list collects exactly the run of matching entries |
| `CsbQuery.Search` | IndexManager/CSBPlusTree.cpp:925-1044 | Search returns exactly the run of array entries whose key is the one asked for, for every sorted array including the empty one |
| `CsbQuery.RangeQuery` | IndexManager/CSBPlusTree.cpp:1047-1170 | rangeQuery returns exactly the run of array entries with lower <= key <= upper |
| `CsbQuery.RangeQueryComparing` | IndexManager/CSBPlusTree.cpp:1173-1443 | the four open and closed forms return exactly the run of array entries that compare as asked with both ends, and follow a null father exactly when a single-leaf tree's last key does not lie beyond the upper end |
| `CsbQuery.RangeIsRun` | IndexManager/CSBPlusTree.cpp:1173-1443 | the entries of a sorted array that lie in a range are one run of it |
| `CsbQuery.StoppedAtLast` | IndexManager/CSBPlusTree.cpp:1261-1327 | the single-leaf scan returns by itself exactly when the last key passes the lower and fails the upper comparison |
| `CsbIndex.SingleLeafFallsThrough` | IndexManager/CSBPlusTree.cpp:1261-1327 | one entry and a range that covers it: the open-range query does follow the null father |
| `CsbIndex.LoadSaveQuery` | IndexManager/CSBPlusTree.cpp:429-1843 | load any sorted array, save, load the file, and query: the answers are the runs of the array whose keys are the one asked for, or lie between the two asked for |
| `CsbDisk.WriteNode` | IndexManager/CSBPlusTree.cpp:283-289 | a node is written as its count and its elements, after what the file already held |
| `CsbDisk.WriteGroup` | IndexManager/CSBPlusTree.cpp:387-394 | a group is written as its node count and its nodes in order |
| `CsbDisk.Pour` | IndexManager/CSBPlusTree.cpp:1744-1750 | emptying one stack into another reverses it |
| `CsbDisk.WriteLevel` | IndexManager/CSBPlusTree.cpp:1752-1761 | a level is written group by group from left to right, and the groups below are stacked in order |
| `CsbDisk.Serialize` | IndexManager/CSBPlusTree.cpp:1723-1766 | the file is the depth and then the levels from the root down, each from left to right; an empty index writes nothing |
| `CsbDisk.ReadNode` | IndexManager/CSBPlusTree.cpp:291-300 | a written node is read back, and accepted exactly when its offsets are within the loader's bounds |
| `CsbDisk.ReadGroup` | IndexManager/CSBPlusTree.cpp:396-407 | a written group is read back, and accepted exactly when all its nodes are |
| `CsbDisk.ReadLevel` | IndexManager/CSBPlusTree.cpp:1797-1822 | the next level is read in order under the right parents |
| `CsbDisk.RelinkLeaves` | IndexManager/CSBPlusTree.cpp:1825-1841 | the leaf list is rebuilt as one doubly linked list |
| `CsbDisk.Deserialize` | IndexManager/CSBPlusTree.cpp:1769-1843 | reading a written tree succeeds exactly when all offsets are in bounds, and then gives the same tree: levels, parents, children and leaf list |
| `CsbDisk.InBoundsEntries` | IndexManager/CSBPlusTree.cpp:291-300 | the loader's bounds hold of a tree exactly when they hold of its entries |
| `CsbIndex.ReloadRefused` | IndexManager/CSBPlusTree.cpp:291-300 | one entry with block offset 1024: a well-formed index whose reload is refused |
| `CsbIndex.ReloadBound` | IndexManager/CSBPlusTree.cpp:291-300 | for every key and both offsets, the reload of one entry is accepted exactly when the block offset is below 1024 and the tuple offset below 2047 |
| `CsbIndex.CSBPlusTree.CopyThroughDisk` | IndexManager/CSBPlusTree.cpp:1723-1843 | an index loaded from another's file is equal to it, and is refused exactly when some entry has a block offset above 1023 or a tuple offset above 2046 |
| `CsbNode.Node.Insert` | IndexManager/CSBPlusTree.cpp:207-222 | insertion into a node with room puts the entry after all equal keys and moves the larger ones up by one; a full node is refused |
| `CsbNode.Node.SplitInsert` | IndexManager/CSBPlusTree.cpp:231-269 | splitting a full node gives two nodes whose concatenation is the stable insertion of the entry, each at least half full, and returns the right node's first key |
| `CsbNode.InsertedSorted` | IndexManager/CSBPlusTree.cpp:207-222 | stable insertion keeps a sorted node sorted |
| `CsbNode.InsertedBag` | IndexManager/CSBPlusTree.cpp:89-108 | stable insertion adds exactly the one element |
| `JsonText.SpacedJoin` | Client/jsoncpp.cpp:490-498 | texts of tokens with white space around them can be put end to end |
| `JsonGrammar.TokenAt` | Client/jsoncpp.cpp:419-488 | every token lies in the text and takes at least one character unless it is the end of the stream |
| `JsonGrammar.Recovered` | Client/jsoncpp.cpp:912-930 | recovery stops within the text, at the wanted token or the end |
| `JsonGrammar.Hex4` | Client/jsoncpp.cpp:874-900 | four hexadecimal digits give a number of 16 bits, or one of two problems |
| `JsonGrammar.ValueAt` | Client/jsoncpp.cpp:329-400 | on every input the cursor moves forward and stays within the text, and a failure reports exactly one error and a success none |
| `JsonGrammar.MembersAt` | Client/jsoncpp.cpp:586-639 | the same for objects, recovery included |
| `JsonGrammar.ItemsAt` | Client/jsoncpp.cpp:641-676 | the same for arrays, recovery included |
| `JsonGrammar.Parsed` | Client/jsoncpp.cpp:288-327 | the same for a whole document |
| `JsonSyntax.ReadsDocuments` | Client/jsoncpp.cpp:329-676 | reading a value stops at q with v if and only if the tokens up to q derive from the grammar of documents and mean v: items between commas, members of a name, a colon and a value, and the reader's own leniencies; every other token sequence is an error |
| `JsonSyntax.ParsesDocuments` | Client/jsoncpp.cpp:288-327 | a text parses if and only if it begins with a document, and the value is what that document means |
| `JsonSyntax.ValueSound` | Client/jsoncpp.cpp:329-400 | the tokens of an accepted value form a derivation |
| `JsonSyntax.ItemsSound` | Client/jsoncpp.cpp:641-676 | the tokens of an accepted array are values separated by commas and closed by a bracket, with no comma before the bracket |
| `JsonSyntax.MemberSound` | Client/jsoncpp.cpp:608-635 | the tokens of an accepted member are a colon, a value and a closing brace or a separator with more members; a separator is a comma, or, after a comment, any token but a closing brace |
| `JsonSyntax.ValueComplete` | Client/jsoncpp.cpp:329-400 | every derivation is accepted, up to its last token, as the value it means |
| `JsonSyntax.FieldsComplete` | Client/jsoncpp.cpp:586-639 | so is every member list, a name given twice keeping the later value |
| `JsonLexis.CommentEnds` | Client/jsoncpp.cpp:547-554 | a block comment ends behind the first closing mark, and fails exactly when there is none |
| `JsonLexis.LineCommentEnds` | Client/jsoncpp.cpp:556-563 | a line comment ends behind the first line end, or with the text |
| `JsonLexis.NumberIsRun` | Client/jsoncpp.cpp:565-572 | a number is the longest run of number characters |
| `JsonLexis.StringEnds` | Client/jsoncpp.cpp:574-584 | a string ends at a quote that follows whole characters and whole escape pairs only |
| `JsonLexis.StringFound` | Client/jsoncpp.cpp:574-584 | every such quote is found |
| `JsonLexis.LessIs` | Client/jsoncpp.cpp:1630-1634 | names are ordered by the first byte in which they differ |
| `JsonDecode.Accumulate` | Client/jsoncpp.cpp:707-726 | the 64-bit accumulator never overflows, and gives up exactly when the digits write more than the maximum |
| `JsonDecode.DecodeNumber` | Client/jsoncpp.cpp:688-734 | digits with an optional minus decode to their integer exactly when it fits 64 bits for its sign, and go to the floating-point scanner otherwise |
| `JsonDecode.DecodeUnicodeEscapeSequence` | Client/jsoncpp.cpp:874-900 | the digit loop computes the four-digit number or the first problem |
| `JsonDecode.DecodeString` | Client/jsoncpp.cpp:792-843 | the loop decodes the characters between the quotes up to the first problem |
| `JsonUnicode.Utf8Decodes` | Client/jsoncpp.cpp:100-126 | a separate reader of UTF-8, which takes only shortest forms (section 3 of RFC 3629), gives back every code point up to 0x10FFFF |
| `JsonUnicode.UnitDecodes` | Client/jsoncpp.cpp:845-900 | an escape of one unit, in digits of either case, decodes to UTF-8 that reads as the code point |
| `JsonUnicode.PairDecodes` | Client/jsoncpp.cpp:845-900 | so does the escaped UTF-16 pair of every code point from 0x10000 to 0x10FFFF |
| `JsonUnicode.StringDecodes` | Client/jsoncpp.cpp:792-843 | a string of one such escape decodes to the code point |
| `JsonUnicode.ShortEscapes` | Client/jsoncpp.cpp:803-833 | each short escape stands for its ASCII code |
| `JsonReader.Reader.Match` | Client/jsoncpp.cpp:500-509 | comparing backwards matches exactly the word, and moves the cursor only then |
| `JsonReader.Reader.ReadString` | Client/jsoncpp.cpp:574-584 | the scan ends behind the closing quote, skipping escaped characters, or fails at the end |
| `JsonReader.Reader.ReadCStyleComment` | Client/jsoncpp.cpp:547-554 | the comment ends behind the first closing mark, or fails at the end |
| `JsonReader.Reader.ReadToken` | Client/jsoncpp.cpp:419-488 | the token and the cursor are those of the grammar for every character |
| `JsonReader.Reader.SkipCommentTokens` | Client/jsoncpp.cpp:402-410 | the next token that is not a comment |
| `JsonReader.Reader.RecoverFromError` | Client/jsoncpp.cpp:912-930 | the skip loop ends where the grammar says and adds no error |
| `JsonReader.Reader.ReadValue` | Client/jsoncpp.cpp:329-400 | the top of the node stack becomes the value, the stack below is as before, and the errors are those of the grammar |
| `JsonReader.Reader.ReadObject` | Client/jsoncpp.cpp:586-639 | the object loop, with its pushes and pops, does what the grammar says on every success, error and recovery path |
| `JsonReader.Reader.ReadArray` | Client/jsoncpp.cpp:641-676 | the array loop likewise |
| `JsonReader.Reader.Parse` | Client/jsoncpp.cpp:288-327 | for every text the reader ends, with the value, cursor and errors of the grammar and one node on the stack; it succeeds exactly when there is no error, and exactly when the text begins with a document that means the value |
| `JsonOrder.PutSorted` | Client/jsoncpp.cpp:2404-2424 | inserting a member keeps the names strictly in order |
| `JsonOrder.GetPut` | Client/jsoncpp.cpp:2404-2424 | a lookup after an insertion finds the new value under its name and the old one under every other |
| `JsonOrder.ParsedOrdered` | Client/jsoncpp.cpp:586-639 | whatever the text and the value it is read into, every object in the parsed document has each name once and in order |
| `JsonRoundTrip.IntegerRead` | Client/jsoncpp.cpp:3023-3042 | a printed 64-bit integer decodes to itself |
| `JsonRoundTrip.StringRead` | Client/jsoncpp.cpp:792-843 | an escaped string decodes to itself |
| `JsonRoundTrip.HeadLexed` | Client/jsoncpp.cpp:419-488 | the next token read is the next token written, whatever white space is between |
| `JsonParse.ToksLexemes` | Client/jsoncpp.cpp:3182-3228 | no number a writer prints runs into what follows it |
| `JsonParse.ValueRead` | Client/jsoncpp.cpp:329-676 | from any position before a value's tokens, reading gives the value and stops before the rest |
| `JsonParse.ParsedBack` | Client/jsoncpp.cpp:288-327 | any text that spaces out the tokens of a value parses to that value, without error, using up the text |
| `JsonParse.RealBack` | Client/jsoncpp.cpp:688-781 | the text of a floating-point number is read as that number exactly when it does not write an integer that fits and the scanner gives it back; one that does write such an integer is read as the integer |
| `JsonParse.TokensFound` | Client/jsoncpp.cpp:419-488 | the tokens found in such a text are exactly those it was made from |
| `JsonPrint.UintToString` | Client/jsoncpp.cpp:145-151 | the digits are written downward within twenty-one bytes of the end |
| `JsonPrint.ValueToString` | Client/jsoncpp.cpp:3023-3042 | the printed text is the decimal numeral, and the cursor never leaves the buffer |
| `JsonPrint.ValueToQuotedString` | Client/jsoncpp.cpp:3095-3155 | the shortcut for strings without special characters and the escaping loop print the same text |
| `JsonWriter.FastWriter.WriteValue` | Client/jsoncpp.cpp:3182-3228 | the document grows by the value's tokens with nothing between them |
| `JsonWriter.FastWriter.Write` | Client/jsoncpp.cpp:3174-3180 | the text is the tokens and a line feed |
| `JsonWriter.StyledWriter.WriteIndent` | Client/jsoncpp.cpp:3374-3383 | only white space is added |
| `JsonWriter.StyledWriter.IsMultilineArray` | Client/jsoncpp.cpp:3342-3365 | the document is untouched, and collected texts are those of all items |
| `JsonWriter.StyledWriter.WriteArrayValue` | Client/jsoncpp.cpp:3299-3340 | both layouts add exactly the array's tokens, and the indentation and the collecting flag are restored |
| `JsonWriter.StyledWriter.WriteValue` | Client/jsoncpp.cpp:3247-3297 | the document grows by the value's tokens, or one text is collected; indentation and flag are restored |
| `JsonWriter.StyledWriter.Write` | Client/jsoncpp.cpp:3236-3245 | the text spaces out the value's tokens, and the indentation is empty again |
| `JsonDocument.ConcatSpaced` | Client/jsoncpp.cpp:3182-3228 | tokens written without white space are still read as those tokens |
| `JsonDocument.WriteBoth` | Client/jsoncpp.cpp:3174-3395 | for every value, floating point included, both writers print the value's tokens and so the same tokens |
| `JsonDocument.WriteAndRead` | Client/jsoncpp.cpp:3174-3395 | for every value of null, booleans, 64-bit integers, floating-point numbers that scan back, NUL-free strings, arrays and objects, the reader gives the value back from either writer's text |
| `CpuCores.NeverPastTheLast` | Resource/CPUResource.cpp:40-86 | a thread with a token always has a socket left to try, and inside a socket a core left to look at: neither assertion can fail, whether or not other threads run between a flag's test and its clearing |
| `CpuCores.StepKeeps` | Resource/CPUResource.cpp:40-138 | every step, with test and clearing together or apart, keeps the invariant: tokens match the threads inside, a cleared flag has a holder, and free cores from any position on cover the threads still to look there beside the cores about to be taken |
| `CpuCores.EveryRunSafe` | Resource/CPUResource.cpp:40-138 | in every interleaving of any number of threads over any sockets no assertion fails, with test and clearing together or apart |
| `CpuCores.EveryRunConserves` | Resource/CPUResource.cpp:102-138 | once all threads are idle every token and every core is back, even after cores were held twice |
| `CpuCores.TokenGetsCore` | Resource/CPUResource.cpp:54-66 | a thread that took a global token holds a core after a bounded number of its own steps, however the others are scheduled and whether or not test and clearing are one step |
| `CpuCores.TokenIsCore` | Resource/CPUResource.cpp:72-86 | each token of a socket stands for a free core that no thread has seen, beside those that cover the threads inside |
| `CpuRace.AtomicExclusive` | Resource/CPUResource.cpp:72-86 | with a flag's test and its clearing in one step no core is ever held twice |
| `CpuRace.OverflowKept` | Resource/CPUResource.cpp:54-66 | only the threads that the sockets before it cannot hold come to a socket |
| `CpuRace.NoMeetingExclusive` | Resource/CPUResource.cpp:72-86 | no core is held twice where at most one thread can be inside each socket of two cores or more |
| `CpuRace.Meeting` | Resource/CPUResource.cpp:54-86 | where two threads can meet, there is a run in which both hold core 0 of that socket |
| `CpuRace.ExclusiveExactly` | Resource/CPUResource.cpp:40-138 | for given socket sizes and n threads, no core is ever held twice if and only if every socket has at most one core or at least n - 1 cores before it, or test and clearing are one step |
| `CpuRace.RaceHoldsTwice` | Resource/CPUResource.cpp:72-86 | one socket of two cores and two threads: the schedule in which both hold core 0 |
| `CpuCores.Socket.TryApplyCore` | Resource/CPUResource.cpp:72-86 | the id of the first free core, -1 without a token, and a failed assertion exactly for a token without a free core, which a valid socket does not have |
| `CpuCores.Socket.FreeCore` | Resource/CPUResource.cpp:128-138 | the first core with the id is free again and has a token; the tokens still match exactly when it was taken; unknown ids change nothing |
| `CpuCores.Socket.AddCore` | Resource/CPUResource.cpp:118-126 | a new core, whatever its id, is free and has a token |
| `DaemonQueues.GuardedKept` | Daemon/Daemon.cpp:121-158 | each step keeps a queue's length equal to its tokens, unposted pushes and unfinished waits together, so no pop meets an empty queue |
| `DaemonQueues.OrderKept` | Daemon/Daemon.cpp:121-158 | what left a queue followed by what is in it is what entered |
| `DaemonQueues.ConservedKept` | Daemon/Daemon.cpp:92-158 | for each connection, submitted commands are those queued, running and answered |
| `DaemonQueues.KeptKept` | Daemon/Daemon.cpp:92-158 | each step keeps every whole command as often as it was submitted: queued, running and finished together |
| `DaemonQueues.SubmittedIs` | Daemon/Daemon.cpp:92-158 | the submitted commands are those of the submissions that took place, in order |
| `DaemonQueues.ProducedIs` | Daemon/Daemon.cpp:92-158 | the results are the outputs of the commands that finished, in order |
| `DaemonQueues.EveryRunSafe` | Daemon/Daemon.cpp:92-158 | in every interleaving no pop meets an empty queue, commands are taken and results delivered in order, the submitted commands are as a multiset those queued, running and finished, and the i-th result carries the connection of the i-th finished command and the i-th output |
| `DaemonQueues.EveryRunDrains` | Daemon/Daemon.cpp:92-158 | with empty queues and resting workers every command has been answered on its connection |
| `DaemonQueues.CommandsMove` | Daemon/Daemon.cpp:121-137 | a queued command whose push is posted can be taken by some worker |
| `HashChains.AlignedSpaceLeast` | common/hashtable.h:41-44 | a bucket's space is the least number of cache lines for the tuple space and both words |
| `HashChains.SlotsDisjoint` | common/hashtable.cpp:179-239 | two slots of a table never overlap, and none reaches into any bucket's free or next word |
| `HashChains.ExtendedOk` | common/hashtable.cpp:182-193 | a slot in the first bucket keeps the chain in order |
| `HashChains.PushedOk` | common/hashtable.cpp:228-238 | a new first bucket in front of a full one keeps the chain in order, so all buckets but the first are full |
| `HashChains.SlotAdded` | common/hashtable.cpp:179-239 | either way exactly the one slot is added |
| `HashTable.BasicHashTable.constructor` | common/hashtable.cpp:32-64 | a new table is empty, and a bucket has room for a tuple |
| `HashTable.BasicHashTable.Allocate` | common/hashtable.cpp:179-239 | the slot is behind the first bucket's last one if there is room, else a new bucket's start; all other chains are untouched and the overflow counts are the chain lengths |
| `HashTable.BasicHashTable.PlaceIterator` | common/hashtable.h:129-143 | the iterator stands before the first slot of the chain |
| `HashTable.Iterator.ReadNext` | common/hashtable.h:79-95 | returns the next slot of the chain and moves on, or null exactly at the end |
| `HashTable.Iterator.ReadCurrent` | common/hashtable.h:97-106 | the current slot, or null behind the last of the bucket |
| `HashTable.Iterator.IncreaseCur` | common/hashtable.h:108-118 | moves on by exactly one slot, from behind a bucket to the next bucket without passing any, and stays put at the end |
| `HashTable.ReadAll` | common/hashtable.h:79-95 | repeated readnext gives all slots of the chain, once each, in order |
| `HashTable.ScanAll` | common/hashtable.h:97-118 | readCurrent with increase_cur_ gives the same slots in the same order |
| `HashTable.AllocateAll` | common/hashtable.cpp:179-239 | after any sequence of allocations the returned slots do not overlap, stay clear of every bucket's words, and are for each hash value exactly its slots |
| `HashTable.HandedNext` | common/hashtable.cpp:179-239 | a new slot overlaps none given out before |
| `HashTable.AllocateAndRead` | common/hashtable.h:79-118 | both ways of iterating then give exactly the slots returned for the hash value, once each and in the same order |
| `PartitionBinding.FirstFitFinds` | catalog/projection_binding.cpp:75-122 | a full round over the nodes fails exactly when no node has room |
| `PartitionBinding.RoundRobinUnique` | catalog/projection_binding.cpp:64-134 | the placement is determined by the budgets and sizes |
| `PartitionBinding.NotBoth` | catalog/projection_binding.cpp:64-134 | a projection is either placed in full or stuck at a partition that fits nowhere, never both |
| `PartitionBinding.RoundRobinGoesRound` | catalog/projection_binding.cpp:64-134 | every place is reached from behind the one before it past nodes without room only |
| `PartitionBinding.DealtInTurn` | catalog/projection_binding.cpp:64-134 | when every node has room for the whole projection, partition i goes to node i mod n |
| `PartitionBinding.RoomPlacesAll` | catalog/projection_binding.cpp:64-134 | and then every partition is placed |
| `PartitionBinding.BoundOk` | catalog/projection_binding.cpp:136-147 | binding a placed projection keeps every node's used budget equal to what is located on it and within its allocation |
| `PartitionBinding.UnboundOk` | catalog/projection_binding.cpp:160-192 | so does unbinding |
| `PartitionBinding.BindUnbind` | catalog/projection_binding.cpp:50-192 | returning what a bind took restores every budget |
| `PartitionBinding.Master.FindNode` | catalog/projection_binding.cpp:75-122 | at most one attempt for each node; the node taken is the first with room, and failure means that no node has room |
| `PartitionBinding.Master.PlaceAll` | catalog/projection_binding.cpp:60-134 | each partition goes to the first node with room, going round from behind the last one taken; when every node has room for all of them, partition i goes to node i mod n; on failure no node has room for the next one |
| `PartitionBinding.Master.BindEntireProjection` | catalog/projection_binding.cpp:50-158 | the partitions are bound going round the nodes, each to the first with room, or in turn when every node has room for all, and the budgets are those takes; or the next partition fits nowhere and the takes before it stay; a bound projection is left alone |
| `PartitionBinding.Master.UnbindEntireProjection` | catalog/projection_binding.cpp:160-192 | every partition is unbound, and its budget is back on the node it was located on |
| `PartitionBinding.Master.RunOps` | catalog/projection_binding.cpp:50-192 | the cluster is that of performing the operations in turn; the run ends early exactly when a bind gets stuck; capacities and sizes never change, and a run that ends has balanced budgets |
| `PartitionBinding.PerformedKeeps` | catalog/projection_binding.cpp:50-192 | each operation keeps capacities and sizes, and, unless it gets stuck, balanced budgets and whole projections |
| `PartitionBinding.EveryRunBalanced` | catalog/projection_binding.cpp:50-192 | over every run of binds and unbinds up to a failed bind, each node's used budget equals the sizes located on it, within its unchanged capacity, and each projection is wholly bound or wholly unbound |
| `PartitionBinding.StopsWhenStuck` | catalog/projection_binding.cpp:60-134 | a run stops exactly when an operation binds an unbound projection of which some partition, given the takes before it, fits on no node |
| `PartitionBinding.AllBound` | catalog/partitioner.cpp:179-186 | true exactly when every partition has a location |
| `FilterKernel.ProcessedKeeps` | codegen/ExpressionGenerator.h:27-50 | a call appends exactly the passing tuples it moved over, leaves the rest of the buffer alone, and stops only at the end of the input or before a passing tuple when the output is full |
| `FilterKernel.ProcessFunc` | codegen/ExpressionGenerator.h:27-50 | the reference loop leaves buffer and cursors as specified |
| `FilterKernel.GraphRefinesLoop` | codegen/ExpressionGenerator.cpp:137-210 | from the loop condition the emitted blocks reach the exit with the reference's buffer and cursors |
| `FilterKernel.EmittedRefinesReference` | codegen/ExpressionGenerator.cpp:104-213 | so does the emitted graph from its entry block |
| `FilterKernel.FillBlock` | codegen/ExpressionGenerator.h:27-50 | one call into a new block gives the passing tuples of the part read, and a block with room left means the input is used up |
| `FilterKernel.FilterAll` | codegen/ExpressionGenerator.h:27-50 | calls into blocks of any capacities concatenate to the filtered input, nothing lost or repeated at a full block |
| `ThroughputWindow.PerformanceInfo.EclipseTimeSlices` | common/ExpandedThreadTracker.cpp:143-152 | the in-place shift drops the oldest counts for every 32-bit offset, index wrap-around included |
| `ThroughputWindow.PerformanceInfo.HitCurrentSlice` | common/ExpandedThreadTracker.cpp:154-156 | one more hit in the current slice |
| `ThroughputWindow.PerformanceInfo.UpdateTimeSlicesToCurrentTicks` | common/ExpandedThreadTracker.cpp:158-167 | the counts are shifted by the gap cut to 32 bits, and the window still shows its slices' hits when the gap is seen right |
| `ThroughputWindow.PerformanceInfo.ProcessedOneBlock` | common/ExpandedThreadTracker.cpp:46-72 | a block is charged to the slice of the second reading when the first is not in the current slice, even if older, and each count still shows the hits of its slice when the gap is seen right |
| `ThroughputWindow.PerformanceInfo.GetBlockSumInAllSlices` | common/ExpandedThreadTracker.cpp:173-181 | the sum is what the ten most recent slices show |
| `ThroughputWindow.ShiftedShows` | common/ExpandedThreadTracker.cpp:143-152 | shifting by the slices passed shows the same history from the later slice |
| `ThroughputWindow.TruncationExact` | common/ExpandedThreadTracker.cpp:158-167 | cutting the gap to 32 bits gives the right window for all counts if and only if the gap is below ten or its low 32 bits are not |
| `ThroughputWindow.LongPauseKeepsOldCounts` | common/ExpandedThreadTracker.cpp:158-167 | a pause of 2^32 slices leaves old counts standing |
| `ThroughputWindow.RecentIsHitsSince` | common/ExpandedThreadTracker.cpp:173-181 | below 2^32 hits the sum is the number of hits in the last ten slices |
| `RangePartition.GetLogarithm` | common/hash.cpp:30-38 | for every 32-bit k above zero, the least exponent e with 2^e >= k |
| `RangePartition.LeastIsLeast` | common/hash.cpp:27-38 | no smaller exponent reaches k |
| `RangePartition.Exponent` | common/hash.cpp:40-45 | the number of buckets is the documented next power of two if and only if k >= 2 |
| `RangePartition.OneBucketBecomesTwo` | common/hash.cpp:40-45 | for k = 1 the documented exponent is 0 and the constructor's is 1 |
| `RangePartition.BucketIsRun` | common/hash.h:124-128 | a bucket is a run of consecutive values |
| `RangePartition.BucketsMonotone` | common/hash.h:124-128 | larger values do not go to smaller buckets, and every bucket number is below the number of buckets |
| `RangePartition.BucketsEven` | common/hash.h:124-128 | the distance between bucket starts is the floor or the ceiling of an equal share |
| `RangePartition.BucketsCover` | common/hash.h:124-128 | the buckets start at the range's first value and end behind its last |
| `RangePartition.BucketSizes` | common/hash.h:124-128 | the number of values of the range in each bucket is the floor or the ceiling of an equal share |
| `RangePartition.GetPartitionValue` | common/hash.h:124-128 | the 64-bit shift does not overflow and the result is the bucket |

## Left out

- CSB+ tree `Insert`, `InsertInternalNode`, `SearchLeafNode` and `Delete` on whole trees: the split of a parent is unfinished in the source (IndexManager/CSBPlusTree.cpp:1594-1667) and `Delete` is empty.
- `CSBIndexBuilding`, `IndexScanIterator` and the index catalogue: their calls into the tree are commented out.
- Node capacities: `maxKeys` and `maxDatas` are parameters of at least 2 rather than the byte formulas of the header; `ceil` on doubles is the integer ceiling.
- Pointers of the CSB+ tree are handles, and freeing memory (`DeleteChildren`, `ClearTree`) is not modelled.
- Reads past a node's used keys, whose result the code then discards, and the printed search path are not modelled.
- CsbDisk.Deserialize: reads a file that `Serialize` wrote for a tree; the empty file of an empty index leaves the source reading nothing and is not modelled.
- JSON floating point: scanning and printing are foreign calls. A number is the text it prints as, and scanning is a parameter that gives that text.
- JSON comments are skipped as the reader does, but not collected or printed; `StyledStreamWriter`, `Path` and the writers' optional flags are not modelled.
- JsonPrint.ValueToString: the least 64-bit integer is negated with wrap-around, as two's complement machines do; the C++ standard leaves it open.
- JSON error messages are kinds with a token, and `Value` offsets (`setOffsetStart`, `setOffsetLimit`) are not modelled.
- CpuRace.AtomicExclusive: is about a version of the code with a lock around test and clearing.
- CpuCores.EveryRunSafe: a thread frees only a core it holds; `sched_getcpu` and NUMA lookups are not modelled.
- DaemonQueues.EveryRunSafe: a command's execution is an arbitrary output on the command's connection; the singleton and the thread creation are not modelled.
- HashTable.BasicHashTable.Allocate: the pool's pages are given, positive and apart; integer width and the per-bucket spin locks are not modelled, one allocation is one step.
- PartitionBinding.Master.BindEntireProjection: nodes are positions in the slave list, of which there is at least one, there is one storage level with a budget, `unsigned` to `int` conversion is not modelled, and messages to the block manager are left out; the HDFS level takes no budget.
- PartitionBinding.Master.RunOps: ends at a failed bind, which keeps its lock and the budgets it took.
- FilterKernel.ProcessFunc: tuples are values of any type, so the 32-bit product of cursor and tuple length and the alignment of the copy are not modelled.
- FilterKernel.EmittedRefinesReference: the emitted scalar expression is the predicate itself; expression code generation is left out because its instructions do not follow the operator for every type.
- ThroughputWindow.PerformanceInfo.ProcessedOneBlock: starts from the constructor's aligned window; `initialize` sets an unaligned start. The scalability vector and the report in megabytes are floating point and left out.
- RangePartition.GetPartitionValue: the int overload only; the others convert a 64-bit or floating-point value first. `ModuloHashFunction` is a single mask, and `RoundRobinPartitionFunction` draws a random number.
- `ExpanderTracker`, `InsertOptimizedHashTable`, sockets, actors, HDFS and disk I/O, logging, configuration and the SQL front end are left out.
