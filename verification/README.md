# A verified model of INET's data structures and protocol cores

Each file models one component of the framework as the source has it, and proves what the component is for.

- `IntervalTree.dfy`: the red-black interval tree on heap objects, with two sentinels, parent pointers and the `max_high` augmentation. A ghost in-order sequence says what insertion, deletion and the overlap query do.
- `Topology.dfy`: the graph with its link lists, the sorted-list shortest-path search with node weights and enabled flags, and the breadth-first search.
- `PatternMatcher.dfy`: the tokenizer and the backtracking matcher, against the language that the pattern describes.
- `Common.dfy`: an option type, sequences without repetition, and powers of two.
- `Bits.dfy` and `Int128.dfy`: 128-bit integers in two machine words, division, printing and reading.
- `Macho.dfy`: the engine of hierarchical state machines, with histories and chained init transitions.
- `ReassemblyBuffer.dfy`: fragments of a datagram in any order (section 3.2 of RFC 791, section 4.5 of RFC 8200).
- `DHCPClient.dfy`: the client's states, timers and messages (section 4.4 and Figure 5 of RFC 2131).
- `KShortestPaths.dfy`: the search for K routes to every node.
- `Dijkstra.dfy`: the single-source search with lazy deletion, and the links whose removal disconnects a network.
- `Units.dfy`: conversion between units of measurement.
- `ByteArrayBuffer.dfy`: a queue of bytes in chunks.

`dafny verify dfyconfig.toml` checks everything.

Conventions. Objects that the source updates in place are classes; values that it copies (list elements, map entries, messages, leases, edges) are datatypes. A C string is the sequence of its characters, and a cursor into it the rest of the string. Doubles are exact numbers, with infinity where the source uses it. Machine integers wrap around where the source relies on it: 128-bit arithmetic, the division's bit index, module IDs, and the sum in `copyDataToBuffer`. What the user of the state machine engine decides is a script of decisions, and what the network and the clock do in the DHCP client are the arguments of its steps. Loops of the source whose bodies are long are methods that call one method for a turn of the loop.

Where the code differs from what it promises:

- `query` misses intervals when it starts at the smallest time, because the nil sentinel carries that value: an empty left branch is searched, has no hit, and has the right branch skipped. `Query` gives the exact condition, in terms of the nodes without a left child, and `QueryFromSmallestTimeMisses` builds a tree of two intervals that fails.
- `operator<` of 128-bit integers orders two negatives with equal high words as signed low words; `LessExactlyWhen` gives the exact set of pairs it orders wrongly.
- In the DHCP client, an offer without an address leads to a request without a lease (`HandleDHCPMessage`).
- The client takes the times of an acknowledgement as they come. If T2 is the first of T1, T2 and the end of the lease, it goes off in BOUND and stops the client with an error (`Tick`).
- Section 4.4.5 of RFC 2131 wants the end of the lease to end the use of its address. The client cancels the lease timer and keeps the address in the first timer step after T1, be it T2 or the response timeout, and in no other step (`Tick`, `HandleDHCPMessage`). After T2 it waits in REBINDING past the end of the lease exactly when less than the response timeout was left, and the address also stays through the response timeout that follows, into SELECTING, however much was left.
- A backslash before `[` does not hide a number range from the tokenizer: `\[1..2]` describes `[1]` (`BackslashedRangeIsARange`). `BackslashHidesExactlyWhen` gives the exact condition for every character and tail, behind any plain text.
- The reader of 128-bit numbers takes one letter too many as a digit, `a` in radix ten and `g` in radix sixteen, so `1a` is 20 (`ExtraLetterIsRead`). `ParsedExactlyWhen` gives the exact set of texts that are read as numerals usually are.
- The absolute value of the smallest 128-bit number does not fit. Dividing that number gives quotient 0 and the number as the remainder (`Div`), it is written `-0` (`ToString`), and dividing by it does not end (`SmallestDivisorNeverEnds`).
- The fourth power in the units library returns a reference to its local variable. A conversion between units that come down to different ones reads it if either unit has a power with `n / d == 4` inside (`ConvertMeaning`, `FourthPowerDangles`).
- The search for K routes replaces a label of a node with K labels only if a tentative one is worse than the largest cost there is, so with ordinary costs the first K labels stay, however bad they are (`OfferLabel`).
- The single-source search by width gives a better label a new cost and leaves its old width (`FollowEdge` in `Dijkstra.dfy`), so the width of a route is not what its label says.
- `copyDataToBuffer` adds 32-bit numbers before it clips; `CopyLengthIsClipped` gives the exact condition.

## Model

| member | source | states |
|---|---|---|
| IntervalTrees.IntervalTree.constructor | src/inet/common/IntervalTree.cc:57-76 | an empty tree: two black sentinels, every invariant holds |
| IntervalTrees.IntervalTree.LeftRotate | src/inet/common/IntervalTree.cc:115-137 | the in-order sequence stays, as do links, spans and max_high; exactly which links turn, and that nothing else changes |
| IntervalTrees.IntervalTree.RightRotate | src/inet/common/IntervalTree.cc:139-160 | the mirror image of LeftRotate |
| IntervalTrees.IntervalTree.RecursiveInsert | src/inet/common/IntervalTree.cc:163-184 | the descent hangs the node at a leaf: the sequence gains it behind all keys that are not larger |
| IntervalTrees.IntervalTree.FixupMaxHigh | src/inet/common/IntervalTree.cc:186-193 | if max_high is wrong only above the new node, it is right everywhere afterwards |
| IntervalTrees.IntervalTree.Recolor | src/inet/common/IntervalTree.cc:212-218 | one turn of the recolouring loop: the only possible red pair moves two levels up, black heights stay equal, nothing else changes |
| IntervalTrees.IntervalTree.InsertFixupLeft | src/inet/common/IntervalTree.cc:206-230 | one turn of the repair loop on the left: recolour or rotate, and no red node keeps a red child below |
| IntervalTrees.IntervalTree.InsertFixupRight | src/inet/common/IntervalTree.cc:231-253 | the same on the right |
| IntervalTrees.IntervalTree.Insert | src/inet/common/IntervalTree.cc:195-256 | adds exactly the new interval: the sequence is Inserted(old sequence, node), and order, colours, black heights, max_high, parents and sentinels are valid again; with no red node before, the top of the tree stays |
| IntervalTrees.InsertedAt | src/inet/common/IntervalTree.cc:163-184 | Inserted puts the node at one position, behind every key that is not larger and before every larger one |
| IntervalTrees.InsertedKeeps | src/inet/common/IntervalTree.cc:163-184 | and keeps the sequence sorted and free of duplicates |
| IntervalTrees.IntervalTree.GetMinimum | src/inet/common/IntervalTree.cc:258-263 | the first node of the subtree in order |
| IntervalTrees.IntervalTree.GetMaximum | src/inet/common/IntervalTree.cc:265-270 | the last node of the subtree in order |
| IntervalTrees.IntervalTree.GetSuccessor | src/inet/common/IntervalTree.cc:272-288 | the next node in order; the root sentinel after the last |
| IntervalTrees.IntervalTree.GetPredecessor | src/inet/common/IntervalTree.cc:290-306 | the node before in order; nil before the first |
| IntervalTrees.IntervalTree.DeleteFixup | src/inet/common/IntervalTree.cc:345-416 | a subtree one black node short is repaired, with the sequence unchanged, although the top of the tree is read only once before the rotations |
| IntervalTrees.IntervalTree.DeleteNode | src/inet/common/IntervalTree.cc:443-500 | removes exactly that node from the sequence and restores every invariant |
| IntervalTrees.WithoutAt | src/inet/common/IntervalTree.cc:443-500 | removing a node from the sequence removes its position and nothing else |
| IntervalTrees.WithoutKeeps | src/inet/common/IntervalTree.cc:443-500 | and keeps it sorted and free of duplicates |
| IntervalTrees.ReplacedSuccessor | src/inet/common/IntervalTree.cc:448-497 | taking out the successor and then putting it in the node's place is the same as taking out the node |
| IntervalTrees.IntervalTree.RecursiveSearch | src/inet/common/IntervalTree.cc:425-441 | finds a node that holds the interval exactly if there is one |
| IntervalTrees.IntervalTree.DeleteInterval | src/inet/common/IntervalTree.cc:418-423 | removes one node of that interval, or nothing if it is not stored |
| IntervalTrees.OverlapIsSharedInstant | src/inet/common/IntervalTree.cc:503-513 | for proper intervals overlap means that some instant lies in both |
| IntervalTrees.IntervalTree.MaxHighBounds | src/inet/common/IntervalTree.cc:149-155 | max_high bounds every high below a node, and is attained |
| IntervalTrees.IntervalTree.NothingReachesLow | src/inet/common/IntervalTree.cc:530-547 | a subtree whose max_high is before the query holds no overlap |
| IntervalTrees.IntervalTree.PushedBranch | src/inet/common/IntervalTree.cc:530-545 | a pushed right branch may be skipped later if the left one has no hit |
| IntervalTrees.LaterKeysMiss | src/inet/common/IntervalTree.cc:550-559 | the argument for skipping: keys to the right of a miss that reaches the query miss it too |
| IntervalTrees.PopAccounted | src/inet/common/IntervalTree.cc:550-559 | taking an entry off the stack loses no hit, whether its right branch is entered or skipped |
| IntervalTrees.HitAccounted | src/inet/common/IntervalTree.cc:525-529 | a reported hit is counted once, and flags the entry whose branch it lies in |
| IntervalTrees.IntervalTree.Query | src/inet/common/IntervalTree.cc:515-562 | after the smallest time, and with every stored interval proper (low <= high): exactly the stored intervals that overlap, each once; from the smallest time on: exactly the overlapping ones among the visible nodes, which are all overlapping ones if and only if no node without a left child has a right child that starts by the end of the query; the stack top is back at 1 |
| IntervalTrees.IntervalTree.Reach | src/inet/common/IntervalTree.cc:530-559 | the witness for skipping a right branch: a node on the left that reaches the query and starts no later; at the smallest time the left child itself, or nothing to skip |
| IntervalTrees.IntervalTree.VisibleHits | src/inet/common/IntervalTree.cc:515-562 | below any node, the hits that a query from the smallest time can come to are all hits where no node hides its right child, and strictly fewer where one does |
| IntervalTrees.IntervalTree.AllVisible | src/inet/common/IntervalTree.cc:515-562 | so all hits are visible if and only if no node of the tree hides its right child |
| IntervalTrees.IntervalTree.LoneRightChild | src/inet/common/IntervalTree.h:96-98 | a node without a left child has at most a leaf on its right, so what is missed is right children and nothing below them |
| IntervalTrees.IntervalTree.QueryFromSmallestTimeMisses | src/inet/common/IntervalTree.cc:515-562 | the failing input, built with two insertions: of two intervals in the order of their keys, a query from the smallest time that both overlap returns only the first |
| IntervalTrees.IntervalTree.BlackHeightBounds | src/inet/common/IntervalTree.h:96-98 | a subtree of black height b holds at least 2^b - 1 nodes and is at most twice as high |
| IntervalTrees.IntervalTree.HeightIsLogarithmic | src/inet/common/IntervalTree.h:46-48 | n nodes make a tree of height at most 2 * log2(n + 1) |
| Topologies.Topology.AddNode | src/inet/common/Topology.cc:250-263 | insertion keeps the nodes sorted by unsigned module ID, and the graph well formed |
| Topologies.Topology.LowerBound | src/inet/common/Topology.cc:258-261 | the binary search splits the nodes at the first ID that is not less |
| Topologies.Topology.GetNodeFor | src/inet/common/Topology.cc:363-370 | finds the node of a module exactly if the graph has one |
| Topologies.Topology.DeleteNode | src/inet/common/Topology.cc:265-289 | removes the node and exactly the links at it; the other nodes keep their remaining links in the old order; a self-loop leaves both lists of the node, and every find succeeds |
| Topologies.Topology.AddLink | src/inet/common/Topology.cc:291-308 | the new link comes behind the others in both link lists, and the lists stay in agreement |
| Topologies.Topology.DeleteLink | src/inet/common/Topology.cc:333-338 | both link lists lose the link and keep their order |
| Topologies.Topology.UnlinkFromSourceNode | src/inet/common/Topology.cc:340-346 | the outgoing lists hold exactly the links but one, in their old order |
| Topologies.Topology.UnlinkFromDestNode | src/inet/common/Topology.cc:348-354 | the incoming lists hold exactly the links but one, in their old order |
| Topologies.ErasedAt | src/inet/common/Topology.cc:340-354 | what is erased from a list is one entry, and the others stay in their order |
| Topologies.Topology.InsertNode | src/inet/common/Topology.cc:258-262 | a node without links at any place keeps the graph well formed |
| Topologies.InsertByDist | src/inet/common/Topology.cc:459-465 | the node comes behind all entries that are not farther and before all that are, and the others keep their places |
| Topologies.RemovedIsOrdered | src/inet/common/Topology.cc:454-455 | removal keeps the queue ordered |
| Topologies.Topology.RelaxLink | src/inet/common/Topology.cc:438-466 | following one link keeps the labels' routes and the queue, and settles the link |
| Topologies.Topology.Improve | src/inet/common/Topology.cc:453-466 | a cheaper label is given only to a node that has not left the queue; if it is labelled, it is in the queue |
| Topologies.Topology.Dequeued | src/inet/common/Topology.cc:430-432 | the front of the queue has never left it before, and all that is done is no farther than what is queued |
| Topologies.Topology.WeightedShortestPathsTo | src/inet/common/Topology.cc:412-469 | every node gets the cost of the cheapest enabled path, or infinity; the outPaths of a labelled node form such a path; nodes leave the queue once each, in order of distance; the two weight assertions are asked of the nodes and links that the search comes to, and of no others |
| Topologies.Topology.NoCheaperPath | src/inet/common/Topology.cc:412-469 | once no link can improve a label, no path is cheaper than the label it starts from |
| Topologies.Topology.RouteFollowsOutPaths | src/inet/common/Topology.cc:456-457 | the route of a label is the chain of outPaths |
| Topologies.Topology.FinishedIsSolved | src/inet/common/Topology.cc:430-468 | an empty queue means that all distances are right |
| Topologies.Topology.UnweightedShortestPathsTo | src/inet/common/Topology.cc:372-410 | the breadth-first search gives every node its least number of enabled links, and outPaths that realise it |
| Topologies.DistanceIsUnique | src/inet/common/Topology.cc:372-469 | a node has one distance only |
| Topologies.UnitWeightsCountHops | src/inet/common/Topology.cc:372-469 | with unit link weights and free nodes the two searches assign the same distance, for any graph and any enabled flags |
| Topologies.Topology.SearchesAgree | src/inet/common/Topology.cc:372-469 | so both searches, run one after the other on such a graph, leave the same dist at every node |
| PatternMatchers.IsInSet | src/inet/common/PatternMatcher.cc:245-256 | true exactly if some pair of the set encloses the character |
| PatternMatchers.PatternMatcher.ParseNumRange | src/inet/common/PatternMatcher.cc:164-191 | reads a number range exactly where there is one, and leaves the cursor otherwise |
| PatternMatchers.RangeReadsBack | src/inet/common/PatternMatcher.cc:164-191 | two limits, each of which may be omitted, between any brackets are read for those limits |
| PatternMatchers.BracketRangeReadsBack | src/inet/common/PatternMatcher.cc:164-191 | behind plain text a number range in brackets is read as one, whichever of its limits is omitted |
| PatternMatchers.BracketRangeDescribes | src/inet/common/PatternMatcher.h:72-76 | it describes exactly the text, the opening bracket, a number within the limits that are given, and the closing bracket |
| PatternMatchers.BraceRangeDescribes | src/inet/common/PatternMatcher.h:72-76 | a range in braces describes exactly the numbers within the limits that are given |
| PatternMatchers.SetOfChars | src/inet/common/PatternMatcher.cc:112-146 | characters in braces describe exactly one character among them, and behind a caret one that is not among them |
| PatternMatchers.PatternMatcher.ParseLiteralString | src/inet/common/PatternMatcher.cc:148-162 | reads the literal of the token grammar, stopping before a bracketed range even behind a backslash |
| PatternMatchers.PatternMatcher.ParseSet | src/inet/common/PatternMatcher.cc:112-146 | reads the ranges of the token grammar, or fails without a closing brace |
| PatternMatchers.PatternMatcher.ParseToken | src/inet/common/PatternMatcher.cc:58-94 | one token of the token grammar |
| PatternMatchers.PatternMatcher.SetPattern | src/inet/common/PatternMatcher.cc:49-110 | the pattern is the token list of the grammar, with ** added at both ends in substring mode; termination although a literal may be read without moving the cursor |
| PatternMatchers.TokensReadBack | src/inet/common/PatternMatcher.cc:49-110 | every list of writable tokens, written as a pattern, is tokenized to itself; a closing brace may stand in first place of a set |
| PatternMatchers.TokensAreWritable | src/inet/common/PatternMatcher.cc:49-110 | every pattern that is accepted gives a list of writable tokens |
| PatternMatchers.WritableExactlyWhen | src/inet/common/PatternMatcher.cc:49-110 | so the token lists of patterns are exactly the writable ones |
| PatternMatchers.BackslashHidesExactlyWhen | src/inet/common/PatternMatcher.cc:148-162 | for every character c and every tail, behind any plain text: the pattern with a backslash before c describes the text, c and a line of the tail if and only if c is not the bracket of a number range that a bracket closes |
| PatternMatchers.BackslashReadsExactlyWhen | src/inet/common/PatternMatcher.cc:148-162 | the same on the tokens: the text and c become one literal in front of the tail's tokens under exactly that condition |
| PatternMatchers.RangeInSpite | src/inet/common/PatternMatcher.cc:148-162 | otherwise the bracket is the literal, and the range is read as a range |
| PatternMatchers.BackslashedRangeIsARange | src/inet/common/PatternMatcher.cc:148-162 | an input: a backslash before [1..2] gives a pattern that describes the text [1] and not the text [1..2] |
| PatternMatchers.DescribesIsReaches | src/inet/common/PatternMatcher.h:32-78 | splitting the whole line at once and token by token are the same language |
| PatternMatchers.NumberTakesTheRun | src/inet/common/PatternMatcher.cc:307-315 | a number takes the whole run of digits, neither more nor less |
| PatternMatchers.PatternMatcher.DoMatch | src/inet/common/PatternMatcher.cc:258-356 | true exactly if the line is in the language of the remaining tokens |
| PatternMatchers.PatternMatcher.MatchSequence | src/inet/common/PatternMatcher.cc:326-344 | * and ** try every place they may stop at |
| PatternMatchers.LastAnySeq | src/inet/common/PatternMatcher.cc:317-322 | the shortcut for a pattern that ends in ** |
| PatternMatchers.LastAnySeqLiteral | src/inet/common/PatternMatcher.cc:323-324 | the shortcut for a pattern that ends in ** and a literal |
| PatternMatchers.PatternMatcher.FailsQuickly | src/inet/common/PatternMatcher.cc:362-378 | the check of the last two characters rejects no line of the pattern |
| PatternMatchers.EndsInLastTwo | src/inet/common/PatternMatcher.cc:362-378 | a line of a pattern that ends in a literal ends in its last two characters |
| PatternMatchers.PatternMatcher.Matches | src/inet/common/PatternMatcher.cc:358-382 | true exactly if the line splits into one piece for each token, each allowed by its rule |
| PatternMatchers.SubstringModeFindsOccurrences | src/inet/common/PatternMatcher.cc:98-106 | a substring pattern matches exactly the lines on which the pattern occurs somewhere |
| PatternMatchers.WithoutWildcardsIsEquality | src/inet/common/PatternMatcher.cc:410-415 | without wildcards a full-string match is string equality, as the header promises for strcmp |
| Int128s.Int128.Negated | src/inet/common/int128.cc:162-168 | minus the number, modulo 2^128 |
| Int128s.Int128.AddAssign | src/inet/common/int128.cc:204-214 | the sum modulo 2^128, also for a number added to itself |
| Int128s.Int128.SubtractAssign | src/inet/common/int128.h:128-131 | the difference modulo 2^128 |
| Int128s.Int128.Increment | src/inet/common/int128.cc:170-177 | the number plus one, modulo 2^128 |
| Int128s.Int128.Decrement | src/inet/common/int128.cc:179-186 | the number minus one, modulo 2^128 |
| Int128s.Int128.ShiftLeftAssign | src/inet/common/int128.cc:352-380 | the product with a power of two, modulo 2^128, across both words |
| Int128s.Int128.ShiftRightAssign | src/inet/common/int128.cc:321-350 | the floor of the quotient by a power of two, across both words |
| Int128s.Int128.BitIs | src/inet/common/int128.cc:291-300 | bit n of the two's complement form; past the top, the sign |
| Int128s.Int128.SetBit | src/inet/common/int128.cc:302-319 | changes that bit and no other |
| Int128s.Int128.MultiplyAssign | src/inet/common/int128.cc:216-237 | shift and add give the product modulo 2^128, for any signs |
| Int128s.Int128.LongDivision | src/inet/common/int128.cc:255-279 | quotient and remainder of positive numbers bit by bit; no word overflows |
| Int128s.Int128.FirstPrefix | src/inet/common/int128.cc:259-265 | the unsigned bit index wraps below zero only after the last bit, and wraps back |
| Int128s.Int128.Div | src/inet/common/int128.cc:239-289 | dividend = q * divisor + r, with r smaller in size than the divisor and of the dividend's sign, if and only if the dividend is not the smallest number, for which the quotient is 0 and the remainder the dividend; also when the remainder is written into an operand |
| Int128s.SmallestDivisorNeverEnds | src/inet/common/int128.cc:265-278 | with the smallest number as divisor the loop goes on for ever: its remainder alternates between 0 and the divisor and is never less, so the bit index stays |
| Int128s.DividedOnce | src/inet/common/int128.cc:239-289 | only one quotient and remainder meet that |
| Int128s.Int128.DivideAssign | src/inet/common/int128.h:133-138 | the quotient, with the same exception |
| Int128s.Int128.RemainderAssign | src/inet/common/int128.h:140-144 | the remainder, written into the dividend, with the same exception |
| Int128s.LessExactlyWhen | src/inet/common/int128.cc:382-392 | operator< agrees with the numbers except exactly on two negatives with equal high words whose low words differ in the top bit |
| Int128s.Int128.ToString | src/inet/common/int128.cc:37-62 | the digits of the number in the radix, exactly if it is not the smallest number, which is written -0; the buffer never runs out |
| Int128s.Int128.Set | src/inet/common/int128.cc:64-109 | the number the text denotes, modulo 2^128 |
| Int128s.DigitExactlyWhen | src/inet/common/int128.cc:91-104 | in radix 8, 10 and 16 a character is read for its value exactly if it is a digit below the radix, and as the radix itself if it is the letter after the last one |
| Int128s.ParsedExactlyWhen | src/inet/common/int128.cc:64-109 | for every text: the number read before it wraps around is the one that a reader of numerals takes, if and only if that reader does not stop at such a letter |
| Int128s.SetExactlyWhen | src/inet/common/int128.cc:64-109 | and so is the number that Set stores, whenever the number read fits in 128 bits |
| Int128s.NumeralsAreRead | src/inet/common/int128.cc:79-109 | a sign, nothing or 0 or 0x, and digits of the radix 10, 8 or 16 that goes with it, are read for the number that the digits denote |
| Int128s.ExtraLetterIsRead | src/inet/common/int128.cc:91-104 | an input: 1a is read as 20, where the numeral is 1 |
| Int128s.DigitsDenote | src/inet/common/int128.cc:49-60 | in every radix up to 36 the digits that are written denote the number, without a leading zero and with capital letters |
| Int128s.DecimalReadsBack | src/inet/common/int128.cc:37-109 | reading a number written in decimal gives it back |
| Int128s.HexadecimalReadsBack | src/inet/common/int128.cc:37-109 | so does reading 0x and the hexadecimal digits of a number that is not negative |
| Bits.AndHighMask | src/inet/common/int128.cc:369-373 | the mask of the high bits keeps exactly them |
| Bits.OrOfDisjoint | src/inet/common/int128.cc:342-343 | or-ing words without a common bit adds them |
| Machos.ExitsMeetEntries | src/inet/common/Macho.cc:139-173 | exits stop exactly where entries start |
| Machos.Machine.Exit | src/inet/common/Macho.cc:156-173 | the exit actions of the current state and its superstates, innermost first, up to the state where entries start; a box that is not persistent dies with its state |
| Machos.Machine.Enter | src/inet/common/Macho.cc:139-154 | entries outermost first, down to the state; a box lives from entry on |
| Machos.ExitLogIs | src/inet/common/Macho.cc:156-173 | the states that are exited are exactly those entered ones that do not enclose the next state |
| Machos.EntryLogIs | src/inet/common/Macho.cc:139-154 | the states that are entered are exactly the next one and those around it that do not enclose the previous one |
| Machos.LeadsInside | src/inet/common/Macho.cc:139-173 | in a well-nested log the states entered and not exited are one state and its superstates |
| Machos.Machine.EnteredStates | src/inet/common/Macho.cc:139-173 | so at any time between two transitions the entered states are the current one and its superstates below Root |
| Machos.Machine.SetHistorySuper | src/inet/common/Macho.h:732-737 | exactly the superstates are informed, each by its strategy |
| Machos.Machine.SaveHistory | src/inet/common/Macho.h:274-295 | shallow history is the child on the path, deep history the state that was left |
| Machos.Machine.RecordHistory | src/inet/common/Macho.cc:357-359 | a saved history is a proper substate |
| Machos.Machine.ExitAndEnter | src/inet/common/Macho.cc:354-375 | one transition: the new state is current, the log goes on with exactly those exits and entries, histories are recorded |
| Machos.Machine.Init | src/inet/common/Macho.cc:175-187 | a history transition goes to the saved history, which is then forgotten; any target is a proper substate |
| Machos.Machine.UserInit | src/inet/common/Macho.h:541-547 | an init action may ask for a proper substate and an event; Root has none |
| Machos.Machine.Handle | src/inet/common/Macho.cc:396-401 | an event handler may ask for any state and a further event |
| Machos.Machine.Settle | src/inet/common/Macho.cc:344-394 | the inner loop ends because every further target is deeper; the machine ends at the target or below it, and without user decisions exactly at the target or its history |
| Machos.Machine.RattleOn | src/inet/common/Macho.cc:339-403 | afterwards nothing is pending, and the machine is where all that was pending leads by Final, script and histories included; a handler that asks for one transition gets it |
| Machos.Machine.Start | src/inet/common/Macho.cc:248-256 | the first transition from Root, and where it leads by Final; without decisions the state itself |
| Machos.Machine.SetState | src/inet/common/Macho.cc:236-240 | a transition from outside, and where it leads by Final; without decisions its destination; if there are decisions at least one is used |
| Machos.Machine.Dispatch | src/inet/common/Macho.h:1908-1917 | an event reaches the handler of the current state, and the machine ends where its decisions lead by Final: if it asks for one transition and no more, at the destination of that; if there are decisions at least one is used |
| Machos.TransitionAsks | src/inet/common/Macho.cc:344-394 | a law of Final: a transition ends at its destination, whose init action is asked next, for an inner state and an event |
| Machos.EventAsks | src/inet/common/Macho.cc:396-401 | a law of Final: an event asks the handler of the current state, for any state and an event |
| Machos.HandlerIsObeyed | src/inet/common/Macho.cc:339-403 | so a handler that asks for one transition ends at its destination, with no decision left |
| Machos.ScriptIsUsed | src/inet/common/Macho.cc:339-403 | decisions are taken in their order, and at least one if there is someone to ask |
| Machos.HistoryReturns | src/inet/common/Macho.h:274-295 | over two transitions: who leaves a state for one outside it and then asks for its history is back at the state he left if the history is deep, and at the child on the path to it if it is shallow |
| Machos.Machine.Shutdown | src/inet/common/Macho.cc:268-278 | no state stays entered, only persistent boxes stay alive, nobody is asked, and the last state is recorded in the histories |
| Machos.Machine.ClearHistoryDeep | src/inet/common/Macho.cc:299-306 | clears the history of a state and its substates and no other |
| Reassembly.ReassemblyBuffer.AddFragment | src/inet/common/ReassemblyBuffer.cc:39-45 | true exactly when every piece has arrived; the total length is then that of the datagram; main is the longest contiguous prefix received |
| Reassembly.ReassemblyBuffer.Merge | src/inet/common/ReassemblyBuffer.cc:47-77 | the state after one more piece, duplicates included |
| Reassembly.ReassemblyBuffer.MergeFragments | src/inet/common/ReassemblyBuffer.cc:79-116 | terminates at a fixpoint: nothing set aside touches main |
| Reassembly.ReassemblyBuffer.MergePass | src/inet/common/ReassemblyBuffer.cc:85-114 | one pass shortens the list or leaves nothing to join |
| Reassembly.ReassemblyBuffer.MainIsLongestPrefix | src/inet/common/ReassemblyBuffer.h:43-55 | main depends on nothing but the set of pieces received, and is complete exactly when all are |
| Reassembly.LongestPrefixIsUnique | src/inet/common/ReassemblyBuffer.h:43-55 | there is one longest prefix of a set of pieces |
| DHCP.DHCPClient.Start | src/inet/applications/dhcp/DHCPClient.cc:220-230 | from the start timer to SELECTING, or to REBOOTING with an old lease; no error |
| DHCP.DHCPClient.HandleTimer | src/inet/applications/dhcp/DHCPClient.cc:216-268 | what each timer does; T2 in wrong state exactly outside RENEWING, and never an invalid state |
| DHCP.DHCPClient.NextTimerIsFirst | src/inet/applications/dhcp/DHCPClient.cc:216-268 | in every reachable state a timer is pending; which one is first in BOUND, by the three times of the lease; the lease timer is first only if the lease ends before T2 |
| DHCP.DHCPClient.Tick | src/inet/applications/dhcp/DHCPClient.cc:216-268 | whatever timer is first, the state changes as in Figure 5 of RFC 2131; the one error is T2 in BOUND, exactly if T2 is the first of the three times of the lease, and with times in order neither that nor the end of the lease occurs; the address comes to be used without its lease timer exactly in the steps from RENEWING by T2 or the response timeout, and after T2 the client still waits when the lease has ended exactly if less than the response timeout lies between T2 and the end of the lease |
| DHCP.DHCPClient.StartRenewing | src/inet/applications/dhcp/DHCPClient.cc:239-244 | T1: the request goes to the leasing server, and T2 and the lease timer stay |
| DHCP.DHCPClient.StartRebinding | src/inet/applications/dhcp/DHCPClient.cc:245-255 | T2: no timer is left but the one for the response; the address stays |
| DHCP.DHCPClient.HandleDHCPMessage | src/inet/applications/dhcp/DHCPClient.cc:393-498 | the state changes of Figure 5 of RFC 2131 for messages; an acknowledged lease has its times, mask, gateway and servers from the message, and its timers at those times from now; what is sent in each case; a message that does not change the state changes nothing; the only failure is an offer without an address when there is no lease; no message leaves the address without its lease timer |
| DHCP.DHCPClient.HandleDHCPOFFER | src/inet/applications/dhcp/DHCPClient.cc:413-420 | the first offer is accepted; a lease is missing exactly when neither the offer nor a former lease has an address |
| DHCP.DHCPClient.HandleDHCPACK | src/inet/applications/dhcp/DHCPClient.cc:630-637 | bound: T1, T2 and the lease timer go off at the times that the message gives, in any order, and netmask and lease are the message's; without an address in it the old lease counts |
| DHCP.DHCPClient.SendRequest | src/inet/applications/dhcp/DHCPClient.cc:520-575 | the request of each state, field by field, by Table 4 of section 4.3.6 of RFC 2131; its errors exactly where they occur |
| DHCP.DHCPClient.InitClient | src/inet/applications/dhcp/DHCPClient.cc:372-384 | only the response timer is pending afterwards |
| DHCP.DHCPClient.UnbindLease | src/inet/applications/dhcp/DHCPClient.cc:358-370 | the address goes, the netmask is reset, and all timers go |
| DHCP.DHCPClient.BindLease | src/inet/applications/dhcp/DHCPClient.cc:315-356 | the interface gets the address and the netmask of the lease, and the lease timer starts |
| DHCP.DHCPClient.RecordOffer | src/inet/applications/dhcp/DHCPClient.cc:270-288 | a new lease with the address, the hardware address and the server if the offer has an address |
| DHCP.DHCPClient.RecordLease | src/inet/applications/dhcp/DHCPClient.cc:290-313 | each field of the lease as the acknowledgement has it: times and mask, the first router and the first servers or else those known before; nothing changes if it confirms no address |
| DHCP.DHCPClient.ScheduleTimerTO | src/inet/applications/dhcp/DHCPClient.cc:639-645 | the former response timer is replaced |
| DHCP.DHCPClient.Associated | src/inet/applications/dhcp/DHCPClient.cc:506-513 | association starts the protocol over, from every state |
| DHCP.DHCPClient.Wait | src/inet/applications/dhcp/DHCPClient.cc:194-214 | time may pass up to the next timer |
| KShortestPaths.DijkstraKshortest.Run | src/inet/common/dijktraKShortest.cc:313-502 | terminates whatever element the heap yields; every node has at most K different routes, each a loop-free path of edges from the root whose cost is within the limits; each edge of a permanent label leads back to the root, to a node with a route, or beyond a limit; so if no loop-free path goes beyond a limit, as without limits, every node that such a path leads to has a route; each error exactly when its condition holds, with a missing link entry, under the same condition, exactly if a loop-free path leads to a node that has none; it ends well whenever all nodes have an entry |
| KShortestPaths.DijkstraKshortest.Step | src/inet/common/dijktraKShortest.cc:337-501 | one element of the heap: a label becomes permanent for good, or the heap only shrinks |
| KShortestPaths.DijkstraKshortest.TraceRoute | src/inet/common/dijktraKShortest.cc:373-398 | the walk back along the labels ends at the root and yields a loop-free path |
| KShortestPaths.DijkstraKshortest.RecordRoute | src/inet/common/dijktraKShortest.cc:391-422 | routes stay different and at most K |
| KShortestPaths.DijkstraKshortest.Record | src/inet/common/dijktraKShortest.cc:391-426 | a new route of a tentative label always finds room: there is one recorded route for each permanent label |
| KShortestPaths.DijkstraKshortest.Settle | src/inet/common/dijktraKShortest.cc:391-426 | a label becomes permanent exactly if its route is new |
| KShortestPaths.DijkstraKshortest.FollowEdge | src/inet/common/dijktraKShortest.cc:433-500 | permanent labels and their routes never change; a new label continues one without a loop, at a cost that adds up along its route, within the limits; the edge leads to a labelled node, or beyond a limit |
| KShortestPaths.AddCostIsStep | src/inet/common/dijktraKShortest.cc:96-118 | a cost is added component by component, by the sum, the smaller or the larger value as the metric of the edge says |
| KShortestPaths.DijkstraKshortest.LimitBroken | src/inet/common/dijktraKShortest.cc:446-451 | what the comparison with the limits rejects has a component beyond its limit |
| KShortestPaths.DijkstraKshortest.LimitKept | src/inet/common/dijktraKShortest.cc:446-451 | and what it lets pass has none |
| KShortestPaths.DijkstraKshortest.OfferLabel | src/inet/common/dijktraKShortest.cc:453-500 | the label comes behind the others while the node has less than K; with K labels it takes the place of the last tentative label that is worse than those before it, starting from the largest cost, if it is better than that one, and otherwise nothing changes |
| KShortestPaths.DijkstraKshortest.WorstTentative | src/inet/common/dijktraKShortest.cc:470-479 | the label that a better one would replace: the last tentative one that is worse than those before it, starting from the largest cost |
| KShortestPaths.DijkstraKshortest.FollowEdges | src/inet/common/dijktraKShortest.cc:428-500 | all edges of the label |
| KShortestPaths.DijkstraKshortest.Expand | src/inet/common/dijktraKShortest.cc:428-500 | once the edges of a label have been followed, every labelled node has a route or a label in the heap |
| KShortestPaths.DijkstraKshortest.TakeUp | src/inet/common/dijktraKShortest.cc:343-426 | an element is passed over only if its node has a route |
| KShortestPaths.DijkstraKshortest.EdgeIsFollowed | src/inet/common/dijktraKShortest.cc:428-500 | if no path goes beyond a limit, every edge of a permanent label leads to a labelled node |
| KShortestPaths.DijkstraKshortest.RouteEndIsRecorded | src/inet/common/dijktraKShortest.cc:335-501 | when the heap is empty, every node on a loop-free path from the root has a route, if no such path goes beyond a limit |
| KShortestPaths.DijkstraKshortest.ExtendedRoute | src/inet/common/dijktraKShortest.cc:440-442 | a path to a node that is not on it stays loop-free |
| KShortestPaths.DijkstraKshortest.InitRoot | src/inet/common/dijktraKShortest.cc:324-334 | K permanent labels for the root, with empty routes |
| KShortestPaths.DijkstraKshortest.GetRoute | src/inet/common/dijktraKShortest.cc:638-664 | a route exists exactly for an existing label, and is a loop-free path |
| Partitions.Dijkstra.RunUntil | src/inet/common/dijktraKShortest.cc:921-1052 | the target is labelled exactly if the root reaches it, for every method and every array, several edges between the same nodes included; its label is the cost of a walk, and for every method that looks at the cost first, with costs that are not negative, no walk is cheaper, despite lazy deletion; the root is missing exactly if it has no entry; a link is missing only if a walk leads to a node without an entry that is not the target, and without a target exactly then |
| Partitions.Dijkstra.FindMin | src/inet/common/dijktraKShortest.cc:944-968 | the best element by the costs that the method looks at, in their order |
| Partitions.Dijkstra.FollowEdge | src/inet/common/dijktraKShortest.cc:989-1050 | one edge keeps all labels and the heap in order; exactly which label the end of the edge gets by each method, where the second cost of a label is never renewed |
| Partitions.AllReached | src/inet/common/dijktraKShortest.cc:941-1051 | when the heap is empty the labelled nodes are those the root reaches |
| Partitions.MadePermanent | src/inet/common/dijktraKShortest.cc:972-985 | the node of the cheapest element has its final cost |
| Partitions.NoCheaperWalk | src/inet/common/dijktraKShortest.cc:941-1051 | no walk to the next node to leave the heap is cheaper than its label |
| Partitions.Dijkstra.GetRoute | src/inet/common/dijktraKShortest.cc:1054-1077 | the walk back ends at the root; there is a route exactly for a labelled node |
| Partitions.Dijkstra.RemoveEdge | src/inet/common/dijktraKShortest.cc:870-884 | the first such edge is returned and leaves the array, and everything else stays in its order; nothing happens exactly if there is none; without several edges between the same nodes the array lacks exactly that link |
| Partitions.Dijkstra.AddEdge | src/inet/common/dijktraKShortest.cc:847-861 | the first edge to that node gets the new cost, or the edge comes behind the others if there is none; everything else stays; without several edges between the same nodes the array gains exactly that link |
| Partitions.OneWayIsEnough | src/inet/common/dijktraKShortest.cc:1146-1150 | without one direction of a link its end is reached exactly if it is reached without both |
| Partitions.DisconnectsIsSymmetric | src/inet/common/dijktraKShortest.cc:1151-1154 | on a symmetric array both directions of a link are bridges or neither is |
| Partitions.Dijkstra.IsPartition | src/inet/common/dijktraKShortest.cc:1146-1155 | one link taken out and put back tells whether it is a bridge |
| Partitions.Dijkstra.DiscoverAllPartitionedLinks | src/inet/common/dijktraKShortest.cc:1133-1160 | both directions of exactly those links whose removal disconnects their ends, each once |
| Units.CountIsExponent | src/inet/common/Units.h:389-441 | the counted fraction is the exponent of the base unit |
| Units.CheckIsAgreement | src/inet/common/Units.h:443-481 | the check holds exactly if the exponents of all base units that occur agree |
| Units.ConvertibleIsSameExponents | src/inet/common/Units.h:483-491 | units are convertible exactly when all base-unit exponents are equal |
| Units.ConvertibleIsEquivalence | src/inet/common/Units.h:483-491 | convertible is an equivalence |
| Units.FactorIsOne | src/inet/common/Units.h:569-618 | a unit without a scaling inside has the factor 1, whatever powers and products it is made of |
| Units.FourthPowerDangles | src/inet/common/Units.h:533-540 | an input: from the fourth power of a unit to the product of two squares of it |
| Units.ConvertMeaning | src/inet/common/Units.h:283-385 | a conversion goes through base units, layer by layer; it is rejected exactly when the units are not convertible, and reads a dangling reference exactly when they are, come down to different units and one of them holds a fourth power |
| Units.FromToBase | src/inet/common/Units.h:342-385 | taking the layers off and putting them back gives the value back |
| Units.ConvertComposes | src/inet/common/Units.h:283-385 | each step has a value exactly without that dangling read, and then converting on the way changes nothing |
| Units.ConvertInverts | src/inet/common/Units.h:283-385 | a conversion has a value exactly without that dangling read, and converting back then gives the first value back |
| Units.ConvertOfScale | src/inet/common/Units.h:343-363 | one scaling taken off or put on, in plain arithmetic, around any unit |
| Units.ConvertOfTranslate | src/inet/common/Units.h:365-385 | one translation taken off or put on, in plain arithmetic, around any unit |
| Units.ConvertOfProduct | src/inet/common/Units.h:578-587 | products of units convert factor by factor, with scalings anywhere inside and no translation around a factor |
| Units.ConvertOfPower | src/inet/common/Units.h:600-608 | powers of units convert like powers of values, and negative powers like their inverses |
| ByteQueues.ByteArray.SetDataFromBuffer | src/inet/common/ByteArray.cc:20-29 | the array holds the bytes of the buffer |
| ByteQueues.ByteArray.AddDataFromBuffer | src/inet/common/ByteArray.cc:58-71 | the bytes of the buffer come behind those of the array |
| ByteQueues.ByteArray.CopyDataToBuffer | src/inet/common/ByteArray.cc:73-82 | the clipped slice is copied, and the rest of the buffer stays, unless the 32-bit sum wraps around to the inside of the array |
| ByteQueues.CopyLengthIsClipped | src/inet/common/ByteArray.cc:75-79 | the 32-bit sum clips right exactly when it does not wrap around to a small number |
| ByteQueues.ByteArray.TruncateData | src/inet/common/ByteArray.cc:91-106 | the bytes between the two cuts stay |
| ByteQueues.ByteArrayBuffer.Push | src/inet/common/ByteArrayBuffer.cc:40-44 | the flat sequence gains the bytes at its end |
| ByteQueues.ByteArrayBuffer.PushBuffer | src/inet/common/ByteArrayBuffer.cc:46-52 | the same for a buffer |
| ByteQueues.ByteArrayBuffer.GetBytesToBuffer | src/inet/common/ByteArrayBuffer.cc:54-71 | the clipped slice of the flat sequence, across chunks, empty ones included, under the same condition on the chunk where it starts |
| ByteQueues.ByteArrayBuffer.Drop | src/inet/common/ByteArrayBuffer.cc:78-100 | the flat sequence loses its first bytes; terminates with empty chunks |
| ByteQueues.ByteArrayBuffer.PopBytesToBuffer | src/inet/common/ByteArrayBuffer.cc:73-76 | the bytes moved and those left are the former sequence |
| ByteQueues.ByteArrayBuffer.Clear | src/inet/common/ByteArrayBuffer.cc:102-109 | nothing is left |

## Left out

- IntervalTree: freeing of nodes and intervals, printing, and the growth of the query stack, which is a sequence here. The links of a node that is not in the tree point to itself where the source has null.
- Topology: extraction from a network, links by gate, and null targets.
- Topologies.Topology.AddLink: does not model moving a link that is in the graph already, because a link's ends are fixed here, nor the gate IDs, because no search reads them.
- PatternMatcher: case-insensitive matching and `patternPrefixMatches`. Characters are compared as unsigned, and numbers are unbounded where the source has `long`. For a pattern that ends in a lone backslash the source reads past the end; `SetPattern` reports failure there.
- Int128: conversions from and to floating point. Signed overflow of the high word wraps around, as the source counts on.
- Int128s.Int128.Div: expects a divisor other than the smallest number, because the division does not end with it, as `SmallestDivisorNeverEnds` states; so do DivideAssign and RemainderAssign.
- Macho: templates and event parameters, snapshots, reuse of box memory, boxes handed over with a transition, and the creation of state objects on first use.
- Machos.Machine.UserInit: a user's init action that asks for a state which is not a proper substate is passed over, because the source's assertion forbids it; the assertion itself is proved where the source has it.
- ReassemblyBuffer: fragments that overlap in part, and empty ones. The null vector of fragments is the empty sequence.
- DHCPClient: lifecycle operations after the start, the routing table, association before the start timer, interface deletion, and the fields of messages that do not decide anything. Each step is a method, so a run is any sequence of them.
- DHCP.DHCPClient.HandleDHCPMessage: expects that an acknowledgement that confirms an address gives no negative times, because the simulation schedules nothing in the past.
- DHCP.DHCPClient.HandleDHCPACK: expects the same.
- DHCP.DHCPClient.BindLease: does not model the gateway route, because the routing table decides no step of the protocol.
- DHCP.DHCPClient.UnbindLease: does not model the deletion of the gateway route, for the same reason.
- KShortestPaths: how good the costs of the routes are, because the cost comparison is no order; `runUntil` of the same class, and `setRouteMapK`.
- Dijkstra: how wide the routes are, because the source does not keep the width of a label up to date, `discoverPartitionedLinks`, and the deletion of edges.
- Partitions.Dijkstra.DiscoverAllPartitionedLinks: expects at most one edge from a node to another, which `RemoveEdge` and `AddEdge` keep. With two, putting the first one back frees an edge object that the array under test still holds (dijktraKShortest.cc:854-856).
- Units: fractional powers, rounding, display and the arithmetic of values.
- ByteArrayBuffer: copying a whole buffer, and what `memcpy` reads past the end of an array.
- ByteQueues.ByteArray.CopyDataToBuffer: requires that the 32-bit sum does not wrap around to the inside of the array, because memcpy must not read past its end.
- ByteQueues.ByteArrayBuffer.GetBytesToBuffer: requires the same of the chunk that holds the offset.
- WirelessNumHops, GlobalWirelessLinkInspector, BitVector, TLVOption, ProtocolMap and stlutils, which repeat the above or would add only easy members.
