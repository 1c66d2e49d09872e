# Verified models of five programs

This project models, in Dafny, the logic of five programs of the repository and proves what they
are for. `dafny verify dfyconfig.toml` checks everything.

**JLex**, a lexer generator (`SPECS-EXTENDED/jlex/Main.java`), is modelled from the regular
expressions of a specification to the tokens that the generated lexer returns:

- `Regex` says what a specification means: expressions, anchored rules, and which words match.
- `Nfa`, `Fragments`, `Rules`, `Thompson`: the construction of the NFA. A node is an index into a
  growing heap; the class `MakeNfa` changes that heap and the vector of live nodes as CMakeNfa does,
  mimic and discard included, and each routine is proved to accept exactly its expression's words.
- `Classes`: the coarsest partition of the symbols into character classes, and the rewritten NFA.
- `Sets`, `Dfa`, `Subset`: the subset construction, with its worklist and registered sets.
- `Minimize`: merging of states. The merged DFA behaves the same, and states are kept apart only by moves
  with a reason; it need not be minimal, because the group numbers change while a group is being scanned.
- `Compress`: equal columns and rows share one copy, moved in place.
- `TableString`, `RoundTrip`: tables written as run-length text in chunks, and read back. -20 is both a
  possible entry and the marker for "no entry yet", so some tables do not come back: `ReadsBackIff` says
  exactly which.
- `Generator`: the whole pipeline. Its theorem speaks of the specification and the emitted tables only.
- `Buffer`, `Munch`, `Lexer`, `LexerRuns`: the generated scanner over a reader that delivers its input in
  arbitrary chunks, the loop that finds the longest match, and whole runs. A run that returns a token
  without text away from a line start makes no progress; `LexerRuns` says that this is the only way.
- `LineEnds`: line starts and line counts against what `$` calls a line end. What the scanner removes from
  the text of a rule with `$` is not always what `$` matched.
- `SparseBits`, `DfaSets`: the sparse bit set, with its in-place merge, equality, hash code and
  enumeration, and the hash table that it keys.

**Requirements gathering** (`pyproject_buildrequires.py`), `Extras`: the mutual recursion between adding
a requirement and adding again what was set aside computes a least fixpoint when there are extras at the
start. Otherwise markers are first evaluated in the environment of no extras, which disappears with the
first extra: `Outcome` says what is computed for every list, and `GatheredIff` exactly when that is what
is wanted.

**Version conversion** (`pyproject_convert.py`), `RpmVersions`: PEP 440 specifiers as RPM ranges. The
reference is PEP 440, section "Version specifiers", for the meaning of specifiers, and RPM's version
comparison for the meaning of ranges. Translations are right but for some pre-releases at the ends of
prefix matches, and the model says exactly for which.

**Default contexts** (`cl.hpp`), `InitOnce`: a state machine of any number of threads that race to
initialize the default context, with store buffers. The comment above `getDefault` promises one context
for all calls, which holds for every order of the stores; that all calls report one error holds exactly
when stores reach memory in order.

**tarfs** (`tarfs.c`), `Tarfs` and `TarfsDirectory`: block-wise reading and comparing, the checks at mount
time in wrapping 64-bit arithmetic, interruptible listing, and lookup.

## Model

| member | source | states |
|---|---|---|
| Generator.Generate | SPECS-EXTENDED/jlex/Main.java:5889-5915 | for every specification the emitted tables implement it: in every lexical state and after every word over the characters, BOL and EOF, the tables name the first active rule that matches the word, with its anchor, and reach F only if no continuation of the word can match; they reach F exactly when no node of the NFA, which recognizes exactly the rules, is left; nothing survives a symbol after EOF |
| Generator.EndsWithNfa | SPECS-EXTENDED/jlex/Main.java:1215-1244 | one word through class mapping, subset construction, merging and compression: the walk through `yy_nxt[yy_rmap[s]][yy_cmap[c]]` ends in F exactly when the NFA's state set is empty, and otherwise in the accept and anchor of the lowest-labelled accepting node of that set |
| Generator.FollowsImplements | SPECS-EXTENDED/jlex/Main.java:5889-5915 | tables that follow the NFA on every word implement the specification |
| Generator.EmitTables | SPECS-EXTENDED/jlex/Main.java:1160-1246 | the three unpacked tables together with the accept and anchor tables read exactly as the merged DFA |
| Generator.BestIsFirst | SPECS-EXTENDED/jlex/Main.java:1751-1756 | the lowest-labelled accepting node of a state set belongs to the earliest matching rule, because labels follow rule order |
| Generator.AfterEof | SPECS-EXTENDED/jlex/Main.java:1930-1943 | no node is left once anything is read after EOF |
| Thompson.MakeMachine | SPECS-EXTENDED/jlex/Main.java:1720-1772 | the labelled machine has one part per rule and one for BOL and EOF; each part recognizes exactly its rule, accepting labels increase with the rule number, and each lexical state lists exactly the starts of its active rules |
| Thompson.MakeNfa.Machinery | SPECS-EXTENDED/jlex/Main.java:1813-1884 | the loop over the rules keeps the parts apart and builds all of them, and the silent rule for BOL and EOF |
| Thompson.MakeNfa.RuleNfa | SPECS-EXTENDED/jlex/Main.java:1893-1960 | `^` and `$` put a BOL edge in front and the newline alternatives behind the expression; the part accepts exactly the rule's language |
| Thompson.MakeNfa.EolTail | SPECS-EXTENDED/jlex/Main.java:1930-1943 | the nodes that `$` adds behind an expression |
| Rules.EolWords | SPECS-EXTENDED/jlex/Main.java:1930-1943 | with the `$` tail a part accepts exactly the words of the expression followed by a line end or EOF |
| Rules.RuleWords | SPECS-EXTENDED/jlex/Main.java:1893-1960 | the finished part of a rule accepts exactly the words of the rule |
| Thompson.MakeNfa.ExprNfa | SPECS-EXTENDED/jlex/Main.java:1968-2010 | alternation: the fragment accepts exactly the union, its start has no incoming and its end no outgoing edge |
| Thompson.MakeNfa.Join | SPECS-EXTENDED/jlex/Main.java:1991-2005 | one round of the alternation loop |
| Thompson.MakeNfa.CatNfa | SPECS-EXTENDED/jlex/Main.java:2017-2057 | concatenation: the fragment accepts exactly the concatenation, and keeps the fragment invariant |
| Thompson.MakeNfa.Append | SPECS-EXTENDED/jlex/Main.java:2042-2051 | one round of the concatenation loop: the end mimics the start of the next fragment, which is discarded |
| Thompson.MakeNfa.Discard | SPECS-EXTENDED/jlex/Main.java:1778-1784 | the discarded node is not referred to by any other node and leaves the vector of states |
| Fragments.CatWords | SPECS-EXTENDED/jlex/Main.java:4756-4789 | merging an end with a start by mimic yields exactly the concatenated words |
| Fragments.AltWords | SPECS-EXTENDED/jlex/Main.java:1991-2005 | the fork and the join yield exactly the words of either branch |
| Fragments.EncloseWords | SPECS-EXTENDED/jlex/Main.java:2117-2142 | the nodes around a closure yield exactly the repetitions, with or without the empty word |
| Thompson.MakeNfa.FactorNfa | SPECS-EXTENDED/jlex/Main.java:2101-2148 | `*`, `+` and `?` build fragments for exactly their languages |
| Thompson.RepeatedIsPlus | SPECS-EXTENDED/jlex/Main.java:2117-2142 | runs around the loop edge are the repetitions of the term |
| Thompson.MakeNfa.TermNfa | SPECS-EXTENDED/jlex/Main.java:2154-2260 | a term's fragment accepts exactly the term's words |
| Thompson.MakeNfa.ProcessStates | SPECS-EXTENDED/jlex/Main.java:1790-1806 | a rule's start is added to the lists of the states it is active in, and to no other |
| Thompson.MakeNfa.LabelNodes | SPECS-EXTENDED/jlex/Main.java:1751-1756 | labels are positions in the vector of states, and the relabelled graph is the same graph |
| Rules.LabelledMachine | SPECS-EXTENDED/jlex/Main.java:1751-1756 | labelling preserves what every part recognizes and the order of the accepting nodes |
| Classes.ComputeClasses | SPECS-EXTENDED/jlex/Main.java:2356-2396 | the partition is the coarsest that no edge splits, and class numbers are exactly 0..n |
| Classes.SplitBy | SPECS-EXTENDED/jlex/Main.java:2369-2392 | one edge splits every class into the symbols it fires on and those it does not |
| Classes.MapSet | SPECS-EXTENDED/jlex/Main.java:4676-4684 | the mapped set, complemented or not |
| Classes.Simplify | SPECS-EXTENDED/jlex/Main.java:2330-2354 | after simplification an edge fires on `ccls[c]` exactly when the original edge fired on `c` |
| Classes.SimplifiedReaches | SPECS-EXTENDED/jlex/Main.java:2330-2354 | the simplified NFA reads the mapped word along the same nodes |
| Subset.EClosure | SPECS-EXTENDED/jlex/Main.java:3365-3484 | the closure is exactly the nodes reachable without input, sorted, with the accept and anchor of its lowest accepting label |
| Subset.Move | SPECS-EXTENDED/jlex/Main.java:3490-3546 | the nodes entered on a symbol, or nothing |
| Subset.SortStates | SPECS-EXTENDED/jlex/Main.java:3551-3603 | sorted, with the same elements |
| Subset.Nfa2Dfa.GetUnmarked | SPECS-EXTENDED/jlex/Main.java:3609-3646 | the first unmarked state, or none when all are marked |
| Subset.Nfa2Dfa.InDstates | SPECS-EXTENDED/jlex/Main.java:3700-3735 | finds a state exactly when its NFA set is registered, sets being mathematical sets here |
| Subset.Nfa2Dfa.AddToDstates | SPECS-EXTENDED/jlex/Main.java:3658-3695 | registers a new state under its NFA set and leaves all others alone |
| Subset.Nfa2Dfa.MakeRow | SPECS-EXTENDED/jlex/Main.java:3276-3320 | a row's entry for every symbol is the state of the closure of the move, or F |
| Subset.Nfa2Dfa.MakeDtrans | SPECS-EXTENDED/jlex/Main.java:3195-3333 | the worklist ends with one row per state, row i describing state i, and names the start row of every lexical state |
| Subset.MakeDfa | SPECS-EXTENDED/jlex/Main.java:3168-3190 | every word leads to the state that stands for the set of NFA nodes it can reach, with the accept and anchor of the lowest accepting label, or to F exactly when that set is empty |
| Subset.WalkAfter | SPECS-EXTENDED/jlex/Main.java:3195-3333 | the row reached by a word is the epsilon-closed set of nodes the NFA can be in |
| Subset.SetsBounded | SPECS-EXTENDED/jlex/Main.java:3609-3646 | there are at most 2^n registered sets: the worklist terminates |
| Sets.AfterSnoc | SPECS-EXTENDED/jlex/Main.java:3365-3546 | closure after move is exactly what one more symbol does to the set of reachable nodes |
| Sets.AtMostPow2 | SPECS-EXTENDED/jlex/Main.java:3609-3646 | a family of distinct sets of n nodes has at most 2^n members |
| Minimize.Minimizer.Refine | SPECS-EXTENDED/jlex/Main.java:2843-2958 | the refinement loop terminates; its groups are a bisimulation that respects accepts, and arise from the accept classes by moves of single states, each away from a group whose first member's row disagrees under the groups of that moment |
| Minimize.Minimizer.Split | SPECS-EXTENDED/jlex/Main.java:2875-2944 | splitting a group, while `m_ingroup` changes under it, keeps the partition and leaves uniform groups alone |
| Minimize.Minimizer.constructor | SPECS-EXTENDED/jlex/Main.java:2964-3047 | the first groups partition the states: two states share a group exactly when they accept the same rule, or both none |
| Minimize.UniformIsBisimulation | SPECS-EXTENDED/jlex/Main.java:2843-2958 | a pass without a split means that all groups are uniform, which is a bisimulation |
| Minimize.MergeStates | SPECS-EXTENDED/jlex/Main.java:2797-2837 | the table rewritten by representatives, one row per group of such a refinement, has the same accept, anchor or F outcome on every word from every lexical state; if the accept classes already are a bisimulation, states share a row exactly when they accept the same |
| Minimize.NothingMoves | SPECS-EXTENDED/jlex/Main.java:2875-2944 | if the accept classes are a bisimulation no state is moved |
| Minimize.MergedWalk | SPECS-EXTENDED/jlex/Main.java:2797-2837 | walking merged rows is walking the original rows up to groups |
| Compress.Classify | SPECS-EXTENDED/jlex/Main.java:2628-2670 | two keys are mapped to the same number exactly when they are equal; the map is total and its leaders are the first of their kind |
| Compress.Reducer.ReduceColumns | SPECS-EXTENDED/jlex/Main.java:2621-2699 | the ascending in-place copy of columns destroys no column still needed |
| Compress.Reducer.ReduceRows | SPECS-EXTENDED/jlex/Main.java:2706-2783 | the same for rows |
| Compress.Reduce | SPECS-EXTENDED/jlex/Main.java:2593-2790 | `new[row_map[s]][col_map[c]] == old[s][c]` for all s and c, and rows and columns are shared exactly when they are equal |
| TableString.EmitTableAsString | SPECS-EXTENDED/jlex/Main.java:1256-1331 | the chunks joined are the text of the runs of the flattened table, whatever the 75-character limit and the row ends |
| TableString.TableWriter.Entry | SPECS-EXTENDED/jlex/Main.java:1274-1313 | one entry continues the current run or writes it out |
| TableString.UnpackFromString | SPECS-EXTENDED/jlex/Main.java:1075-1115 | reads the items of the text back into rows, runs crossing row ends |
| TableString.ParseOfPrint | SPECS-EXTENDED/jlex/Main.java:1098-1109 | parsing a printed number gives the number |
| TableString.DigitAt | SPECS-EXTENDED/jlex/Main.java:1274-1313 | digit i from the right of a printed number n is n / 10^i mod 10, without leading zero |
| RoundTrip.ReadsBackIff | SPECS-EXTENDED/jlex/Main.java:1256-1331 | a table is read back exactly when all its entries are -20, or the first is not and no -20 stands alone between other entries |
| RoundTrip.PackAndUnpack | SPECS-EXTENDED/jlex/Main.java:1075-1115 | emitting and unpacking a rectangular table restores it exactly under that condition |
| RoundTrip.LostEntry | SPECS-EXTENDED/jlex/Main.java:1258-1291 | `x, -20, y` is never restored |
| RoundTrip.NoBogusSurvives | SPECS-EXTENDED/jlex/Main.java:1258-1291 | a table without -20 meets the condition |
| Buffer.Scanner.Advance | SPECS-EXTENDED/jlex/Main.java:912-962 | the next character of the input, or EOF at its end, for every way the reader cuts the input into chunks; never a zero-length read |
| Buffer.Scanner.Refill | SPECS-EXTENDED/jlex/Main.java:926-959 | shifting, doubling and reading leave the token, its mark and the position where they were |
| Buffer.Scanner.Shift | SPECS-EXTENDED/jlex/Main.java:926-937 | the token moves to the front of the buffer |
| Buffer.Scanner.Double | SPECS-EXTENDED/jlex/Main.java:1035-1043 | twice the buffer, the same characters |
| Buffer.Scanner.MarkStart | SPECS-EXTENDED/jlex/Main.java:976-1000 | yychar and yyline become the position and the number of lines before it, CR LF counted once, also after an unmatched-input error |
| LineEnds.LineEndCounts | SPECS-EXTENDED/jlex/Main.java:976-1000 | yyline counts one for CR, LF and CR LF, nothing for a LF that belongs to a CR before it, and nothing for other line ends |
| Buffer.Scanner.MoveEnd | SPECS-EXTENDED/jlex/Main.java:965-972 | removes a LF, then a CR, from the end of the token |
| LineEnds.EndText | SPECS-EXTENDED/jlex/Main.java:965-972 | for every match of a rule with `$`, as a word x of its expression in front of a line end, the text of the token is x exactly when the line end is CR, CR LF, LF not preceded by CR, or the end of the input behind text that ends in neither |
| LineEnds.MoveEndExact | SPECS-EXTENDED/jlex/Main.java:965-972 | which line ends yy_move_end removes, and nothing else |
| LineEnds.ExprOver | SPECS-EXTENDED/jlex/Main.java:1968-2260 | expressions match characters only, never BOL or EOF |
| Buffer.Scanner.ToMark | SPECS-EXTENDED/jlex/Main.java:1008-1020 | back to the mark; whether a line starts there is decided by the last character of the token |
| LineEnds.LineStartMeans | SPECS-EXTENDED/jlex/Main.java:1008-1020 | the scanner takes for a line start exactly the place behind a text that ends with something `$` matches as a line end, except that in an alphabet of 2029 characters the separator 2028 is known to it and not to `$` |
| Buffer.Scanner.YyText | SPECS-EXTENDED/jlex/Main.java:1023-1027 | the input between start and mark |
| Munch.Match | SPECS-EXTENDED/jlex/Main.java:1401-1478 | the loop stops at F; the last accepting state is the one after the longest accepted prefix of BOL, characters and EOFs |
| Munch.Round | SPECS-EXTENDED/jlex/Main.java:1386-1540 | one round of yylex, on input over the alphabet, runs the action of the longest accepted prefix, with its real characters as text, and fails only if no prefix is accepted |
| Lexer.NextToken | SPECS-EXTENDED/jlex/Main.java:1386-1540 | a generated lexer returns the lexeme that the specification determines: the longest match, the earliest rule on ties, end of file exactly at the end of input away from a line start, an error only if no rule matches any prefix; the next token is read at a line start exactly when the text ends with a line end; the text of a rule with `$` is a word of its expression under exactly the condition of LineEnds.EndText |
| Lexer.LexemeUnique | SPECS-EXTENDED/jlex/Main.java:1386-1540 | the lexical state, the line-start flag and the input determine the lexeme |
| LexerRuns.Tokenize | SPECS-EXTENDED/jlex/Main.java:1386-1540 | in a run every lexeme is the one the specification asks for at its own place, at a line start exactly when the run began at one or the text before it ends with a line end; the texts are the input, in order, nothing lost or repeated; the run ends by itself unless some token away from a line start has no text |
| LexerRuns.Progress | SPECS-EXTENDED/jlex/Main.java:1386-1540 | without such a token a run has at most two tokens per character and one more |
| LexerRuns.StallsForever | SPECS-EXTENDED/jlex/Main.java:1521-1535 | such a token is returned again and again while the lexical state stays the same |
| LexerRuns.EmptyLineStalls | SPECS-EXTENDED/jlex/Main.java:1521-1535 | the rule `a*$` in front of LF is an example |
| LexerRuns.ReadAReturn | SPECS-EXTENDED/jlex/Main.java:965-972 | a lexer generated from the rule `a\r$` and run on a, CR, LF returns the text `a`, after the silent token of the line start |
| LexerRuns.ReturnLost | SPECS-EXTENDED/jlex/Main.java:965-972 | `a` is no word of the expression `a\r`, though the rule matched all three characters |
| SparseBits.SparseBitSet.BSearch | SPECS-EXTENDED/jlex/Main.java:7519-7529 | where a block number is, or should be |
| SparseBits.SparseBitSet.Get | SPECS-EXTENDED/jlex/Main.java:7566-7572 | membership |
| SparseBits.SparseBitSet.Set | SPECS-EXTENDED/jlex/Main.java:7535-7541 | adds one element and changes no other |
| SparseBits.SparseBitSet.Clear | SPECS-EXTENDED/jlex/Main.java:7547-7553 | removes one element and changes no other |
| SparseBits.SparseBitSet.InsertBlock | SPECS-EXTENDED/jlex/Main.java:7510-7518 | shifts the later blocks and keeps every block's flags |
| SparseBits.SparseBitSet.NewBlock | SPECS-EXTENDED/jlex/Main.java:7498-7509 | grows by a factor of three when full |
| SparseBits.Crunch | SPECS-EXTENDED/jlex/Main.java:7628-7650 | the merge loop: the output, in new arrays or in the front of the first operand's own, never overtakes what is unread, even if both operands are the same object |
| SparseBits.BinOp | SPECS-EXTENDED/jlex/Main.java:7611-7654 | every block becomes the combination of both operands' blocks; offsets stay strictly increasing and no empty block is stored |
| SparseBits.Combine | SPECS-EXTENDED/jlex/Main.java:7578-7610 | and, or, xor of the two sets |
| SparseBits.EqualStores | SPECS-EXTENDED/jlex/Main.java:7687-7698 | the two-finger comparison holds exactly when all blocks agree |
| SparseBits.Equals | SPECS-EXTENDED/jlex/Main.java:7678-7698 | true exactly for equal sets, whatever empty blocks are stored |
| SparseBits.SameSets | SPECS-EXTENDED/jlex/Main.java:7687-7698 | equal blocks are equal sets |
| SparseBits.EqualHash | SPECS-EXTENDED/jlex/Main.java:7659-7664 | stores of the same blocks have one hash, whatever empty blocks they contain |
| SparseBits.KeysAgree | SPECS-EXTENDED/jlex/Main.java:7659-7664 | equal sets have the same hash code |
| DfaSets.Hashtable.Get | SPECS-EXTENDED/jlex/Main.java:3713-3713 | the look-up by hash code and then equals finds a value exactly when a key with the same elements is registered |
| DfaSets.Hashtable.Put | SPECS-EXTENDED/jlex/Main.java:3684-3684 | registers a set once and changes no other entry |
| DfaSets.SameKey | SPECS-EXTENDED/jlex/Main.java:7659-7698 | the hash table's test of two keys is equality of the sets |
| SparseBits.HashCode | SPECS-EXTENDED/jlex/Main.java:7659-7664 | the hash in 64-bit arithmetic, folded to 32 bits |
| SparseBits.FoldBit | SPECS-EXTENDED/jlex/Main.java:7659-7664 | bit i of the hash code is the exclusive or of bits i and 32 + i of the 64-bit mix |
| SparseBits.XoredBit | SPECS-EXTENDED/jlex/Main.java:7659-7664 | exclusive or, bit by bit |
| SparseBits.WordBit | SPECS-EXTENDED/jlex/Main.java:7659-7664 | the one bits of a block's number are its elements |
| SparseBits.Elements.NextElement | SPECS-EXTENDED/jlex/Main.java:7726-7730 | the least element not yet delivered |
| SparseBits.Elements.Advance | SPECS-EXTENDED/jlex/Main.java:7731-7738 | skips exactly the positions that are not members |
| SparseBits.Members | SPECS-EXTENDED/jlex/Main.java:7719-7740 | enumeration yields the members, each once, ascending |
| SparseBits.Size | SPECS-EXTENDED/jlex/Main.java:7669-7671 | bounds the members; for sets built by binop over non-negative elements it is zero exactly for the empty set |
| Extras.Gather | SPECS/pyproject-rpm-macros/pyproject_buildrequires.py:121-139 | for every list and every starting extras the exact outcome, each requirement emitted, ignored or a self-reference exactly once; and it is the wanted one - least closed extras, emitted exactly what is active under them - exactly when everything decided before the first extra is active under the final extras too and the first extras are in every closed set |
| Extras.GatheredIff | SPECS/pyproject-rpm-macros/pyproject_buildrequires.py:90-94 | that exact condition, for every outcome |
| Extras.SteadyIsGathered | SPECS/pyproject-rpm-macros/pyproject_buildrequires.py:90-94 | with extras at the start, or if none are ever added, the outcome is the wanted one |
| Extras.Requirements.Add | SPECS/pyproject-rpm-macros/pyproject_buildrequires.py:102-139 | one requirement: set aside, handled as a self-reference, or emitted; terminates through the recursion |
| Extras.Requirements.Extend | SPECS/pyproject-rpm-macros/pyproject_buildrequires.py:192-195 | a list of requirements, each accounted for |
| Extras.Requirements.Readd | SPECS/pyproject-rpm-macros/pyproject_buildrequires.py:197-201 | the ignored requirements are judged again under the larger extras |
| Extras.Requirements.WantExtras | SPECS/pyproject-rpm-macros/pyproject_buildrequires.py:129-133 | adds only extras that every closed set must have |
| Extras.OrderIndependent | SPECS/pyproject-rpm-macros/pyproject_buildrequires.py:192-195 | with extras at the start, or if none are ever added, the result depends on the multiset of requirements, not on their order |
| Extras.LostEnvironment | SPECS/pyproject-rpm-macros/pyproject_buildrequires.py:90-94 | `tomli; extra == ''` before `pkg[test]`, gathered for pkg without extras, is emitted although it is not active under the final extras |
| Extras.UnsteadyButGathered | SPECS/pyproject-rpm-macros/pyproject_buildrequires.py:129-136 | `pkg[test]` alone is gathered as wanted although it brings the first extra |
| RpmVersions.RpmVersion.Str | SPECS/pyproject-rpm-macros/pyproject_convert.py:53-71 | drops trailing zeros in place |
| RpmVersions.RpmVersion.Increment | SPECS/pyproject-rpm-macros/pyproject_convert.py:46-51 | the last number plus one |
| RpmVersions.OrderPreserved | SPECS/pyproject-rpm-macros/pyproject_convert.py:53-71 | RPM orders rendered versions as PEP 440 orders them: epochs, zero padding, and pre-, development and post-releases |
| RpmVersions.MatchInterval | SPECS/pyproject-rpm-macros/pyproject_convert.py:101-116 | the releases that V.* matches are those from V up to the increment of V |
| RpmVersions.ConvertCompatible | SPECS/pyproject-rpm-macros/pyproject_convert.py:73-86 | ~= accepts exactly the compatible versions, but for the pre-releases of its upper bound; invalid exactly with `.*` or one number |
| RpmVersions.ConvertEqual | SPECS/pyproject-rpm-macros/pyproject_convert.py:88-93 | == exactly; == with `.*` exactly but for the pre-releases of both ends |
| RpmVersions.ConvertNotEqual | SPECS/pyproject-rpm-macros/pyproject_convert.py:101-117 | != exactly; != with `.*` exactly but for the pre-releases of the next release, the pre-releases of V being excluded |
| RpmVersions.ConvertOrdered | SPECS/pyproject-rpm-macros/pyproject_convert.py:119-146 | <, <=, > and >= exactly, for all pre-, development and post-releases: < V excludes the pre-releases of V and > V its post-releases |
| RpmVersions.Convert | SPECS/pyproject-rpm-macros/pyproject_convert.py:148-158 | every specifier is reported invalid or translated to a range that accepts exactly the versions it allows, but for an exactly described family of pre-releases at the ends of prefix matches, for which it does the opposite |
| RpmVersions.PrefixPreReleases | SPECS/pyproject-rpm-macros/pyproject_convert.py:88-93 | `== 1.1.*` rejects 1.1a1, which it should allow, and accepts 1.2a1, which it should not |
| RpmVersions.BelowBound | SPECS/pyproject-rpm-macros/pyproject_convert.py:141-142 | below `V~~` are exactly the versions of lower releases |
| RpmVersions.AboveBound | SPECS/pyproject-rpm-macros/pyproject_convert.py:144-145 | above `V.0` are exactly the versions of higher releases |
| InitOnce.CallsAgree | SPECS-EXTENDED/opencl-headers/cl.hpp:2646-2692 | for any number of threads and any interleaving at most one context is constructed and every call returns it; a call reports an error exactly if it passed a place for it, and if stores reach memory in order that is the error of the construction |
| InitOnce.ArgumentsKept | SPECS-EXTENDED/opencl-headers/cl.hpp:2646-2692 | whether a call passed a place for the error does not change during the call |
| InitOnce.InvariantKept | SPECS-EXTENDED/opencl-headers/cl.hpp:2646-2692 | every step of every thread keeps the protocol's invariant |
| InitOnce.FlagMoves | SPECS-EXTENDED/opencl-headers/cl.hpp:1045-1048 | the flag only moves from 1 to 2 to 4 |
| InitOnce.NoRace | SPECS-EXTENDED/opencl-headers/cl.hpp:2659-2670 | nobody reads while the store of a context is under way; if stores reach memory in order, nobody reads while any store is |
| InitOnce.ErrorsAgreeIffOrdered | SPECS-EXTENDED/opencl-headers/cl.hpp:2681-2683 | all calls that asked for the error report the one error in every run exactly when stores reach memory in order: there is no fence between the stores of the error and of the flag |
| InitOnce.StaleError | SPECS-EXTENDED/opencl-headers/cl.hpp:2681-2683 | the run in which a second call reports success although construction failed |
| InitOnce.NeverStuck | SPECS-EXTENDED/opencl-headers/cl.hpp:2659-2664 | from every reachable state all calls can return |
| Tarfs.Mount.DevRead | SPECS-EXTENDED/kernel-ipe/tarfs.c:62-91 | exactly the bytes asked for, or ERANGE exactly on wrap-around and EIO exactly when out of range or on an unreadable block |
| Tarfs.Mount.Strcmp | SPECS-EXTENDED/kernel-ipe/tarfs.c:351-382 | comparing block by block is comparing byte by byte |
| Tarfs.CompareMeans | SPECS-EXTENDED/kernel-ipe/tarfs.c:351-382 | a match exactly when the bytes are in range, readable and equal to the string |
| Tarfs.Mount.FillSuper | SPECS-EXTENDED/kernel-ipe/tarfs.c:534-593 | mounting succeeds exactly if the super block is readable, the inode table lies on the device in unbounded arithmetic and the root inode is good |
| Tarfs.Mount.CheckSuper | SPECS-EXTENDED/kernel-ipe/tarfs.c:565-582 | the checks in wrapping arithmetic are exact |
| Tarfs.Mount.Iget | SPECS-EXTENDED/kernel-ipe/tarfs.c:258-343 | for every inode number 1..inode_count the table read neither wraps nor leaves the device; it fails only on an unreadable block or a bad mode |
| Tarfs.InodeLayout | SPECS-EXTENDED/kernel-ipe/tarfs.c:28-37 | an inode on disk is mode, flags, hmtime, owner, group, lmtime, size and offset in this order, and each field of the inode is the number its own piece holds; special files have no offset |
| Tarfs.LeSnoc | SPECS-EXTENDED/kernel-ipe/tarfs.c:281-282 | little-endian numbers: each further byte counts 256 times the one before |
| TarfsDirectory.Readdir | SPECS-EXTENDED/kernel-ipe/tarfs.c:93-171 | emits the entries from the position on until one is refused or unreadable, moves the position past exactly what was emitted, and reports an error only without progress |
| TarfsDirectory.EmitEntries | SPECS-EXTENDED/kernel-ipe/tarfs.c:116-167 | the loop, with a name buffer that grows as needed |
| TarfsDirectory.EntryLayout | SPECS-EXTENDED/kernel-ipe/tarfs.c:39-45 | a directory entry on disk is inode number, name offset, name length, type and padding; unknown types become 0 |
| TarfsDirectory.Resume | SPECS-EXTENDED/kernel-ipe/tarfs.c:93-171 | continuing after k entries gives the rest of the listing |
| TarfsDirectory.ListInParts | SPECS-EXTENDED/kernel-ipe/tarfs.c:93-171 | for every pattern of refusals the parts joined are the one-shot listing, each entry once and in order |
| TarfsDirectory.Lookup | SPECS-EXTENDED/kernel-ipe/tarfs.c:384-427 | the inode number of the first entry with that name, or the error that ended the search |
| TarfsDirectory.LookupAgrees | SPECS-EXTENDED/kernel-ipe/tarfs.c:384-427 | a listed name leads to the inode of the first entry with that name; if the whole directory can be listed no other name leads anywhere |

## Left out

- JLex specification files (reading, macros, escapes, case folding, actions) are not modelled: the model starts from regular expressions in which no alternative is empty and all characters are in range, which is what the parser hands on when it does not fail.
- The text of the generated program other than its tables is not modelled; the scanner methods are modelled as what the emitted code does.
- Generator.Generate: the accept action is represented by its rule number; what the action does, and the lexical state it chooses, are parameters of a run.
- Minimality of the merged DFA is not claimed, since it does not hold.
- Subset.Nfa2Dfa.InDstates: NFA sets are mathematical sets there, registered in a map; that SparseBitSet implements such sets, and that a table keyed by them finds exactly the registered ones, is proved in SparseBits and DfaSets.
- DfaSets.Hashtable.Get: entries are searched one by one, without buckets.
- SparseBits.HashCode: a block is the set of its one bits, and the 64-bit product and exclusive or are written out on numbers; block numbers are unbounded.
- The SparseBitSet copy constructor, `clone`, `toString` and `isValid` are not modelled.
- Java `int` overflow (more than 2^31 states, characters or buffer cells) is not modelled.
- Buffer.Scanner.MarkStart: both counters are always kept, as with %char and %line together.
- Buffer.Scanner.ToMark: the line separators are compared with 2028 and 2029 in decimal, as the emitted code does.
- Munch.Round: requires that nothing follows EOF in the tables, which Generator.Generate establishes (otherwise the loop would not end), and that all characters are below the size of the alphabet: on any other character the emitted scanner takes it for BOL or EOF or indexes yy_cmap out of bounds.
- Lexer.NextToken: requires, like Munch.Round, that all characters of the input are in the alphabet.
- Extras.Gather: a requirement is a canonical name, a set of extras and a marker predicate; parsing, installed versions, printing and the rendering of emitted requirements are not modelled.
- RpmVersions.Convert: the version of a specifier is a final release; the versions that it is asked about have at most one of the suffixes pre, dev and post. Local versions, legacy versions and === are not modelled. Rendered versions are token sequences rather than strings, and RPM's comparison, which is not part of the repository, is defined on them.
- RpmVersions.ConvertEqual: with `.*`, and likewise ~= and != with `.*`, PEP 440 is not met for the pre-releases at the ends of the prefix; `Misplaced` says for which.
- RpmVersions.ConvertOrdered: PEP 440 gives ordered comparisons with `.*` no meaning; the model states what the code makes of them.
- InitOnce.CallsAgree: loads are not reordered, exceptions are disabled, and the flag starts as NOT_INITIALIZED; the C++11 branch that leaves it zero is not modelled.
- Tarfs.Mount.DevRead: a block either can always be read or never; allocation failures are not modelled.
- Tarfs.Mount.Iget: the inode cache is not modelled; every call reads the table.
- TarfsDirectory.Lookup: ends with the inode number; reading that inode is Tarfs.Mount.Iget.
- TarfsDirectory.Readdir: file positions are unsigned.
- tarfs_readpage, extended attributes, statfs, NFS export and module set-up are not modelled: kernel plumbing.
- The rest of cl.hpp and of the repository is not modelled.
