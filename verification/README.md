# Verified models of the MaskForge automaton compiler

MaskForge turns a JSON Schema into one trimmed byte-level automaton and uses it to decide which tokens a language
model may emit next. Its promise is `mask(p, t) ⇔ ok(advance(p, t))`: the mask bit of a token is set exactly when the
session would take the token. That only helps when every step from the schema to the automaton keeps the language
exactly. This project models those steps in Dafny and proves that they do.

A language is a set of byte strings (`Languages`). Loops and worklists of the program are methods with loops; what they
compute is stated by functions or by the language they leave behind, and the properties of those are lemmas.

| module | what it models |
|---|---|
| `Graph` | the deterministic byte graph every construction passes through, and its validation |
| `Reachability`, `Materialize`, `Engine` | trimming, renumbering with DEAD = 0, byte classes, packed rows, queries on the packed engine |
| `Counting`, `Cardinality` | the number of words still possible from each state, capped at 2^64 - 1 |
| `DenseDfa` | the same materialization starting from the regular-expression library's dense automaton |
| `Discovery`, `KeyCells`, `Sorting`, `NfaTheory`, `SubsetKeys` | interning of discovered keys, their transition cells, canonical keys and their number, the subset construction |
| `Determinization`, `Combine` | concatenation, union and repetition by copying engines into one NFA |
| `Shuffle` | objects with their fields in any order |
| `Product` | allOf, anyOf, oneOf and difference over tuples of states |
| `Trie`, `PathGraph`, `JsonText`, `JsonStrings` | finite string sets, raw and in every JSON spelling |
| `Decimal`, `RegexText`, `IntegerRange`, `MultipleOf`, `DecimalOrder` | digit patterns, divisibility automata, the order of decimals |
| `Arrays` | array and tuple bodies, as engines and as regular expressions |
| `Elimination`, `Equivalence` | the two test oracles: automaton to regular expression, and language equality |
| `Scalars` | the tight-bounds search for a consumable UTF-8 scalar |
| `Session` | one generation sequence: mask, advance, reset |
| `Routing`, `Bounds` | which schema nodes compile to one automaton, whether the compiler then compiles them, and the bounded arithmetic of the estimates |

`Outcome`, `Languages`, `Bits` and `Finite` hold results, languages, bit sets and counting arguments.

Results that a reader might not expect:

- `IntegerRange.IntegerRegex` denotes the integers within its bounds if and only if the bounds are in order. With
  `lo > hi` the alternation is empty and its text matches the empty string; IR validation (ir.rs:914-918) keeps such
  bounds away.
- `Session.MaskIsAdvance` needs the end-of-sequence id to be apart from the ordinary tokens. The vocabulary checks this
  whenever it is built (vocab/vocabulary.rs:181-182, 302-303, 328-329). `Session.GuardNeeded` shows that some such check
  is needed, and `Session.MaskWithoutGuard` says exactly what it buys.
- The engine for a modulus is built for every modulus up to 4096, but its intersection with a range automaton of s
  states is built exactly when s (m + 3) <= 4096 (`MultipleOf.CompileIntegerMultiple`): the product's pre-check counts
  256 edges a state, and no state of the remainder table is ever trimmed.
- The size of the JSON string automaton is known exactly: every edge discovers a state or ends a spelling, so its
  refusals are a count of prefixes and pieces of text (`PathGraph.TableSize`, `JsonStrings.StringSet`).
- The memory caps of the router never decide: memory is within its caps exactly when states and cells are
  (`Bounds.MemoryFollows`). Of the cell caps only that of objects does (`Bounds.CellsFollow`). An estimate multiplies a
  zero count with an item past the cap to "past the cap"; that is the only inexact case (`Bounds.StatesExact`). The
  estimate of a tuple counts its first position only (`Routing.FirstStates`).
- The closure of a set of shuffle configurations is complete after one pass; the second pass of the loop adds nothing
  (`Shuffle.SecondPassAddsNothing`).

## Model

| member | source | states |
|---|---|---|
| Graph.FromByteStates | crates/maskforge-core/src/automaton/graph.rs:58-113 | Validation succeeds exactly on tables with an existing start, one edge per byte, targets in range and sizes under the caps; the graph keeps the table's language, and the error class is decided by which check fails. |
| Graph.TransitionIsLookup | crates/maskforge-core/src/automaton/graph.rs:115-128 | Reading the flattened edge slice of a state gives the row's first edge for the byte. |
| Reachability.ReverseRows | crates/maskforge-core/src/automaton/byte_dfa.rs:442-480 | Counting sort of all edges by target: the slots of a target hold its sources, once per edge, in edge order. |
| Reachability.LiveStates | crates/maskforge-core/src/automaton/byte_dfa.rs:480-515 | The backward worklist marks exactly the states from which acceptance can be reached. |
| Materialize.LiveIffAccepts | crates/maskforge-core/src/automaton/byte_dfa.rs:442-515 | Backward reachability of acceptance is the same as having an accepted word. |
| Materialize.GraphLiveStates | crates/maskforge-core/src/automaton/byte_dfa.rs:442-515 | A graph state is live exactly when it accepts some word. |
| Materialize.GraphClassTable | crates/maskforge-core/src/automaton/byte_dfa.rs:517-558 | Byte classes partition 0..255; a byte has its representative's column and different classes have different columns. |
| Materialize.ColumnsAreMoves | crates/maskforge-core/src/automaton/byte_dfa.rs:517-558 | Two bytes share a column exactly when they lead every live state to the same live state, or to none: renumbering neither merges nor splits byte classes. |
| Materialize.ClassesCounted | crates/maskforge-core/src/automaton/byte_dfa.rs:517-558 | The number of classes is the number of different moves that bytes make on the live states. |
| Materialize.MaterializeRows | crates/maskforge-core/src/automaton/byte_dfa.rs:560-625 | Offsets, edges and class masks of all rows are those of the byte matrix without its DEAD cells. |
| Materialize.ScanReadsMatrix | crates/maskforge-core/src/automaton/byte_dfa.rs:164-188 | Scanning a packed row, with its early exit, reads the byte matrix at the class representative. |
| Materialize.PackedNext | crates/maskforge-core/src/automaton/byte_dfa.rs:560-625 | Stepping the packed table by the class of a byte is the remapped graph transition, for every byte. |
| Materialize.PackedAccepts | crates/maskforge-core/src/automaton/byte_dfa.rs:384-440 | From a live state the packed table accepts the words the graph accepts; folding dead states into DEAD loses nothing. |
| Materialize.PackRows | crates/maskforge-core/src/automaton/byte_dfa.rs:384-440 | The whole pipeline yields a valid engine for the table's language with one state per live row and DEAD, and one class per kind of byte; it is refused exactly when the rows exceed the state cap or these states times these classes the cell cap. |
| Materialize.GraphToEngine | crates/maskforge-core/src/automaton/byte_dfa.rs:384-440 | Materialization keeps the language of every validated graph, trims it and counts it; it is refused exactly past the state cap or the cell cap, the latter never under 2^14 states. |
| Materialize.StatesToEngine | crates/maskforge-core/src/automaton/graph.rs:58-113 | From rows to engine: same language, exact numbers of states and classes, and success exactly on the admissible tables whose cells fit the cap, so on all admissible ones under 2^14 states. |
| Engine.RefEngine.StepLoop | crates/maskforge-core/src/automaton/byte_dfa.rs:164-188 | The row loop with its early exit finds the edge of the class, or DEAD. |
| Engine.RefEngine.ConsumeToken | crates/maskforge-core/src/automaton/byte_dfa.rs:916-928 | All bytes of a token are consumed or none: the result is the state after the whole word unless that is DEAD. |
| Engine.RefEngine.AcceptsLoop | crates/maskforge-core/src/automaton/byte_dfa.rs:1059-1069 | The loop with its early exit on DEAD decides membership in the engine's language. |
| Engine.Table.AliveIffExtendable | crates/maskforge-core/src/automaton/byte_dfa.rs:384-440 | In a trimmed table a word avoids DEAD exactly when it extends to an accepted word. |
| Engine.CanContinueIffSomeByte | crates/maskforge-core/src/automaton/byte_dfa.rs:190-223 | The live-class mask is non-empty exactly when some byte leads to a live state. |
| Engine.DeadIffEmpty | crates/maskforge-core/src/automaton/byte_dfa.rs:208-223 | A state is dead exactly when it accepts nothing. |
| Counting.CountsUnion | crates/maskforge-core/src/automaton/byte_dfa.rs:345-382 | Saturating addition counts a disjoint union exactly below the cap and stays at the cap above it. |
| Counting.CountsPrefixedAny | crates/maskforge-core/src/automaton/byte_dfa.rs:345-382 | Saturating multiplication by the class size counts one copy of a language per byte of the class. |
| Counting.CountsUnique | crates/maskforge-core/src/automaton/byte_dfa.rs:226-232 | The capped count is determined by the language. |
| Cardinality.PredecessorMultiplicity | crates/maskforge-core/src/automaton/byte_dfa.rs:278-344 | A state occurs among a target's predecessors once per edge, so decrementing per entry counts edges. |
| Cardinality.TopologicalPass | crates/maskforge-core/src/automaton/byte_dfa.rs:278-344 | The pass from the leaves resolves states after all their targets, and every unresolved state keeps an unresolved target. |
| Cardinality.UnresolvedIsUnbounded | crates/maskforge-core/src/automaton/byte_dfa.rs:345-382 | In a trimmed engine a state the pass never resolves accepts words of every length past any bound. |
| Cardinality.ResidualCardinalities | crates/maskforge-core/src/automaton/byte_dfa.rs:278-382 | Every entry is min(number of words accepted from the state, u64::MAX). |
| DenseDfa.BuildClassTable | crates/maskforge-core/src/automaton/byte_dfa.rs:724-742 | The library's byte classes, renumbered by first byte, partition the bytes and are never told apart by a transition. |
| DenseDfa.Discover | crates/maskforge-core/src/automaton/byte_dfa.rs:749-797 | The search lists distinct reachable states with their live successors; it ends early only on a reachable quit state, or when more reachable states can be named than the cap allows. |
| DenseDfa.BytesAccept | crates/maskforge-core/src/automaton/byte_dfa.rs:770-797 | The discovered rows, read by byte, accept from every state what the library's automaton accepts; dropped dead successors accept nothing. |
| DenseDfa.WalkSeen | crates/maskforge-core/src/automaton/byte_dfa.rs:770-797 | A finished search has met every state a word leads to unless that state is dead. |
| DenseDfa.PackedRefines | crates/maskforge-core/src/automaton/byte_dfa.rs:825-885 | The packed table is well formed, trimmed and accepts the language of the library's automaton. |
| DenseDfa.CellCap | crates/maskforge-core/src/automaton/byte_dfa.rs:796-823 | The cell test of the packed rows asks for the live reachable states and the byte classes of the automaton itself, however they were discovered. |
| DenseDfa.BfsMaterialize | crates/maskforge-core/src/automaton/byte_dfa.rs:749-885 | A valid engine for the language of any dense automaton. It is built exactly when no reachable state quits and neither the state cap nor the cell cap is exceeded; an error names a cap that is exceeded or a quit state that is reachable, whichever is met first. |
| Discovery.TableAccepts | crates/maskforge-core/src/automaton/product.rs:166-221 | A completed table accepts from each id what the explored automaton accepts from the key of that id. |
| Discovery.CompleteAccepts | crates/maskforge-core/src/automaton/shuffle.rs:72-151 | The finished table is deterministic and its start row accepts the language of the start key: positions are ids. |
| Discovery.CompleteNotOversized | crates/maskforge-core/src/automaton/product.rs:166-221 | A search that finished under its caps lists every reachable key, so no selection of reachable keys exceeds the caps: refusals of the searches are exact. |
| KeyCells.CellsAreKeyCells | crates/maskforge-core/src/automaton/byte_dfa.rs:384-440 | The cell test on a finished search asks for the live reachable keys and the distinct moves of the bytes on them, whatever order the keys were found in. |
| Discovery.Intern | crates/maskforge-core/src/automaton/product.rs:339-362 | Interning returns the id a key already has, or gives it the next id and queues it; ids and keys stay inverse while the expanded row is out of the table. |
| Sorting.SortedCanonical | crates/maskforge-core/src/automaton/graph.rs:780-805 | Sorted keys without repeats are equal when they have the same members. |
| Sorting.SameMembersSameKey | crates/maskforge-core/src/automaton/graph.rs:780-831 | Sorting and removing repeats gives equal keys to lists with the same members, so interning works on sets. |
| NfaTheory.SubsetAccepts | crates/maskforge-core/src/automaton/graph.rs:703-778 | The subset automaton accepts from a closed subset exactly what some member accepts. |
| Determinization.CloseIsClosure | crates/maskforge-core/src/automaton/graph.rs:780-805 | The cursor over the growing list computes exactly the silently reachable states. |
| Determinization.EpsilonClosure | crates/maskforge-core/src/automaton/graph.rs:780-805 | The closure loop returns the canonical key of the silent closure. |
| Determinization.StartKeyAccepts | crates/maskforge-core/src/automaton/graph.rs:703-741 | The subset automaton started at the closed start accepts the language of the NFA. |
| Determinization.Determinize | crates/maskforge-core/src/automaton/graph.rs:703-778 | Determinization keeps the language; it fails exactly when the reachable subsets or their edges exceed the graph caps, and a machine of k states gives at most 2^k subsets. |
| Determinization.SubsetsBounded | crates/maskforge-core/src/automaton/graph.rs:703-778 | Distinct reachable keys of an NFA of k states number at most 2^k. |
| Determinization.SmallNfaFits | crates/maskforge-core/src/automaton/graph.rs:703-778 | An NFA of up to twelve states never exceeds a cap: 2^12 subsets of 256 edges each are exactly the edge cap. |
| Combine.AppendEngine | crates/maskforge-core/src/automaton/graph.rs:647-701 | Copies every state but DEAD behind the existing ones with shifted targets, or refuses exactly when the cap would be passed. |
| Combine.AdmitEngineCopies | crates/maskforge-core/src/automaton/graph.rs:596-611 | Admits exactly the operand lists whose live states and byte transitions both fit the caps. |
| Combine.ChainAccepts | crates/maskforge-core/src/automaton/graph.rs:468-577 | From the start of a copy the linked NFA accepts the words of its engine followed by what the links allow, and nothing else. |
| Combine.ChainDetermines | crates/maskforge-core/src/automaton/graph.rs:468-577 | The linked NFA is determined by the operands and the links, so speaking of its subset automaton is unambiguous. |
| Combine.RepeatLanguage | crates/maskforge-core/src/automaton/graph.rs:541-577 | The repetition NFA accepts L^k for exactly the k within bounds; the loop on the last copy stands for all further k. |
| Combine.LinkRepeatRuns | crates/maskforge-core/src/automaton/graph.rs:613-645 | Linking the accepting states of each copy in place leaves the chain the repetition needs, and the hub untouched. |
| Combine.Concatenate | crates/maskforge-core/src/automaton/graph.rs:468-507 | Exactly L1 L2 ... Ln, also with empty-word operands and dead operands; refused exactly when no operand is dead and the copies exceed the copy caps or their subset automaton the graph caps. |
| Combine.Union | crates/maskforge-core/src/automaton/graph.rs:509-539 | Exactly the union of the operands, dead ones passed over; refused exactly when the copies exceed the copy caps, leave no room for the hub, or their subset automaton exceeds the graph caps. |
| Combine.Repeat | crates/maskforge-core/src/automaton/graph.rs:541-577 | Exactly the union of L^k for min <= k <= max, unbounded without max, also when L has the empty word or is empty; malformed exactly when max < min, otherwise refused exactly when the copies or their subset automaton exceed the caps. |
| Combine.ConcatEngine | crates/maskforge-core/src/compile.rs:607-609 | The concatenation as a valid engine; refused exactly when the concatenation is, or when the live reachable subsets and DEAD, times the ways in which bytes move them, exceed the cell cap; the latter takes operands whose live states k together have 2^k >= 2^14. |
| Combine.UnionEngine | crates/maskforge-core/src/compile.rs:427-441 | The union as a valid engine, refused exactly when the union is or its subset automaton has too many cells. |
| Combine.RepeatEngine | crates/maskforge-core/src/compile.rs:489-504 | The repetition as a valid engine; malformed exactly when max < min, otherwise refused exactly when the repetition is or its subset automaton has too many cells. |
| Combine.ConcatPair | crates/maskforge-core/src/compile.rs:607-609 | Two engines with at most fourteen states together are always concatenated. |
| Shuffle.CoversMeans | crates/maskforge-core/src/automaton/shuffle.rs:111-130 | The mask test `finished & required == required` asks that every required field is finished. |
| Shuffle.ShuffleSound | crates/maskforge-core/src/automaton/shuffle.rs:175-273 | Whatever the configurations accept splits as non-empty field words and separators with distinct fields. |
| Shuffle.ShuffleComplete | crates/maskforge-core/src/automaton/shuffle.rs:175-273 | Every declared splitting is accepted by the configurations. |
| Shuffle.ShuffleAccepts | crates/maskforge-core/src/automaton/shuffle.rs:19-273 | From the initial configuration a word is accepted exactly when it is empty and nothing is required, or is w1 s1 w2 ... wk over distinct fields covering every required one. |
| Shuffle.ClosureKeyCanonical | crates/maskforge-core/src/automaton/shuffle.rs:175-212 | The closed, sorted key depends only on which configurations are present. |
| Shuffle.SecondPassAddsNothing | crates/maskforge-core/src/automaton/shuffle.rs:180-208 | One pass over the growing list already reaches the silent closure. |
| Shuffle.EpsilonClosure | crates/maskforge-core/src/automaton/shuffle.rs:175-212 | The passes, the sort and the removal of repeats compute that key. |
| Shuffle.StepConfigs | crates/maskforge-core/src/automaton/shuffle.rs:214-273 | One byte moves every configuration as its fragment or the start of an unfinished field allows. |
| Shuffle.StartKeyAccepts | crates/maskforge-core/src/automaton/shuffle.rs:72-151 | The subset automaton accepts the declared language. |
| Shuffle.Build | crates/maskforge-core/src/automaton/shuffle.rs:33-151 | The built table accepts exactly the shuffle of the fields; malformed exactly on mismatched lengths; built exactly when it is admitted and the reachable configuration sets and their edges are within the caps. |
| Shuffle.BuildEngine | crates/maskforge-core/src/automaton/shuffle.rs:153-160 | The same for the engine: built exactly when the object is admitted and its reachable configuration sets fit the state, edge and cell caps. |
| Product.AcceptsStatesHolds | crates/maskforge-core/src/automaton/product.rs:29-59 | The iterator expressions decide all, any, exactly one, and first-but-no-other of the accepting flags. |
| Product.TupleAccepts | crates/maskforge-core/src/automaton/product.rs:166-221 | A tuple accepts a word exactly when the combinator holds of its components' verdicts; leaving out all-dead tuples loses nothing. |
| Product.TuplesBounded | crates/maskforge-core/src/automaton/product.rs:113-133 | Distinct tuples of states never outnumber the product of the state counts. |
| Product.FittingProductNotOversized | crates/maskforge-core/src/automaton/product.rs:113-133 | A product under the Cartesian bound exceeds neither cap inside the search. |
| Product.WorstCaseStates | crates/maskforge-core/src/automaton/product.rs:113-133 | The checked product is exact until it would overflow, then the machine maximum. |
| Product.StartLiveIfAnyLive | crates/maskforge-core/src/automaton/product.rs:223-315 | If any discovered tuple accepts something, so does the start. |
| Product.Trim | crates/maskforge-core/src/automaton/product.rs:223-315 | Dropping rows that accept nothing keeps the language; the fallback to row 0 never picks a wrong start. |
| Product.BuildCapped | crates/maskforge-core/src/automaton/product.rs:94-315 | The product accepts exactly the words on which the combinator holds; with the pre-check it succeeds exactly when the Cartesian bound fits both caps, without it it fails exactly when the reachable tuples or their edges exceed one. |
| Product.BuildEngine | crates/maskforge-core/src/automaton/product.rs:68-92 | The product as a valid engine; for up to 256 branches it is built exactly when the Cartesian bound fits the caps. |
| Trie.Trie.constructor | crates/maskforge-core/src/automaton/graph.rs:161-171 | A new tree contains no string. |
| Trie.Trie.NextOrInsert | crates/maskforge-core/src/automaton/graph.rs:182-208 | Follows an edge or adds a leaf spelling one symbol more; the set of strings stays the same. |
| Trie.Trie.Insert | crates/maskforge-core/src/automaton/graph.rs:173-180 | Adds exactly one string, with nodes for its prefixes only; a refusal leaves the tree full, changes no membership and leaves out one prefix. |
| Trie.MarkedContains | crates/maskforge-core/src/automaton/graph.rs:173-180 | Marking a node adds exactly the string that spells it. |
| Trie.PrefixesAre | crates/maskforge-core/src/automaton/graph.rs:173-208 | The nodes of a tree are exactly the prefixes of its strings. |
| Trie.IntoGraph | crates/maskforge-core/src/automaton/graph.rs:210-220 | A byte tree always becomes a graph, for exactly the inserted strings. |
| Trie.ByteStringSet | crates/maskforge-core/src/automaton/graph.rs:140-147 | Exactly the listed byte strings; refused exactly when they have more distinct prefixes than a graph may have states, which takes 2^16 bytes. |
| JsonText.SpellingDecodes | crates/maskforge-core/src/automaton/graph.rs:311-398 | Every spelling of a character decodes, by section 7 of RFC 8259, to that character and no further, whatever follows. |
| JsonText.DecodedIsSpelling | crates/maskforge-core/src/automaton/graph.rs:311-398 | What the decoder reads is one of the spellings: raw, short escape, any-case `\uXXXX`, or a surrogate pair. |
| JsonText.SpellingsPrefixFree | crates/maskforge-core/src/automaton/graph.rs:311-441 | The spellings of all characters form a prefix code. |
| PathGraph.AddPath | crates/maskforge-core/src/automaton/graph.rs:407-441 | Adding a path of a prefix code never meets a contradicting edge and never shares a state between different prefixes; only the state cap stops it, and only when the fixed states and the prefixes of the paths are more than the cap. |
| PathGraph.TableSize | crates/maskforge-core/src/automaton/graph.rs:400-441 | The finished table is over a graph cap exactly when the fixed states with the distinct proper prefixes of the paths, or these prefixes with the paths, are: every edge discovers one state or ends one path. |
| PathGraph.AnchorAccepts | crates/maskforge-core/src/automaton/graph.rs:400-441 | A fixed state accepts by stopping there or along exactly the paths added from it. |
| JsonStrings.UnicodeEscapePaths | crates/maskforge-core/src/automaton/graph.rs:379-398 | Exactly the any-case spellings of `\uXXXX` for a code unit. |
| JsonStrings.EscapePaths | crates/maskforge-core/src/automaton/graph.rs:340-377 | The escapes of a character: one unit in the basic plane, every pair of high and low halves beyond it. |
| JsonStrings.AllowedApart | crates/maskforge-core/src/automaton/graph.rs:281-309 | At every node the spellings of its edges and the closing quote are never prefixes of each other. |
| JsonStrings.AddScalarSpellings | crates/maskforge-core/src/automaton/graph.rs:311-365 | Adds exactly the spellings of one character between two states. |
| JsonStrings.StartAccepts | crates/maskforge-core/src/automaton/graph.rs:281-309 | The finished table accepts exactly the quoted strings whose decoding is in the tree. |
| JsonStrings.IntoJsonGraph | crates/maskforge-core/src/automaton/graph.rs:281-309 | The graph of a tree of decoded strings; refused exactly when the prefixes of all spellings of its edges, or these and the spellings, exceed the graph caps. |
| JsonStrings.TreeIsValues | crates/maskforge-core/src/automaton/graph.rs:281-309 | The tree of the values is too large for a graph exactly when the values themselves have too many prefixes, unfinished pieces and pieces of text. |
| JsonStrings.StringSet | crates/maskforge-core/src/automaton/graph.rs:131-138 | Exactly the quoted JSON strings whose decoding is one of the values, in every spelling; never refused for conflicting spellings, but exactly when the prefixes of the values with the unfinished and finished pieces of their text exceed the graph caps. |
| Decimal.SpellUnique | crates/maskforge-core/src/compile.rs:1372-1382 | A digit string without a leading zero is the spelling of its value. |
| Decimal.LargestPower | crates/maskforge-core/src/compile.rs:1364-1370 | 10^k fits a u64 exactly for k up to 19. |
| Decimal.Pow10 | crates/maskforge-core/src/compile.rs:1364-1370 | The loop computes 10^k and never leaves u64. |
| Decimal.NumDigits | crates/maskforge-core/src/compile.rs:1372-1382 | The division loop counts the digits of the spelling, one for zero. |
| Decimal.MagnitudeDigits | crates/maskforge-core/src/compile.rs:1360-1382 | Magnitudes of i64 values, i64::MIN included, have at most 19 digits. |
| RegexText.DenAltsAny | crates/maskforge-core/src/compile.rs:1677-1683 | A word matches an alternation exactly when it matches one alternative. |
| IntegerRange.BandSplits | crates/maskforge-core/src/compile.rs:1629-1654 | A band of equal-length digit strings is covered exactly by its parts, split at the leading digit. |
| IntegerRange.FlRangeDen | crates/maskforge-core/src/compile.rs:1629-1654 | `flrange(lo, hi, len)` denotes exactly the len-digit strings with value in [lo, hi]. |
| IntegerRange.PosGe | crates/maskforge-core/src/compile.rs:1592-1603 | Exactly the spellings of the integers from a up. |
| IntegerRange.PosRange | crates/maskforge-core/src/compile.rs:1605-1618 | Exactly the spellings of the integers from a to b, over all digit lengths. |
| IntegerRange.SignSplit | crates/maskforge-core/src/compile.rs:1160-1190 | The integers within the bounds are the negative, zero and positive ones within them. |
| IntegerRange.IntegerRegex | crates/maskforge-core/src/compile.rs:1160-1190 | For all i64 bounds, either absent: exactly the JSON spellings of the integers within the bounds if and only if lo <= hi; otherwise the empty word. |
| MultipleOf.RemainderDfaStates | crates/maskforge-core/src/automaton/multiple_of.rs:210-255 | The rows are the remainder table of the modulus, with states for the sign and a leading zero. |
| MultipleOf.RemainderAccepts | crates/maskforge-core/src/automaton/multiple_of.rs:205-255 | From the state of a remainder, digits are accepted exactly when the extended number is a multiple. |
| MultipleOf.RemainderAlive | crates/maskforge-core/src/automaton/multiple_of.rs:205-255 | From every remainder some digits complete a multiple, so trimming keeps all m + 2 states. |
| MultipleOf.RemainderDfaEngine | crates/maskforge-core/src/automaton/multiple_of.rs:205-208 | Always built for moduli up to 4096, with exactly m + 3 states, and decides divisibility of every canonically spelled integer. |
| MultipleOf.DividesTen | crates/maskforge-core/src/automaton/multiple_of.rs:52-74 | 2^a 5^b divides 10^max(a, b). |
| MultipleOf.PowerOfTenFactorSuffix | crates/maskforge-core/src/automaton/multiple_of.rs:52-74 | The factor loops find the twos and fives; the suffix path is taken exactly when nothing else is left, the power of ten fits u64 and the endings are few enough. |
| MultipleOf.DecimalBytes | crates/maskforge-core/src/automaton/multiple_of.rs:174-193 | The buffer filled backwards holds the value in at least `width` digits, zero-padded. |
| MultipleOf.Endings | crates/maskforge-core/src/automaton/multiple_of.rs:94-142 | Lists exactly the multiples below 10^len, padded, and the ones short enough to stand alone. |
| MultipleOf.LastDigits | crates/maskforge-core/src/automaton/multiple_of.rs:94-142 | A longer number is a multiple exactly when its last len digits are. |
| MultipleOf.SuffixEngine | crates/maskforge-core/src/automaton/multiple_of.rs:94-152 | The suffix construction decides divisibility of every canonically spelled integer; a refusal is a limit. |
| MultipleOf.MultipleOfEngine | crates/maskforge-core/src/automaton/multiple_of.rs:33-50 | Whatever engine is returned accepts the canonical spelling of n exactly when the modulus divides n, so all constructions agree there; malformed exactly for zero; moduli 1..4096 always succeed, larger ones only as products of twos and fives. |
| MultipleOf.CompileIntegerMultiple | crates/maskforge-core/src/compile.rs:383-391 | Intersected with the range, exactly the spellings of the multiples within the bounds; for moduli 2..4096 it succeeds exactly when the states of the range times modulus + 3 are at most 4096. |
| DecimalOrder.DecimalDigits | crates/maskforge-core/src/ir.rs:1821-1834 | The digits of any i128 magnitude, left-aligned in 39 places. |
| DecimalOrder.LexIsNumeric | crates/maskforge-core/src/ir.rs:1796-1819 | Comparing equal-length digit arrays place by place is comparing the numbers. |
| DecimalOrder.ExponentDecides | crates/maskforge-core/src/ir.rs:1796-1819 | The larger decimal exponent is the larger magnitude. |
| DecimalOrder.DigitsDecide | crates/maskforge-core/src/ir.rs:1796-1819 | At equal exponents the left-aligned digits decide. |
| DecimalOrder.DecimalCmp | crates/maskforge-core/src/ir.rs:1796-1819 | The exact order of a 10^t and b 10^s for all i128 coefficients and u32 scales. |
| DecimalOrder.OrderIsTotal | crates/maskforge-core/src/ir.rs:1796-1819 | Swapping the arguments reverses the answer. |
| DecimalOrder.OrderIsTransitive | crates/maskforge-core/src/ir.rs:1796-1819 | The order is transitive, hence a total preorder. |
| Arrays.HeadAndMore | crates/maskforge-core/src/compile.rs:535-575 | A full head and lo to hi further comma-item groups are the lists of the summed lengths. |
| Arrays.ArrayBodyEngine | crates/maskforge-core/src/compile.rs:479-509 | The body inside the brackets accepts exactly the comma-joined lists of min to max items. |
| Arrays.ArrayBodyDen | crates/maskforge-core/src/compile.rs:1006-1018 | The written array body denotes the same lists. |
| Arrays.TupleExactEngine | crates/maskforge-core/src/compile.rs:577-605 | Exactly `count` items, item i from the prefix or the tail; malformed exactly when the count passes a closed tail. |
| Arrays.TupleBodyEngine | crates/maskforge-core/src/compile.rs:535-575 | Exactly the lists of min to max items, no longer than the prefix when closed, item i from the prefix or the tail. |
| Arrays.TupleBody | crates/maskforge-core/src/compile.rs:1020-1087 | The folded regular expression denotes the same tuples. |
| Elimination.NoLoneBar | crates/maskforge-core/src/automaton/elimination.rs:129-146 | No label is the text of one bar, so the single-atom test is never wrong. |
| Elimination.WrapDen | crates/maskforge-core/src/automaton/elimination.rs:129-146 | Wrapping a label keeps its meaning and makes it safe to write beside others. |
| Elimination.LeaveState | crates/maskforge-core/src/automaton/elimination.rs:43-106 | A path through a state goes around it some number of times and then leaves it. |
| Elimination.BypassKeepsLanguage | crates/maskforge-core/src/automaton/elimination.rs:61-95 | Redirecting every in-loop-out path past a state keeps what every other state accepts. |
| Elimination.EliminateState | crates/maskforge-core/src/automaton/elimination.rs:61-95 | One elimination keeps the language of every remaining state and leaves well-formed tables, whichever state was picked. |
| Elimination.TwoStates | crates/maskforge-core/src/automaton/elimination.rs:101-106 | With only start and sink left, the language is the start loop repeated, then the last edge. |
| Elimination.ToRegexViaStateElimination | crates/maskforge-core/src/automaton/elimination.rs:18-106 | The returned text denotes exactly the automaton's language, self-loops on the start, accepting starts and the empty language included; only a byte cap under the budget for its size can stop it. |
| Elimination.BudgetClosed | crates/maskforge-core/src/automaton/elimination.rs:43-127 | The budget in closed form: with n states and E edges, 5 E + (n + 1)^2 (4^n - 1) (5 E + 6) bytes suffice in whatever order states are picked and hash maps are read. |
| Elimination.CapSuffices | crates/maskforge-core/src/automaton/elimination.rs:14-18 | The cap of the oracle never refuses machines of up to three states and 206 edges, or of four states and 31 edges. |
| Equivalence.ContinuesIffLonger | crates/maskforge-core/src/correctness/compile_differential.rs:13-35 | Whether a state can continue is a fact about its language. |
| Equivalence.DeadIffStuck | crates/maskforge-core/src/automaton/byte_dfa.rs:190-223 | In a trimmed engine a state is dead exactly when it neither accepts nor can continue. |
| Equivalence.Equivalent | crates/maskforge-core/src/correctness/compile_differential.rs:13-35 | The pair search terminates and answers true exactly when the engines accept the same byte strings. |
| Scalars.Utf8Number | crates/maskforge-core/src/automaton/byte_dfa.rs:930-992 | The encoding of a code point by section 3 of RFC 3629, read as a number, is the code point plus an offset of its width. |
| Scalars.WindowIsInterval | crates/maskforge-core/src/automaton/byte_dfa.rs:930-992 | The full-length words within the tight bounds are exactly the encodings of the interval. |
| Scalars.CanConsumeScalarInterval | crates/maskforge-core/src/automaton/byte_dfa.rs:930-992 | On bounds of one width the frontier decides whether some encoding of the interval is consumable; it gives up exactly on surrogate bounds or mixed widths. |
| Scalars.CanConsumeSupplementaryRange | crates/maskforge-core/src/automaton/byte_dfa.rs:994-1004 | Beyond the surrogates the search always answers, and exactly. |
| Scalars.CanConsumeAnyScalar | crates/maskforge-core/src/automaton/byte_dfa.rs:1006-1023 | True exactly when some Unicode scalar's encoding is consumable, and never unknown. |
| Session.AllowedTokens | crates/maskforge-core/src/automaton/byte_dfa.rs:1036-1052 | The mask holds exactly the ids of the records consumable from the state; it fails exactly when such an id lies beyond the mask. |
| Session.SetBitLe | crates/maskforge-core/src/api.rs:455-459 | Sets one bit of the buffer and no other. |
| Session.WriteWords | crates/maskforge-core/src/runtime/mod.rs:1052-1064 | The little-endian bytes hold the bits of the 32-bit words. |
| Session.Session.Advance | crates/maskforge-core/src/api.rs:551-580 | A legal token is committed whole; any other leaves the session as it was, with the error the state calls for. |
| Session.Session.Reset | crates/maskforge-core/src/api.rs:582-595 | Back to the start, active. |
| Session.Session.WriteMaskLeBytes | crates/maskforge-core/src/api.rs:515-549 | The buffer's bits are the legal ids when active and the end-of-sequence id alone when stopped; a wrong length changes nothing. |
| Session.MaskIsAdvance | crates/maskforge-core/src/api.rs:515-580 | With the end-of-sequence id apart from the ordinary tokens, as vocab/vocabulary.rs:181-182, 302-303 and 328-329 keep it, the mask bit of every id is set in an active session exactly when `advance` would take it. |
| Session.MaskWithoutGuard | crates/maskforge-core/src/api.rs:515-580 | Without that guard the two part exactly on an end-of-sequence id whose ordinary bytes are consumable in a state that is not accepting. |
| Session.GuardNeeded | crates/maskforge-core/src/vocab/vocabulary.rs:178-183 | Some guard is needed: listing the end-of-sequence id under the bytes of an instance makes the mask offer it at a start that is not accepting, where `advance` refuses it. |
| Session.CommittedExtends | crates/maskforge-core/src/api.rs:551-580 | After any run whatsoever the committed bytes extend to a valid instance, and a stopped session has committed one. |
| Session.CommitsExactlyPrefixes | crates/maskforge-core/src/runtime/mod.rs:1111-1154 | A list of tokens is taken in full exactly when its bytes begin some valid instance. |
| Session.StoppedStays | crates/maskforge-core/src/api.rs:551-560 | Stopped is absorbing. |
| Routing.Analyze | crates/maskforge-core/src/routing.rs:174-215 | Every node gets the verdict of the estimate on the nodes finished before it, for every cost model, the program's (`Routing.Costs`) included; a child still missing lies on a cycle through the node. |
| Routing.RegularChildren | crates/maskforge-core/src/routing.rs:217-257 | A Regular node has only Regular children, all finished before it, and no local reason against it. |
| Routing.RegularDescendants | crates/maskforge-core/src/routing.rs:174-257 | A Regular verdict covers every descendant. |
| Routing.RegularAcyclic | crates/maskforge-core/src/routing.rs:174-257 | No Regular node lies on a cycle, whatever the arena looks like. |
| Routing.FieldAgrees | crates/maskforge-core/src/routing.rs:475-546 | The estimate of an object's field is its unbounded number under the cap and past the cap otherwise, through unions, lists and tuples of any depth. |
| Routing.RegularExact | crates/maskforge-core/src/routing.rs:217-473 | The state estimate of a Regular node is exactly its unbounded number, so nothing under it saturated; its cells and its memory are known and follow from it. |
| Routing.CompileUnwrapped | crates/maskforge-core/src/compile.rs:323-381 | Terminates on back-edged arenas; it succeeds exactly when every node under the direct arms has a direct arm or a text form and every construction there succeeds, and blames a construction only when one failed. |
| Routing.ReachableFrom | crates/maskforge-core/src/compile.rs:658-674 | Marks the root and only nodes its text edges reach, closed under those edges. |
| Routing.LowerReachable | crates/maskforge-core/src/compile.rs:644-656 | Succeeds only when the root has a text form, and a refusal is that of some reachable node. |
| Routing.RegularCompiles | crates/maskforge-core/src/compile.rs:323-381 | A node judged Regular has what compiling it needs, whatever the cost estimates were: only a construction can fail. |
| Routing.CompileIr | crates/maskforge-core/src/compile.rs:159-173 | On an IR without diagnostics it names the structured backend exactly for roots that are not Regular; a Regular root is refused later only because a construction fails, and succeeds when none does. |
| Bounds.AddExact | crates/maskforge-core/src/routing.rs:22-32 | The bounded sum is the sum under the cap and past the cap otherwise. |
| Bounds.MulExact | crates/maskforge-core/src/routing.rs:34-44 | The bounded product is exact if and only if it does not multiply zero with an unknown factor. |
| Bounds.Pow2Exact | crates/maskforge-core/src/routing.rs:46-52 | The bounded power is 2^n under the cap and past the cap otherwise, for every n, also where the shift has no value. |
| Bounds.SumExact | crates/maskforge-core/src/routing.rs:381-384 | A fold of bounded sums is exact whatever the number of terms and wherever they stop being known. |
| Bounds.ProductExact | crates/maskforge-core/src/routing.rs:385-389 | A fold of bounded products of positive estimates is exact. |
| Bounds.StatesExact | crates/maskforge-core/src/routing.rs:359-445 | The state estimate of unions, products, objects and repetitions is its formula under the cap and past the cap otherwise, if and only if it is not a repetition of no items whose item is past the cap. |
| Bounds.FormulaPositive | crates/maskforge-core/src/routing.rs:381-438 | Estimates built from exact ones stay positive, which the products above them rely on. |
| Bounds.CellsFollow | crates/maskforge-core/src/routing.rs:451-458 | The cell caps never decide except for objects with fields, where they do from 4097 states on. |
| Bounds.MemoryFollows | crates/maskforge-core/src/routing.rs:105-122 | Retained and peak memory are known exactly when states and cells are, at 64 bytes a state and 8 a cell, 96 more a state at the peak: the memory cap never decides. |

## Left out

- Allocation failures, memory permits, byte accounting and heap sizes: allocation succeeds; the state, edge, branch and field caps are modelled.
- Error texts, stages and observed values: only the error class is kept.
- `regex-automata` and the construction of engines from pattern text: an engine for a pattern is a parameter with the pattern's language, and the dense automaton an arbitrary transition function with dead and quit states.
- Regular-expression text: patterns are trees of fragments, groups and repetitions with a denotation; escaping of literals and the order of alternatives (leftmost-longest preferences) do not matter to a denotation.
- The structured pushdown backend, the joint trie walk over the vocabulary, caches, packed mask tables and the batch mask writers.
- Wire framing, content hashes, builder interning, the memory gate, frontends, FFI and profiling.
- Decimal range and decimal multiple-of patterns that only tests use.
- Hash-map iteration order: keys come in an arbitrary order wherever the program iterates over a hash map.
- Bit sets are naturals read bit by bit, not machine words; that they stay within 64 or 32 bits is proved where it matters.
- Inputs that an earlier stage rejects: array and tuple bounds out of order or past a closed prefix and empty tuple prefixes (ir.rs:978-1017), arena references to later nodes, slices out of range.
- Queues, tables and the graphs under construction are local values of the methods, as they are locals of the program; the decoded and byte tries and the session are objects, the other results are values.
- DenseDfa.BfsMaterialize: rows are kept by position of discovery, where the program keeps them in hash maps keyed by the library's ids.
- Arrays.ArrayBodyEngine: a refusal is only known to be a limit, since it composes several capped constructions.
- Arrays.TupleExactEngine: past the malformed case, the same.
- Arrays.TupleBodyEngine: the same.
- MultipleOf.SuffixEngine: which of the larger moduli meet a limit of the tries, unions and concatenations is not computed.
- MultipleOf.MultipleOfEngine: about spellings with leading zeros or "-0" nothing is said; the caller intersects with the canonical range.
- MultipleOf.CompileIntegerMultiple: for modulus 1 only a sufficient condition, nine states times those of the range, and none for moduli past 4096.
- Elimination.ToRegexViaStateElimination: the budget is sufficient, not necessary; the exact text length depends on the order in which the heuristic picks states.
- Scalars.CanConsumeScalarInterval: an interval that spans the surrogates answers for all its code points; the callers' intervals hold none.
- Routing.CompileUnwrapped: which constructions succeed is an arbitrary verdict for each node, not tied to the engine builders of the other modules.
- Routing.FieldAgrees: the text of a lexical number is taken to be shorter than 2^64 - 1 bytes; the same in `Routing.RegularExact`.
- Routing.RegularCompiles: which constructions succeed is not part of the statement.
- Routing.CompileIr: the verdicts on constructions are as arbitrary as in `Routing.CompileUnwrapped`.
- Session.AllowedTokens: the mask writer is the scan over records; the trie walk that replaces it in production is not modelled.
- Session.Session.Advance: the byte counter is unbounded, where the program's is a u64.
