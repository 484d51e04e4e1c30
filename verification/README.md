# Verification of the codecs, the parser generator, the preprocessor and the JSON reader

This project models the algorithmic cores of the repository in Dafny and proves what they are for.

* **Punycode** (`Punycode*.dfy`, RFC 3492). The encoder and the decoder over 32-bit words and bounded buffers are methods.
  They are proved to compute functions on sequences, in which a word size and a capacity are parameters, and the round
  trip, canonicity and the exact limits are proved of these functions. The decoder adds each delta to its position before
  it wraps the position around, so that it rejects some encodings whose values fit: `PunycodeLimits.RoundTripFails` shows
  one. At 32 bits that sum is the only obstacle, since the test of the weights never fails on what the encoder writes;
  `PunycodeLimits.WordRoundTrip` states exactly when the round trip succeeds. The digits, thresholds and biases that
  both sides share are also stated in the numbers of the RFC (`PunycodeDigits.AdaptIs`, `PunycodeNumbers.dfy`), and so
  are the reasons of failures (`PunycodeFailures.dfy`).
* **LR parser generator** (`Grammar.dfy` to `Tables.dfy`, `Digraph.dfy`, `Trie.dfy`, `Conflicts.dfy`, `Sharing.dfy`,
  `Completeness.dfy`, `Acyclic.dfy`, `Exactness.dfy`, `Nested.dfy`, `Pipeline.dfy`). FIRST, FOLLOW, nullable and
  productive symbols are proved exact against derivations. The collection of item sets, with its nested dictionaries, is
  proved to be the LR(0) automaton. The depth-first relation walk is proved to collect what is reachable, over lists that
  nodes may share and that are extended in place.
  * That sharing is a defect of the source: transitions that read each other have one list as their read set, and what
    follows one of them is added to it. The lookaheads of DeRemer and Pennello are always found, but others can be found
    too, even outside FOLLOW, as `LalrSharing.LookaheadOutsideFollow` shows for a concrete grammar.
    `LalrGenerator.Generator.AttachedBounded` says exactly when that happens, where transitions that share lists are not
    entangled otherwise, and `LRPipeline.MakeTables` that it never happens for a grammar that passes the checks of the
    generator and has no conflicts: `LRAcyclic.ReadsAcyclic` shows that nothing is shared then.
  * By the relations of DeRemer and Pennello, complete items are proved to have exactly the lookaheads that canonical
    LR(1) gives them on the paths to their states (`LalrExactness.RelationsExact`). A second defect is in `includes`,
    where the source also follows items whose production began in an earlier state. `LalrExactness.FollowsExactly` says
    exactly when that adds nothing. `LalrNested.NestedTables` shows a grammar that is LALR(1), and for which the
    generator makes a conflict and tables that refuse a sentence, although its header promises LALR(1) parsing
    (old/grammar/ply/ply/yacc.py:47-52).
  * The tables allow only what the automaton justifies, and where two items of a state compete, precedence and
    associativity decide (`LRConflicts.AssociativityDecides`). The shift/reduce machine over such tables never fails
    inside a reduction, and what it accepts is a parse tree of the input; when the tables have no conflicts it accepts
    exactly the sentences of the grammar, and each has one parse tree only.
* **Preprocessor** (`Conditionals.dfy`, `MacroParts.dfy`, `Macros.dfy`). The flat machine for `#if`, `#elif`, `#else` and
  `#endif` implements nested groups, and the lemmas on outcomes say of every kind of line what it changes for the lines
  behind it. The patches of a macro body, recorded by position and applied from the last to the first, are stated by the
  tokens that come out for each part of the body. They make the simultaneous substitution exactly when no parameter is
  pasted with `##` before a place where it is expanded: the expansion of an argument changes the argument itself, as
  `MacroParts.PastedThenExpanded` shows.
* **UTF-8** (`Utf8.dfy`, `Utf8Numbers.dfy`, `Utf8Text.dfy`, RFC 3629). Bytes and code points are bit vectors; lemmas give
  them as numbers. Decoding, counting and finding agree on every text, and with encoding and stepping on every encoded
  text. The check of well-formedness is characterised exactly: besides well-formed texts it accepts sequences that are
  cut after their second or third byte.
* **JSON** (`Json*.dfy`). The integer decoder is exact for numbers of any length. The grammar gives the value of a
  document, for all feature settings, without cursor, stack, store or recovery. It is anchored on both sides to
  independent texts, with any white space, comments, spelling of numbers and escapes: whatever is written for a value is
  a document of exactly that value, unless a name comes again where that is refused; and wherever the grammar finds a
  value, a text of that value is written. The reader, which reads values in place, un-reads tokens and recovers from
  errors, is proved to find exactly the value of the grammar, to report an error exactly where there is none, to restore
  its stack, and to throw exactly where a text is too deep or a name in it too long.

Where the source and its documentation differ, the model follows the source. The header of the Punycode codec declares
the encoder as `to_punycode`; it is defined as `punycode_encode`. The comparison of a complete item with others, to
which it looks back, takes the dot of an item for a symbol; a literal token `.` can be mistaken for it. The header of
the UTF-8 encoder says that it advances the buffer length and returns true if anything was written; it does not change
the length, and it returns true without writing for numbers above U+10FFFF. The preprocessor keeps no newlines of
directives, because the test that should find them compares a token with token types. The JSON reader takes a sign
without digits for 0, takes a single quote for the beginning of a comment unless strings may be quoted with it, and does
not decrease its depth counter after a syntax error. A comment behind a member stands for the comma and takes the token
behind it along, so that any character can stand there (`JsonReading.JunkForComma`); comments are passed over between
members and elements even where they are not allowed; and an object whose last name is empty may end with a comma. After
a high surrogate any unicode escape is taken for the second half of the pair. A string in single quotes ends at its
closing quote and is then cut at the first double quote in it, and cannot hold an escaped single quote
(`JsonStrings.SingleQuotesExact`). The header of the reader promises that `fail_if_extra` refuses extra text behind the
value (old/src/core/data/json/reader.h:300-301); the text is accepted when no complete token begins it, as
`JsonGrammar.GarbageAccepted` shows and `JsonGrammar.ExtraRefusedExactly` says exactly. `MAX_UINT64` and the largest
magnitude of a negative number are those of 64-bit integers in two's complement.

Types, constants and the few arithmetic facts are in `Wrappers.dfy` and `Arithmetic.dfy`. `hide` statements in proofs
only keep definitions out of the solver's sight.

## Model

| member | source | states |
|---|---|---|
| `PunycodeEncode.Encode` | old/src/core/text/punycode.cpp:98-182 | The encoder over 32-bit words and a bounded buffer: its status is that of the delta computation, on success the output is the Punycode of the input, and nothing behind the output is written |
| `PunycodeEncode.EncodePass` | old/src/core/text/punycode.cpp:152-175 | One pass over the input emits the deltas of every occurrence of the current code point, with the bias adapted after each, and leaves the scan state of the next pass |
| `PunycodeEncode.WriteInteger` | old/src/core/text/punycode.cpp:159-170 | A variable-length integer is written completely or reported as too big; no byte outside its place changes |
| `PunycodeEncode.LeastFrom` | old/src/core/text/punycode.cpp:139-143 | The next code point to handle is the least one in the input that is not below the current one |
| `PunycodeEncode.NextPoint` | old/src/core/text/punycode.cpp:139-150 | The delta in front of the next code point is exactly the number of positions passed over, or is reported as an overflow |
| `PunycodeEncode.WriteBasics` | old/src/core/text/punycode.cpp:114-131 | The basic code points are copied in order, with case forced, exactly when there is room for them and the delimiter |
| `PunycodeDecode.Decode` | old/src/core/text/punycode.cpp:186-269 | The in-place decoder has the status and, on success, the code points and case flags of the decoding function; it writes within the capacity only |
| `PunycodeDecode.DecodeLoop` | old/src/core/text/punycode.cpp:216-265 | The main loop of the decoder replays the deltas as insertions, with the same adapted bias |
| `PunycodeDecode.ReadInteger` | old/src/core/text/punycode.cpp:229-240 | Reading a variable-length integer never wraps around: it stops with the overflow status exactly where the unbounded sum or weight would exceed 32 bits |
| `PunycodeDecode.Insert` | old/src/core/text/punycode.cpp:251-264 | Shifting the tail up and storing makes an insertion, and leaves everything behind it alone |
| `PunycodeDecode.FindDelimiter` | old/src/core/text/punycode.cpp:203-207 | The position found is that of the last delimiter |
| `PunycodeDecode.CopyBasics` | old/src/core/text/punycode.cpp:210-214 | Copying succeeds exactly when all characters before the delimiter are basic |
| `PunycodeDecode.Advance` | old/src/core/text/punycode.cpp:244-249 | Wrapping the position around adds the wraps to the code point, and fails exactly on 32-bit overflow |
| `PunycodeDigits.AdaptBias` | old/src/core/text/punycode.cpp:80-94 | The bias adaptation loop computes, without 32-bit overflow, the bias of section 6.1 of RFC 3492, with its numbers written out |
| `PunycodeDigits.AdaptBound` | old/src/core/text/punycode.cpp:80-94 | Every bias of 32-bit deltas is at most 215, so comparisons with it cannot wrap |
| `PunycodeDigits.AdaptIs` | old/src/core/text/punycode.cpp:80-94 | The bias in numbers: with the delta divided by 700 the first time and by 2 later, and its part for the number of points added, then divided by 35 as often as it exceeds 455, and no more often, m times, it is 36 m and 36 times the quotient over the quotient plus 38 |
| `PunycodeDigits.DigitIs` | old/src/core/text/punycode.cpp:35-51 | The digits in numbers: letters of either case are 0 to 25 and figures 26 to 35 |
| `PunycodeDigits.NoDigit` | old/src/core/text/punycode.cpp:35-51 | And nothing else is a digit |
| `PunycodeDigits.EncodeBasic` | old/src/core/text/punycode.cpp:68-78 | A basic code point is kept up to its case, and a letter is upper case exactly when it is flagged |
| `PunycodeDigits.DigitRoundTrip` | old/src/core/text/punycode.cpp:35-58 | A digit and its case flag survive encoding and decoding, and no digit is the delimiter or the null character |
| `PunycodeDigits.DigitCanonical` | old/src/core/text/punycode.cpp:35-51 | Encoding a decoded digit gives its lower-case form |
| `PunycodeDigits.VarDigitsSound` | old/src/core/text/punycode.cpp:159-171 | The digits written for a delta are self-delimiting and denote it |
| `PunycodeDigits.VarDigitsUnique` | old/src/core/text/punycode.cpp:229-240 | There is only one self-delimiting digit string for a number and a bias (section 3.3 of RFC 3492) |
| `PunycodeDigits.ReadVarBytes` | old/src/core/text/punycode.cpp:229-240 | Reading back what was written for a delta gives that delta and stops behind it, whenever the sum and the weights fit |
| `PunycodeDigits.VarBytesShape` | old/src/core/text/punycode.cpp:159-170 | The last byte of an integer carries the case flag, and no byte is a delimiter or null |
| `PunycodeDigits.ReadVarCanonical` | old/src/core/text/punycode.cpp:229-240 | Whatever integer is read, its bytes in lower case are the ones that would be written for it |
| `PunycodeRoundTrip.TailRoundTrip` | old/src/core/text/punycode.cpp:135-178 | From any point of the encoding on, decoding the remaining deltas restores the remaining insertions, bias by bias, exactly when its sums and weights fit and there is room; otherwise it fails, with an overflow if there is room |
| `PunycodeRoundTrip.RoundTrip` | old/src/core/text/punycode.cpp:98-269 | For any word size, decoding an encoding gives the code points and case flags back exactly when the sums and weights of the decoder fit and the capacity suffices; otherwise it fails, with an overflow if there is room |
| `PunycodeLimits.WeightsAlwaysFit` | old/src/core/text/punycode.cpp:238-239 | For a number that fits 32 bits, no weight that its digits call for overflows |
| `PunycodeLimits.OnlySumsCount` | old/src/core/text/punycode.cpp:230-240 | At 32 bits the decoder reads all that was written exactly when, at every insertion, its position and the delta have a sum that fits; the test of the weights never fails |
| `PunycodeLimits.WordRoundTrip` | old/src/core/text/punycode.cpp:98-269 | The 32-bit round trip: it succeeds exactly when these sums fit and the capacity suffices, with no condition on biases, digits or weights |
| `PunycodeTrip.ThereAndBack` | old/src/core/text/punycode.cpp:98-269 | The two methods on arrays, one after the other: when each succeeds, and that the code points and flags are back when both do |
| `PunycodeLimits.EncodeSucceeds` | old/src/core/text/punycode.cpp:98-182 | Encoding succeeds exactly when every delta fits the word size and the output fits the buffer |
| `PunycodeLimits.RoundTripBelow26Bits` | old/src/core/text/punycode.cpp:98-269 | The round trip for inputs and deltas below 2^26 (section 6.4 of RFC 3492) |
| `PunycodeLimits.UnicodeRoundTrip` | old/src/core/text/punycode.cpp:98-269 | Up to 3855 Unicode code points always survive the round trip, whatever they are |
| `PunycodeLimits.EncodingLength` | old/src/core/text/punycode.cpp:98-182 | An encoding takes at most 11 bytes for each code point and one more |
| `PunycodeLimits.RoundTripFails` | old/src/core/text/punycode.cpp:231-236 | Concrete 32-bit code points whose encoding succeeds and is not decoded: the decoder adds a delta to its position before it wraps the position around, and that sum overflows |
| `PunycodeNumbers.WrittenDigits` | old/src/core/text/punycode.cpp:159-170 | The digits of a delta in numbers: each is at least the threshold of its place, which is between 1 and 26, except the last; and their sum, weighted by 36 less the thresholds before, is the delta |
| `PunycodeFailures.EncodeFails` | old/src/core/text/punycode.cpp:98-182 | Which error the encoder reports: an overflow only if some delta does not fit, and a buffer that is too small only if the output is longer |
| `PunycodeFailures.DecodeFails` | old/src/core/text/punycode.cpp:186-269 | Which error the decoder reports: a bad input only if a byte in front of the last delimiter is not basic, or one behind it no digit, or the input ends inside an integer, which the letter for 0 would complete; an output that is too big only if a first part of the input stands for more code points than there is room for; an overflow only with a first part of complete integers, all of digits |
| `PunycodeNumbers.LettersCode` | old/src/core/text/punycode.cpp:98-269 | For example, the code points 0xFC and 0xF6 are encoded as `ndal`, and that is decoded to them |
| `PunycodeNumbers.MixedCode` | old/src/core/text/punycode.cpp:98-269 | For example, the letter `b` and the code points 0x4F60 and 0x597D are encoded as `b-476ap73a`, and that is decoded to them |
| `PunycodeCanonical.TailCanonical` | old/src/core/text/punycode.cpp:216-265 | Insertions happen in order of code point and position, so encoding what was decoded repeats the deltas |
| `PunycodeCanonical.Canonical` | old/src/core/text/punycode.cpp:186-269 | Whenever decoding succeeds, encoding the result within the same length succeeds and gives the input with its digits in lower case; the result is no longer than the input |
| `PunycodeCanonical.DecodingInjective` | old/src/core/text/punycode.cpp:186-269 | Two inputs with the same decoding differ in the case of digits only |
| `PunycodeCanonical.EncodingZeroFree` | old/src/core/text/punycode.h:30-58 | The output has a null character exactly when the input has one |
| `Digraph.Compute` | old/grammar/ply/ply/yacc.py:1898-1906 | When every node has its own list to begin with: the walk ends, the list of every node has exactly the initial elements of the nodes that it reaches, and two nodes have the same list object exactly when they reach each other |
| `Digraph.ComputeShared` | old/grammar/ply/ply/yacc.py:1898-1928 | When nodes may share lists, which are extended in place: the walk ends; every list has all that its node collects, and only what the node collects when sharing counts as being related; nodes that reach each other end with one list, which one of them began with |
| `Digraph.SolvedExactly` | old/grammar/ply/ply/yacc.py:1908-1928 | Where sharing adds nothing to what is collected, the lists are exact |
| `Digraph.Walk.Traverse` | old/grammar/ply/ply/yacc.py:1908-1928 | A visit finishes the node and everything below it on the stack, or leaves it on the stack with a lower number, and never touches the marks of finished nodes |
| `Digraph.Walk.PopComponent` | old/grammar/ply/ply/yacc.py:1921-1928 | Popping a component gives all its nodes the list of its root and marks them as finished |
| `Digraph.ComponentComplete` | old/grammar/ply/ply/yacc.py:1914-1928 | All nodes of a component reach the same elements, and the root has collected them |
| `Digraph.CollectedSolves` | old/grammar/ply/ply/yacc.py:1885-1891 | What is collected solves the equations of the relation |
| `Digraph.CollectedIsLeast` | old/grammar/ply/ply/yacc.py:1885-1891 | It is in every other solution |
| `GrammarAnalysis.Analysis.FirstOf` | old/grammar/ply/ply/yacc.py:1647-1673 | FIRST of a list of symbols, from the lists as they are |
| `GrammarAnalysis.Analysis.ComputeFirst` | old/grammar/ply/ply/yacc.py:1681-1709 | The loop ends; a terminal is in the list of a symbol exactly when the symbol derives a form that begins with it, and `<empty>` exactly when it derives the empty form |
| `FirstSets.FirstExact` | old/grammar/ply/ply/yacc.py:1647-1709 | Lists that are sound and closed under the rules are exact, for every form |
| `FirstSets.FirstOfStep` | old/grammar/ply/ply/yacc.py:1681-1709 | A derivation step adds nothing to FIRST |
| `GrammarAnalysis.Analysis.ComputeFollow` | old/grammar/ply/ply/yacc.py:1718-1759 | The loop ends; a terminal is in the list of a nonterminal exactly when it stands behind it in a form that derives from a right side, or from the start symbol before the end of the input |
| `FollowSets.FollowComplete` | old/grammar/ply/ply/yacc.py:1718-1759 | Lists that solve the equations have everything that follows, so the computed lists are the least solution |
| `FollowSets.FollowsByName` | old/grammar/ply/ply/yacc.py:1752-1757 | What follows the name of a production follows its last symbols that only vanishing ones follow |
| `GrammarAnalysis.Analysis.Nullable` | old/grammar/ply/ply/yacc.py:2093-2107 | The nullable nonterminals are exactly those that derive the empty form |
| `GrammarAnalysis.Analysis.InfiniteCycles` | old/grammar/ply/ply/yacc.py:1518-1573 | The nonterminals reported are exactly those with productions that derive no string of terminals |
| `GrammarAnalysis.Analysis.TerminationPass` | old/grammar/ply/ply/yacc.py:1534-1561 | A round finds no new terminating nonterminal exactly when the set is closed under the rules |
| `Reduction.ClosedHasAll` | old/grammar/ply/ply/yacc.py:1518-1573 | A set that is closed under the rules has every symbol that derives a string over it |
| `LR0Automaton.Collection.Closure` | old/grammar/ply/ply/yacc.py:1977-1993 | The closure loop ends, and the stamps make it the list of the kernel and, once each, every production that it predicts |
| `LR0Automaton.Collection.Goto` | old/grammar/ply/ply/yacc.py:2002-2033 | The transition of an item set, from the cache or through the nested dictionaries, is the closure of the items that move; the same items always give the same set |
| `LR0Automaton.Collection.Collect` | old/grammar/ply/ply/yacc.py:2009-2024 | The walk down the nested dictionaries ends in the place of the items that move, which is made on the way if it is missing |
| `LR0Trie.NextPlaced` | old/grammar/ply/ply/yacc.py:2015-2024 | A new inner dictionary, also in place of an empty one, changes nothing that can be found in the others |
| `LR0Trie.EndPlaced` | old/grammar/ply/ply/yacc.py:2025-2031 | Storing a set under its items makes it found for these items, and no other set found or lost |
| `LR0Automaton.Collection.Transition` | old/grammar/ply/ply/yacc.py:2002-2033 | Asking again for the transition of a numbered set answers what the automaton says, and changes nothing in it |
| `LR0Automaton.Collection.ItemSets` | old/grammar/ply/ply/yacc.py:2036-2063 | The work list ends; the collection is the LR(0) automaton, every nonempty transition of a state leads to a state with a number, and state 0 is never a target |
| `LR0Automaton.Collection.SymbolsOf` | old/grammar/ply/ply/yacc.py:2051-2054 | No symbol is missed over which some item of the set moves |
| `LR0Automaton.Collection.Tabulate` | old/grammar/ply/ply/yacc.py:2526-2530 | Tabulating the transitions gives the automaton of the collection |
| `LR0Items.ClosureIsItemSet` | old/grammar/ply/ply/yacc.py:1977-1993 | A closure has no duplicates; only its kernel has items that moved or the start item |
| `LR0Items.KernelsBounded` | old/grammar/ply/ply/yacc.py:2036-2063 | There are finitely many kernels, which bounds the number of states |
| `LR0Store.NumberedMore` | old/grammar/ply/ply/yacc.py:2056-2061 | Appending a new set to the states keeps every number and every transition that was followed |
| `LR0Store.BuiltIsAutomaton` | old/grammar/ply/ply/yacc.py:2036-2063 | When all transitions are followed, the numbered sets are the states of the automaton |
| `LR0Store.BuiltHasOneTarget` | old/grammar/ply/ply/yacc.py:1995-2033 | Transitions over a symbol whose items move to the same items lead to the same state |
| `LR0Paths.StatesAreItemSets` | old/grammar/ply/ply/yacc.py:2036-2063 | Every state is an item set, and the start item is in state 0 only |
| `LR0Paths.GotoDefined` | old/grammar/ply/ply/yacc.py:2521-2530 | Where an item has its dot in front, there is a transition over its name |
| `LalrRelations.KernelReads` | old/grammar/ply/ply/yacc.py:2140-2156 | What can be read in a state, an item of its kernel can read |
| `LalrRelations.ReadsStep` | old/grammar/ply/ply/yacc.py:2164-2177 | What can be read after a nullable transition can be read before it |
| `LalrRelations.ReadInFollow` | old/grammar/ply/ply/yacc.py:2281-2285 | The read set of a transition is in FOLLOW of its nonterminal |
| `LalrRelations.IncludesFollow` | old/grammar/ply/ply/yacc.py:2229-2246 | Along `includes`, FOLLOW of the including production is in FOLLOW of the symbol |
| `LalrGenerator.Generator.FindTransitions` | old/grammar/ply/ply/yacc.py:2120-2129 | Exactly the transitions over nonterminals, once each |
| `LalrGenerator.Generator.LookbackIncludes` | old/grammar/ply/ply/yacc.py:2207-2267 | The dictionaries hold exactly the relations `lookback` and `includes` |
| `LalrGenerator.Generator.FollowProduction` | old/grammar/ply/ply/yacc.py:2227-2249 | The walk along a production always finds its way, and collects exactly the transitions that it includes |
| `LalrGenerator.Generator.ComputeReadSets` | old/grammar/ply/ply/yacc.py:2281-2285 | The read sets have exactly what the relation `reads` collects, and two transitions share a list exactly when they read each other |
| `LalrGenerator.Generator.ComputeFollowSets` | old/grammar/ply/ply/yacc.py:2303-2307 | The follow sets, which are made in place from the shared read sets, have all that chains of `includes` collect, nothing but what chains of `includes` and of sharing collect, and exactly the former if transitions that share a list are followed by the same symbols |
| `LalrGenerator.ListsExactly` | old/grammar/ply/ply/yacc.py:2303-2307 | Where transitions that share a list are on no cycle of `includes`, the follow sets are exact if and only if those that share one are followed by the same symbols |
| `LalrGenerator.ListsBounded` | old/grammar/ply/ply/yacc.py:2303-2307 | Where transitions that share a list are on no cycle of `includes`, and no chain of `includes` leads from one to a sharer of another list, the follow sets are in FOLLOW if and only if what follows a transition is in FOLLOW of the transitions that share its list |
| `LalrGenerator.OneSharing` | old/grammar/ply/ply/yacc.py:1908-1928 | There, whatever a path over shared lists can bring comes through one chain of `includes` and one step of sharing |
| `LalrGenerator.Generator.AddLookaheads` | old/grammar/ply/ply/yacc.py:2321-2329 | Exactly the follow sets of the transitions that an item looks back at are attached to it |
| `LalrGenerator.Generator.AddLalrLookaheads` | old/grammar/ply/ply/yacc.py:2338-2355 | All lookaheads of DeRemer and Pennello are attached and every complete item gets a list. Nothing else is attached if transitions that share a list are followed by the same symbols. What is attached is in FOLLOW whenever all that sharing can add is; and, where sharers are on no cycle of `includes` and apart, exactly when what follows a transition is in FOLLOW of those that share its list |
| `LalrGenerator.Generator.AttachedBounded` | old/grammar/ply/ply/yacc.py:2321-2355 | The same for what is attached to the items: every transition that shares a list is looked back at by some complete item |
| `LalrSharing.LookaheadOutsideFollow` | old/grammar/ply/ply/yacc.py:2281-2307 | For a concrete grammar, the generator attaches a lookahead that is not in FOLLOW of the name of its item, because of a shared list |
| `LalrSharing.SharedLookahead` | old/grammar/ply/ply/yacc.py:1908-1928 | The same from the promises of the follow sets alone, for any automaton and order of the transitions of that grammar |
| `LalrSharing.NotAfterD` | old/grammar/ply/ply/yacc.py:1718-1759 | No form that derives from a right side, or from the start symbol before the end, has that lookahead behind that name |
| `LalrSharing.CircleFails` | old/grammar/ply/ply/yacc.py:1908-1928 | That grammar meets the conditions of the exact statement, and what follows a transition is not in FOLLOW of one that shares its list |
| `LalrGenerator.LookaheadInFollow` | old/grammar/ply/ply/yacc.py:2140-2355 | What the relations `lookback`, `includes` and `reads` make a lookahead of an item is in FOLLOW of the name of its production, when the start symbol is followed by the end of the input |
| `LalrGenerator.LookaheadsBounded` | old/grammar/ply/ply/yacc.py:1731-1734 | All lookaheads of these relations are in FOLLOW exactly when FOLLOW of the start symbol has the end of the input, as it has when the start symbol is that of production 1 |
| `LalrGenerator.StartLookahead` | old/grammar/ply/ply/yacc.py:2152-2154 | The end of the input is a lookahead of every production of the start symbol |
| `LalrGenerator.CompleteLooksBack` | old/grammar/ply/ply/yacc.py:2252-2261 | Every complete item looks back at some transition over its name |
| `LRTables.Builder.AddReduce` | old/grammar/ply/ply/yacc.py:2404-2454 | A reduction is entered where there is nothing; in conflict with a shift, whose production counts with its level and the terminal with its own, the action of the higher level is left, and between equal levels the associativity of the terminal leaves the reduction, the shift or no entry; of two reductions that of the earlier line is left; where the end is accepted there is no choice |
| `LRTables.Builder.AddShift` | old/grammar/ply/ply/yacc.py:2455-2497 | A shift is entered where there is nothing; in conflict with a reduction, whose production counts with its level and the terminal with its own, the action of the higher level is left, and between equal levels the associativity of the production leaves the reduction, the shift or no entry; other entries stay |
| `LRTables.Builder.Build` | old/grammar/ply/ply/yacc.py:2362-2536 | Every entry is proposed by an item of its state, and a proposal without a rival is entered; where just two items of a state propose something, the entry is settled by precedence, associativity and the order of the two, or of two reductions by their lines; the construction fails only where a state that accepts has something else to do |
| `LRConflicts.AssociativityDecides` | old/grammar/ply/ply/yacc.py:2404-2497 | So, for a reduction and a shift of productions with the precedence of the terminal, as behind the operands of one binary operator, left associativity leaves the reduction, right associativity the shift, and none no entry, in whatever order the items stand |
| `LRConflicts.TwoEntries` | old/grammar/ply/ply/yacc.py:2396-2497 | In whatever state, two items that alone propose something meet once, the one that stands later against the entry of the first |
| `LRTables.Generate` | old/grammar/ply/ply/yacc.py:1940-1973 | From a grammar to tables that only allow what the automaton justifies; with reductions on FOLLOW only, if the lookaheads are in FOLLOW, which is characterised as for the lookaheads; with every proposed action, if no two actions are proposed for a state and a symbol; and with pairs of proposals settled as by Build |
| `Trees.TreeDerives` | old/grammar/ply/ply/yacc.py:945-974 | The root of a parse tree derives the tokens of its yield |
| `LRParser.HandleOnTop` | old/grammar/ply/ply/yacc.py:945-974 | An item with its dot at k in the last state of a path: the last k symbols are those before the dot, and k states back the production was predicted |
| `LRParser.HandleReady` | old/grammar/ply/ply/yacc.py:967-974 | A complete item on top: its right side is on the stack, and there is a transition over its name below it |
| `LRParser.AcceptReady` | old/grammar/ply/ply/yacc.py:1018-1020 | On acceptance the stack holds one tree, of the start symbol |
| `LRParser.Machine.Step` | old/grammar/ply/ply/yacc.py:914-1020 | A turn of the parser is the turn of the configuration of stacks and tokens ahead; it cannot get stuck inside a reduction, and keeps the stacks spelling a path of the automaton and the yield together with the tokens ahead making up the input |
| `LRParser.Machine.Reduce` | old/grammar/ply/ply/yacc.py:945-1015 | The pops, one slice, and the push give the configuration after the reduction |
| `LRParser.Machine.Shift` | old/grammar/ply/ply/yacc.py:933-943 | The token ahead moves to the stacks |
| `LRParser.Machine.Parse` | old/grammar/ply/ply/yacc.py:869-1020 | A run of a given number of turns has the outcome of the turns of the configurations; if it accepts, it returns a parse tree of the input, and the start symbol derives the input |
| `LRParser.TurnSound` | old/grammar/ply/ply/yacc.py:914-1020 | From consistent stacks every turn leads to consistent stacks, accepts with a parse tree of the whole input, or finds no entry; no pop and no lookup in the goto table fails |
| `LRParser.RunSound` | old/grammar/ply/ply/yacc.py:869-1020 | What any run accepts is a parse tree of the whole input |
| `LRCompleteness.ForestReads` | old/grammar/ply/ply/yacc.py:2140-2177 | The first token of what stands behind a dot is in what the relation `reads` collects for the transition before it |
| `LRCompleteness.ChildFollowed` | old/grammar/ply/ply/yacc.py:2207-2307 | Inside a tree, what follows a child follows its transition, along `reads` and `includes` |
| `LRCompleteness.TreeRuns` | old/grammar/ply/ply/yacc.py:914-1015 | With tables without conflicts the machine turns the yield of a tree into that tree on the stack, and consumes nothing else |
| `LRCompleteness.TreeAccepted` | old/grammar/ply/ply/yacc.py:869-1020 | With tables without conflicts every parse tree is what the machine accepts on its yield |
| `LRCompleteness.AcceptsExactly` | old/grammar/ply/ply/yacc.py:869-1020 | With tables without conflicts the machine accepts exactly the sentences of the grammar |
| `LRCompleteness.Unambiguous` | old/grammar/ply/ply/yacc.py:2362-2536 | A grammar whose tables have no conflicts has at most one parse tree for a sentence |
| `LRAcyclic.Completion` | old/grammar/ply/ply/yacc.py:869-1020 | In a productive grammar with tables without conflicts, whatever is on the stacks on a way to a state, and whatever trees stand for the rest of one of its items, there are tokens with which the machine accepts |
| `LRAcyclic.GoesAround` | old/grammar/ply/ply/yacc.py:914-1015 | Before a symbol that follows all transitions of a cycle of `reads`, the machine reduces nothing to their nonterminals for ever |
| `LRAcyclic.ReadsAcyclic` | old/grammar/ply/ply/yacc.py:2164-2177 | So, in a productive grammar, tables without conflicts mean that `reads` has no cycle |
| `LRAcyclic.NothingToShare` | old/grammar/ply/ply/yacc.py:1908-1928 | So nothing is shared, and sharing does no harm |
| `LalrExactness.ValidIsFollowed` | old/grammar/ply/ply/yacc.py:2066-2355 | Whatever lookahead canonical LR(1) gives an item on a path of the automaton, it follows, by `reads` and `includes`, the transition over the name of the item where its production began |
| `LalrExactness.FollowedIsValid` | old/grammar/ply/ply/yacc.py:2066-2355 | In a productive grammar, whatever follows a transition by these relations is a lookahead that canonical LR(1) gives the predicted productions on some path to its state |
| `LalrExactness.RelationsExact` | old/grammar/ply/ply/yacc.py:2066-2355 | The theorem of DeRemer and Pennello: by their relations, a complete item has exactly the lookaheads that canonical LR(1) gives it on the paths to its state, for every productive grammar |
| `LalrExactness.LooksToBeginning` | old/grammar/ply/ply/yacc.py:2257-2267 | A complete item looks back to the transition where its production begins, and to no other unless the dot of an item is taken for a symbol, which cannot be without a token `.`, or without items inside productions whose names are expected there |
| `LalrExactness.FollowsExactly` | old/grammar/ply/ply/yacc.py:2226-2256 | The source takes for `includes` also what an item inside its production joins; the follow sets are those of DeRemer and Pennello if and only if what follows the larger transition of such a pair follows the smaller one anyway |
| `LalrExactness.NoneInsideHarmless` | old/grammar/ply/ply/yacc.py:2226-2256 | Which is so if no state has an item inside a production whose name it also expects |
| `LalrExactness.LookaheadsExact` | old/grammar/ply/ply/yacc.py:2066-2355 | The lookaheads by the relations as the source computes them include those of LALR(1), and are these where the additional pairs are harmless and dots are apart from symbols |
| `LalrExactness.FoundExactly` | old/grammar/ply/ply/yacc.py:1940-1973 | The same for what the generator attaches, which is exact where its shared lists are harmless too |
| `LalrNested.NestedIsLalr` | old/grammar/ply/ply/yacc.py:47-52 | A concrete grammar is LALR(1): where a reduction has a lookahead, nothing else can be done on it |
| `LalrNested.NestedTables` | old/grammar/ply/ply/yacc.py:2226-2256 | For that grammar the generator makes tables that take a wrong reduction on a symbol which is no LALR(1) lookahead of it, and with which the machine never accepts a sentence of the grammar |
| `LalrNested.NestedRejected` | old/grammar/ply/ply/yacc.py:914-1015 | The machine shifts the first two symbols of that sentence, reduces by the production of the earlier line, and is stuck before the third |
| `LRPipeline.UndefinedSymbols` | old/grammar/ply/ply/yacc.py:1583-1591 | Exactly the symbols of right sides that are neither terminals nor names of productions |
| `LRPipeline.MakeTables` | old/grammar/ply/ply/yacc.py:3143-3220 | The generator behind its checks: it gives up exactly when a symbol is undefined or a nonterminal derives no sentence; otherwise all LALR(1) lookaheads are found; and tables without conflicts come with exactly the lookaheads of DeRemer and Pennello, all of them in FOLLOW when the start symbol is that of production 1, and exactly those of LALR(1) when no production goes on in a state that expects its name |
| `LRPipeline.ParseWith` | old/grammar/ply/ply/yacc.py:869-1020 | Generator and machine together: what is accepted has a parse tree, and without conflicts there are tables, and the sentences are exactly what is accepted after some number of turns |
| `Conditionals.Preprocessor.Parsegen` | old/grammar/ply/ply/cpp.py:594-716 | What is emitted, the macros left and the tests evaluated are the outcome of the lines, which the lemmas on outcomes determine; for nested lines, it is that of the first true branch of each group |
| `Conditionals.EnabledBlock` | old/grammar/ply/ply/cpp.py:651-712 | Where lines are enabled, the flat machine does what a group means and comes back as it was |
| `Conditionals.DisabledBlock` | old/grammar/ply/ply/cpp.py:651-712 | Where lines are disabled, whole groups have no effect and no test is evaluated |
| `Conditionals.OpenBranches` | old/grammar/ply/ply/cpp.py:676-698 | While no branch was taken, the machine takes the first whose test holds |
| `Conditionals.TriggeredBranches` | old/grammar/ply/ply/cpp.py:676-698 | After a branch was taken, the others have no effect, in any order of `#elif` and `#else` |
| `Conditionals.NestedLinesAreBlocks` | old/grammar/ply/ply/cpp.py:676-704 | The lines of groups are exactly the lines in which every directive has its place |
| `Conditionals.TextOutcome` | old/grammar/ply/ply/cpp.py:620-634 | Text is collected over lines and expanded with the macros at its end; unknown directives have no effect |
| `Conditionals.DefineOutcome` | old/grammar/ply/ply/cpp.py:636-640 | At a definition or a removal the text before it is expanded with the old macros, and the lines behind it see the new ones |
| `Conditionals.GroupOutcome` | old/grammar/ply/ply/cpp.py:648-712 | A group, between any text and any lines, is worth its body if its test holds of the macros there, or else the first branch that would be taken, or nothing; the tests up to there are evaluated, in order, and no other |
| `Conditionals.IfDefOutcome` | old/grammar/ply/ply/cpp.py:648-664 | So `#ifdef` is worth its lines if the name is among the macros and no lines if not, and `#ifndef` the other way round |
| `Conditionals.MisplacedOutcome` | old/grammar/ply/ply/cpp.py:676-712 | An `#elif`, `#else` or `#endif` outside of every group has no effect |
| `MacroPatches.Macro.Prescan` | old/grammar/ply/ply/cpp.py:376-409 | The deletions leave every recorded position valid: the records are those of the parts of the body |
| `MacroPatches.SortedIsLastFirst` | old/grammar/ply/ply/cpp.py:409 | Positions are recorded once and in order, so that sorting in reverse turns the list around |
| `MacroPatches.Macro.ApplyPatches` | old/grammar/ply/ply/cpp.py:443-452 | The splices from the last patch to the first replace every part where it stands |
| `MacroPatches.Macro.ExpandArgs` | old/grammar/ply/ply/cpp.py:419-458 | The expansion is the concatenation of what the parts stand for, except that an argument that was expanded already is pasted in its expanded form; and, by positions in the body, every token becomes what the operators around it ask for |
| `MacroParts.PatchedIsSubstituted` | old/grammar/ply/ply/cpp.py:419-458 | Without such a parameter, the patches make the simultaneous substitution |
| `MacroParts.PatchingExact` | old/grammar/ply/ply/cpp.py:443-452 | They make it for all arguments exactly when no parameter is pasted before a place where it is expanded |
| `MacroParts.PastedThenExpanded` | old/grammar/ply/ply/cpp.py:419-458 | A concrete body, `x##a+x`, in which the expansion of the argument is pasted and not the argument |
| `MacroParts.PatchedExpands` | old/grammar/ply/ply/cpp.py:376-458 | Prescan and patches by positions: a parameter behind `#` becomes a string literal; one beside `##` its argument, or the expansion of it where the parameter is expanded further on; any other one the expansion of its argument; an operator in front of a parameter disappears, and a comma in front of `##` and an empty variadic argument; all other tokens stay |
| `MacroParts.QuoteIsQuotation` | old/grammar/ply/ply/cpp.py:426 | The text of a string literal is a quote, the texts of the tokens of the argument one after the other with every backslash doubled, and a quote |
| `MacroParts.QuotedBody` | old/grammar/ply/ply/cpp.py:419-458 | For example, the body `#x` gives that literal, for every argument |
| `Utf8.EncodedBytes` | old/src/core/text/unicode-inline.h:41-67 | The bytes of a code point: the length predicted from the first is the proper one, and the others are continuation bytes |
| `Utf8.DecodeEncoded` | old/src/core/text/unicode.cpp:16-63 | A decoding step over the bytes of a code point finds it and stops behind them |
| `Utf8.CompleteIsEncoded` | old/src/core/text/unicode.cpp:16-63 | A complete sequence that is not overlong has the bytes of the code point decoded from it |
| `Utf8Numbers.EncodedIs` | old/src/core/text/unicode-inline.h:41-67 | The bytes of a code point in numbers: their ranges, and the sum that gives the code point (section 3 of RFC 3629) |
| `Utf8Numbers.StepIs` | old/src/core/text/unicode.cpp:16-63 | What a decoding step answers to any bytes, in numbers: the code point, or 0xFFFD, and where it stops |
| `Utf8Text.GetCodepoint` | old/src/core/text/unicode.cpp:16-63 | The pointer-advancing decoder, with its error exits and the null pointer |
| `Utf8Text.AddCodepoint` | old/src/core/text/unicode.cpp:71-102 | The encoder writes all bytes of the code point or none, inside the space that it is given |
| `Utf8Text.CodepointToUtf8` | old/src/core/data/json/tool.h:15-45 | The encoder of the JSON library gives the same bytes |
| `Utf8Text.DecodeAll` | old/src/core/text/unicode.cpp:16-63 | Repeated decoding gives the steps over any text, and the code points of an encoded text |
| `Utf8Text.CountCodepoints` | old/src/core/text/unicode.cpp:118-127 | Counting gives the number of decoding steps over any text, and of code points in an encoded text |
| `Utf8Text.NextChar` | old/src/core/text/unicode-inline.h:32-38 | Stepping goes forward inside any text, and to the same boundaries as decoding in an encoded text |
| `Utf8Text.FindCodepoint` | old/src/core/text/unicode.cpp:313-328 | The position found is where the first decoding step begins that gives the code point, in any text; in an encoded text, where the first occurrence begins |
| `Utf8Text.FindInTerminated` | old/src/core/text/unicode.cpp:295-310 | The same up to the first null character |
| `Utf8Text.FindingAgrees` | old/src/core/text/unicode.cpp:295-328 | In any text, a code point is found exactly when it is among those decoded |
| `Utf8Text.StepStops` | old/src/core/text/unicode.cpp:16-63 | No decoding step goes over a null character |
| `Utf8Text.IsWellFormed` | old/src/core/text/unicode.cpp:331-360 | The loop accepts exactly when every step passes its tests |
| `Utf8Text.WellFormedExact` | old/src/core/text/unicode.cpp:331-360 | A text is accepted exactly when it is made of encoded code points without surrogates, and of lead bytes with some but not all of their continuation bytes |
| `Utf8Numbers.UnitIs` | old/src/core/text/unicode.cpp:331-360 | These pieces in numbers: the ranges of code points, of lead bytes and of continuation bytes |
| `Utf8Text.ProperTextAccepted` | old/src/core/text/unicode.cpp:331-360 | Every text of code points without surrogates is accepted |
| `Utf8Text.CutAccepted` | old/src/core/text/unicode.cpp:338-339 | A concrete malformed text that is accepted |
| `JsonNumbers.DecodeNumber` | old/src/core/data/json/reader.cpp:1576-1613 | The integer path is taken exactly when the text is that of an integer which fits, never wraps around, and gives exactly that integer |
| `JsonNumbers.UintToString` | old/src/core/data/json/tool.h:64-71 | The digits are written backwards inside the buffer, with the terminator behind them |
| `JsonNumbers.PrintedIsDecoded` | old/src/core/data/json/reader.cpp:1576-1613 | What is printed for any 64-bit number, or with a sign for any magnitude up to 2^63, is decoded as that number |
| `JsonNumbers.DecodedExactly` | old/src/core/data/json/reader.cpp:1576-1613 | The limits in numbers: a text is decoded as an integer exactly when it is digits behind at most one sign whose value is at most 2^64-1, or 2^63 with a sign, and as unsigned exactly above 2147483647 |
| `JsonNumbers.LargestIntegers` | old/src/core/data/json/reader.cpp:1576-1613 | For example, 18446744073709551615 and -9223372036854775808 are integers and their successors are doubles; 2147483647 is signed and 2147483648 unsigned |
| `JsonStrings.DecodeString` | old/src/core/data/json/reader.cpp:1675-1728 | The decoder of strings gives what the text stands for, escape by escape, or fails where an escape is malformed |
| `JsonStrings.DecodeCodepoint` | old/src/core/data/json/reader.cpp:1730-1760 | A unicode escape is one code unit, or two that make a code point above U+FFFF |
| `JsonStrings.QuotingUndone` | old/src/core/data/json/reader.cpp:1675-1728 | Any text, with its quotes and backslashes escaped, is decoded to itself |
| `JsonStrings.UnicodeEscapeUndone` | old/src/core/data/json/reader.cpp:1730-1799 | Every code point that is no surrogate, written as one or two unicode escapes, is decoded to its bytes in UTF-8 |
| `JsonStrings.SingleQuotesExact` | old/src/core/data/json/reader.cpp:1681-1711 | A text in single quotes, with these and backslashes escaped, is read back if and only if it has no quote of either kind; it is refused exactly when the first quote in it is a single one, and cut otherwise |
| `JsonStrings.SingleQuotesPlain` | old/src/core/data/json/reader.cpp:1681-1683 | A string without backslashes is cut at its first double quote, and read as it is exactly when it has none |
| `JsonStrings.SingleQuotes` | old/src/core/data/json/reader.cpp:1681-1711 | For example, `a"b` is read as `a`, and `a` with an escaped single quote behind it is an error |
| `JsonReader.Reader.ReadToken` | old/src/core/data/json/reader.cpp:1250-1326 | The scanner finds the token of the grammar, behind white space, and stops where it ends |
| `JsonReader.Reader.ReadNumber` | old/src/core/data/json/reader.cpp:1415-1436 | The loops over digits, fraction and exponent, with their look-ahead character, stop exactly at the end of the number |
| `JsonReader.Reader.ReadString` | old/src/core/data/json/reader.cpp:1437-1461 | A string ends at the first quote that no backslash stands before, or is missing one |
| `JsonReader.Reader.ReadComment` | old/src/core/data/json/reader.cpp:1351-1413 | A comment ends where the grammar says, or the scanner stops where it found none; the character behind the document is looked at only |
| `JsonReader.Reader.Match` | old/src/core/data/json/reader.cpp:1339-1349 | A literal is consumed exactly when it is there |
| `JsonReader.Reader.PassComments` | old/src/core/data/json/reader.cpp:1472-1473 | Reading over comments ends, with the next token that is none |
| `JsonReader.Reader.RecoverFromError` | old/src/core/data/json/reader.cpp:1801-1813 | Recovery ends right behind the first wanted token or at the end of the document, and adds no errors |
| `JsonReader.Reader.ReadValue` | old/src/core/data/json/reader.cpp:1163-1236 | Reading ends on every document. It throws exactly where the depth or a name demands it; otherwise it gives exactly the value of the grammar, and reports an error exactly where there is none; the stack is restored on every exit; the cursor stays in the document and never goes back in spite of the un-reading of tokens; of the values that were there, only the one that is being read has changed |
| `JsonReader.Reader.ReadArray` | old/src/core/data/json/reader.cpp:1527-1563 | The same for an array: the elements found, in order |
| `JsonReader.Reader.ReadObject` | old/src/core/data/json/reader.cpp:1463-1525 | The same for an object: each name with the value that was last found for it |
| `JsonReader.Reader.ReadInside` | old/src/core/data/json/reader.cpp:1506-1508 | Pushing, reading and popping leaves everything but the value inside as it was, in the one store that holds all values |
| `JsonReader.Reader.ReadMember` | old/src/core/data/json/reader.cpp:1505-1511 | A member is made if there is none, or read anew; the other members keep their values |
| `JsonReader.Reader.Parse` | old/src/core/data/json/reader.cpp:1114-1161 | An exception is thrown exactly where the depth or a name demands it. Otherwise the root is the value that the document has in the grammar if no error was reported, and the document has none if one was; success is that no error was reported |
| `JsonStore.TreeKept` | old/src/core/data/json/reader.cpp:1541-1544 | A change in one value leaves every value that does not contain it as it was |
| `JsonStore.PlainSet` | old/src/core/data/json/reader.cpp:1193-1216 | Replacing the payload of the current value gives that value alone, and detaches what was in it |
| `JsonStore.ArrayGrows` | old/src/core/data/json/reader.cpp:1541-1546 | Reading a new element in place appends its value to the array around it |
| `JsonStore.ObjectGrows` | old/src/core/data/json/reader.cpp:1505-1508 | Reading a member in place updates the object around it in that name only |
| `JsonGrammar.ExtraRefusedExactly` | old/src/core/data/json/reader.cpp:1138-1144 | Text behind the value is refused exactly when its first character begins a complete token |
| `JsonGrammar.GarbageAccepted` | old/src/core/data/json/reader.cpp:1138-1144 | A document with text behind the value that is accepted with all restrictions on |
| `JsonGrammar.RecoveredIs` | old/src/core/data/json/reader.cpp:1801-1813 | Recovery passes over tokens one behind the other, of which only the last is of the kind that is looked for, or of the end |
| `JsonBlanks.GapPassed` | old/src/core/data/json/reader.cpp:1238-1248 | White space and comments, as they are written, are passed over; spaces, tabs, carriage returns and line feeds everywhere |
| `JsonBlanks.GapBetween` | old/src/core/data/json/reader.cpp:1238-1413 | Nothing else is: what lies in front of a token that is no comment is these four characters and complete comments |
| `JsonSpelling.SpelledEnds` | old/src/core/data/json/reader.cpp:1415-1436 | A number that is spelled with a sign or digit, digits, a fraction and an exponent is scanned whole, if nothing behind it goes on with a number |
| `JsonSpelling.NumberIsSpelled` | old/src/core/data/json/reader.cpp:1415-1436 | Whatever is scanned as a number is spelled like that |
| `JsonGlyphs.QuotationToken` | old/src/core/data/json/reader.cpp:1437-1461 | A string of characters and of any escapes for characters, between quotes, is a token with the text that these stand for: each escape letter is listed with its character, and hexadecimal digits of either case with their value |
| `JsonGlyphs.StringIsQuoted` | old/src/core/data/json/reader.cpp:1675-1799 | Whatever is scanned and decoded as a string is spelled like that |
| `JsonText.WrittenIsRead` | old/src/core/data/json/reader.cpp:1163-1236 | Wherever a text of a value stands, with white space, comments, escapes, dropped nulls and numeric keys as the settings allow them, it is read there as that value, up to its end; it is refused exactly if a name comes again in an object and that is refused |
| `JsonText.TextRoundTrip` | old/src/core/data/json/reader.cpp:1114-1161 | Any such text, between white space and comments, is a document of exactly that value; only a strict root can refuse it, or a name that comes again where that is refused |
| `JsonWriting.EveryValueIsRead` | old/src/core/data/json/reader.cpp:1114-1161 | Every value whose numbers are in range or scan as doubles has such a document |
| `JsonReading.ReadIsWritten` | old/src/core/data/json/reader.cpp:1163-1563 | The other way round: wherever a value is found, a text of that value is written, with no name that comes again where that is refused, and the separators are commas, except that behind a comment there may be anything |
| `JsonReading.DocumentIsWritten` | old/src/core/data/json/reader.cpp:1114-1161 | So every document that has a value begins with a text of that value, behind white space and comments |
| `JsonReading.DocumentsAreWritten` | old/src/core/data/json/reader.cpp:1527-1538 | Exactly if the character behind the end of the document, which the source reads, is no closing bracket |
| `JsonReading.OpenArray` | old/src/core/data/json/reader.cpp:1527-1538 | If it is one, a single opening bracket is a document of the empty array |
| `JsonReading.JunkForComma` | old/src/core/data/json/reader.cpp:1513-1522 | A document with a character that is no comma between two members, behind a comment, that is accepted with all restrictions on |
| `JsonDepth.TextThrows` | old/src/core/data/json/reader.cpp:1163-1171 | Reading a text throws exactly when it is deeper than the stack may be, or a name in it is too long |
| `JsonDepth.DocumentThrows` | old/src/core/data/json/reader.cpp:1114-1171 | The same for whole documents, from depth 0 |

## Left out

- Punycode: aliasing between the input and the output arrays; the input is a value. Case flags are booleans, and the contents of the output buffers after a failure are not specified, as in the source.
- PunycodeLimits.UnicodeRoundTrip: is stated for up to 3855 code points, for which every sum fits whatever the code points are; longer inputs are covered by PunycodeLimits.WordRoundTrip, whose condition they need not meet.
- LalrGenerator.Generator.AddLalrLookaheads: the two exact statements, on exact lookaheads (LalrGenerator.ListsExactly) and on FOLLOW (LalrGenerator.ListsBounded), are for transitions that share a list and are on no cycle of `includes`, and, for FOLLOW, from which no chain of `includes` leads to a sharer of another list. Elsewhere the conditions are sufficient; which list receives which symbols depends there on the order in which the walk visits the transitions.
- Identities of Python objects are positions; an empty item set that `lr0_goto` stores in its dictionaries counts as none, as it does for the source.
- LalrExactness.RelationsExact: is about productive grammars, as the generator demands them (old/grammar/ply/ply/yacc.py:3203-3209), and about complete items of productions other than 0, since no other item reduces.
- LR(0) states are not claimed to be different as sets; the cache tells them apart by the order of items.
- LRTables.Builder.Build: where more than two items of a state propose something on one terminal, the last of these meetings is stated by LRTables.Builder.AddReduce and LRTables.Builder.AddShift, but not the result of all; it depends on the order of the items, since a reduction is compared with the production of the item that shifts. The two error exits of a shift that cannot be taken are left out.
- LRParser.Machine.Step: an error entry ends the run, where the source goes into error recovery.
- The SLR mode, error recovery of the parser, actions that raise `SyntaxError`, values computed by grammar actions (trees stand for them), table files, reflection and warnings.
- LRParser.Machine.Parse: runs a given number of turns; with cyclic grammars and conflicts resolved in favour of a cycle the source's loop need not end.
- Conditionals.Preprocessor.Parsegen: macro expansion, the evaluation of `#if` expressions, `define` and `undef` are parameters; file inclusion, grouping of lines and `__DATE__` are not modelled.
- Collection of macro arguments, and token identities shared between an argument and its expansion.
- The null-terminating variants of the UTF-8 encoder, escape sequences, and length_of_codepoint.
- JsonReader.Reader.Parse: says nothing about the root after an exception, or about what it holds after an error; the source promises nothing about either.
- JsonReading.ReadIsWritten: what stands behind a comment in place of a comma is any string; and the character behind the end of the document is no closing bracket, which JsonReading.DocumentsAreWritten shows to be needed.
- JsonReader.Reader.ReadComment: comments are passed over, and not collected or attached to values.
- JsonReader.Reader.ReadValue: positions in values are not modelled, and a double is its text, since its scan is a parameter.
- JsonReader.Reader.ReadArray: as for ReadValue, positions are not modelled.
- JsonReader.Reader.ReadObject: as for ReadValue, positions are not modelled; the text of a number as a key is a parameter.
- Texts of JSON errors. The duplicate reader class mirrors this one.
- `#ifdef` and `#ifndef` without a name, which raise an exception.
- The writer of JSON, the channel, command line, file system, terminal and clock code, and the hand-written lexers.
