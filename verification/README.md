# Verified model of the Marpa parse engine

These modules model the C library libmarpa (cpan/engine/read_only), the engine of Marpa::R2, and prove what it is for.
Six parts are modelled in the form the library has them, as classes whose methods change their fields and as loops
with invariants:

- **The recognizer.** `Recognizer` is an Earley parser with Leo items: a sorted stack of pending tokens that may be
  ambiguous and of any length, one Earley set for each earleme at which a token ends, recycled lookup lists that keep
  items unique, a postdot index with memoized chains of right-recursive completions, and source links. Its sets are
  shown to hold exactly the items a reference definition by derivations calls right, every answer it gives is tied to
  that definition, and two recognizers that differ only in the Leo switch are shown to be indistinguishable over any
  run of calls.
- **The grammar rewrite.** Rules with nullable symbols are cut into pieces with virtual symbols between them; every
  null pattern comes from exactly one chain of pieces. Sequences become left-recursive rules. A census drops what is
  of no use, and closures give nullability, prediction lists and right recursion; each verdict of the census is tied
  to what the documented rules spell. The whole is shown to keep the language, so that the recognizer accepts exactly
  the sentences of the external grammar.
- **The tree iterator and the valuator.** The iterator lists every parse tree of an and/or graph once. The valuator
  turns a tree into steps of a stack machine, which is shown to compute the recursive value of the tree and to hand
  each rule one value for each of its symbols: what it leaves behind is a derivation by the external grammar, with
  every part in its place in the input.
- **The AVL tree** with traversers that survive insertions.
- **The threaded AVL tree** with deletion.
- **Bit vectors and matrices** packed into words, the scan for runs of set bits, and the closure by rows.

`Derivations` is the reference for the recognizer, `LeoWalks.CompletionChain` for its Leo items, `Chaf.Slice` and
`Sequences.Items` for the rewrite of one rule, `Languages` over `ExternalGrammars.Documented` for that of a grammar,
`Trees` and `ParseTrees` for the iterator, `Valuations` for the valuator, `AvlTrees` and `AvlDeletions` for the AVL
trees.

Conventions. Earley sets are named by their earleme. Nulling symbols never carry a dot, so an Aycock-Horspool item is
a rule with a dot position among its non-nulling symbols. A postdot index is a map from symbols to lists. Bit vectors
and matrices are modelled as words in `BitVectors` and `BitMatrices`, and the matrices of the closures are of that
kind; elsewhere a bit vector is a set, a sequence or an array of booleans. Every symbol is valued. Items in the AVL
trees are integers under their own order, and their nodes live in an arena. Where the source writes the two mirror
images of a rotation out, the threaded tree has one method with the side as a parameter.

Findings.

- The sequence rewrite never looks at the minimum of a sequence: a rule with a minimum of two or more accepts a lone
  item (`Sequences.MinimumIgnored` gives the exact condition).
- A sequence whose separator is unproductive is dropped as a whole, though a single item needs no separator
  (`GrammarRewrites.LoneItemLost`; `ExternalGrammars.SameBodies` gives the exact condition).
- Leo chains need no assumption that the grammar is free of cycles: a chain within one set would need predictions in a
  circle, and predictions go back to the start rule, so the test that ends a chain early is never met
  (`PostdotItems.ChainNeverLoops`).
- The first Earley set never has Leo items, because the switch takes effect only after its index is made.
- The AVL traverser's `first`, `last`, `find` and `at_or_after` do not reset the height. Called in the middle of a
  walk they lay the new path on top of the old one, and past the greatest item the walk goes on with an item left over
  instead of ending (`AvlTraversers.Traverser.OnTopOf` is the exact condition, `AvlTraversers.FirstMidWalk` two items
  that show it, and `AvlTraversers.Traverser.Next` says what is returned). Called again and again they run past the 92
  slots, where the source has only an assertion (`First`, `Last` and `Find` say exactly when,
  `AvlTraversers.FirstUntilFull` after how many calls).
- The AVL traverser's `at_or_after` is documented to go to the null item when there is nothing to find; it stays where
  it is (`AvlTraversers.Traverser.AtOrAfter`; `AvlTraversers.AtOrAfterEnd` shows it).
- The bottom-up closure never brings up a rule with an empty right side; its result is closed under all rules exactly
  when it holds their left sides (`Nullables.RhsClosure`).

## Model

| member | source | states |
|---|---|---|
| Observability.EarleyExact | cpan/engine/read_only/marpa.c:12385-12601 | Without Leo items, a dotted rule with a given origin is in the set at an earleme exactly when its rule is predicted at the origin by a valid prefix and the symbols before the dot derive a path of accepted tokens from origin to earleme. |
| Observability.LeoExact | cpan/engine/read_only/marpa.c:12464-12566 | With Leo items every item present is still right, and a right item that is missing is a completion for which the top of its Leo chain is present. |
| Observability.IncompleteExact | cpan/engine/read_only/marpa.c:12385-12601 | Items with a symbol left after the dot are present exactly when right, Leo items or not. |
| Observability.AcceptanceExact | cpan/engine/read_only/marpa.c:12464-12566 | The completed start rule is in a set exactly when the accepted tokens spell a sentence ending there. |
| EarleySets.WaitersExact | cpan/engine/read_only/marpa.c:12912-12945 | A symbol is in the postdot index of a set exactly when some right item waits for it there. |
| Observability.LeoChangesNothing | cpan/engine/read_only/marpa.c:12464-12566 | On the same tokens, Leo on and Leo off give the same incomplete items, the same postdot symbols and the same verdict on the start rule, and the completions with Leo are among those without. |
| Observability.Lockstep | cpan/engine/read_only/marpa.c:11109-11152 | Two recognizers that differ only in the Leo switch, driven by any sequence of calls, answer every call alike and keep sets that look the same throughout. |
| Observability.SameVerdict | cpan/engine/read_only/marpa.c:12203-12252 | Sets that look the same accept and refuse the same tokens with the same codes. |
| Observability.SameExhaustion | cpan/engine/read_only/marpa.c:12612-12628 | Sets that look the same run out of input at the same time. |
| Observability.OneShotPrediction | cpan/engine/read_only/marpa.c:12578-12601 | One pass over the items present before prediction finds exactly the rules that the fixpoint of prediction finds. |
| Observability.SourcesExact | cpan/engine/read_only/marpa.c:11615-11762 | Between calls every scanned or completed item has a source link, the links are exactly the steps that lead to it, and none is stored twice. |
| Observability.ItemsUnique | cpan/engine/read_only/marpa.c:11469-11548 | Between calls no two items of any set have the same rule, dot and origin. |
| Observability.RecognizerMemo | cpan/engine/read_only/marpa.c:12892-13308 | Between calls, in every set but the first, a recognizer that uses Leo items has one for a symbol exactly when a single item of the set waits for it, as the last symbol of a right-recursive rule; its top is the end of the one chain of completions it stands for. Without the switch, and in the first set, there are none. |
| Derivations.SpanOrder | cpan/engine/read_only/marpa.c:12385-12601 | Rules are never empty, so what lies before a dot spans input: the middle of every step is strictly before its end. |
| Derivations.ValidInRange | cpan/engine/read_only/marpa.c:12464-12566 | A right item has its origin strictly before its set exactly when something is before its dot. |
| Derivations.ValidComplete | cpan/engine/read_only/marpa.c:12529-12555 | Advancing a right predecessor over a right completion gives a right item. |
| Derivations.ValidPredictions | cpan/engine/read_only/marpa.c:12578-12601 | Everything on the prediction list of a right item is right. |
| EarleySets.ClosedIsComplete | cpan/engine/read_only/marpa.c:12385-12601 | A set closed under scanning, completion (with Leo items) and prediction holds every right item, up to completions that a Leo item stands for. |
| EarleySets.ValidLeo | cpan/engine/read_only/marpa.c:12490-12524 | The top of a Leo item is a right item whenever the completion that meets it is. |
| Recognizers.Recognizer.StartInput | cpan/engine/read_only/marpa.c:11858-12062 | Input starts once; only the first set exists then, it has no Leo items and no item twice, and the invariant of the recognizer holds. |
| Recognizers.Recognizer.PredictFirst | cpan/engine/read_only/marpa.c:12012-12044 | The worklist of rule lists ends with exactly the right items of the first set, each once. |
| Recognizers.Recognizer.ReadAlternative | cpan/engine/read_only/marpa.c:12110-12258 | A token is accepted exactly when input is on, its symbol is a terminal with a number of its own, its value is not 0, its length is in range, a right item waits for it (by derivations, not by the sets), it ends in range and it was not read before. Otherwise each code is given exactly when its check is the first to fail, and nothing changes. An accepted token is pending with its value. |
| Recognizers.Recognizer.EarlemeComplete | cpan/engine/read_only/marpa.c:12264-12660 | Closing an earleme keeps the whole invariant (exact sets with no item twice, exact links, exact pending tokens), leaves finished sets alone, and makes a set exactly when a token ends there. Input ends exactly when no token ends later and either the furthest token has been passed or a set was made at which no right item waits for a terminal (by derivations); while a token is pending it never ends. |
| Recognizers.Recognizer.EarleyItemAssign | cpan/engine/read_only/marpa.c:11469-11548 | An item is created exactly when the set does not have it yet, although the lookup lists hold stale contents; items stay distinct and numbered in order of creation. |
| Recognizers.Recognizer.ScanTokens | cpan/engine/read_only/marpa.c:12378-12427 | All tokens that end at the earleme are taken off the stack and no others; every item waiting for one of them is advanced, and every advance is linked once. |
| Recognizers.Recognizer.CompleteCause | cpan/engine/read_only/marpa.c:12458-12572 | A completion adds the top of its Leo chain or every advanced waiter, links each once, and stacks exactly the new completions. |
| Recognizers.Recognizer.CompleteAll | cpan/engine/read_only/marpa.c:12430-12575 | The completion stack runs down with every completed item processed exactly once, and the set is closed under completion. |
| Recognizers.Recognizer.PredictAll | cpan/engine/read_only/marpa.c:12576-12601 | Every rule listed for an item present before prediction gets its item, and nothing else is added. |
| Recognizers.Recognizer.SetUseLeo | cpan/engine/read_only/marpa.c:11109-11152 | Leo items can be switched only before input starts. |
| Recognizers.ExactPopped | cpan/engine/read_only/marpa.c:12430-12575 | Each completed item is on the stack once or has been dealt with, never both, through every step of the stack loop. |
| Recognizers.AllScanned | cpan/engine/read_only/marpa.c:12363-12427 | Popping from the sorted stack stops exactly when every token ending at the earleme has been scanned, and leaves exactly the later ones. |
| Recognizers.FinishedLinks | cpan/engine/read_only/marpa.c:12385-12601 | The links made while a set was built are exactly the steps into the finished set. |
| SourceLinks.AddLinkKeeps | cpan/engine/read_only/marpa.c:11615-11762 | Adding a link loses none of those there, whether the item had none, one or many. |
| SourceLinks.AmbiguateKeeps | cpan/engine/read_only/marpa.c:11713-11762 | Making an item ambiguous keeps its one link. |
| PostdotItems.PostdotItemsCreate | cpan/engine/read_only/marpa.c:12892-13308 | The index lists exactly the items waiting for each symbol, each once. With the switch the symbols with a Leo item are exactly those one item waits for, as the last symbol of a right-recursive rule, and each is populated with the completion at the end of its walk, all the way up; without the switch there are none. |
| PostdotItems.PopulateLims | cpan/engine/read_only/marpa.c:13017-13276 | After the population loop every Leo item has its top rule and origin. |
| PostdotItems.BuildChain | cpan/engine/read_only/marpa.c:13096-13204 | The chain of unpopulated Leo items is followed to its end and never holds more entries than there were Leo symbols. |
| PostdotItems.ChainNeverLoops | cpan/engine/read_only/marpa.c:13182-13204 | A chain of Leo predecessors within one set never meets itself, with no assumption about cycles in the grammar. |
| PostdotItems.NoUnitCycle | cpan/engine/read_only/marpa.c:13096-13204 | Leo bases predicted in one set cannot wait for each other in a circle, because every prediction goes back to the start rule. |
| PostdotItems.PredecessorExists | cpan/engine/read_only/marpa.c:13028-13095 | The rule of a Leo base was predicted, so an item waits for its left side where it was predicted. |
| PostdotItems.PopulateOne | cpan/engine/read_only/marpa.c:13208-13276 | Populating a Leo item from its populated predecessor, or from its own base when it has none, makes it right as far as that one step goes, and keeps the others right; LeoWalks.MemoIsWalk joins the steps. |
| PostdotItems.FinishedSetOk | cpan/engine/read_only/marpa.c:12892-13308 | The set with its index extends a right sequence of sets to a right one. |
| LeoWalks.MemoIsWalk | cpan/engine/read_only/marpa.c:13096-13276 | In right sets, going from the base of any Leo item to the Leo item for its left side where it was predicted, and on until there is none, ends, and the top stored in the Leo item is the completion at that end. |
| LeoWalks.WalkUnique | cpan/engine/read_only/marpa.c:13096-13204 | There is only one such walk. |
| LeoWalks.WalkIsChain | cpan/engine/read_only/marpa.c:12464-12566 | Where the Leo items are exact, the walk over Leo items is the chain of completions read off the items alone: go on while one item waits for the left side, as the last symbol of a right-recursive rule. |
| LeoWalks.MemoIsChain | cpan/engine/read_only/marpa.c:12464-12566 | So a Leo item stands for one chain of completions, and its top is the end of it. |
| Psars.LookupIsExact | cpan/engine/read_only/marpa.c:11529-11541 | A stored item with this rule, dot, origin and earleme is found exactly when it is one of the working items. |
| Psars.ClaimNew | cpan/engine/read_only/marpa.c:19227-19263 | Claiming a free list keeps owners and lists pointing at each other and the owned lists in front. |
| Psars.StoreNew | cpan/engine/read_only/marpa.c:11542-11547 | Storing a new item keeps the lists exact for the larger working set. |
| Alternatives.Insert | cpan/engine/read_only/marpa.c:11835-11854 | Insertion keeps the pending stack strictly sorted, adds exactly the new token, and refuses exactly duplicates. |
| Alternatives.InsertionPoint | cpan/engine/read_only/marpa.c:11767-11797 | The binary search finds the one place that keeps the order, or the token that is already there. |
| Alternatives.TopEndsFirst | cpan/engine/read_only/marpa.c:11814-11830 | The token on top of the sorted stack ends no later than any other. |
| Alternatives.CompareIsAnOrder | cpan/engine/read_only/marpa.c:11802-11809 | The comparison is a strict total order on tokens. |
| Grammars.PredictionsAreClosed | cpan/engine/read_only/marpa.c:9265-9361 | A prediction list is closed under further prediction. |
| Grammars.StartIsNotRightRecursive | cpan/engine/read_only/marpa.c:9401-9429 | The start rule is never eligible for Leo items. |
| Precomputation.Precompute | cpan/engine/read_only/marpa.c:9031-9491 | From the rules alone it computes prediction lists that are exactly the reflexive-transitive closure over leftmost symbols, rule lists by left side, and right-recursion flags that are exactly right recursion. |
| Precomputation.LeftExact | cpan/engine/read_only/marpa.c:9265-9361 | A rule is reached through leftmost symbols exactly when the closed matrix has the bit. |
| Precomputation.RightExact | cpan/engine/read_only/marpa.c:9366-9429 | A rule is right-recursive exactly when the closed matrix leads from its last symbol back to its left side. |
| Closures.TransitiveClosure | cpan/engine/read_only/marpa.c:18869-18886 | Worked in place on rows of packed words, the matrix ends with bit (i, j) exactly when the original had a path of one or more steps from i to j. |
| Closures.CloseRow | cpan/engine/read_only/marpa.c:18874-18884 | One step brings one row up to date with the outer row, whether or not the outer row is done already, and leaves the other rows alone. |
| BitMatrices.BitMatrix.OrAssign | cpan/engine/read_only/marpa.c:18533-18539 | Word by word, the bits of the row become the union of both rows, none is set past its end, and no other row changes. |
| BitMatrices.BitMatrix.Set | cpan/engine/read_only/marpa.c:18829-18866 | Exactly the one bit is set. |
| Closures.WithinExact | cpan/engine/read_only/marpa.c:18869-18886 | The rounds of the closure together are reachability. |
| Nullables.RhsClosure | cpan/engine/read_only/marpa.c:18640-18750 | The result is the least superset of the seed closed under the rules; it is closed exactly when it holds the left sides of the empty rules; the stack never needs more slots than there are symbols. |
| Nullables.BuildIndex | cpan/engine/read_only/marpa.c:7254-7278 | The index built from the sorted pairs lists for each symbol exactly the rules paired with it. |
| BitVectors.BitVector.Scan | cpan/engine/read_only/marpa.c:18544-18620 | The next run of set bits at or after a start is found, maximal to the right, in any word and across words; only bits past the end are cleared. |
| BitVectors.BitVector.Count | cpan/engine/read_only/marpa.c:18625-18635 | Scanning on from two past each run visits every set bit once in ascending maximal runs, so the count is the cardinality. |
| BitVectors.AddRun | cpan/engine/read_only/marpa.c:18631-18634 | One more run extends the listing of the bits below a point to the bits below two past the run. |
| BitVectors.LowestBit | cpan/engine/read_only/marpa.c:18585-18615 | Shifting right until the bottom bit is set finds the lowest set bit of a word that is not zero. |
| BitVectors.TrimLast | cpan/engine/read_only/marpa.c:18560-18564 | Masking the last word clears exactly the bits past the end. |
| Compilations.ParserExact | cpan/engine/read_only/marpa.c:7866-8961 | From end to end, after any calls: a recognizer for a compiled grammar has the completed start rule at an earleme exactly when that is not 0 and the tokens accepted so far spell the start symbol up to there by the external rules as documented, provided no sequence has a minimum over one or an unreadable separator; the empty sentence is one exactly when the start symbol is called nullable. |
| Compilations.SentencesExact | cpan/engine/read_only/marpa.c:7866-8961 | With no proviso, the same for the external rules as the rewrite takes them, the empty sentence included. |
| Compilations.FindParse | cpan/engine/read_only/marpa.c:14635-14711 | Looking for a parse that ends at any earleme, 0 included, finds one exactly when the tokens read spell the start symbol up to there. |
| Compilations.TrivialExact | cpan/engine/read_only/marpa.c:14635-14644 | A grammar called trivial has the empty sentence and no other. |
| Compilations.Compile | cpan/engine/read_only/marpa.c:7040-9491 | Precomputation refuses a grammar for the first thing wrong with it, calls it trivial when only the empty sentence can be in its language, and otherwise yields a grammar the recognizer can work with, made from exactly the used rules. |
| Compilations.CompiledFits | cpan/engine/read_only/marpa.c:9031-9491 | A compiled grammar, with the numbers of its symbols, is all that a recognizer asks for. |
| Compilations.NewRecognizer | cpan/engine/read_only/marpa.c:10221-10238 | So a recognizer can be made for it, with the whole invariant in place. |
| Compilations.StartSpans | cpan/engine/read_only/marpa.c:8939-8957 | The start rule of the numbered grammar is spanned by the same tokens as the start symbol. |
| GrammarRewrites.LanguageKept | cpan/engine/read_only/marpa.c:7866-8930 | The rewrite keeps the language: an accessible symbol spans exactly the same tokens in the internal grammar as in the external one, empty spans aside. |
| GrammarRewrites.DocumentedLanguageKept | cpan/engine/read_only/marpa.c:7866-8930 | For grammars whose sequences are taken literally that is the documented language. |
| GrammarRewrites.NullableExact | cpan/engine/read_only/marpa.c:7382-7410 | The symbols given a null version are exactly those that can be empty. |
| GrammarRewrites.InternalIsExternal | cpan/engine/read_only/marpa.c:7866-8930 | Nothing is added: an internal derivation, virtual symbols and all, is a derivation by the external rules. |
| GrammarRewrites.ExternalIsInternal | cpan/engine/read_only/marpa.c:7866-8930 | Nothing is lost: a derivation by the external rules that spans input goes through the pieces of the used rules. |
| GrammarRewrites.RewriteRules | cpan/engine/read_only/marpa.c:7922-8930 | Every used rule, and no other, is rewritten in turn, with virtual symbols of its own. |
| GrammarRewrites.LoneItemLost | cpan/engine/read_only/marpa.c:7552-7577 | A sequence whose separator cannot be read is dropped, and with it the lone item that needs no separator: one grammar and one token show it. |
| GrammarRewrites.LoneItemGained | cpan/engine/read_only/marpa.c:7932-8040 | A sequence of at least two items accepts one: one grammar and one token show it. |
| ExternalGrammars.SequenceBodies | cpan/engine/read_only/marpa.c:7932-8040 | What a sequence is documented to be, symbol by symbol: nothing if the minimum allows that, otherwise at least that many items with a separator at every second place, the last one a separator only where separation is not proper. |
| ExternalGrammars.SameBodies | cpan/engine/read_only/marpa.c:7527-7583 | A sequence is taken as documented exactly when its minimum is at most one and its separator, if any, is productive. |
| Censuses.TakeCensus | cpan/engine/read_only/marpa.c:7087-7614 | Symbols and rules are classified, or the first error in order is named, and it is really there. |
| Censuses.CountSymbols | cpan/engine/read_only/marpa.c:7181-7511 | Nullable and productive symbols are the least sets closed under the rules, accessible ones are reached from the start symbol, and nulling ones are left sides that reach no terminal. |
| Censuses.NullableVanishes | cpan/engine/read_only/marpa.c:7382-7410 | Every symbol called nullable derives the empty string. |
| Censuses.VanishingIsNullable | cpan/engine/read_only/marpa.c:7382-7410 | Every symbol that derives the empty string is called nullable. |
| Censuses.DerivingIsProductive | cpan/engine/read_only/marpa.c:7415-7436 | Every symbol that derives anything is called productive. |
| Censuses.NullingSpansNothing | cpan/engine/read_only/marpa.c:7475-7511 | A symbol called nulling derives no input. |
| Censuses.SpanningIsUsed | cpan/engine/read_only/marpa.c:7514-7614 | No accessible rule that derives input is dropped. |
| CensusMeanings.ProductiveExact | cpan/engine/read_only/marpa.c:7415-7436 | A symbol is called productive exactly when some tokens, all of them terminals, spell it by the documented rules. |
| CensusMeanings.NullableDocumented | cpan/engine/read_only/marpa.c:7382-7410 | Whatever the rules, a symbol is called nullable exactly when the documented rules spell it with no tokens. |
| CensusMeanings.AccessibleExact | cpan/engine/read_only/marpa.c:7447-7469 | A symbol is called accessible exactly when rules lead to it from the start symbol, separators included. |
| CensusMeanings.NullingExact | cpan/engine/read_only/marpa.c:7475-7511 | A symbol is called nulling exactly when it has rules and they lead to no terminal. |
| CensusMeanings.UsedExact | cpan/engine/read_only/marpa.c:7514-7614 | A rule is kept exactly when it is led to from the start symbol, each of its symbols derives something, and one of them has no rules or leads to a terminal. |
| CensusMeanings.AnswerExact | cpan/engine/read_only/marpa.c:7087-7614 | Each refusal is given exactly when its reason, told by what the documented rules spell, is the first that holds; a grammar is taken exactly when there is none. |
| CensusMeanings.LexiconExact | cpan/engine/read_only/marpa.c:7866-7920 | In a compiled grammar exactly the locked terminals and the symbols without rules may be read, and exactly the symbols that are led to and derive something have a number. |
| GrammarRewrites.VersionsFit | cpan/engine/read_only/marpa.c:7866-7920 | In the internal grammar no nulling symbol stands in its proper version, and no symbol that cannot be empty in its null version. |
| ChafRanks.RanksOrderPatterns | cpan/engine/read_only/marpa.c:8072-8895 | For two null patterns of a rule, at the first piece where their chains differ the higher rank belongs to the pattern that is not null at the first factor where they differ. |
| ChafRanks.PatternsSplit | cpan/engine/read_only/marpa.c:8072-8895 | Of two different patterns one is always the higher in that sense. |
| ChafRanks.PiecesFollow | cpan/engine/read_only/marpa.c:8072-8895 | Each piece of a chain starts where the one before ends, and the pieces of the pattern with nothing null all have the highest rank. |
| Chaf.PiecesWithin | cpan/engine/read_only/marpa.c:8100-8107 | The virtual symbols of a rule are the next ones in order, as many as its steps, and only the last symbol of a piece is virtual. |
| Chaf.ChainForSpells | cpan/engine/read_only/marpa.c:8072-8895 | Every null pattern of a rule that leaves something standing is spelled by a chain of its pieces, which covers every symbol of the rule once. |
| Chaf.ChainSpellsPattern | cpan/engine/read_only/marpa.c:8072-8895 | Conversely whatever a chain of pieces spells is such a pattern, and the chain is the one for it. |
| Chaf.ChainIsUnique | cpan/engine/read_only/marpa.c:8072-8895 | A pattern comes from exactly one chain: the pieces add no ambiguity. |
| Chaf.PiecesStandUp | cpan/engine/read_only/marpa.c:8072-8895 | No piece, and so no virtual symbol, is nullable. |
| Chaf.PiecesIds | cpan/engine/read_only/marpa.c:8100-8107 | Pieces made from one virtual symbol on use only later virtual symbols. |
| Rewriting.Rewriter.Census | cpan/engine/read_only/marpa.c:8043-8062 | The census finds exactly the proper nullable positions, in order, and the end of the last symbol that cannot be null. |
| Rewriting.Rewriter.EmitPieces | cpan/engine/read_only/marpa.c:8072-8895 | The loop over the factors appends exactly the pieces of the rule, with fresh virtual symbols. |
| Rewriting.Rewriter.RewriteRule | cpan/engine/read_only/marpa.c:7922-8928 | A BNF rule becomes its pieces, or its copy when nothing in it is nullable. |
| Rewriting.RewriteKeepsPatterns | cpan/engine/read_only/marpa.c:8043-8928 | For any number of nullable symbols: each allowed null pattern has exactly one chain, its real symbols number the length of the rule, and every internal rule stands up. |
| Rewriting.Rewriter.RewriteSequence | cpan/engine/read_only/marpa.c:7932-8040 | A sequence rule becomes its two to four left-recursive internal rules. |
| Sequences.SequenceIsItems | cpan/engine/read_only/marpa.c:7932-8040 | The internal rules of a sequence spell exactly the separated lists of one or more items, with a last separator exactly where separation is not proper. |
| Sequences.MinimumIgnored | cpan/engine/read_only/marpa.c:7932-8040 | The rewrite does not look at the minimum: every list it accepts has the number of items asked for exactly when the minimum is at most one. |
| TreeIterators.TreeIterator.Next | cpan/engine/read_only/marpa.c:16690-16972 | Each call moves to the next tree in order of choices, or gives up exactly when none is left; the in-use bits are the non-empty or-nodes on the stack. A nulling parse has one tree, the empty one. |
| TreeIterators.TreeIterator.Iterate | cpan/engine/read_only/marpa.c:16722-16765 | Stepping back finds the latest nook with a further and-node; no tree is skipped. |
| TreeIterators.TreeIterator.Build | cpan/engine/read_only/marpa.c:16771-16956 | Adding children ends with a whole tree, the next one, or at an or-node that is in use already, below which there is no tree. |
| TreeIterators.GrownRuns | cpan/engine/read_only/marpa.c:16771-16956 | The stack is always where its choices lead from the top or-node. |
| TreeIterators.Pop | cpan/engine/read_only/marpa.c:16745-16763 | Taking a nook off gives back exactly the stack before it was added. |
| Trees.BlockedIsDead | cpan/engine/read_only/marpa.c:16910-16914 | An or-node already in use ends every tree that starts with these choices. |
| Trees.StepShrinks | cpan/engine/read_only/marpa.c:16690-16963 | Each nook uses up a non-empty or-node or lightens the load of empty ones, so the search ends. |
| ParseTrees.ChoicesAreTrees | cpan/engine/read_only/marpa.c:16690-16972 | The choice sequences on the stack are exactly the parse trees of the graph that use no non-empty or-node twice. |
| ParseTrees.TreesDiffer | cpan/engine/read_only/marpa.c:16690-16972 | Different parse trees have different choices. |
| ParseTrees.ListAll | cpan/engine/read_only/marpa.c:16620-16972 | Calling the iterator until it gives up lists every parse tree, each once; for a nulling parse just the empty one. |
| ParseTrees.StackIsTree | cpan/engine/read_only/marpa.c:16964-16966 | The stack a call leaves behind holds the nodes of a parse tree in preorder. |
| Valuations.ProgramIsRight | cpan/engine/read_only/marpa.c:17994-18226 | Run on a stack with anything in it, the steps of a tree leave its values, by recursion over the tree, in the slots from the first free one on and touch nothing below. |
| Valuations.RewriteCounts | cpan/engine/read_only/marpa.c:7966-8027 | In every internal rule made by the rewrite at most one right-hand symbol is virtual and the real symbol count is the number of the others. |
| Valuators.OpenCounts | cpan/engine/read_only/marpa.c:18130-18160 | What is on the virtual stack for a rule makes up exactly the difference between its symbols and the values matched. |
| Valuators.NodeReady | cpan/engine/read_only/marpa.c:18130-18172 | When a rule ends its count is on the virtual stack and all its arguments are on the stack. |
| Valuators.WalkTree | cpan/engine/read_only/marpa.c:18057-18183 | Walking the nodes of any subtree backwards emits exactly its program. |
| Valuators.Valuator.Step | cpan/engine/read_only/marpa.c:17924-18226 | Each call takes the next step of the program of the tree; it answers that there is none exactly after the last. The tree of a nulling parse has one step, for the start symbol. |
| Valuators.Valuator.EndRule | cpan/engine/read_only/marpa.c:18130-18172 | Pieces of a rule add up their counts; the rule step reaches back over exactly that many values. |
| Valuators.ForTree | cpan/engine/read_only/marpa.c:17059-17175 | A valuator made for the tree an iterator has come to, nulling or not, is at the start of that tree's program. |
| Valuators.SlotZero | cpan/engine/read_only/marpa.c:17994-18226 | A parse tree compiled and run leaves its value, alone, in slot 0, whatever the slots held before. |
| Valuators.Evaluate | cpan/engine/read_only/marpa.c:17862-18226 | Doing every step as it comes computes the recursive value of the tree, or the null of the start symbol for a nulling parse. |
| ValueSpans.ValuesLaid | cpan/engine/read_only/marpa.c:18098-18172 | The values of any subtree tile its span, at every depth the arguments of a rule tile the span of the rule, and the tokens they hold are those the and-nodes of the tree pick, in order and with their values. |
| ValueSpans.SlotZeroLaid | cpan/engine/read_only/marpa.c:17994-18226 | So what a parse tree, compiled and run, leaves in slot 0 spans what its top or-node spans, with everything inside in its place and every token with its value. |
| Arguments.RuleArguments | cpan/engine/read_only/marpa.c:18128-18172 | However a BNF rule was cut into pieces, its rule step gets one value for each of its symbols, in order, null where the pattern has null. |
| Arguments.SequenceArguments | cpan/engine/read_only/marpa.c:18128-18172 | The rule step of a sequence gets its items with separators between them, and a last separator only where that is allowed. |
| CompiledCodes.WholeCodesOk | cpan/engine/read_only/marpa.c:7866-8961 | The rule table of any compiled grammar is one the valuator can work with: every internal rule counts its symbols right, at most one of them is virtual, and the start rule is last and used nowhere. |
| CompiledCodes.WholeOwned | cpan/engine/read_only/marpa.c:8100-8107 | The virtual symbols of a rule's pieces belong to those pieces alone, in the whole grammar. |
| CompiledCodes.CompiledArguments | cpan/engine/read_only/marpa.c:18128-18172 | In any compiled grammar, a step that carries the number of a BNF rule ends a piece for that rule's left side and gets one value for each of that rule's symbols, in order, null only where the census calls the symbol nullable. |
| CompiledCodes.CompiledSequence | cpan/engine/read_only/marpa.c:18128-18172 | In any compiled grammar, a step that carries the number of a sequence gets a separated list of one or more of that sequence's items. |
| CompiledCodes.StepApplies | cpan/engine/read_only/marpa.c:18128-18172 | Either way the arguments are values of the symbols of a body of the very rule the step names. |
| CompiledCodes.SlotZeroDerives | cpan/engine/read_only/marpa.c:17994-18226 | So, for any compiled grammar, every parse tree compiled and run leaves in slot 0 a derivation from the start symbol by the external rules: at every depth each rule is applied to values of its own symbols, and null values are of nullable symbols. |
| AvlTables.AvlTable.Probe | cpan/engine/read_only/marpa_avl.c:118-222 | Probing adds exactly the new key or finds the one there; search order, exact balances and links stay right; nodes keep their keys. The generation goes up by one exactly when some node changes its place. |
| AvlTables.AvlTable.Descend | cpan/engine/read_only/marpa_avl.c:132-145 | The descent ends at the key or where it belongs, with the last unbalanced node, its parent and the turns after it remembered; the turns fit the array. |
| AvlTables.AvlTable.AdjustBalances | cpan/engine/read_only/marpa_avl.c:156-160 | Following the turns to the new leaf adjusts exactly the balances on the way. |
| AvlTables.PutShape | cpan/engine/read_only/marpa_avl.c:147-218 | Replacing one subtree in memory and relinking its parent gives the tree with that subtree replaced. |
| AvlTrees.InsertedGood | cpan/engine/read_only/marpa_avl.c:118-222 | Insertion keeps order, distinctness and exact balances in -1..1, and the height grows only if every balance on the way was zero. |
| AvlTrees.RotateAlike | cpan/engine/read_only/marpa_avl.c:162-217 | Single and double rotations keep keys, order and nodes. |
| AvlTrees.HeightInMemory | cpan/engine/read_only/marpa_avl.c:127-128 | A tree of fewer than 2 to the 64th nodes is at most 92 high, so the cached path fits. |
| AvlTrees.SizeOfHeight | cpan/engine/read_only/marpa_avl.c:127-128 | A balanced tree has at least a Fibonacci number of nodes for its height. |
| AvlTraversers.Traverser.Next | cpan/engine/read_only/marpa_avl.c:468-516 | The least item after the current one is returned, or the least of all when there is none, whatever was inserted since. With ancestors left over from an earlier walk, the item returned after the greatest is the topmost of them. |
| AvlTraversers.Traverser.Refresh | cpan/engine/read_only/marpa_avl.c:253-277 | After the tree was rotated the stack of ancestors is rebuilt to the true path. |
| AvlTraversers.Traverser.First | cpan/engine/read_only/marpa_avl.c:310-329 | The least item is reached exactly when the stack has room for the nodes above it on top of what it held before. The traverser is right afterwards exactly when that was nothing or the tree has been rotated since, so that the next call starts over. |
| AvlTraversers.Traverser.Last | cpan/engine/read_only/marpa_avl.c:333-350 | The same for the greatest item. |
| AvlTraversers.Traverser.Find | cpan/engine/read_only/marpa_avl.c:357-385 | The item is found exactly when it is there, provided the stack has room for the nodes passed; the traverser is right afterwards under the same condition as for the first item. An item that is missing leaves an empty stack and no current item, which is always right. |
| AvlTraversers.Traverser.AtOrAfter | cpan/engine/read_only/marpa_avl.c:402-410 | The least item not below the one sought is found, with the same condition; when there is none nothing changes, so the old place is kept. |
| AvlTraversers.AtOrAfterEnd | cpan/engine/read_only/marpa_avl.c:402-410 | Two items, one step, a search past the end, one more step: nothing is found and the walk goes on to the second item. |
| AvlTraversers.FirstUntilFull | cpan/engine/read_only/marpa_avl.c:310-329 | Calls for the first item, one after the other, succeed exactly as long as their paths fit into the stack together. |
| AvlTraversers.FirstMidWalk | cpan/engine/read_only/marpa_avl.c:310-329 | Two items, two steps, back to the first, two more steps: the walk gives the first item again where it should end. |
| AvlTraversers.Traverser.Reset | cpan/engine/read_only/marpa_avl.c:282-306 | Whatever the stack has come to, the traverser has no current item and is right. |
| AvlTraversers.Traverser.Insert | cpan/engine/read_only/marpa_avl.c:418-441 | The item is added or found, and the traverser stands on it. |
| AvlTraversers.Traverser.AddElsewhere | cpan/engine/read_only/marpa_avl.c:468-516 | Insertions by others leave the traverser right: same generation, same path; otherwise it knows that it is out of date. |
| AvlTraversers.PathStays | cpan/engine/read_only/marpa_avl.c:166-222 | Insertion without rotation leaves every path as it was. |
| AvlTraversers.SuccIsLeast | cpan/engine/read_only/marpa_avl.c:468-516 | The key found by descent is the least greater key. |
| ThreadedTables.ThreadedTable.Probe | cpan/engine/read_only/marpa_tavl.c:121-284 | The key is added or found, no other key changes and every node keeps its key; search order, exact balances and every thread to the neighbour in key order are kept, for every tree no higher than the array of turns is long. |
| ThreadedTables.ThreadedTable.HeightFits | cpan/engine/read_only/marpa_tavl.c:121-284 | A balanced tree with fewer nodes than the Fibonacci bound is no higher than that. |
| ThreadedTables.ThreadedTable.Delete | cpan/engine/read_only/marpa_tavl.c:325-582 | The key is removed if it is there, and no other: just its node leaves the tree and every other keeps its key. Search order, exact balances and threads are kept. |
| ThreadedTables.ThreadedTable.FindParent | cpan/engine/read_only/marpa_tavl.c:288-321 | Following threads on both sides leads to the parent of a node, and above the root to null. |
| ThreadedTables.ThreadedTable.TakeOut | cpan/engine/read_only/marpa_tavl.c:354-432 | In all three cases the successor, or the left side, takes the place of the node, threads included, and the balances are off on one known route only. |
| ThreadedTables.ThreadedTable.RepairUp | cpan/engine/read_only/marpa_tavl.c:436-579 | Going up from there, balances are corrected and nodes rotated until one keeps its height; then all balances are exact. |
| ThreadedTables.ThreadedTable.TurnOnce | cpan/engine/read_only/marpa_tavl.c:185-200 | A single rotation in place, with the threads it makes and unmakes. |
| ThreadedTables.ThreadedTable.TurnTwice | cpan/engine/read_only/marpa_tavl.c:201-227 | A double rotation in place, with the threads it makes and unmakes. |
| ThreadedTables.ThreadedTable.Next | cpan/engine/read_only/marpa_tavl.c:717-737 | The node with the least greater key, the first after null, null after the last. |
| ThreadedTables.ThreadedTable.Previous | cpan/engine/read_only/marpa_tavl.c:741-761 | The node with the greatest smaller key, the last after null, null before the first. |
| ThreadedTrees.PutWired | cpan/engine/read_only/marpa_tavl.c:121-284 | Replacing a subtree in memory replaces it in the tree and leaves every thread outside right. |
| ThreadedTrees.FarNeighbour | cpan/engine/read_only/marpa_tavl.c:288-321 | Of the two neighbours of a subtree the one that links to it is its parent. |
| ThreadedTrees.Between | cpan/engine/read_only/marpa_tavl.c:717-737 | The keys of a subtree are exactly those between its neighbours. |
| AvlDeletions.Unlinked | cpan/engine/read_only/marpa_tavl.c:354-432 | Taking a node out removes just its key, keeps the order, and leaves the recorded balances off only along one route. |
| AvlDeletions.RepairStep | cpan/engine/read_only/marpa_tavl.c:436-579 | One repair makes the whole tree exact if the subtree keeps its recorded height, and otherwise moves the fault one node up. |
| AvlDeletions.TurnBalanced | cpan/engine/read_only/marpa_tavl.c:466-504 | The rotation restores balance, and the subtree keeps its height exactly when the child did not lean. |

## Left out

- ThreadedTables.ThreadedTable.Probe: assumes a tree no higher than 32, the length of the array of turns; the source has no check, and in a higher tree it would write past the array.
- The other entry points of the threaded tree (`find`, `copy`, `replace`): single descents. Freed nodes stay in the arena.
- AvlTraversers.Traverser.First: the failing assertion on the height is an outcome of its own, for this method as for `Last`, `Find` and `AtOrAfter`; what a build without assertions writes past the stack is not modelled.
- AvlTraversers.Traverser.Next: with leftovers on the stack, assumes room for a whole path above them, and speaks of one call.
- AvlTraversers.Traverser.Find: the searches of the tree without a traverser (`find`, `at_or_after`) are left out but for the one inside `AtOrAfter`.
- The traverser's `prev`, the mirror image of `next` with the same behaviour past leftovers; `copy`, which leaves the height alone when the traverser copied is out of date, so that a copy without a current item may walk over leftovers too; and `replace`. The generation number is unbounded here, so wrap-around is not modelled.
- AvlTables.AvlTable.Probe: assumes fewer nodes than the Fibonacci bound for height 92, which every tree in a 64-bit address space meets; the source has no check.
- Bocage construction (`marpa_b_new`, past the search for the completed start rule): the iterator and the valuator work on any well-formed and/or graph; that graphs built from Earley sets are well formed is not proved.
- TreeIterators.TreeIterator.Next: assumes that the top or-node spans input unless the whole parse is nulling, and that empty or-nodes lead to no cycle of empty or-nodes; the pause counter and reference counts are left out.
- Ranking (`marpa_o_rank`): the and-nodes of an or-node are given in their final order.
- Rule ranks in the rewrite beyond the CHAF rank; the switch that turns the order of ranks round is left out.
- Compilations.ParserExact: speaks of grammars whose sequences are taken literally; Compilations.SentencesExact has the others.
- Observability.SourcesExact: token links name the token but do not carry its value.
- Compilations.Compile: internal symbols are numbered by kind and not in the order they are made; loop rules are not reported.
- Valuators.Valuator.Step: trace steps and unvalued symbols are left out; every symbol and rule is valued.
- A Leo link names the completed item; the Leo item it stands for is the one at that item's origin, not a pointer of its own. Predecessor pointers and event lists of Leo items are left out.
- Recognizers.Recognizer.PredictFirst: zero-width assertions are left out, so every predicted rule gets its item.
- The Earley item limit (`YIM_FATAL_THRESHOLD`), the inconsistency check at the head of `marpa_r_alternative`, `marpa_r_clean` and the rejected or inactive machinery.
- Events, progress reports, accessors, error strings, version checks, obstacks and memory failure.
- The binary search in the postdot array (`pim_nsy_p_find`): the index is a map.
- The recognizer of a trivial grammar, which is exhausted from the start; Compilations.TrivialExact has its language.
- Censuses.CountSymbols: the AVL tree that sorts the symbol and rule pairs is replaced by a sorted sequence.
