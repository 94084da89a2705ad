# Xenon core: a verified model

This project models the parts of Xenon (a framework for replicated services) whose behaviour is
hardest to see from the code, and proves what they promise.  It is checked with

    dafny verify dfyconfig.toml

## The parts

**OData filters.**  `ODataTokens`, `ODataTokenizer`, `ODataPrinter`, `ODataCompiler`,
`ODataLiterals`, `ODataQueryVisitor`, `ODataVisitor`, `ODataGrammar`, `ODataShapes`, `ODataMeaning`,
`Query`, `QueryObjects`, `FactoryQuery`.  A `$filter` string becomes tokens, a recursive walk over a
shared cursor builds a tree of query objects, and a parent rewrites the occurance (MUST, SHOULD,
MUST_NOT) of its children in place.  The walk is given twice: on objects (`ODataVisitor`) and as a function
(`Walk`), and the first is proved to compute the second.  `ODataGrammar` and `ODataShapes` say for
all expressions what tree the walk builds; `ODataMeaning` says for all filters and all documents
when the compiled query means what the filter says of the contents of its literals; `FactoryQuery`
puts the parts together, from the filter string to the documents listed.

**Query filters.**  `DisjunctiveNormalForm`, `QueryFilter`, `QueryFilterMeaning`.  A query is
evaluated on a single document through its disjunctive normal form and a tree of dispatch tables.

**Operations.**  `OperationJoin` (all interleavings of the sender and the completions, as atomic
steps), `OperationSequence` (a chain of such joins), `OperationCompletion` (stacked completion
handlers as a datatype of closures), `OperationProcessingChain`, `ForwardRetry`,
`FactorySynchronization`, `PragmaDirectives`; `OperationSequenceFailures` follows the failure maps along the
chain.

**Queues, schedules and state.**  `RoundRobinOperationQueue`, `OperationQueue`,
`ServiceMaintenanceTracker`, `ServiceDocument`, `ServiceResourceTracker`, `ContentRange` and
`ChunkUpload` (the upload as its callbacks run).  `Common`, `StringOrder` and `Text` hold what the
others share.

Classes follow the source where it updates fields; each method is proved against a function of the
old state, and the theorems are about those functions and their runs.  Clocks, time differences, the
answers of filters and handlers, the order of completions and of hash maps, the number parser and the
letters beyond ASCII are parameters, so the theorems hold for all of them.

## Where code and promise part

These are proved with the exact condition, or shown on an input:

- Quotes inside a literal are lost: `name eq 'O''Brien'` looks for OBrien; a comparison keeps its meaning if
  and only if the content of its literal has no quote (`ODataLiterals.QuotesAreLost`).  A quoted list of items
  that starts or ends with a separator gets an empty item (`ODataLiterals.CompiledItems`).
- An `or` of a negative and a positive side does not keep its meaning (`ODataMeaning.MixedOrOn`).
- A closing parenthesis ends the innermost unfinished call, so a right-nested group followed by
  more input is regrouped (`ODataShapes.BuiltIsTree`).
- After a closing parenthesis that was never opened the rest of a filter can be ignored
  (`ODataGrammar.RestIsIgnored`); an operator without an operand is a null pointer
  (`ODataGrammar.TrailingOperator`, `ODataGrammar.LeadingOperator`).
- In every unquoted literal, be it a value, a slash is read as a dot (`ODataPrinter.SlashBecomesDot`).
- A comma, a symbol or a stray comparison makes walkTokens recurse for ever
  (`ODataQueryVisitor.EndlessIsExposed`, `ODataGrammar.StrayTokenIsEndless`); so does unfolding a name
  set that holds ALL_FIELDS (`ODataCompiler.UnfoldIsExact`).
- The normal form of a query filter does not negate SHOULD clauses under a negation, so
  `a ne 'x' and b ne 'y'`, right in the index, is wrong as a query filter
  (`QueryFilterMeaning.SurvivesExactly`).
- A handler appended after a nested one is lost (`OperationCompletion.EveryHandlerRunsOnce`).
- `abortOnFirstFailure` is documented (OperationSequence.java:168-188) as stopping the sequence at
  any failure; the code looks only at the levels after the failing one
  (`OperationSequence.HandlerSuppressedExactly`).
- A failure that one cumulative handler took out of its map can be given to the next one again
  (`OperationSequenceFailures.CumulativeFailures`).
- A filter returning RESUME_PROCESSING is logged as stopping the operation, and does not
  (`OperationProcessingChain.ContinueExactly`).
- A pragma directive that is a suffix of another is found when only the other was added
  (`PragmaDirectives.HeaderIsASet`).
- `OperationQueue.clear` keeps the counter, so room is lost (`OperationQueue.RoomExactly`).
- A schedule that uses the key of a bucket in flight, which only a clock that goes back can produce,
  can be dropped (`ServiceMaintenanceTracker.ScheduledInv`, `ServiceMaintenanceTracker.ScheduleLostExactly`).
- Update times 2^63 or more apart are compared wrongly (`ServiceDocument.PreferredExactly`), and among
  peers of one version the first is chosen, not the latest (`ServiceDocument.ChoiceIsMaximalExactly`).
- Files within one chunk of 2^31 bytes are not covered (`ContentRange.CoversExactlyWhenItFits`); a file of
  ten, twenty, ... chunks can be followed by an empty one (`ChunkUpload.ExtraRangeExactly`).
- Joining an id twice keeps the joined handler from ever running (`OperationJoin.JoinCompletes`).

## Model

| member | source | states |
|---|---|---|
| `ODataTokens.TokenList.Next` | xenon-common/src/main/java/com/vmware/xenon/common/ODataTokenList.java:73-81 | the token under the cursor, after which the cursor moves; at the end the exception, and the cursor stays |
| `ODataTokenizer.ODataTokenizer.Tokenize` | xenon-common/src/main/java/com/vmware/xenon/common/ODataTokenizer.java:50-128 | the cursor loop yields the tokens, or the error, of the function Scan; every iteration advances the cursor or returns an error |
| `ODataTokenizer.ODataTokenizer.TokenizeOne` | xenon-common/src/main/java/com/vmware/xenon/common/ODataTokenizer.java:58-125 | one pass of the switch moves the cursor and leaves what the whole expression will yield unchanged, or reports the error that the expression yields |
| `ODataTokenizer.ODataTokenizer.TokenizeWord` | xenon-common/src/main/java/com/vmware/xenon/common/ODataTokenizer.java:105-186 | comparison keyword, operator keyword, boolean, other literal, in this order |
| `ODataTokenizer.ODataTokenizer.EatWhiteSpaces` | xenon-common/src/main/java/com/vmware/xenon/common/ODataTokenizer.java:155-162 | skips at least one space and changes nothing that will be read |
| `ODataTokenizer.ODataTokenizer.ReadLiteral` | xenon-common/src/main/java/com/vmware/xenon/common/ODataTokenizer.java:188-228 | a quoted literal ends at the first quote that is not doubled; an open one is an error |
| `ODataTokenizer.LiteralLengthIs` | xenon-common/src/main/java/com/vmware/xenon/common/ODataTokenizer.java:28-30 | an unquoted literal is the longest prefix of literal characters |
| `ODataTokenizer.KeywordAtExactly` | xenon-common/src/main/java/com/vmware/xenon/common/ODataTokenizer.java:26-27 | a keyword is found exactly when the text starts with one and a space |
| `ODataPrinter.PrintReads` | xenon-common/src/main/java/com/vmware/xenon/common/ODataTokenizer.java:50-228 | every list of well-formed tokens, printed with any spaces as long as two words or two quoted literals are apart, is read back token by token: the place it was printed at, the text with / as ., and the kind its text and the space after it give |
| `ODataPrinter.KindsComeBack` | xenon-common/src/main/java/com/vmware/xenon/common/ODataTokenizer.java:50-228 | the tokens of a printed list have their kinds if and only if a space follows every operator and no bare literal that is a keyword; places and texts always come back |
| `ODataPrinter.RoundTrip` | xenon-common/src/main/java/com/vmware/xenon/common/ODataTokenizer.java:50-228 | tokenizing a printed list gives back kinds and texts if and only if a space follows every operator, none follows a bare literal that is a keyword, and no bare literal has a / |
| `ODataPrinter.SlashBecomesDot` | xenon-common/src/main/java/com/vmware/xenon/common/ODataTokenizer.java:130-144 | a word that is not a keyword is one literal of the same length, in which each / has become a . |
| `ODataPrinter.DotsExactly` | xenon-common/src/main/java/com/vmware/xenon/common/ODataTokenizer.java:130-139 | character by character: / becomes ., nothing else changes |
| `ODataPrinter.LiteralAscii` | xenon-common/src/main/java/com/vmware/xenon/common/ODataTokenizer.java:28-30 | the ASCII characters of an unquoted literal other than letters |
| `ODataPrinter.FailsAtOpenQuote` | xenon-common/src/main/java/com/vmware/xenon/common/ODataTokenizer.java:188-228 | after any printed list a quote that is never closed, later quotes being doubled, is the undetermined string error |
| `ODataPrinter.OpenQuoteExactly` | xenon-common/src/main/java/com/vmware/xenon/common/ODataTokenizer.java:188-228 | a quoted literal is open if and only if what follows the quote is an escaped text |
| `ODataPrinter.FailsAtUnknown` | xenon-common/src/main/java/com/vmware/xenon/common/ODataTokenizer.java:100-125 | after any printed list a character that starts no token is the unknown character error |
| `ODataPrinter.TokensTile` | xenon-common/src/main/java/com/vmware/xenon/common/ODataTokenizer.java:50-228 | whatever the expression: if it is read, each token stands at its position with its text (/ as . in a literal), and there are only spaces between tokens |
| `ODataPrinter.QuotedReads` | xenon-common/src/main/java/com/vmware/xenon/common/ODataTokenizer.java:188-228 | a quoted literal with doubled quotes is read back as it was written |
| `ODataLiterals.WithoutIsContent` | xenon-common/src/main/java/com/vmware/xenon/common/ODataQueryVisitor.java:211-217 | deleting the quotes of a literal gives what it stands for if and only if that has no quote |
| `ODataLiterals.QuotesAreLost` | xenon-common/src/main/java/com/vmware/xenon/common/ODataQueryVisitor.java:211-217 | the literal of a content is compiled to the content without its quotes, which is the content if and only if it has none |
| `ODataLiterals.QuoteInside` | xenon-common/src/main/java/com/vmware/xenon/common/ODataQueryVisitor.java:211-217 | with one quote inside, as in O'Brien, that quote is gone |
| `ODataLiterals.ContentMembers` | xenon-common/src/main/java/com/vmware/xenon/common/ODataQueryVisitor.java:211-217 | apart from quotes, a literal has the characters of its content, so a * makes it a pattern exactly if its content has one |
| `ODataLiterals.WithoutExactly` | xenon-common/src/main/java/com/vmware/xenon/common/ODataQueryVisitor.java:211-217 | deleting a character goes part by part, takes that character and leaves any other |
| `Text.PartsExactly` | xenon-common/src/main/java/com/vmware/xenon/common/ODataQueryVisitor.java:187-199 | for any segments without the separator, the parts of the joined string are the segments that are not empty |
| `Text.TrimExactly` | xenon-common/src/main/java/com/vmware/xenon/common/ODataQueryVisitor.java:187-199 | trim leaves what is between the white space at both ends |
| `ODataLiterals.CompiledItems` | xenon-common/src/main/java/com/vmware/xenon/common/ODataQueryVisitor.java:187-199 | of a list without quotes inside, the compiled items are those between the separators and, if a quoted list starts or ends with a separator or is empty, an empty one |
| `ODataQueryVisitor.Walk` | xenon-common/src/main/java/com/vmware/xenon/common/ODataQueryVisitor.java:87-121 | the walk always moves the cursor, or fails, or finds no tokens and returns null |
| `ODataQueryVisitor.WalkIsExact` | xenon-common/src/main/java/com/vmware/xenon/common/ODataQueryVisitor.java:87-121 | the recursion of walkTokens does not end if and only if Walk reports it; otherwise it ends within as many nested calls as tokens are left and one, with the result of Walk |
| `ODataQueryVisitor.StuckForever` | xenon-common/src/main/java/com/vmware/xenon/common/ODataQueryVisitor.java:87-121 | at a comma, symbol or comparison no recursion depth is enough |
| `ODataQueryVisitor.EndlessIsExposed` | xenon-common/src/main/java/com/vmware/xenon/common/ODataQueryVisitor.java:87-154 | said of the tokens: the recursion is endless only if, stepping over complete terms, a comma, symbol or comparison is met; a walk that ends at j met none before j, so one that reads all tokens had none |
| `ODataQueryVisitor.EndlessExactly` | xenon-common/src/main/java/com/vmware/xenon/common/ODataQueryVisitor.java:87-154 | of the token lists that are read to their end or not at all, the recursion is endless on exactly those with such a token |
| `ODataQueryVisitor.IncompleteTerm` | xenon-common/src/main/java/com/vmware/xenon/common/ODataQueryVisitor.java:129-154 | a term that is not complete fails for want of a token if the tokens end in it, and as a mismatch otherwise |
| `ODataCompiler.UnfoldForever` | xenon-common/src/main/java/com/vmware/xenon/common/ODataQueryVisitor.java:170-178 | with ALL_FIELDS among the names to unfold into, no recursion depth is enough |
| `ODataCompiler.UnfoldIsExact` | xenon-common/src/main/java/com/vmware/xenon/common/ODataQueryVisitor.java:157-225 | the recursion of visitBinaryComparator does not end if and only if ALL_FIELDS is unfolded and is one of the names; otherwise two nested calls are enough and give the result of CompileAtom |
| `ODataCompiler.CompilesExactly` | xenon-common/src/main/java/com/vmware/xenon/common/ODataQueryVisitor.java:157-225 | a comparison is rejected exactly when its literal is a number that is neither a double nor a long, or ALL_FIELDS unfolds into itself; its query is MUST_NOT exactly for ne |
| `ODataCompiler.NumberIsRange` | xenon-common/src/main/java/com/vmware/xenon/common/ODataQueryVisitor.java:200-210 | a comparison with a number is a range on the property, a wildcard term exactly if the name has a *; ne has no range |
| `ODataVisitor.Visitor.VisitItems` | xenon-common/src/main/java/com/vmware/xenon/common/ODataQueryVisitor.java:180-199 | the items of any (SHOULD) and all (MUST) become clauses, empty ones are dropped, quotes and edge blanks are removed |
| `ODataVisitor.Visitor.VisitBinaryComparator` | xenon-common/src/main/java/com/vmware/xenon/common/ODataQueryVisitor.java:157-225 | the query object built, field by field and clause by clause, is the one of CompileAtom; where the recursion does not end the error is returned outright |
| `ODataVisitor.Visitor.RewriteAnd` | xenon-common/src/main/java/com/vmware/xenon/common/ODataQueryVisitor.java:238-254 | the occurances of both sides after an and, changed in place, and the occurance of the new query |
| `ODataVisitor.Visitor.RewriteOr` | xenon-common/src/main/java/com/vmware/xenon/common/ODataQueryVisitor.java:256-272 | the occurances of both sides after an or, changed in place, and the occurance of the new query |
| `ODataVisitor.Visitor.VisitBinaryOperator` | xenon-common/src/main/java/com/vmware/xenon/common/ODataQueryVisitor.java:228-283 | the new query object has both sides, with their rewritten occurances, as clauses; nothing below the sides changes |
| `ODataVisitor.Visitor.ParseUnaryTerm` | xenon-common/src/main/java/com/vmware/xenon/common/ODataQueryVisitor.java:129-154 | property, comparison, value; each kind of malformed term has its own exception |
| `ODataVisitor.Visitor.WalkTokens` | xenon-common/src/main/java/com/vmware/xenon/common/ODataQueryVisitor.java:87-121 | the walk over cursor and query objects computes Walk; the query it returns is new or the left operand it was given |
| `ODataVisitor.Visitor.ToQuery` | xenon-common/src/main/java/com/vmware/xenon/common/ODataQueryVisitor.java:70-78 | from the string: tokenizer error, null for no tokens, or the result of the walk |
| `ODataMeaning.CompiledMeansFilter` | xenon-common/src/main/java/com/vmware/xenon/common/ODataQueryVisitor.java:157-283 | for supported comparisons (on the contents of their literals) and sides of equal polarity at each or, the compiled query, negated when it is MUST_NOT, is true of exactly the documents of which the filter is true |
| `ODataMeaning.MeaningExactly` | xenon-common/src/main/java/com/vmware/xenon/common/ODataQueryVisitor.java:157-283 | the compiled query of a filter and those of all its parts keep their meaning if and only if the comparisons are supported and no or joins a negative side with a positive one |
| `ODataMeaning.CombineMeans` | xenon-common/src/main/java/com/vmware/xenon/common/ODataQueryVisitor.java:228-283 | one combination step: conjunction, or disjunction of sides of equal polarity; a mixed or becomes a conjunction |
| `ODataMeaning.MixedOrOn` | xenon-common/src/main/java/com/vmware/xenon/common/ODataQueryVisitor.java:256-272 | an or of a negative and a positive side is right on exactly the documents on which both sides agree |
| `ODataMeaning.MixedOrFails` | xenon-common/src/main/java/com/vmware/xenon/common/ODataQueryVisitor.java:256-272 | for every such or there is a document on which it is wrong |
| `ODataMeaning.AtomMeansOn` | xenon-common/src/main/java/com/vmware/xenon/common/ODataQueryVisitor.java:157-225 | one supported comparison: its query means what the comparison says of the content of its literal, as a pattern if the name or the content has a * and exactly otherwise, also when ALL_FIELDS is unfolded |
| `ODataMeaning.AtomFails` | xenon-common/src/main/java/com/vmware/xenon/common/ODataQueryVisitor.java:157-225 | every unsupported comparison (a quote inside the literal, ne with a number, an order on a string, no items, an empty item at the edge of a quoted list, no fields) gives a query the index rejects or one that is wrong on a document |
| `ODataMeaning.UnfoldMeans` | xenon-common/src/main/java/com/vmware/xenon/common/ODataQueryVisitor.java:171-179 | the clauses of ALL_FIELDS are SHOULD clauses, one for each property, each meaning the comparison on that property |
| `ODataMeaning.TruthOfNothing` | xenon-common/src/main/java/com/vmware/xenon/common/ODataQueryVisitor.java:285-318 | on a document that matches no term a filter is true exactly when it is negative |
| `ODataMeaning.CompiledShape` | xenon-common/src/main/java/com/vmware/xenon/common/ODataQueryVisitor.java:157-283 | no clause list of a compiled query holds MUST_NOT clauses only, and the query is never SHOULD |
| `ODataGrammar.WalkExactly` | xenon-common/src/main/java/com/vmware/xenon/common/ODataQueryVisitor.java:87-154 | for every grammatical expression the walk consumes all tokens and returns the query of the tree Built, or the error of the first comparison that does not compile |
| `ODataGrammar.StrayTokenIsEndless` | xenon-common/src/main/java/com/vmware/xenon/common/ODataQueryVisitor.java:87-154 | said of the tokens: after any expression whose comparisons compile, a comma, symbol or comparison makes the recursion endless |
| `ODataGrammar.RightOperandFails` | xenon-common/src/main/java/com/vmware/xenon/common/ODataQueryVisitor.java:112-121 | after any expression whose comparisons compile and an operator, the walk fails as its right operand does, or with a null pointer if there is none |
| `ODataGrammar.TrailingOperator` | xenon-common/src/main/java/com/vmware/xenon/common/ODataQueryVisitor.java:112-121 | an operator at the end is a null pointer |
| `ODataGrammar.LeadingOperator` | xenon-common/src/main/java/com/vmware/xenon/common/ODataQueryVisitor.java:112-121 | an operator at the beginning is a null pointer, unless what follows fails first |
| `ODataGrammar.RestIsIgnored` | xenon-common/src/main/java/com/vmware/xenon/common/ODataQueryVisitor.java:106-110 | a closing parenthesis that was never opened ends the walk after an expression without unfinished calls: whatever follows is ignored |
| `ODataGrammar.WalkBuilds` | xenon-common/src/main/java/com/vmware/xenon/common/ODataQueryVisitor.java:87-121 | in the middle of the input, an expression leaves behind exactly the unfinished calls Frames, with the query Current |
| `ODataShapes.BuiltIsTree` | xenon-common/src/main/java/com/vmware/xenon/common/ODataQueryVisitor.java:87-121 | the tree built is the right-associative one if and only if no operator follows a group whose right operand is still unfinished |
| `ODataShapes.DocumentedShapes` | xenon-common/src/main/java/com/vmware/xenon/common/ODataQueryVisitor.java:80-121 | parenthesis-free chains become right-nested trees, left-nested groups left-nested ones |
| `ODataShapes.RightNestedGroupIsRegrouped` | xenon-common/src/main/java/com/vmware/xenon/common/ODataQueryVisitor.java:108-112 | (a or (b or c)) and d is read as a or ((b or c) and d) |
| `FactoryQuery.WalkNeverShould` | xenon-common/src/main/java/com/vmware/xenon/common/ODataQueryVisitor.java:87-121 | whatever the tokens, the query of a walk is never SHOULD |
| `FactoryQuery.BuildFiltered` | xenon-common/src/main/java/com/vmware/xenon/common/ODataUtils.java:60-78 | the query specification holds the clause of the filter, if the filter gives a query |
| `FactoryQuery.BuildSpecification` | xenon-common/src/main/java/com/vmware/xenon/common/FactoryService.java:595-621 | the specification extended by the kind clause and the self-link prefix clause |
| `FactoryQuery.FilterIsConjoined` | xenon-common/src/main/java/com/vmware/xenon/common/FactoryService.java:611-621 | for every filter string at all: the factory lists exactly those of its children for which the query of the filter holds |
| `FactoryQuery.StringToQuery` | xenon-common/src/main/java/com/vmware/xenon/common/ODataQueryVisitor.java:70-154 | a filter string of an expression, however it is spaced, gives the query of the tree built, or the error of its first bad comparison |
| `FactoryQuery.BadStringIsRejected` | xenon-common/src/main/java/com/vmware/xenon/common/ODataQueryVisitor.java:70-78 | a filter string that breaks off in a quoted literal or has a character that starts no token is rejected with the error of the tokenizer |
| `FactoryQuery.BlankFilterListsAll` | xenon-common/src/main/java/com/vmware/xenon/common/ODataUtils.java:60-78 | a blank filter gives no query, and the factory lists all its children |
| `FactoryQuery.FactoryListsExactly` | xenon-common/src/main/java/com/vmware/xenon/common/FactoryService.java:595-621 | from the string, however it is spaced, to the documents: kind and self-link prefix and the truth of the filter, for settled expressions of supported comparisons and uniform polarity |
| `QueryObjects.QueryNode.SetOccurance` | xenon-common/src/main/java/com/vmware/xenon/services/common/QueryTask.java:985-988 | only the occurance of the query changes |
| `QueryObjects.QueryNode.AddBooleanClause` | xenon-common/src/main/java/com/vmware/xenon/services/common/QueryTask.java:1003-1010 | the clause is added at the end; the first clause replaces a term |
| `Query.PairMatches` | xenon-common/src/main/java/com/vmware/xenon/services/common/LuceneQueryConverter.java:178-232 | what a list of two clauses matches, by their occurances |
| `DisjunctiveNormalForm.CreateDisjunctiveNormalForm` | xenon-common/src/main/java/com/vmware/xenon/services/common/QueryFilter.java:350-415 | the two loops over the clauses compute Dnf |
| `DisjunctiveNormalForm.DnfMeans` | xenon-common/src/main/java/com/vmware/xenon/services/common/QueryFilter.java:350-415 | for a convertible query, read as it is or negated, under any list of prefixes, the conjunctions are true of exactly the documents that meet the prefixes and match (do not match) the query |
| `DisjunctiveNormalForm.NegatedShouldMeans` | xenon-common/src/main/java/com/vmware/xenon/services/common/QueryFilter.java:386-393 | a negated list with SHOULD clauses is read as the conjunction of those clauses, not negated |
| `DisjunctiveNormalForm.NegatedDisjunctionOn` | xenon-common/src/main/java/com/vmware/xenon/services/common/QueryFilter.java:386-393 | a negated disjunction is converted rightly on exactly the documents that match some but not all of its clauses |
| `DisjunctiveNormalForm.DroppedShouldOn` | xenon-common/src/main/java/com/vmware/xenon/services/common/QueryFilter.java:362-393 | without a MUST clause, SHOULD clauses beside a MUST_NOT clause are dropped: right on exactly the documents that match some clause |
| `QueryFilter.CountTerms` | xenon-common/src/main/java/com/vmware/xenon/services/common/QueryFilter.java:816-832 | the eligible terms of all conjunctions, counted by property |
| `QueryFilter.FindTopPropertyForDispatch` | xenon-common/src/main/java/com/vmware/xenon/services/common/QueryFilter.java:797-841 | none exactly when no term is eligible, otherwise the last, in the order of the hash map, of the properties with the highest count |
| `QueryFilter.Top` | xenon-common/src/main/java/com/vmware/xenon/services/common/QueryFilter.java:797-841 | the property chosen is that of an eligible term, and no property is constrained more often |
| `QueryFilter.TallyCounts` | xenon-common/src/main/java/com/vmware/xenon/services/common/QueryFilter.java:816-832 | a property is counted as often as an eligible term constrains it |
| `QueryFilter.CreateDisjunction` | xenon-common/src/main/java/com/vmware/xenon/services/common/QueryFilter.java:654-677 | the loop that takes conjunctions out of the list, table by table, builds Create |
| `QueryFilter.CreateDispatch` | xenon-common/src/main/java/com/vmware/xenon/services/common/QueryFilter.java:736-785 | the table maps each value to the evaluators of the conjunctions that ask for it, without that term; the others stay |
| `QueryFilter.Distribute` | xenon-common/src/main/java/com/vmware/xenon/services/common/QueryFilter.java:738-771 | each conjunction goes to the entry of its first eligible term on the property, or stays unhandled |
| `QueryFilter.HandledSeen` | xenon-common/src/main/java/com/vmware/xenon/services/common/QueryFilter.java:743-766 | a conjunction is met exactly when the document's value is its key and the rest is met |
| `QueryFilter.Split` | xenon-common/src/main/java/com/vmware/xenon/services/common/QueryFilter.java:736-785 | a dispatch neither loses nor adds a conjunction that a document meets |
| `QueryFilter.TreeIsDisjunction` | xenon-common/src/main/java/com/vmware/xenon/services/common/QueryFilter.java:600-785 | whatever the order of the hash map, the evaluator tree accepts exactly the documents that meet some conjunction |
| `QueryFilter.TablesTakeAll` | xenon-common/src/main/java/com/vmware/xenon/services/common/QueryFilter.java:654-785 | at no depth of the tree is a term evaluated one by one that is positive, matches a whole term and is on a property that is not nested: all of these are looked up in tables |
| `QueryFilterMeaning.FilterMeansQuery` | xenon-common/src/main/java/com/vmware/xenon/services/common/QueryFilter.java:91-103 | the filter of a convertible query accepts exactly the documents that match the query |
| `QueryFilterMeaning.CleanIsConvertible` | xenon-common/src/main/java/com/vmware/xenon/services/common/QueryFilter.java:350-415 | compiled OData filters without a negative and and without a negated ALL_FIELDS are convertible |
| `QueryFilterMeaning.SurvivesExactly` | xenon-common/src/main/java/com/vmware/xenon/services/common/QueryFilter.java:350-415 | of the OData filters the index evaluates rightly, the normal form keeps the meaning of all parts if and only if no and joins two negative sides and ALL_FIELDS is not negated |
| `QueryFilterMeaning.NegativeAndFails` | xenon-common/src/main/java/com/vmware/xenon/services/common/QueryFilter.java:386-393 | for every and of two negative sides there is a document on which the normal form is wrong |
| `QueryFilterMeaning.FilterOfFactoryQuery` | xenon-common/src/main/java/com/vmware/xenon/services/common/QueryFilter.java:91-103 | the query of a factory for a filter string, evaluated by the tree, accepts exactly the children for which the filter is true |
| `OperationJoin.StepInv` | xenon-common/src/main/java/com/vmware/xenon/common/OperationJoin.java:153-253 | every atomic access of every thread keeps the counters, the placement of operations, the failure map and the log of sends consistent |
| `OperationJoin.JoinSafety` | xenon-common/src/main/java/com/vmware/xenon/common/OperationJoin.java:153-253 | in every interleaving no operation is sent twice, at most batchSize are in flight, the batch limit exception is never raised, and the handler runs at most once, after all completed, with exactly the failed operations and their errors |
| `OperationJoin.NoStall` | xenon-common/src/main/java/com/vmware/xenon/common/OperationJoin.java:164-253 | a state in which no thread can move has sent and completed every operation |
| `OperationJoin.JoinCompletes` | xenon-common/src/main/java/com/vmware/xenon/common/OperationJoin.java:153-253 | when nothing can move any more every operation was sent and completed, and the handler ran exactly once if and only if no id was prepared twice |
| `OperationJoin.JoinTerminates` | xenon-common/src/main/java/com/vmware/xenon/common/OperationJoin.java:164-253 | no run has more than ten accesses per operation |
| `OperationJoin.CollectBatch` | xenon-common/src/main/java/com/vmware/xenon/common/OperationJoin.java:205-222 | the local batch is the first operations in order: batchSize of them, or all if there is no limit or it is not below their number |
| `OperationJoin.SentUpFront` | xenon-common/src/main/java/com/vmware/xenon/common/OperationJoin.java:205-228 | in every run without a completion the sender ends having sent exactly those operations, in order |
| `OperationJoin.WindowIsFull` | xenon-common/src/main/java/com/vmware/xenon/common/OperationJoin.java:176-253 | in every interleaving, once the sender is done and while operations are left in the iterator, exactly that many are sent and did not yet send another one |
| `OperationJoin.NotFiredYet` | xenon-common/src/main/java/com/vmware/xenon/common/OperationJoin.java:176-195 | after the handler ran nothing is left to do but to count a send |
| `OperationSequence.StepInv` | xenon-common/src/main/java/com/vmware/xenon/common/OperationSequence.java:206-262 | every step of the levels keeps their joins and the chain consistent |
| `OperationSequence.LevelOrder` | xenon-common/src/main/java/com/vmware/xenon/common/OperationSequence.java:206-262 | an operation of a level is sent only after every operation of every earlier level completed and each earlier handler returned leaving no failure |
| `OperationSequence.ChainStops` | xenon-common/src/main/java/com/vmware/xenon/common/OperationSequence.java:231-262 | after failures left by a handler, or any failure with the abort flag on a later level, no later operation is ever sent, whatever follows |
| `OperationSequence.ChildSentExactly` | xenon-common/src/main/java/com/vmware/xenon/common/OperationSequence.java:231-262 | the next level is started if and only if the level finished, no later level vetoes its failures and its handler left none; without a handler failures do not stop the chain |
| `OperationSequence.HandlerSuppressedExactly` | xenon-common/src/main/java/com/vmware/xenon/common/OperationSequence.java:231-241 | for every level: a handler of a finished level was not called if and only if an operation of the level failed and a strictly later level has the flag |
| `OperationSequence.FlagOnTheFailingLevel` | xenon-common/src/main/java/com/vmware/xenon/common/OperationSequence.java:231-253 | a run of one level that has the flag and whose operation fails: its handler is called with the failure |
| `OperationSequence.LastLevelNeverAborts` | xenon-common/src/main/java/com/vmware/xenon/common/OperationSequence.java:231-262 | the abort flag on the last level suppresses nothing |
| `OperationSequence.CumulativeView` | xenon-common/src/main/java/com/vmware/xenon/common/OperationSequence.java:243-251 | a cumulative handler is given exactly the operations of levels 0..i, all completed |
| `OperationSequence.HandlerSeesOwnFailures` | xenon-common/src/main/java/com/vmware/xenon/common/OperationSequence.java:231-301 | cumulative or not, the failure map a handler sees names an operation of its level exactly when it failed, with its error |
| `OperationSequence.OwnViewOnly` | xenon-common/src/main/java/com/vmware/xenon/common/OperationSequence.java:243-253 | a handler that is not cumulative is given exactly the operations of its level, and failures of no other |
| `OperationSequenceFailures.FinishExactly` | xenon-common/src/main/java/com/vmware/xenon/common/OperationSequence.java:231-262 | for every run and what the handler leaves in the map: the level returns early exactly if it failed and a later level has the flag, calls its handler otherwise, and starts the next level exactly if no failure is left in a map the handler was given |
| `OperationSequenceFailures.CumulativeFailures` | xenon-common/src/main/java/com/vmware/xenon/common/OperationSequence.java:243-301 | the map given to a cumulative handler names an operation of an earlier level, with its error, if and only if it failed and no handler in between emptied the map of that level: its own, or a cumulative one with no failed level between |
| `OperationSequenceFailures.FailureComesBack` | xenon-common/src/main/java/com/vmware/xenon/common/OperationSequence.java:277-293 | a failure of a level without a handler, taken out of the map by the next handler, is given to the one after it again |
| `OperationSequenceFailures.FailureComesBackRun` | xenon-common/src/main/java/com/vmware/xenon/common/OperationSequence.java:206-301 | a run of three levels in which that happens |
| `OperationSequenceFailures.StepKept` | xenon-common/src/main/java/com/vmware/xenon/common/OperationSequence.java:206-301 | every step keeps the failure maps of the levels as described |
| `OperationSequence.HasAbortOnFirstFailureInChildSequences` | xenon-common/src/main/java/com/vmware/xenon/common/OperationSequence.java:303-312 | some later level has the flag |
| `OperationSequence.GetAllCompletedOperations` | xenon-common/src/main/java/com/vmware/xenon/common/OperationSequence.java:265-275 | exactly the operations of this level and those above |
| `OperationSequence.GetAllFailures` | xenon-common/src/main/java/com/vmware/xenon/common/OperationSequence.java:277-301 | the nearest failure map that exists is extended with the maps above it; null exactly when there is none |
| `OperationCompletion.Operation.SetCompletion` | xenon-common/src/main/java/com/vmware/xenon/common/Operation.java:1111-1114 | the completion is replaced |
| `OperationCompletion.Operation.NestCompletion` | xenon-common/src/main/java/com/vmware/xenon/common/Operation.java:1483-1493 | the new closure runs the handler with the old completion put back |
| `OperationCompletion.Operation.NestSuccessCompletion` | xenon-common/src/main/java/com/vmware/xenon/common/Operation.java:1520-1534 | as nestCompletion, but a failure goes straight to the old completion |
| `OperationCompletion.Operation.AppendCompletion` | xenon-common/src/main/java/com/vmware/xenon/common/Operation.java:1550-1561 | the handler is nested while the old completion runs; without one it is the completion |
| `OperationCompletion.Operation.CompleteOrFail` | xenon-common/src/main/java/com/vmware/xenon/common/Operation.java:1438-1465 | the completion is taken out of the field before it runs, so a second completion does nothing; the calls made are those of Completed |
| `OperationCompletion.Operation.Handle` | xenon-common/src/main/java/com/vmware/xenon/common/Operation.java:1483-1561 | running a closure makes exactly the calls of Handled and leaves the field empty |
| `OperationCompletion.CallOrder` | xenon-common/src/main/java/com/vmware/xenon/common/Operation.java:1466-1561 | any appends and nests after setCompletion: nested handlers last to first, the original, then the handlers appended before the first nest first to last, each given what the one before completed with |
| `OperationCompletion.CallOrderWithoutSet` | xenon-common/src/main/java/com/vmware/xenon/common/Operation.java:1466-1561 | the same when the completion was never set: the first handler appended is the completion |
| `OperationCompletion.EveryHandlerRunsOnce` | xenon-common/src/main/java/com/vmware/xenon/common/Operation.java:1466-1561 | whatever each handler completes the operation with and whatever it starts with: every registered handler runs exactly once if and only if none was appended after a nest and every success-only handler is reached by a success |
| `OperationCompletion.EveryHandlerRunsOnceRegardless` | xenon-common/src/main/java/com/vmware/xenon/common/Operation.java:1466-1561 | without success-only handlers, through all failures: exactly once if and only if none was appended after a nest |
| `OperationCompletion.DeliveredExactly` | xenon-common/src/main/java/com/vmware/xenon/common/Operation.java:1466-1561 | each handler is called exactly when it takes any signal or a success reaches it, in order, with the signal that reaches it |
| `OperationCompletion.LateAppendIsLost` | xenon-common/src/main/java/com/vmware/xenon/common/Operation.java:1487-1487 | set, nest, append: the appended handler is never called |
| `OperationCompletion.FailurePassesThrough` | xenon-common/src/main/java/com/vmware/xenon/common/Operation.java:1520-1534 | a failure passes unchanged through any number of success-only handlers |
| `OperationCompletion.SortedOut` | xenon-common/src/main/java/com/vmware/xenon/common/Operation.java:1466-1561 | each registered handler is nested, appended in time or appended too late |
| `PragmaDirectives.IndexOfPragmaDirective` | xenon-common/src/main/java/com/vmware/xenon/common/Operation.java:1692-1706 | the first place where the directive stands before a separator or the end, or -1 |
| `PragmaDirectives.PragmaHeader.AddPragmaDirective` | xenon-common/src/main/java/com/vmware/xenon/common/Operation.java:1628-1641 | the new header |
| `PragmaDirectives.PragmaHeader.HasPragmaDirective` | xenon-common/src/main/java/com/vmware/xenon/common/Operation.java:1646-1650 | whether the directive is found |
| `PragmaDirectives.PragmaHeader.RemovePragmaDirective` | xenon-common/src/main/java/com/vmware/xenon/common/Operation.java:1672-1687 | the new header |
| `PragmaDirectives.HitIffSegment` | xenon-common/src/main/java/com/vmware/xenon/common/Operation.java:1692-1706 | in a joined header a directive is found exactly at the segments equal to it, if it is no suffix of another segment |
| `PragmaDirectives.AddRefines` | xenon-common/src/main/java/com/vmware/xenon/common/Operation.java:1628-1641 | adding to a header that stands for a set gives one that stands for the set with the directive |
| `PragmaDirectives.RemoveRefines` | xenon-common/src/main/java/com/vmware/xenon/common/Operation.java:1672-1687 | removing gives a header for the set without it, also at the front, where an empty segment stays behind |
| `PragmaDirectives.HeaderIsASet` | xenon-common/src/main/java/com/vmware/xenon/common/Operation.java:1611-1706 | for a vocabulary of proper directives the header behaves as a set in every run of adds and removes if and only if no directive is a proper suffix of another |
| `PragmaDirectives.SuffixFoolsHeader` | xenon-common/src/main/java/com/vmware/xenon/common/Operation.java:1692-1706 | adding a directive makes every proper suffix of it appear present |
| `PragmaDirectives.NormalizedExactly` | xenon-common/src/main/java/com/vmware/xenon/common/Operation.java:1587-1623 | a header value is stored without its CR LF pairs, left out from left to right, and without white space at both ends |
| `PragmaDirectives.TwoDirectives` | xenon-common/src/main/java/com/vmware/xenon/common/Operation.java:1628-1641 | two directives are stored with a semicolon between them |
| `RoundRobinOperationQueue.RoundRobinQueue.Offer` | xenon-common/src/main/java/com/vmware/xenon/common/RoundRobinOperationQueue.java:49-69 | accepted exactly below the limit; the operation goes to the end of its key's queue |
| `RoundRobinOperationQueue.RoundRobinQueue.Poll` | xenon-common/src/main/java/com/vmware/xenon/common/RoundRobinOperationQueue.java:77-94 | the loop over the sorted keys computes Polled, and ends |
| `RoundRobinOperationQueue.NextKey` | xenon-common/src/main/java/com/vmware/xenon/common/RoundRobinOperationQueue.java:77-94 | the next key is one of the keys of the map |
| `RoundRobinOperationQueue.InitialInv` | xenon-common/src/main/java/com/vmware/xenon/common/RoundRobinOperationQueue.java:41-47 | a queue as constructed meets what the theorems about runs start from |
| `RoundRobinOperationQueue.PolledTakesHead` | xenon-common/src/main/java/com/vmware/xenon/common/RoundRobinOperationQueue.java:77-94 | poll takes the head of one queue and changes no other, or returns null, which happens exactly when no operation is queued, even if empty queues linger |
| `RoundRobinOperationQueue.ServesTheNext` | xenon-common/src/main/java/com/vmware/xenon/common/RoundRobinOperationQueue.java:77-94 | poll serves the least key above the active one that has something queued, or the least of all such keys |
| `StringOrder.LessExactly` | xenon-common/src/main/java/com/vmware/xenon/common/RoundRobinOperationQueue.java:77-94 | the order of the keys: a proper prefix, or the smaller character where two keys differ first |
| `RoundRobinOperationQueue.OfferedExactly` | xenon-common/src/main/java/com/vmware/xenon/common/RoundRobinOperationQueue.java:49-69 | an offer goes to the end of its queue exactly while fewer operations than the limit are queued; no other queue changes |
| `RoundRobinOperationQueue.FifoAndConservation` | xenon-common/src/main/java/com/vmware/xenon/common/RoundRobinOperationQueue.java:49-94 | in every run each key is served first-in first-out, nothing is lost, and totalCount is the number of queued operations, within the limit |
| `RoundRobinOperationQueue.RoundRobinFair` | xenon-common/src/main/java/com/vmware/xenon/common/RoundRobinOperationQueue.java:77-94 | between two polls that return from one key, every other key whose queue was not empty has been served |
| `RoundRobinOperationQueue.NotAgainBefore` | xenon-common/src/main/java/com/vmware/xenon/common/RoundRobinOperationQueue.java:77-94 | as long as a waiting key is not served, the key served last is not served again |
| `OperationQueue.Queue.Offer` | xenon-common/src/main/java/com/vmware/xenon/common/OperationQueue.java:80-105 | accepted exactly below the limit, at the end of a FIFO queue, at the front of a LIFO queue |
| `OperationQueue.Queue.Poll` | xenon-common/src/main/java/com/vmware/xenon/common/OperationQueue.java:111-128 | the front of the store, null when it is empty; the counter exception is never thrown |
| `OperationQueue.Queue.SetLimit` | xenon-common/src/main/java/com/vmware/xenon/common/OperationQueue.java:62-69 | the new limit |
| `OperationQueue.Queue.TransferAll` | xenon-common/src/main/java/com/vmware/xenon/common/OperationQueue.java:134-137 | all operations are handed over in order and the store is empty; the counter is not touched |
| `OperationQueue.Queue.Clear` | xenon-common/src/main/java/com/vmware/xenon/common/OperationQueue.java:142-144 | the store is empty; the counter is not touched |
| `OperationQueue.Queue.Size` | xenon-common/src/main/java/com/vmware/xenon/common/OperationQueue.java:146-149 | the number of queued operations, which the counter is set to |
| `OperationQueue.CountIsEnough` | xenon-common/src/main/java/com/vmware/xenon/common/OperationQueue.java:62-149 | whatever is called, elementCount never falls below the number of queued operations |
| `OperationQueue.FifoOrder` | xenon-common/src/main/java/com/vmware/xenon/common/OperationQueue.java:62-149 | a FIFO queue that is not cleared hands out what it accepted, in order, and loses nothing |
| `OperationQueue.LifoOrder` | xenon-common/src/main/java/com/vmware/xenon/common/OperationQueue.java:80-128 | in a LIFO queue, after an accepted offer and any run whose later accepted operations were all polled, the next poll returns that operation and leaves what was queued before it |
| `OperationQueue.LifoKeepsBase` | xenon-common/src/main/java/com/vmware/xenon/common/OperationQueue.java:80-128 | a balanced run of a LIFO queue leaves alone what was queued before |
| `OperationQueue.CountIsStoreAndLost` | xenon-common/src/main/java/com/vmware/xenon/common/OperationQueue.java:62-149 | after any run the counter is the number of queued operations and of those dropped by clear and transferAll since size was called |
| `OperationQueue.LimitIsLastSet` | xenon-common/src/main/java/com/vmware/xenon/common/OperationQueue.java:62-69 | after any run the limit is the last positive one set, or the first, with the sign it had |
| `OperationQueue.RoomExactly` | xenon-common/src/main/java/com/vmware/xenon/common/OperationQueue.java:80-149 | after any run: an offer is accepted exactly while the limit set last is not reached, if and only if the dropped operations still leave room or the queue is full without them |
| `OperationQueue.RoomWhenCountIsExact` | xenon-common/src/main/java/com/vmware/xenon/common/OperationQueue.java:80-105 | in a queue that is not cleared an offer is accepted exactly when fewer operations than the limit are queued |
| `OperationQueue.ClearedQueueStaysFull` | xenon-common/src/main/java/com/vmware/xenon/common/OperationQueue.java:134-144 | after clear the counter keeps its value, so an empty queue can refuse an offer |
| `ServiceMaintenanceTracker.Tracker.Schedule` | xenon-common/src/main/java/com/vmware/xenon/common/ServiceMaintenanceTracker.java:53-80 | the link is due ten milliseconds before the interval has passed, or at once for a shorter one; both indexes agree if and only if that is not the key of a bucket in flight |
| `ServiceMaintenanceTracker.ScheduleMoves` | xenon-common/src/main/java/com/vmware/xenon/common/ServiceMaintenanceTracker.java:53-86 | a schedule moves its link to the bucket of its expiration and no other link |
| `ServiceMaintenanceTracker.NotDueEarly` | xenon-common/src/main/java/com/vmware/xenon/common/ServiceMaintenanceTracker.java:53-110 | whatever else is scheduled, visited or polled up to its expiration, a scheduled link stays in its bucket |
| `ServiceMaintenanceTracker.PolledExactly` | xenon-common/src/main/java/com/vmware/xenon/common/ServiceMaintenanceTracker.java:98-110 | a poll takes out the bucket that expired first, or nothing if none has expired |
| `ServiceMaintenanceTracker.Tracker.MaintainOneBucket` | xenon-common/src/main/java/com/vmware/xenon/common/ServiceMaintenanceTracker.java:98-150 | the earliest expired bucket leaves the index, links without a service are dropped, the others are handed on |
| `ServiceMaintenanceTracker.Tracker.VisitBucket` | xenon-common/src/main/java/com/vmware/xenon/common/ServiceMaintenanceTracker.java:112-164 | of a bucket exactly the links that are gone and not rescheduled stop being tracked |
| `ServiceMaintenanceTracker.Tracker.PerformMaintenance` | xenon-common/src/main/java/com/vmware/xenon/common/ServiceMaintenanceTracker.java:88-152 | for any readings of the clock: buckets are handled in order, at least the first expired one, until none is expired, the deadline is reached or the host stops; exactly their links with a service are handed on |
| `ServiceMaintenanceTracker.StepInv` | xenon-common/src/main/java/com/vmware/xenon/common/ServiceMaintenanceTracker.java:53-164 | every step keeps the two indexes in agreement |
| `ServiceMaintenanceTracker.ScheduledInv` | xenon-common/src/main/java/com/vmware/xenon/common/ServiceMaintenanceTracker.java:53-86 | a schedule keeps the indexes in agreement if and only if its expiration is not the key of a bucket in flight |
| `ServiceMaintenanceTracker.ScheduleLostExactly` | xenon-common/src/main/java/com/vmware/xenon/common/ServiceMaintenanceTracker.java:112-164 | a schedule made while its link is visited is lost if and only if the link is skipped and the schedule has the expiration of the bucket being visited |
| `ServiceMaintenanceTracker.IndexesAgree` | xenon-common/src/main/java/com/vmware/xenon/common/ServiceMaintenanceTracker.java:53-164 | in every run in which no schedule uses the key of a bucket in flight, a link is in at most one bucket, the one trackedServices names, and every tracked link is in its bucket or in flight |
| `ServiceMaintenanceTracker.IndexesAgreeInTime` | xenon-common/src/main/java/com/vmware/xenon/common/ServiceMaintenanceTracker.java:53-164 | the same in every run with a clock that never goes back |
| `ServiceMaintenanceTracker.VisitKeepsNewerSchedule` | xenon-common/src/main/java/com/vmware/xenon/common/ServiceMaintenanceTracker.java:154-164 | visiting a link never drops a schedule made since its bucket was polled |
| `ServiceMaintenanceTracker.ClockMustNotGoBack` | xenon-common/src/main/java/com/vmware/xenon/common/ServiceMaintenanceTracker.java:154-164 | a run with a clock that goes back, in which a newer schedule is dropped |
| `ContentRange.PutChunks` | xenon-common/src/main/java/com/vmware/xenon/common/FileUtils.java:676-762 | one round: consecutive ranges from the offset, at most ten, ending at the first that is done |
| `ContentRange.PutRound` | xenon-common/src/main/java/com/vmware/xenon/common/FileUtils.java:676-762 | a round is the next ten ranges, fewer when the file ends, or one empty range after its end |
| `ContentRange.PutFile` | xenon-common/src/main/java/com/vmware/xenon/common/FileUtils.java:676-762 | the rounds cover the file exactly; one more, empty range is sent if and only if the number of chunks is a multiple of ten and the last chunk does not complete last |
| `ContentRange.AfterTheEnd` | xenon-common/src/main/java/com/vmware/xenon/common/FileUtils.java:714-726 | the range a further round starts with is empty |
| `ChunkUpload.StepInv` | xenon-common/src/main/java/com/vmware/xenon/common/FileUtils.java:676-762 | every chunk issued, completion and start of a round, in any order, keeps the counters and the ranges sent consistent; after the completion of the upload the channel is closed |
| `ChunkUpload.RangesSent` | xenon-common/src/main/java/com/vmware/xenon/common/FileUtils.java:676-762 | in every order of completions the ranges sent are those that cover the file, in order, and at most one empty one after them |
| `ChunkUpload.ExtraRangeExactly` | xenon-common/src/main/java/com/vmware/xenon/common/FileUtils.java:707-726 | at the end of every upload the file was sent and the upload completed exactly once; one more, empty chunk was issued if and only if the number of chunks is a multiple of ten and the last chunk completed before another: it was sent, or its read failed on the closed channel |
| `ContentRange.CoversExactlyWhenItFits` | xenon-common/src/main/java/com/vmware/xenon/common/FileUtils.java:102-144 | the ranges are contiguous, at most a chunk long and cover the file exactly if and only if the file ends at least one chunk below 2^31 |
| `ContentRange.EachByteOnce` | xenon-common/src/main/java/com/vmware/xenon/common/FileUtils.java:102-144 | each byte of the file is in exactly one range, the one its position tells |
| `ContentRange.WrapsAround` | xenon-common/src/main/java/com/vmware/xenon/common/FileUtils.java:136-140 | for a longer file the chunk that would end at 2^31 ends at -2^31 |
| `ServiceDocument.PreferredMeans` | xenon-common/src/main/java/com/vmware/xenon/common/ServiceDocument.java:280-335 | for times whose difference does not overflow: PREFERRED is a higher epoch and version, or the same one updated later by at least epsilon; IN_CONFLICT is the same one with other content updated within epsilon |
| `ServiceDocument.RelationsMean` | xenon-common/src/main/java/com/vmware/xenon/common/ServiceDocument.java:280-335 | when NEWER_VERSION, EQUAL_VERSION, EQUAL_TIME and NEWER_UPDATE_TIME are in the result; against null it is PREFERRED alone |
| `ServiceDocument.NoEpochIsZero` | xenon-common/src/main/java/com/vmware/xenon/common/ServiceDocument.java:280-304 | a document without an epoch counts as one of epoch 0 |
| `ServiceDocument.PreferredExactly` | xenon-common/src/main/java/com/vmware/xenon/common/ServiceDocument.java:306-335 | of two documents of the same version PREFERRED is later by at least epsilon, in both directions, if and only if the difference of their times does not overflow |
| `ServiceDocument.PreferredIsStrictOrder` | xenon-common/src/main/java/com/vmware/xenon/common/ServiceDocument.java:280-335 | irreflexive, asymmetric and transitive for every epsilon, on documents whose pairwise time differences do not overflow |
| `ServiceDocument.OverflowMakesACircle` | xenon-common/src/main/java/com/vmware/xenon/common/ServiceDocument.java:306-335 | three update times whose differences overflow are preferred in a circle |
| `ServiceDocument.SettleIsMaximal` | xenon-common/src/main/java/com/vmware/xenon/common/ServiceDocument.java:280-335 | replacing by each preferred replica, in any order, ends at a listed state to which none is preferred |
| `ServiceDocument.OrdersAgree` | xenon-common/src/main/java/com/vmware/xenon/common/ServiceDocument.java:280-335 | two orders of the same replicas end at the same epoch and version, with update times equal or within epsilon |
| `ServiceDocument.BestPeer` | xenon-common/src/main/java/com/vmware/xenon/services/common/NodeSelectorSynchronizationService.java:361-371 | the first of the peer states with the highest epoch and, in it, the highest version |
| `ServiceDocument.ChooseState` | xenon-common/src/main/java/com/vmware/xenon/services/common/NodeSelectorSynchronizationService.java:361-428 | the local state if it is ahead of the first best peer or later by at least epsilon, otherwise that peer; that peer when a version is given; not found without a peer and a document, or without a peer and with a given version; a state with an invalid version or epoch is refused |
| `ServiceDocument.ChoiceIsMaximalExactly` | xenon-common/src/main/java/com/vmware/xenon/services/common/NodeSelectorSynchronizationService.java:361-418 | no version is above the choice and the local state is not preferred to it; no peer is preferred to it if and only if no peer of its version is later by at least epsilon |
| `ServiceDocument.LaterPeerIsPassedOver` | xenon-common/src/main/java/com/vmware/xenon/services/common/NodeSelectorSynchronizationService.java:364-370 | a later peer of the same version than the first one found is passed over |
| `ServiceResourceTracker.Tracker.UpdateCachedServiceState` | xenon-common/src/main/java/com/vmware/xenon/common/ServiceResourceTracker.java:293-347 | the new caches |
| `ServiceResourceTracker.Tracker.GetCachedServiceState` | xenon-common/src/main/java/com/vmware/xenon/common/ServiceResourceTracker.java:349-406 | the transaction's entry or the shared one, unless its expiration is set and past, in which case the service is deleted; no state changes |
| `ServiceResourceTracker.Tracker.ClearCachedServiceState` | xenon-common/src/main/java/com/vmware/xenon/common/ServiceResourceTracker.java:408-439 | the new caches |
| `ServiceResourceTracker.CacheRefinesHistory` | xenon-common/src/main/java/com/vmware/xenon/common/ServiceResourceTracker.java:293-439 | after any history the shared state is the last to arrive of the highest-version updates since the last reset or clear, and so is the entry of a transaction among its own updates |
| `ServiceResourceTracker.AccessTimeAfterUpdate` | xenon-common/src/main/java/com/vmware/xenon/common/ServiceResourceTracker.java:293-347 | the access time is moved by updates of an indexed service that are not cached, and by shared ones that are not outdated |
| `ServiceResourceTracker.AccessTimeAfterClear` | xenon-common/src/main/java/com/vmware/xenon/common/ServiceResourceTracker.java:408-439 | a service that is attached or cleared has no state and no access time |
| `ServiceResourceTracker.ReadSeesOwnOrShared` | xenon-common/src/main/java/com/vmware/xenon/common/ServiceResourceTracker.java:349-406 | a read under a transaction sees its own latest highest entry if it has one, otherwise the shared one |
| `ServiceResourceTracker.OthersAreInvisible` | xenon-common/src/main/java/com/vmware/xenon/common/ServiceResourceTracker.java:349-439 | what other transactions did to a service never changes what a read returns |
| `OperationProcessingChain.OperationProcessingContext.ProcessRequest` | xenon-common/src/main/java/com/vmware/xenon/common/OperationProcessingChain.java:198-209 | the consumer is put into the context, then the calls of Loop from the first filter and of the resumes made inside |
| `OperationProcessingChain.OperationProcessingContext.RunFilters` | xenon-common/src/main/java/com/vmware/xenon/common/OperationProcessingChain.java:278-334 | the filter loop computes Loop |
| `OperationProcessingChain.OperationProcessingContext.CallFilter` | xenon-common/src/main/java/com/vmware/xenon/common/OperationProcessingChain.java:282-332 | one filter call and the switch on its return code |
| `OperationProcessingChain.OperationProcessingContext.ProcessFrom` | xenon-common/src/main/java/com/vmware/xenon/common/OperationProcessingChain.java:278-334 | with suspend consumers that resume from inside: the same calls as Loop followed by the resumes one after the other |
| `OperationProcessingChain.OperationProcessingContext.AcceptSuspended` | xenon-common/src/main/java/com/vmware/xenon/common/OperationProcessingChain.java:321-325 | a resume made inside the suspend consumer makes the calls of a resume made later |
| `OperationProcessingChain.ResumesAreARun` | xenon-common/src/main/java/com/vmware/xenon/common/OperationProcessingChain.java:198-334 | resumes from inside the suspend consumers are runs like any other, so the theorems about runs hold for them |
| `OperationProcessingChain.OperationProcessingContext.ResumeProcessingRequest` | xenon-common/src/main/java/com/vmware/xenon/common/OperationProcessingChain.java:223-272 | the calls after a resume: the same filter, the next one, or none; before any filter was called, a null consumer or an index error |
| `OperationProcessingChain.ChainSafety` | xenon-common/src/main/java/com/vmware/xenon/common/OperationProcessingChain.java:198-334 | with each suspension resumed at most once, filters are entered at the same or the next index only, and the consumer runs at most once and only after every filter let the operation through |
| `OperationProcessingChain.ContinueExactly` | xenon-common/src/main/java/com/vmware/xenon/common/OperationProcessingChain.java:198-334 | in every run in which the consumer ran, it ran only after every filter passed the operation with CONTINUE_PROCESSING if and only if no filter returned RESUME_PROCESSING |
| `OperationProcessingChain.ConsumedExactly` | xenon-common/src/main/java/com/vmware/xenon/common/OperationProcessingChain.java:198-334 | the consumer has run if and only if the last filter entered is the last of the chain and let the operation through |
| `OperationProcessingChain.ChainProgress` | xenon-common/src/main/java/com/vmware/xenon/common/OperationProcessingChain.java:198-334 | in every run: a filter that lets the operation through is followed by the next one, one resumed with RESUME_PROCESSING by itself again, and the chain has stopped if and only if the last filter returned, or was resumed with, a stop code |
| `OperationProcessingChain.AllContinue` | xenon-common/src/main/java/com/vmware/xenon/common/OperationProcessingChain.java:278-300 | filters that all continue are entered once each in order, then the consumer runs |
| `OperationProcessingChain.SuspendNeedsConsumer` | xenon-common/src/main/java/com/vmware/xenon/common/OperationProcessingChain.java:305-325 | in every run a filter that suspends throws if and only if no suspend consumer was set since the last suspension |
| `OperationProcessingChain.ResumedBeforeStart` | xenon-common/src/main/java/com/vmware/xenon/common/OperationProcessingChain.java:223-272 | a context that was given no request: RESUME_PROCESSING is an index error, CONTINUE_PROCESSING starts with the first filter but finds no consumer at the end |
| `OperationProcessingChain.AllLetThrough` | xenon-common/src/main/java/com/vmware/xenon/common/OperationProcessingChain.java:198-334 | a run that reached a filter was let through by every earlier one |
| `OperationProcessingChain.UnexpectedCodeGoesOn` | xenon-common/src/main/java/com/vmware/xenon/common/OperationProcessingChain.java:327-331 | a chain of one filter that returns RESUME_PROCESSING: the consumer runs |
| `OperationProcessingChain.DoubleResumeConsumesTwice` | xenon-common/src/main/java/com/vmware/xenon/common/OperationProcessingChain.java:223-272 | resuming a suspension twice runs the consumer twice |
| `ForwardRetry.OperationTracker.TrackOperationForRetry` | xenon-common/src/main/java/com/vmware/xenon/common/OperationTracker.java:51-59 | the retry count of the operation goes up by one and the operation is filed under its queue time |
| `ForwardRetry.OperationTracker.PerformMaintenance` | xenon-common/src/main/java/com/vmware/xenon/common/OperationTracker.java:152-173 | exactly the operations whose back-off is over are handed back, the others stay |
| `ForwardRetry.StepInv` | xenon-common/src/main/java/com/vmware/xenon/common/ForwardRequestFilter.java:203-242 | every failure and every maintenance keeps the spacing of the queueings |
| `ForwardRetry.RetriedExactly` | xenon-common/src/main/java/com/vmware/xenon/common/ForwardRequestFilter.java:203-242 | a failed operation is queued, with its retry count up by one, if and only if it has not expired, was not forwarded and the failure asks for a retry or is a timeout; otherwise it fails and nothing else changes |
| `ForwardRetry.RetriedInEveryRun` | xenon-common/src/main/java/com/vmware/xenon/common/ForwardRequestFilter.java:203-242 | the same in every reachable state |
| `ForwardRetry.RetriesAreQuadraticallyBounded` | xenon-common/src/main/java/com/vmware/xenon/common/ForwardRequestFilter.java:203-242 | in every run the k-th queueing is at least k(k-1)/2 seconds after the first, so the expiration bounds their number |
| `ForwardRetry.QueuedUntilDue` | xenon-common/src/main/java/com/vmware/xenon/common/OperationTracker.java:152-173 | a queued operation stays in the map until a maintenance that is late enough, which hands it back |
| `FactorySynchronization.FactorySynchronizer.ScheduleSynchronizationRetry` | xenon-common/src/main/java/com/vmware/xenon/common/FactoryService.java:1075-1123 | the new limit, count and delay; nothing when the host is stopping |
| `FactorySynchronization.LimitAfterRetries` | xenon-common/src/main/java/com/vmware/xenon/common/FactoryService.java:1075-1107 | after k retries, k at least 1, the limit is max(L / 2^k, 200) |
| `FactorySynchronization.GivesUp` | xenon-common/src/main/java/com/vmware/xenon/common/FactoryService.java:1075-1107 | a failure is retried, and the limit changed, exactly while the retries are not used up |
| `FactorySynchronization.DelayOfRetry` | xenon-common/src/main/java/com/vmware/xenon/common/FactoryService.java:1115-1123 | the delay is 2^k intervals if and only if that is a long and k is below 31 (or the interval is 0) |
| `FactorySynchronization.ProductWraps` | xenon-common/src/main/java/com/vmware/xenon/common/FactoryService.java:1115-1123 | the product of longs is a long and differs from the product by a multiple of 2^64 |

## Left out

- OperationJoin.fail, which the source documents as unsafe to combine with running operations.
- The exceptions a request sender may throw, and the loop that completes the operations of a join one by one before the joined handler.
- nestCompletionCloneSafe and handlers that keep the operation and complete it later or never; a handler here completes the operation before it returns.
- The effects of a filter beyond its return code and its suspend consumer.
- Choosing the owner of a request and the forwarding itself in ForwardRequestFilter.processRequest; only its retry decision is here.
- The two clocks of the retry path are one; two operations queued at the same microsecond, of which the source keeps one, are excluded.
- checkOperationExpiration of OperationTracker: its sets are ordered by id, not by expiration.
- Parsing of numbers: a range is an abstract comparison with its literal, so the lower bound Double.MIN_VALUE of `lt` on doubles is not seen.
- The rewriting of sixteen or more SHOULD terms on one property into a term set, which drops match types.
- The PHRASE match type and the exception for it, and how a document's fields are read by reflection; a document is what its terms say.
- ODataQueryVisitor.Walk: a depth beyond the Java stack, on well-formed input, is not an error here.
- Reads and requests that fail before the upload is completed, in FileUtils; a chunk that is sent is completed.
- A sequence on which `next` was called twice: the second call replaces the child, and the first branch is never sent.
- The broadcast of the chosen state, and peers that answer with another document or another version than the one given.
- What the ownership check of a maintenance decides; a link that is handed on is scheduled again when that ends.
- ODataQueryVisitor.EndlessExactly: token lists that fail with another exception, or end before their last token, are covered by EndlessIsExposed only.
- DeferredResult, statistics, logging, HTTP, serialization, authorization, node groups and the user interface.
