# Verified models of cpplint's text engine and of the analysis layer

The project models two parts of Doochi-Core.

**The bracket and nesting engine of `bin/cpplint.py`.** Two scanners match brackets over many
lines. Each keeps one stack that mixes real brackets with tentative `<` or `>` marks and pops the
marks by heuristics; `Marks` is that stack. `Brackets` defines what they are meant to compute: a
typed matcher for `()`, `[]` and `{}` on one flat text. `ForwardMatcher` and `BackwardMatcher` hold
the scanners, their loops and the proof that, started on a real bracket, they give the plain
matcher's answer. For angle brackets, `AngleCounter` proves that the scanners, started on one of
their own, are plain brackets and one counter; `AngleText` is the reference, a text in which every
`<` and `>` is an angle bracket; `AngleReadings` says which `<` and `>` of a file each scanner reads
as one, and proves that it finds exactly the partner in the file as it reads it. `MatcherTheorems`
proves that the scanners are inverse to each other on brackets and says exactly when an answer
belongs to the bracket it was asked for; `AngleTheorems` says when they are inverse on angle
brackets. `TextInside` adds the third matcher, `TemplateArguments` the walk over complete `<...>`
groups. `Nesting` is the block stack of `NestingState` by value, with the erasure
law for `#if/#else/#endif` and the neutrality law for well-nested text; `Conditionals` says what stack a reader
finds behind every `#else`, `#elif` and `#endif`, and `BlockLaws` which blocks a text opens, with their
kinds, names and notes. `NestingState` is the same state as heap objects that are changed in place,
with deep and shallow copies where the source has them. `RawStrings` and `MultiLineComments` are the two line-rewriting passes.

**The analysis layer in `src/Analysis`.** `CharTermAttribute` is the growable term buffer that
several attributes may share. `TextFields` defines the fields and runs of a text; `Splitter`,
`StringReader`, `CharSet` and `WordLists` are the splitter, the string-stream reader with the
normalisation read loop, the case-folding hash set and the two word-list loaders.

Methods carry the source's loops and updates in place; each is proved against a function or a
predicate that does not mention the loop, and the laws are lemmas about those. Where the source asks a
regular expression or a character class, `CharClasses` and the lemmas ending in `Iff` say what is found
in terms of cut texts and character codes: `s == u + "operator" + w` and the like.

## Where the code does not do what one would expect

* `CloseExpression` started on a `<` that stands behind another `<` or behind the word `operator`
  skips that `<`, and may then report the end of a later bracket: on the second `<` of `<<()` it
  returns the place past `)`. `MatcherTheorems.CloserFitsIff` is the exact condition under which the
  closer has the opener's kind and the text between is balanced, for every start:
  `MatcherTheorems.FirstPushed`, the first bracket from the start on that the scan pushes, is the
  same character as the start. `MatcherTheorems.OpenerFitsIff` is the same for the backward scan,
  which on the `>` of `[]->` returns the place of `[`.
* For angle brackets the two scanners are not inverse on every text: they take different `<` and `>`
  for operators. They are inverse between a `<` and a `>` if every angle bracket from the one to the
  other is plain (`AngleTheorems.AngleInverse`), and an angle bracket is plain exactly if both
  scanners read it alike (`AngleTheorems.PlainIff`). The lemmas whose names end in `Matters` show,
  one line of text each, that no part of the condition can be dropped: ` >= `, `operator>`,
  `operator*>`, `operator<`, `operator<<`, `<<<`, a start in front of `=`, a start behind `<`, and a
  `>` that is an operator. The condition is not necessary, since two disagreements can cancel out.
* `CharSet::Add` copies its key with a helper that refuses empty ranges, so adding the empty string
  throws. Hence `WordlistLoader::GetWordSet` throws on every text with an empty line, in particular
  on every text that ends in a newline and on the empty text; `WordLists.GetWordSet` and
  `WordLists.EmptyLineIff` state exactly when.
* A comment in `NestingState.Update` says that the stack is never modified in place. The blocks on
  it are; what keeps the else regions from leaking is that the checkpoints are deep copies. Only
  where the line's directive replaces the stack does `previous_stack_top` surely keep its value
  (`NestingObjects.NestingState.Update`).

## Model

| member | source | states |
|---|---|---|
| Brackets.RunInverse | bin/cpplint.py:1811-1816 | reading a text backwards undoes reading it forwards, from any stack of open brackets to any other: the backward scan is the reverse of the forward one on real brackets |
| Brackets.PlainCloseIff | bin/cpplint.py:1767-1786 | the plain forward search finds exactly the partner: a typed pair around balanced text |
| Brackets.PlainOpenIff | bin/cpplint.py:1888-1904 | the plain backward search finds exactly the same partner relation |
| Brackets.BalancedIff | bin/cpplint.py:1722-1739 | balanced text is the language of its grammar: nothing, or no bracket and balanced text, or one of `()`, `[]`, `{}` around balanced text and balanced text behind it |
| CharClasses.EndsWithOperatorIff | bin/cpplint.py:1715-1715 | the keyword test holds exactly of texts that are some text, empty or ending outside `0-9A-Z_a-z`, then `operator`, then white space |
| ForwardMatcher.FindEndOfExpressionInLine | bin/cpplint.py:1689-1764 | the loop over one line, with the mixed stack carried in and out, computes the scan function that the lemmas speak about |
| ForwardMatcher.CloseExpression | bin/cpplint.py:1767-1808 | the loop over the lines, with the source's -1 and line count for failure; on `(`, `[`, `{` its answer is that of the plain matcher on the flattened text |
| ForwardMatcher.CanOpenIff | bin/cpplint.py:1791-1792 | the forward scan starts exactly on one of `([{<` that does not begin `<<` or `<=` |
| ForwardMatcher.StepRefines | bin/cpplint.py:1702-1761 | one character moves the real brackets of a mixed stack exactly as the plain matcher moves them, whatever the `<`, `>`, `;`, `<<`, `->` and operator heuristics do |
| ForwardMatcher.PlainDecides | bin/cpplint.py:1702-1808 | started on a round, square or curly bracket: same answer and same failures as the plain matcher on all lines flattened together |
| BackwardMatcher.FindStartOfExpressionInLine | bin/cpplint.py:1811-1885 | the right-to-left loop, with its double steps, computes the backward scan function |
| BackwardMatcher.ReverseCloseExpression | bin/cpplint.py:1888-1923 | the loop over the lines, with line 0 and -1 for failure; on `)`, `]`, `}` its answer is that of the plain backward matcher |
| BackwardMatcher.SkippedIsNoBracket | bin/cpplint.py:1837-1847 | a character that the backward scan steps over unseen is never a bracket |
| BackwardMatcher.OperatorAngleIff | bin/cpplint.py:1837-1840 | a `>` is taken for an operator exactly behind `-`, in `>=` between white space on both sides, or behind the word `operator` and white space |
| BackwardMatcher.PlainDecidesBack | bin/cpplint.py:1829-1923 | started on a closing bracket: same answer and same failures as the plain backward matcher |
| MatcherTheorems.CloseIff | bin/cpplint.py:1767-1808 | the forward answer is a given place exactly when that place is the partner in the flattened text |
| MatcherTheorems.ReverseCloseIff | bin/cpplint.py:1888-1923 | the backward answer is a given place exactly when that place is the partner |
| MatcherTheorems.ForwardBackwardInverse | bin/cpplint.py:1767-1923 | for any opening and any closing bracket, across any number of lines: the forward scan leads from one to the other exactly when the backward scan leads back |
| MatcherTheorems.RoundTrip | bin/cpplint.py:1767-1923 | from a closed opening bracket, forward and back again returns to it, and the two brackets have one type |
| MatcherTheorems.RoundTripBack | bin/cpplint.py:1767-1923 | from an opened closing bracket, backward and forward again returns just past it |
| ForwardMatcher.OwnsIff | bin/cpplint.py:1706-1720 | a start is pushed, and so is the fixed bottom entry of the run, exactly when it is no `<` behind `<` or behind the word `operator`, cut at a word boundary, and white space |
| MatcherTheorems.AngleClose | bin/cpplint.py:1702-1808 | a pushed `<` is closed by a `>`, the brackets strictly between are balanced and typed, and no `;` stands outside them |
| MatcherTheorems.OwnedCloserMatches | bin/cpplint.py:1702-1808 | for every kind of pushed start the closer has the opener's kind and the brackets between are balanced |
| MatcherTheorems.UnownedAnswerIsAnothers | bin/cpplint.py:1706-1716 | a start that is not pushed gets the answer of the first bracket of its line that is, if no closing bracket and no `;` stands before that one, and fails otherwise |
| MatcherTheorems.CloserFitsIff | bin/cpplint.py:1702-1808 | for every start with an answer: the closer has the opener's kind and the text strictly between is balanced exactly when the first bracket that the scan pushes is the same character as the start |
| MatcherTheorems.AngleOpen | bin/cpplint.py:1829-1923 | a `>` that is no operator is opened by a `<`, the brackets strictly between are balanced and typed, and no `;` stands outside them |
| MatcherTheorems.OpenerFitsIff | bin/cpplint.py:1829-1923 | for every backward start with an answer: the opener has the closer's kind and the text strictly between is balanced exactly when the first bracket that the scan pushes is the same character as the start |
| MatcherTheorems.UnpushedStartIsAnothers | bin/cpplint.py:1833-1883 | a `>` that is an operator gets the answer of the last bracket or `>` before it that is pushed, if no opening bracket and no `;` stands in between, and fails otherwise |
| MatcherTheorems.OtherStartsRefused | bin/cpplint.py:1767-1792 | both scans fail on every other start |
| AngleCounter.RoleIff | bin/cpplint.py:1707-1745 | which `<` opens, which `<` takes one back, and which `>` closes, from the text in front of it |
| AngleText.GoInverse | bin/cpplint.py:1811-1816 | with angle brackets counted outside all others, going back undoes going forth, from any state to any state |
| AngleText.SeekRightIff | bin/cpplint.py:1767-1786 | on a text whose `<` and `>` are all angle brackets, the search to the right finds exactly the partner: balanced in brackets and angle brackets, no `;` outside |
| AngleText.SeekLeftIff | bin/cpplint.py:1888-1904 | and the search to the left exactly the same partner relation |
| AngleText.EnclosedIff | bin/cpplint.py:1702-1761 | what stands between partners, without any machine: balanced in brackets, and outside them no `;`, as many `<` as `>`, and in no prefix more `>` than `<` |
| AngleReadings.AngleCloseIff | bin/cpplint.py:1702-1808 | from a pushed `<`, over any number of lines, the forward scan ends at a given `>` exactly when that is the partner in the file as the forward scan reads it |
| AngleReadings.AngleOpenIff | bin/cpplint.py:1829-1923 | from a `>` that is no operator, the backward scan ends at a given place exactly when that is the partner in the file as the backward scan reads it, which skips `<` in pairs |
| AngleTheorems.PlainIff | bin/cpplint.py:1707-1745 | plain angle brackets are exactly those that both scans read alike, up to the second `<` of a longer run |
| AngleTheorems.AngleInverse | bin/cpplint.py:1767-1923 | for any pushed `<` and any `>` that is no operator, across any number of lines, with plain angle brackets only from one to the other: the forward scan leads from one to the other exactly when the backward scan leads back |
| AngleTheorems.AngleRoundTrip | bin/cpplint.py:1767-1923 | from a closed `<`, forward and back again returns to it if the angle brackets in between are plain |
| AngleTheorems.AngleRoundTripBack | bin/cpplint.py:1767-1923 | from an opened `>`, backward and forward again returns just past it under the same condition |
| AngleTheorems.SpacedGreaterEqualMatters | bin/cpplint.py:1837-1842 | a line with ` >= ` on which the scans are not inverse |
| AngleTheorems.OperatorGreaterMatters | bin/cpplint.py:1743-1745 | a line with `operator>` on which they are not: the forward scan looks one character too early |
| AngleTheorems.BehindOperatorMatters | bin/cpplint.py:1743-1745 | a line with `operator*>` on which they are not, for the same reason |
| AngleTheorems.OperatorLessMatters | bin/cpplint.py:1715-1717 | a line with `operator<` on which they are not |
| AngleTheorems.OperatorShiftMatters | bin/cpplint.py:1708-1716 | a line with `operator<<` on which they are not |
| AngleTheorems.TripleShiftMatters | bin/cpplint.py:1708-1713 | a line with `<<<` on which they are not |
| AngleTheorems.CanOpenMatters | bin/cpplint.py:1791-1792 | a line on which the forward scan refuses the start that the backward scan finds |
| AngleTheorems.OwnsMatters | bin/cpplint.py:1708-1713 | a line on which a start that is not pushed gets another one's answer, so that the way back misses it |
| AngleTheorems.OperatorAngleMatters | bin/cpplint.py:1837-1843 | a line on which a `>` that is an operator gets another one's answer |
| AngleTheorems.AnglesAreNotInverse | bin/cpplint.py:1833-1842 | a line whose ` >= ` closes the `<` in the forward scan and opens nothing in the backward scan |
| AngleTheorems.UnownedAngleExample | bin/cpplint.py:1708-1716 | a line on which a `<` is answered with the place past a `)` |
| AngleTheorems.OperatorStartExample | bin/cpplint.py:1833-1843 | a line on which a `>` is answered with the place of a `[` |
| AngleCounter.StepCounts | bin/cpplint.py:1702-1761 | above a pushed `<`, one character moves the mixed stack as it moves plain brackets and one counter of angle brackets that stands still inside brackets |
| AngleCounter.AngleCloseCounts | bin/cpplint.py:1702-1808 | started on a `<` that it pushes, the forward scan is that counter machine over all lines: same answer and same failures; marks inside nested brackets never matter |
| AngleCounter.AngleOpenCounts | bin/cpplint.py:1829-1923 | started on a `>` that is no operator, the backward scan is the mirrored counter machine: same answer and same failures |
| TextInside.GetTextInside | bin/cpplint.py:4789-4805 | returns exactly the text between the bracket and its partner, or nothing when there is none; and exactly what the one-line forward scan delimits |
| TextInside.ScanIsPlain | bin/cpplint.py:1689-1764 | on one line the forward scan from a bracket finds the plain partner or fails with the plain matcher |
| TemplateArguments.CloseMovesOn | bin/cpplint.py:1794-1808 | a found end is a later place inside the file, for every start |
| TemplateArguments.InTemplateArgumentList | bin/cpplint.py:2591-2631 | terminates on every input by (lines left, characters left); the regular-expression walk with its backtracking and jumps decides as the character-by-character reading does |
| TemplateArguments.VerdictMeans | bin/cpplint.py:2591-2631 | the answer is true exactly when, reading on over complete `<...>` groups and otherwise untelling characters, a confirming character comes first |
| TemplateArguments.FirstTells | bin/cpplint.py:2594-2613 | if the first of `{};=[].<>` behind the name is one of `{};` the answer is false, if it is one of `>=[].` it is true |
| Nesting.UpdateCommits | bin/cpplint.py:2654-2687 | one line: the stack that counts changes by the line's own effect outside else regions and not at all inside them |
| Nesting.Erasure | bin/cpplint.py:2654-2687 | for every list of lines and every start, the stack that counts is that of the live lines run without any checkpointing |
| Nesting.ErasedFile | bin/cpplint.py:2633-2687 | with no else region open at the end, the final stack is that of the file with all else regions deleted and `#if/#endif` ignored |
| Nesting.WellNestedIsNeutral | bin/cpplint.py:2737-2852 | well-nested namespaces, classes, extern and plain blocks leave the same blocks in the same order with the same brace flags, whether or not class headers are taken |
| Nesting.NestedFileIsNeutral | bin/cpplint.py:2654-2852 | only the live lines of a file need be well nested for it to be neutral |
| Conditionals.ElseStartsAgain | bin/cpplint.py:2654-2675 | from every state, behind every `#else` and `#elif` of a conditional the stack is the one in front of its `#if`, whatever the lines in between, inner conditionals included |
| Conditionals.EndifGoesOn | bin/cpplint.py:2654-2687 | behind an `#endif` without `#else` the stack is the one before the directive, and the outer conditionals are as before the `#if` |
| Conditionals.EndifGoesBack | bin/cpplint.py:2654-2687 | behind an `#endif` with `#else` or `#elif` the stack is the one at the first of them, whatever the lines since |
| Conditionals.UnmatchedIgnored | bin/cpplint.py:2662-2687 | `#else`, `#elif` and `#endif` without `#if` change nothing |
| Conditionals.RestoresIff | bin/cpplint.py:2658-2684 | which directives replace the stack, from the conditionals that are open and whether their `#else` has been seen |
| BlockLaws.NamespaceLine | bin/cpplint.py:2737-2757 | a namespace line adds one namespace block of that name, its brace seen exactly if the line holds it |
| BlockLaws.ClassLine | bin/cpplint.py:2759-2786 | a class header with its brace adds one class block of that name, `public` for a struct and `private` for a class unless an access keyword follows, derived exactly if there is a bare colon |
| BlockLaws.NoClassLine | bin/cpplint.py:2766-2786 | a header that is a template argument, or that stands among open parentheses, adds no class block, whatever else is on the line |
| BlockLaws.BraceLine | bin/cpplint.py:2820-2837 | a brace completes the header that waits for it, or else opens an `extern` or a plain block, the latter noted as assembly if it is |
| BlockLaws.AccessLine | bin/cpplint.py:2793-2801 | an access keyword is recorded on a class and nowhere else |
| BlockLaws.ParenthesesAddUp | bin/cpplint.py:2714-2719 | over any lines that hold nothing else, the count of the innermost block is the sum of what they open and close |
| BlockLaws.AsmStatement | bin/cpplint.py:2721-2735 | an assembly statement over several lines: inside it up to the line that closes it, at its end there, outside on the next |
| BlockLaws.AsmEntersIff | bin/cpplint.py:2721-2731 | a line enters an assembly statement exactly if it starts one, changes the count, and leaves one parenthesis open |
| BlockLaws.AsmBlockStays | bin/cpplint.py:2721-2735 | a block noted as assembly stays so, whatever its lines count |
| BlockLaws.KindsFollow | bin/cpplint.py:2690-2852 | at every point of well-nested text whose lines balance their parentheses, the blocks above the base are exactly those that the text has opened: kinds, names, lines, brace flags |
| BlockLaws.DepthFollowsShape | bin/cpplint.py:2690-2852 | the well-nested texts of the neutrality law are those whose kinds can be read, with as many blocks open |
| NestingObjects.NestingState.UpdatePreprocessor | bin/cpplint.py:2654-2687 | on heap objects: acts as the value model does, with a deep copy at `#if` and `#else` and none at `#endif`, and keeps all lists that may come back apart |
| NestingObjects.NestingState.CountParentheses | bin/cpplint.py:2714-2735 | the change in place of the top block leaves every saved stack as it was |
| NestingObjects.NestingState.ConsumeOne | bin/cpplint.py:2824-2851 | one brace, semicolon or parenthesis, with its change in place, push or pop |
| NestingObjects.NestingState.Update | bin/cpplint.py:2690-2852 | a whole line acts on the objects as on their values; saved stacks change only as the value model says; the remembered top of the old stack keeps its value where the directive replaces the stack |
| NestingObjects.NestingState.UpdateFile | bin/cpplint.py:2690-2852 | after a whole file the live objects have the values that the live lines alone give: nothing done inside else regions leaks |
| NestingObjects.NestingState.UpdateToElse | bin/cpplint.py:2654-2675 | on heap objects: behind an `#else` or `#elif` the live objects have the values again that they had in front of the `#if` |
| NestingObjects.NestingState.UpdateToEndif | bin/cpplint.py:2654-2687 | on heap objects: behind the `#endif` they have the values from the end of the first branch, and all that was saved before is as it was |
| RawStrings.CleanseRawStrings | bin/cpplint.py:1478-1531 | keeps the line count, leaves no live raw-string opener, changes a file exactly if it has one, and a second pass changes nothing |
| RawStrings.OpensAtIff | bin/cpplint.py:1509-1509 | a raw string opens exactly where the line goes on with one of the five prefixes at a word boundary, a quote, a delimiter without white space, backslash and parentheses, and `(` |
| RawStrings.UntouchedIff | bin/cpplint.py:1478-1531 | the pass returns a file unchanged exactly if on every line the first such place, if any, is in a comment |
| RawStrings.CutOpensNothing | bin/cpplint.py:1511-1522 | cutting a line at its first raw string and putting `""` there opens no new raw string |
| RawStrings.Idempotent | bin/cpplint.py:1478-1531 | idempotence for every list of lines and every comment test, open raw string at the end included |
| RawStrings.StableFixed | bin/cpplint.py:1478-1531 | lines without a live raw-string opener are left as they are |
| RawStrings.LiteralOnOneLine | bin/cpplint.py:1512-1519 | a raw string that ends on its line is treated as `""` |
| RawStrings.LiteralOverLines | bin/cpplint.py:1461-1470 | a raw string over several lines: what precedes it stays, inner lines become `""`, the last line keeps its indentation and what follows |
| MultiLineComments.RemoveMultiLineComments | bin/cpplint.py:1562-1575 | overwrites in place exactly the lines covered by a closed comment, is then clean, and reports exactly an unclosed comment |
| MultiLineComments.CleanedIsClean | bin/cpplint.py:1534-1575 | a second pass changes nothing, unclosed comment or not |
| MultiLineComments.BeginsIff | bin/cpplint.py:1537-1541 | a comment begins exactly on a line of white space, `/*`, and text without `*/` |
| MultiLineComments.EndsIff | bin/cpplint.py:1549-1551 | a comment ends exactly on a line whose last characters but white space are `*/` |
| MultiLineComments.CommentCleaned | bin/cpplint.py:1562-1575 | the first comment that begins, if it ends, becomes lines of `/**/`, first and last line included; the lines before it stay, and the rest is cleaned as a file of its own |
| MultiLineComments.NothingCleaned | bin/cpplint.py:1562-1575 | without a comment, or with an unclosed one, the lines stay as they are |
| CharTermAttribute.CharTerm.CopyBuffer | src/Analysis/AttributeImpl.cpp:762-786 | the term becomes the copied bytes; in place if they fit, else on a new buffer while the old one stays as it was |
| CharTermAttribute.CharTerm.ResizeBuffer | src/Analysis/AttributeImpl.cpp:792-803 | growth keeps the whole old content and reaches the over-allocated capacity |
| CharTermAttribute.OversizeIff | src/Util/ArrayUtil.h:51-60 | the new size is the least that leaves room for three more and for an eighth more |
| CharTermAttribute.CharTerm.SetLength | src/Analysis/AttributeImpl.cpp:817-821 | fails exactly beyond the capacity and then changes nothing |
| CharTermAttribute.CharTerm.Append | src/Analysis/AttributeImpl.cpp:832-845 | fails exactly on bad bounds; otherwise the term grows by the piece, with its exact effect on a shared buffer |
| CharTermAttribute.CharTerm.AppendTerm | src/Analysis/AttributeImpl.cpp:853-860 | appends another attribute's term, sharing the buffer or not, or its own if there is room |
| CharTermAttribute.CharTerm.Assign | src/Analysis/AttributeImpl.cpp:905-915 | takes over the other's term and leaves the other's as it was |
| CharTermAttribute.ExecuteAll | src/Analysis/AttributeImpl.cpp:762-860 | any run of copies, appends, length changes and clears follows a backing store cell by cell; where no SetLength lengthens the term it is the run on a plain byte sequence |
| CharTermAttribute.StoreIsPlain | src/Analysis/AttributeImpl.cpp:762-860 | the visible part of the backing store is the plain byte sequence, and all of it is known |
| CharTermAttribute.AppendsOnOneSide | src/Analysis/AttributeImpl.cpp:832-902 | after a shallow copy, any run of appends on one side, reallocating or not, leaves the other side's term |
| CharTermAttribute.SpliceUnseenIff | src/Analysis/AttributeImpl.cpp:840-843 | exactly when a write into a shared buffer goes unseen through its first n bytes |
| CharTermAttribute.AppendBeside | src/Analysis/AttributeImpl.cpp:832-902 | exactly when one append leaves a sharer of any length as it was |
| CharTermAttribute.SharedStoreExample | src/Analysis/AttributeImpl.cpp:823-902 | a concrete run in which clearing and appending on one side changes the other |
| CharTermAttribute.CloneIsSeparate | src/Analysis/AttributeImpl.cpp:750-758 | no run of operations on a clone changes the original |
| TextFields.FieldsJoin | src/Analysis/CharacterUtil.cpp:350-390 | joining the fields of a text gives it back |
| TextFields.FieldsUnique | src/Analysis/CharacterUtil.cpp:350-390 | the fields are the only separator-free pieces that join to the text |
| TextFields.InRunsIff | src/Analysis/CharacterUtil.cpp:350-390 | the runs are exactly the non-empty separator-free pieces between separators or the ends |
| Splitter.Split | src/Analysis/CharacterUtil.cpp:350-390 | no limit: exactly the non-empty delimiter-free runs; limit n: all of them, or n pieces whose last is the unsplit rest behind the delimiter that ends the one before |
| Splitter.SplitWhitespace | src/Analysis/CharacterUtil.cpp:330-347 | splitting at `\s+` without a limit gives exactly the non-empty runs without white space |
| CharSets.Equal | src/Analysis/CharacterUtil.cpp:114-134 | equality of keys is equality after case folding, in both modes |
| CharSets.Hash | src/Analysis/CharacterUtil.cpp:149-166 | the loop with its wrapping 32-bit code computes the hash function |
| CharSets.EqualKeysHashEqually | src/Analysis/CharacterUtil.cpp:114-166 | keys equal up to the mode's folding hash equally |
| CharSets.FoldIff | src/Analysis/CharacterUtil.cpp:114-134 | two keys are equal without case exactly if they have one length and differ only in letters whose codes are 32 apart |
| CharSets.CodeIsPolynomial | src/Analysis/CharacterUtil.cpp:149-166 | the code is the polynomial in 31 over the signed bytes of the folded key, in the last 32 bits |
| CharSets.InItsBucket | src/Analysis/CharacterUtil.cpp:236-240 | a string is in the abstract set exactly when the bucket of its own hash holds it |
| CharSets.CharSet.Contains | src/Analysis/CharacterUtil.cpp:236-240 | membership in the mathematical set of folded strings |
| CharSets.CharSet.Add | src/Analysis/CharacterUtil.cpp:257-264 | throws exactly on the empty string; otherwise adds the folded string and reports whether it was new |
| StringReaders.StringReader.Read | src/Analysis/Reader.cpp:138-155 | fills the buffer from the offset on and nothing else: bytes delivered, -1 exactly once the flag is set, and the flag set exactly by a short read |
| StringReaders.StringReader.ReadLine | src/Analysis/Reader.cpp:134-136 | the text up to the next newline, and the end-of-file flag exactly when there is none |
| StringReaders.StringReader.SetValue | src/Analysis/Reader.cpp:110-113 | a reader, at its end or not, starts afresh on the new text |
| StringReaders.ReadAll | src/Analysis/Analyzer.cpp:276-288 | the 256-byte loop terminates and accumulates exactly the text, for every length |
| WordLists.TrimWord | src/Analysis/CharacterUtil.cpp:282-290 | the result is the text cut out of the white space at its ends: neither end of it is white, unless it is empty, which happens only for the empty text |
| CharClasses.TrimIff | src/Analysis/CharacterUtil.cpp:282-290 | trimming gives exactly the cut between white ends |
| WordLists.GetWordSet | src/Analysis/Analyzer.cpp:359-366 | throws exactly when the text has an empty line; adds exactly the lines up to there, cut out of their white ends, up to case, whatever comes after it |
| WordLists.EmptyLineIff | src/Analysis/Analyzer.cpp:359-366 | a text has an empty line exactly when it is empty, starts or ends with a newline, or has two in a row |
| WordLists.GetSnowballWordSet | src/Analysis/Analyzer.cpp:393-409 | for every text, adds exactly the pieces without white space, between white space, in front of the first bar of each line, up to case, and never throws |

## Left out

- Nesting.Update: a line enters as what the regular expressions of `Update` find in it (directive, parenthesis count, namespace and class headers, access keyword, braces, semicolons and `)`), not as text; whether a class header is a template argument is part of it.
- NestingObjects.NestingState.Update: a checkpoint is a value that holds the two lists of block objects, because no other reference to it exists; the checks and messages of `CheckBegin` and `CheckEnd` are left out, except that `CheckBegin` notes a base class.
- RawStrings.CleanseRawStrings: the test whether a prefix ends in a `//` comment is an arbitrary predicate, so the statements hold for the source's test too.
- TextInside.GetTextInside: the regular expression that finds the start is a parameter, the position where its match ends.
- CharClasses: white space and word characters are the ASCII ones; lines hold no newline, as the source splits the file at them.
- CharTermAttribute.CharTerm.AppendChar: the source reads and increments the length in one expression; the model takes the left operand first, as C++17 does.
- CharTermAttribute.CharTerm.AppendTerm: overlapping `memcpy` ranges are undefined in the source and excluded; so is an attribute appended to itself beyond its capacity, where the order of evaluation of the arguments decides whether the source reads the freed buffer.
- CharTermAttribute: lengths are unbounded, 32-bit overflow is not modelled; `SubSequence`, reflection, `BytesRef` and dynamic casts are left out.
- Splitter.Split: the delimiter is one character.
- CharSets.Hash: signed overflow of the 32-bit code, undefined in C++, wraps around; `tolower` is that of the C locale.
- CharSets.CharSet.Add: rehashing to more buckets, iteration order and the overloads with an offset are left out.
- StringReaders.StringReader.Read: marks, skipping and the other stream states are left out.
- WordLists.GetWordSet: a non-empty line of nothing but white space before the first empty line is excluded, since trimming it is undefined in the source; the variant with a comment prefix is left out.
- The token-stream cache of `Analyzer`, the scalar attributes and cpplint's single-regex style checks, which would add only easy members.
