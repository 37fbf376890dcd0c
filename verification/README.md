# mdsc spelling engine — a Dafny model

mdsc is a phonetic spelling suggester derived from Jazzy. A caller hands a
word to a `DictionarySet`. Each registered `Dictionary` asks its backend
whether the word is spelt correctly. The backend stores words by phonetic
code and looks the word's code up. When the word is not found, the
backend's suggestion engine builds the codes of all near misses one edit
away. It collects the words stored under those codes and scores each with
a weighted edit distance. It keeps those under the spelling threshold and
falls back to a best guess when there are none. The `Dictionary` then
tags, sorts and truncates the candidates into a `Result`.

This project models that pipeline in Dafny and proves what each step
promises:

- `EditDistance`: the dynamic-programming table is filled in an `array2` and proved equal to a recursive definition over prefixes. Properties such as distance to self, distance to the empty word and the swap and case-change costs are proved about that definition.
- `PhoneticRules`: the aspell phonetic-rule interpreter (`GenericTransformator`). It covers rule-file parsing, the match test, the rewriting loop that turns a word into its code, and the replace list of letters used for near misses.
- `Suggestions`: the aspell-style suggestion engine (`ASpellSpellingDictionary`). Its phonetic transformation and bucket lookup are parameters.
- `Buckets`, `HashedDictionary`, `GenericDictionary`: the in-memory backends, as classes whose word store is a `map` from code to words.
- `DiskIndex`, `DiskDictionary`: the on-disk backend, which keeps a database of `code,word` records and an index of short index codes. The index codes map to spans of the database.
- `Dichotomy`: the backend that binary-searches a sorted file of `code*word` lines.
- `Words`, `Ranking`, `Sorting`, `Checking`: the value types and the ranking of suggestions, plus `Dictionary.checkSpelling`.
- `DictionarySets`, `Management`: the set of dictionaries and the manager that creates and registers them.
- `WordLists`: the word-list line parser.
- `JavaText`: the Java library behaviour the model relies on, stated for ASCII text.

Where the documented intent and the code differ, the model follows the
code. One such place is `Dictionary.checkSpelling`. Its truncation clears
the sub-list from `maximumSuggestions` up to, but not including, the last
entry. That leaves `maximumSuggestions + 1` suggestions, not
`maximumSuggestions`. `Checking.TruncatedKeeps` states what the code does.
The one exception is the on-disk index file. As written it cannot be read
back, so the model uses the evidently intended decimal format and models
the code as written beside it; "## Findings" gives both.

## Model

| member | source | states |
|---|---|---|
| EditDistance.Minimum | src/uk/ac/open/crc/mdsc/engine/EditDistance.java:223-239 | the result is one of the five arguments and no greater than any of them |
| EditDistance.EqualIgnoreCaseMeaning | src/uk/ac/open/crc/mdsc/engine/EditDistance.java:168-175 | two characters are equal ignoring case exactly when they are equal or one is the ASCII upper-case form of the other |
| EditDistance.CellStep | src/uk/ac/open/crc/mdsc/engine/EditDistance.java:119-155 | an inner cell is the diagonal when the characters match, and otherwise the least of substitution, swap (only when i>1, j>1 and the pair is transposed), deletion, insertion and case change |
| EditDistance.GetDistance | src/uk/ac/open/crc/mdsc/engine/EditDistance.java:89-158 | the result is the bottom-right cell of the recurrence whatever scratch matrix is passed; a matrix that is big enough is reused and holds the whole table afterwards |
| EditDistance.InitBorders | src/uk/ac/open/crc/mdsc/engine/EditDistance.java:111-118 | after initialisation the first column and the first row hold the recurrence's border cells |
| EditDistance.InitFirstColumn | src/uk/ac/open/crc/mdsc/engine/EditDistance.java:111-115 | cell (0,0) is 0 and each cell of the first column adds the insertion cost to the one above |
| EditDistance.InitFirstRow | src/uk/ac/open/crc/mdsc/engine/EditDistance.java:116-118 | each cell of the first row adds the deletion cost to the one on its left; the first column is untouched |
| EditDistance.FillRow | src/uk/ac/open/crc/mdsc/engine/EditDistance.java:119-155 | one pass of the inner loop fills row i with the recurrence and changes no other row |
| EditDistance.CellValue | src/uk/ac/open/crc/mdsc/engine/EditDistance.java:120-153 | the value stored for one inner cell is the recurrence step over its neighbours, with Integer.MAX_VALUE for the swap and case-change options that do not apply |
| EditDistance.GetDistanceFresh | src/uk/ac/open/crc/mdsc/engine/EditDistance.java:76-78 | getDistance without a matrix gives the same distance |
| EditDistance.DiagonalZero | src/uk/ac/open/crc/mdsc/engine/EditDistance.java:124-126 | along the diagonal of a word against itself every cell is 0, because equal characters carry the diagonal cell |
| EditDistance.DistanceToSelf | src/uk/ac/open/crc/mdsc/engine/EditDistance.java:111-126 | the distance from any word to itself is 0 |
| EditDistance.FirstColumn | src/uk/ac/open/crc/mdsc/engine/EditDistance.java:113-115 | cell (i,0) is i times the insertion cost |
| EditDistance.FirstRow | src/uk/ac/open/crc/mdsc/engine/EditDistance.java:116-118 | cell (0,j) is j times the deletion cost |
| EditDistance.DistanceToEmpty | src/uk/ac/open/crc/mdsc/engine/EditDistance.java:113-115 | distance(a, "") is the length of a times COST_INSERT_CHAR |
| EditDistance.DistanceFromEmpty | src/uk/ac/open/crc/mdsc/engine/EditDistance.java:116-118 | distance("", b) is the length of b times COST_REMOVE_CHAR |
| EditDistance.CellOfPrefixes | src/uk/ac/open/crc/mdsc/engine/EditDistance.java:119-155 | cell (i,j) depends only on the first i and j characters of the two words |
| EditDistance.AppendSameChar | src/uk/ac/open/crc/mdsc/engine/EditDistance.java:124-127 | appending the same character to both words leaves the distance unchanged |
| EditDistance.TranspositionCost | src/uk/ac/open/crc/mdsc/engine/EditDistance.java:132-137 | two distinct characters in swapped order are at most COST_SWAP_CHARS apart |
| EditDistance.CaseChangeCost | src/uk/ac/open/crc/mdsc/engine/EditDistance.java:142-146 | two distinct characters that differ only in case are at most COST_CHANGE_CASE apart |
| EditDistance.CellTransposed | src/uk/ac/open/crc/mdsc/engine/EditDistance.java:113-155 | swapping the two words and the deletion and insertion costs transposes the table |
| EditDistance.DistanceTransposed | src/uk/ac/open/crc/mdsc/engine/EditDistance.java:89-158 | the distance is symmetric once the deletion and insertion costs are swapped, and symmetric outright when they are equal |
| EditDistance.CellNonNegative | src/uk/ac/open/crc/mdsc/engine/EditDistance.java:111-155 | with non-negative costs every cell is non-negative |
| EditDistance.CellAtMostBudget | src/uk/ac/open/crc/mdsc/engine/EditDistance.java:111-155 | every cell is at most the cost of inserting all of one prefix and deleting all of the other |
| EditDistance.DistanceBounds | src/uk/ac/open/crc/mdsc/engine/EditDistance.java:111-157 | with non-negative costs the distance lies between 0 and the length of a times the insertion cost plus the length of b times the deletion cost |
| PhoneticRules.StripComment | src/uk/ac/open/crc/mdsc/engine/GenericTransformator.java:380-386 | the result holds no '#', is the trimmed line when there is no '#', and neither starts nor ends with a blank |
| PhoneticRules.Keep | src/uk/ac/open/crc/mdsc/engine/GenericTransformator.java:313-343 | keeping the characters a test accepts never lengthens a string |
| PhoneticRules.KeepMembers | src/uk/ac/open/crc/mdsc/engine/GenericTransformator.java:319-320 | a character is kept exactly when it occurs in the string and passes the test |
| PhoneticRules.FirstWhitespace | src/uk/ac/open/crc/mdsc/engine/GenericTransformator.java:313-316 | the end of the match part: no white space before it, and white space at it unless it is the length |
| PhoneticRules.CountedLengthWithoutGroups | src/uk/ac/open/crc/mdsc/engine/GenericTransformator.java:321-324 | without groups the counted match length is the number of characters |
| PhoneticRules.GroupCountsOnce | src/uk/ac/open/crc/mdsc/engine/GenericTransformator.java:321-327 | a parenthesised group adds exactly one to the counted match length, whatever its size |
| PhoneticRules.ParsedRuleShape | src/uk/ac/open/crc/mdsc/engine/GenericTransformator.java:313-348 | a parsed rule's match length is the counted length of its match expression, its take-out never exceeds it, the match expression holds no reserved character and the replacement no white space |
| PhoneticRules.ParseRuleLayout | src/uk/ac/open/crc/mdsc/engine/GenericTransformator.java:313-348 | for a match part and a replacement separated by a blank: the match expression is the part without reserved characters, the match length is its counted length, the take-out is that length less the number of '-', '^' and '$' set the anchors, and "_" becomes the empty replacement |
| PhoneticRules.ParseRuleExample | src/uk/ac/open/crc/mdsc/engine/GenericTransformator.java:313-348 | example: "A(EI)- _" parses into match "A(EI)", empty replacement, take-out 1 and match length 2, without anchors |
| PhoneticRules.ScannedLine | src/uk/ac/open/crc/mdsc/engine/GenericTransformator.java:313-348 | once the whole line is scanned, the scanner's buffers and flags are the parts of the parsed rule |
| PhoneticRules.ScanRule | src/uk/ac/open/crc/mdsc/engine/GenericTransformator.java:303-348 | the character loop of buildRule builds exactly the parsed rule |
| PhoneticRules.ScanCharacter | src/uk/ac/open/crc/mdsc/engine/GenericTransformator.java:314-341 | one character of the loop moves the scanner from its state after i characters to its state after i+1 |
| PhoneticRules.ScanMatchCharacter | src/uk/ac/open/crc/mdsc/engine/GenericTransformator.java:318-337 | a character of the match part updates match expression, counted length, group flag, take-out and anchors as the parse of the longer part says |
| PhoneticRules.BuildRule | src/uk/ac/open/crc/mdsc/engine/GenericTransformator.java:282-351 | a comment-stripped line appends the rule it describes, replaces the alphabet, or is skipped; it throws IndexOutOfBounds exactly when an alphabet line has its ']' before its '[' |
| PhoneticRules.BuildRules | src/uk/ac/open/crc/mdsc/engine/GenericTransformator.java:270-278 | the lines build the table of their rules in file order and the last complete alphabet; it throws exactly when some alphabet line is malformed |
| PhoneticRules.TableOfSnoc | src/uk/ac/open/crc/mdsc/engine/GenericTransformator.java:273-275 | one more line of the file applies that line's kind to the table built so far |
| PhoneticRules.NonRuleLineAddsNoRule | src/uk/ac/open/crc/mdsc/engine/GenericTransformator.java:283-285 | a line that is empty after stripping, or starts with version, followup, collapse_result or alphabet, adds no rule |
| PhoneticRules.AlphabetLineSetsAlphabet | src/uk/ac/open/crc/mdsc/engine/GenericTransformator.java:289-296 | an alphabet line with both markers sets the alphabet to the characters strictly between the first '[' and the last ']' and adds no rule |
| PhoneticRules.AlphabetLineWithoutMarkers | src/uk/ac/open/crc/mdsc/engine/GenericTransformator.java:289-296 | an alphabet line missing a marker changes neither rules nor alphabet |
| PhoneticRules.RuleLineAppendsRule | src/uk/ac/open/crc/mdsc/engine/GenericTransformator.java:298-350 | a rule line appends exactly the rule it describes at the end of the list and keeps the alphabet |
| PhoneticRules.RuleIsMatching | src/uk/ac/open/crc/mdsc/engine/GenericTransformator.java:440-488 | the flag loop of isMatching computes the match relation the model defines |
| PhoneticRules.LiteralLoop | src/uk/ac/open/crc/mdsc/engine/GenericTransformator.java:446-483 | without groups the loop succeeds exactly when the match expression occurs at the position, and it then ends past it |
| PhoneticRules.LiteralRuleMatches | src/uk/ac/open/crc/mdsc/engine/GenericTransformator.java:440-488 | a rule without groups matches exactly when its match expression occurs at the position and, if end-anchored, ends the word |
| PhoneticRules.FailedGroupOverridden | src/uk/ac/open/crc/mdsc/engine/GenericTransformator.java:459-475 | example: a failed group is overridden by a later literal that matches: "(AB)C" matches "CX" |
| PhoneticRules.GroupDoesNotAdvance | src/uk/ac/open/crc/mdsc/engine/GenericTransformator.java:469-478 | example: a group tests the current character without advancing: "(AB)B" matches "BX" but not "AB" |
| PhoneticRules.FirstApplicable | src/uk/ac/open/crc/mdsc/engine/GenericTransformator.java:246-262 | the rule chosen at a position is the first in table order that passes the anchor, length and match checks, and none before it passes them |
| PhoneticRules.Replace | src/uk/ac/open/crc/mdsc/engine/GenericTransformator.java:390-403 | the result is the prefix before the span, then the text, then what follows the span |
| PhoneticRules.EncodeIgnoresCase | src/uk/ac/open/crc/mdsc/engine/GenericTransformator.java:233 | the code of a word equals the code of its upper-cased and of its lower-cased form |
| PhoneticRules.TransformWithoutRules | src/uk/ac/open/crc/mdsc/engine/GenericTransformator.java:237-264 | with no rules the rewriting from a cursor keeps the text before it and zeroes the digits after it |
| PhoneticRules.EncodeWithoutRules | src/uk/ac/open/crc/mdsc/engine/GenericTransformator.java:233-264 | with an empty rule table the code is the upper-cased word with every digit replaced by '0' |
| PhoneticRules.DigitsEncodeToZeros | src/uk/ac/open/crc/mdsc/engine/GenericTransformator.java:240-244 | digits are replaced one for one by "0" without consulting the rules |
| PhoneticRules.RewriteAt | src/uk/ac/open/crc/mdsc/engine/GenericTransformator.java:237-263 | one pass of the outer loop preserves what the rest of the rewriting produces and strictly shrinks length less cursor |
| PhoneticRules.ApplyFirstRule | src/uk/ac/open/crc/mdsc/engine/GenericTransformator.java:246-262 | a rule applies exactly when one passes the checks; the first such rule's take-out span is replaced by its replacement and the cursor moves by the replacement's length; otherwise nothing changes and the cursor moves by one |
| PhoneticRules.WashStep | src/uk/ac/open/crc/mdsc/engine/GenericTransformator.java:164-169 | a letter whose code is new becomes the representative of that code; other letters change nothing |
| PhoneticRules.WashDone | src/uk/ac/open/crc/mdsc/engine/GenericTransformator.java:160-179 | after the whole alphabet the washed list holds only alphabet letters, one per distinct code, the first letter met with each code |
| PhoneticRules.SingleCharReplacements | src/uk/ac/open/crc/mdsc/engine/GenericTransformator.java:188-206 | a character is in the list exactly when some rule has it as its whole replacement |
| PhoneticRules.TableRulesWellFormed | src/uk/ac/open/crc/mdsc/engine/GenericTransformator.java:313-350 | every rule of a parsed file is well formed once each rule takes out at least one character |
| PhoneticRules.GenericTransformator.constructor | src/uk/ac/open/crc/mdsc/engine/GenericTransformator.java:145-148 | the transformator keeps the rules and its replace list is the washed alphabet |
| PhoneticRules.GenericTransformator.FromLines | src/uk/ac/open/crc/mdsc/engine/GenericTransformator.java:118-148 | reading a file builds its rule table and washes its alphabet, and throws exactly when an alphabet line is malformed |
| PhoneticRules.GenericTransformator.WashAlphabetIntoReplaceList | src/uk/ac/open/crc/mdsc/engine/GenericTransformator.java:160-179 | the replace list holds only alphabet letters, no two with the same code, every code of the alphabet represented by its first letter |
| PhoneticRules.GenericTransformator.GetCodeReplaceList | src/uk/ac/open/crc/mdsc/engine/GenericTransformator.java:188-206 | the result is the one-character replacements of the rules, in rule order |
| PhoneticRules.GenericTransformator.Transform | src/uk/ac/open/crc/mdsc/engine/GenericTransformator.java:227-267 | the buffer loop returns the code the rewriting defines: upper-cased word, digits zeroed, first applicable rule at each cursor |
| PhoneticRules.FirstApplicableFrom | src/uk/ac/open/crc/mdsc/engine/GenericTransformator.java:246-262 | the first rule from k on that applies at the position, with none before it applying, or none when no rule from k on applies |
| PhoneticRules.DigitsFrom | src/uk/ac/open/crc/mdsc/engine/GenericTransformator.java:240-244 | without an applicable rule a run of digits becomes a run of '0' of the same length |
| PhoneticRules.ClassifiedRuleShape | src/uk/ac/open/crc/mdsc/engine/GenericTransformator.java:313-348 | a rule line's match length is the counted length of its match expression, and its takeOut is at most that length |
| Suggestions.Put | src/uk/ac/open/crc/mdsc/engine/ASpellSpellingDictionary.java:199 | HashMap.put on the key set: the keys afterwards are the old keys plus the new one, still without repeats |
| Suggestions.PutAll | src/uk/ac/open/crc/mdsc/engine/ASpellSpellingDictionary.java:193-252 | putting a sequence of codes leaves exactly the old keys and the put codes, without repeats |
| Suggestions.Without | src/uk/ac/open/crc/mdsc/engine/ASpellSpellingDictionary.java:254 | HashMap.remove: exactly the other keys remain |
| Suggestions.Swapped | src/uk/ac/open/crc/mdsc/engine/ASpellSpellingDictionary.java:194-197 | the word with positions i and i+1 exchanged and every other position unchanged |
| Suggestions.Changed | src/uk/ac/open/crc/mdsc/engine/ASpellSpellingDictionary.java:210-212 | the word with position i overwritten and every other position unchanged |
| Suggestions.Inserted | src/uk/ac/open/crc/mdsc/engine/ASpellSpellingDictionary.java:220-232 | the word one longer, with the letter at position i and the word around it |
| Suggestions.SwapCodes | src/uk/ac/open/crc/mdsc/engine/ASpellSpellingDictionary.java:193-202 | one code per adjacent pair, none for a word shorter than two |
| Suggestions.ChangeRow | src/uk/ac/open/crc/mdsc/engine/ASpellSpellingDictionary.java:211-215 | one code per replace-list letter written over a position |
| Suggestions.InsertRow | src/uk/ac/open/crc/mdsc/engine/ASpellSpellingDictionary.java:223-227 | one code per replace-list letter inserted before a position |
| Suggestions.SwapPhase | src/uk/ac/open/crc/mdsc/engine/ASpellSpellingDictionary.java:193-202 | the interchange loop puts the code of every adjacent swap, left to right |
| Suggestions.SwapAt | src/uk/ac/open/crc/mdsc/engine/ASpellSpellingDictionary.java:194-201 | one swap pass puts one code and restores the buffer |
| Suggestions.ChangePhase | src/uk/ac/open/crc/mdsc/engine/ASpellSpellingDictionary.java:207-217 | the change loop puts the code of every replace-list letter at every position, position by position |
| Suggestions.ChangePosition | src/uk/ac/open/crc/mdsc/engine/ASpellSpellingDictionary.java:210-216 | one position's pass puts one code per replace-list letter and restores the position |
| Suggestions.AddPhase | src/uk/ac/open/crc/mdsc/engine/ASpellSpellingDictionary.java:220-233 | the add loop puts the code of every replace-list letter inserted at each of the word's length+1 positions, from the end down to position 0 |
| Suggestions.AddAt | src/uk/ac/open/crc/mdsc/engine/ASpellSpellingDictionary.java:222-233 | one pass of the add loop extends the codes of the positions above with those of the current one and keeps the buffer's layout |
| Suggestions.ShiftRight | src/uk/ac/open/crc/mdsc/engine/ASpellSpellingDictionary.java:231-232 | copying the character before the gap moves the gap one place left |
| Suggestions.InsertPosition | src/uk/ac/open/crc/mdsc/engine/ASpellSpellingDictionary.java:223-227 | every replace-list letter written at the gap puts one code each |
| Suggestions.DeletePhase | src/uk/ac/open/crc/mdsc/engine/ASpellSpellingDictionary.java:236-252 | a blank word throws NegativeArraySizeException; otherwise every iteration puts the code of the unmodified trimmed word, so the phase adds no new code |
| Suggestions.DeleteLoop | src/uk/ac/open/crc/mdsc/engine/ASpellSpellingDictionary.java:242-252 | the loop runs the word's length times and each time puts the same code of the unmodified word |
| Suggestions.ChangeCodesMembers | src/uk/ac/open/crc/mdsc/engine/ASpellSpellingDictionary.java:207-217 | a code is put by the change phase exactly when it is the code of the word with one position overwritten by a replace-list letter |
| Suggestions.InsertCodesMembers | src/uk/ac/open/crc/mdsc/engine/ASpellSpellingDictionary.java:220-233 | a code is put by the add phase exactly when it is the code of the word with a replace-list letter inserted at some position |
| Suggestions.SwapCodesMembers | src/uk/ac/open/crc/mdsc/engine/ASpellSpellingDictionary.java:193-202 | a code is put by the interchange phase exactly when it is the code of the word with one adjacent pair exchanged |
| Suggestions.NearMissCodesMembers | src/uk/ac/open/crc/mdsc/engine/ASpellSpellingDictionary.java:193-252 | the near-miss keys are exactly the codes one edit away plus the code of the trimmed word, without repeats |
| Suggestions.TrimPadded | src/uk/ac/open/crc/mdsc/engine/ASpellSpellingDictionary.java:220-236 | a word without surrounding blanks trims back to itself after the add phase's appended blank |
| Suggestions.NearMissesAreOneEditAway | src/uk/ac/open/crc/mdsc/engine/ASpellSpellingDictionary.java:183-256 | for a word without surrounding blanks, the codes scored as near misses are exactly the one-edit codes other than the word's own |
| Suggestions.Scored | src/uk/ac/open/crc/mdsc/engine/ASpellSpellingDictionary.java:328-333 | every candidate from one bucket is a word of the bucket whose cost is its distance and below SPELL_THRESHOLD |
| Suggestions.ScoredComplete | src/uk/ac/open/crc/mdsc/engine/ASpellSpellingDictionary.java:328-333 | every word of the bucket closer than SPELL_THRESHOLD is returned with its distance |
| Suggestions.WordsFromCodes | src/uk/ac/open/crc/mdsc/engine/ASpellSpellingDictionary.java:318-337 | every candidate's cost is its distance from the word and below SPELL_THRESHOLD |
| Suggestions.WordsFromCodesMembers | src/uk/ac/open/crc/mdsc/engine/ASpellSpellingDictionary.java:318-337 | a candidate is returned exactly when its word is in some code's bucket and its cost is its distance, below SPELL_THRESHOLD |
| Suggestions.BestScore | src/uk/ac/open/crc/mdsc/engine/ASpellSpellingDictionary.java:293-306 | the running best score is at most Integer.MAX_VALUE, at most every distance in the bucket, and either Integer.MAX_VALUE or one of them |
| Suggestions.AtCostMembers | src/uk/ac/open/crc/mdsc/engine/ASpellSpellingDictionary.java:309-313 | the candidates kept at a cost are the bucket's words at exactly that distance |
| Suggestions.BestGuessMembers | src/uk/ac/open/crc/mdsc/engine/ASpellSpellingDictionary.java:285-315 | the best guess holds exactly the words of the word's own bucket whose distance is the least in that bucket, with no threshold |
| Suggestions.BestGuessNonEmpty | src/uk/ac/open/crc/mdsc/engine/ASpellSpellingDictionary.java:300-313 | a non-empty own bucket gives a non-empty best guess |
| Suggestions.BetterOrEqualScore | src/uk/ac/open/crc/mdsc/engine/ASpellSpellingDictionary.java:302-305 | a word at or below the running best becomes the new best and a candidate |
| Suggestions.WorseScore | src/uk/ac/open/crc/mdsc/engine/ASpellSpellingDictionary.java:302 | a word above the running best changes neither the best nor the candidates |
| Suggestions.AddBestGuess | src/uk/ac/open/crc/mdsc/engine/ASpellSpellingDictionary.java:285-315 | the appended list is exactly the best guess |
| Suggestions.ScoreBucket | src/uk/ac/open/crc/mdsc/engine/ASpellSpellingDictionary.java:293-306 | the first loop ends with the bucket's best score and, at every cost up to it, the bucket's words at that distance as candidates |
| Suggestions.GetSuggestions | src/uk/ac/open/crc/mdsc/engine/ASpellSpellingDictionary.java:146-268 | the result is the phonetic list, or the best guess when both lists are empty, sorted by cost, followed by the near-miss list sorted by cost; a blank word throws; the threshold argument is ignored |
| Suggestions.CollectNearMissCodes | src/uk/ac/open/crc/mdsc/engine/ASpellSpellingDictionary.java:188-252 | the four phases in turn give the near-miss keys, or throw for a blank word |
| Suggestions.SuggestThrowsOnBlankWord | src/uk/ac/open/crc/mdsc/engine/ASpellSpellingDictionary.java:236-238 | getSuggestions throws NegativeArraySizeException exactly when every character of the word is at or below U+0020 |
| Suggestions.SuggestionsWithinThreshold | src/uk/ac/open/crc/mdsc/engine/ASpellSpellingDictionary.java:318-337 | unless the best guess is used, every suggestion is a phonetic match or a near miss and is closer than SPELL_THRESHOLD |
| Suggestions.SuggestionsOrdered | src/uk/ac/open/crc/mdsc/engine/ASpellSpellingDictionary.java:262-267 | the result is a cost-sorted permutation of the phonetic list (or best guess) followed by a cost-sorted permutation of the near misses, equal costs keeping their order |
| Suggestions.PhoneticMatchesMembers | src/uk/ac/open/crc/mdsc/engine/ASpellSpellingDictionary.java:318-337 | the phonetic list holds exactly the words of the word's own bucket closer than SPELL_THRESHOLD |
| Suggestions.CorrectInAnyCase | src/uk/ac/open/crc/mdsc/engine/ASpellSpellingDictionary.java:364-372 | with a case-blind transformation, a word stored in lower case is accepted in any capitalisation |
| Suggestions.LowerCaseNeedsExactEntry | src/uk/ac/open/crc/mdsc/engine/ASpellSpellingDictionary.java:357-368 | a lower-case word is correct only when stored exactly so |
| Buckets.Bucket | src/uk/ac/open/crc/mdsc/engine/HashedSpellingDictionary.java:378-386 | a code with no list reads as an empty list |
| Buckets.Append | src/uk/ac/open/crc/mdsc/engine/HashedSpellingDictionary.java:326-337 | putWord: the word goes to the end of its code's list, created if absent; every other list is unchanged and the key set gains only the code |
| Buckets.WithCode | src/uk/ac/open/crc/mdsc/engine/HashedSpellingDictionary.java:269-277 | the selected words are words of the input with the given code |
| Buckets.StoreAllSnoc | src/uk/ac/open/crc/mdsc/engine/HashedSpellingDictionary.java:272-275 | storing one more word is one more putWord |
| Buckets.StoreAllBuckets | src/uk/ac/open/crc/mdsc/engine/HashedSpellingDictionary.java:269-277 | after storing words, each code's list is its old list followed by exactly the stored words with that code, in order |
| Buckets.StoredWordsFound | src/uk/ac/open/crc/mdsc/engine/HashedSpellingDictionary.java:326-337 | every stored word is found again under its own code |
| Buckets.NonEmpty | src/uk/ac/open/crc/mdsc/engine/HashedSpellingDictionary.java:272-276 | the kept lines are exactly the non-empty lines read |
| Buckets.NonEmptySnoc | src/uk/ac/open/crc/mdsc/engine/HashedSpellingDictionary.java:272-276 | skipping empty lines commutes with reading one more line |
| Buckets.AppendUnique | src/uk/ac/open/crc/mdsc/engine/HashedSpellingDictionary.java:345-370 | afterwards the code's list holds the word in some case; the store is unchanged exactly when it already did, and otherwise the list gains one word at its end; every other list is unchanged |
| Buckets.LowerCasedMeaning | src/uk/ac/open/crc/mdsc/engine/HashedSpellingDictionary.java:296-298 | the normalised lines are the lines up to case, one per line, and normalising them again changes nothing |
| Buckets.LowerCasedMembers | src/uk/ac/open/crc/mdsc/engine/HashedSpellingDictionary.java:296-298 | a normalised line is exactly the lower-cased form of some line |
| Buckets.AppendUniqueKeepsNoCaseDuplicates | src/uk/ac/open/crc/mdsc/engine/HashedSpellingDictionary.java:345-370 | putWordUnique never puts two case variants of a word in one list |
| Buckets.StoreAllUniqueSnoc | src/uk/ac/open/crc/mdsc/engine/HashedSpellingDictionary.java:314-318 | merging one more word is one more putWordUnique |
| Buckets.StoreAllUniqueKeepsNoCaseDuplicates | src/uk/ac/open/crc/mdsc/engine/HashedSpellingDictionary.java:312-319 | merging a word list keeps every list free of case-insensitive duplicates |
| Buckets.StoreAllUniqueFinds | src/uk/ac/open/crc/mdsc/engine/HashedSpellingDictionary.java:312-319 | after a merge every merged word has a case variant under its own code |
| HashedDictionary.HashedSpellingDictionary.Empty | src/uk/ac/open/crc/mdsc/engine/HashedSpellingDictionary.java:78-81 | the no-argument constructor holds no words |
| HashedDictionary.HashedSpellingDictionary.constructor | src/uk/ac/open/crc/mdsc/engine/HashedSpellingDictionary.java:90-94 | the Reader constructor stores every non-empty line verbatim, in order |
| HashedDictionary.HashedSpellingDictionary.FromReader | src/uk/ac/open/crc/mdsc/engine/HashedSpellingDictionary.java:105-115 | the (Reader, boolean) constructor lower-cases every non-empty line when the flag is set and stores it verbatim otherwise |
| HashedDictionary.HashedSpellingDictionary.FromFile | src/uk/ac/open/crc/mdsc/engine/HashedSpellingDictionary.java:144-148 | the (File, boolean) constructor ignores the flag and stores the lines verbatim |
| HashedDictionary.HashedSpellingDictionary.CreateDictionary | src/uk/ac/open/crc/mdsc/engine/HashedSpellingDictionary.java:269-277 | putWord for every non-empty line, in order |
| HashedDictionary.HashedSpellingDictionary.CreateNormalisedDictionary | src/uk/ac/open/crc/mdsc/engine/HashedSpellingDictionary.java:292-300 | putWord for every non-empty line lower-cased, in order |
| HashedDictionary.HashedSpellingDictionary.AddDictionary | src/uk/ac/open/crc/mdsc/engine/HashedSpellingDictionary.java:245-247 | addDictionary merges every non-empty line with putWordUnique |
| HashedDictionary.HashedSpellingDictionary.StoreLine | src/uk/ac/open/crc/mdsc/engine/HashedSpellingDictionary.java:273-275 | one line of createDictionary stores the line when it is not empty |
| HashedDictionary.HashedSpellingDictionary.StoreLowerCasedLine | src/uk/ac/open/crc/mdsc/engine/HashedSpellingDictionary.java:296-298 | one line of createNormalisedDictionary stores the lower-cased line when it is not empty |
| HashedDictionary.HashedSpellingDictionary.MergeLine | src/uk/ac/open/crc/mdsc/engine/HashedSpellingDictionary.java:314-318 | one line of addDictionaryHelper merges the line when it is not empty |
| HashedDictionary.HashedSpellingDictionary.AddWord | src/uk/ac/open/crc/mdsc/engine/HashedSpellingDictionary.java:256-259 | addWord always throws UnsupportedOperationException |
| HashedDictionary.HashedSpellingDictionary.PutWord | src/uk/ac/open/crc/mdsc/engine/HashedSpellingDictionary.java:326-337 | the word goes to the end of its code's list, which is created when absent |
| HashedDictionary.HashedSpellingDictionary.PutWordUnique | src/uk/ac/open/crc/mdsc/engine/HashedSpellingDictionary.java:345-370 | the scan for a case-insensitive match appends the word only when there is none |
| HashedDictionary.HashedSpellingDictionary.GetWords | src/uk/ac/open/crc/mdsc/engine/HashedSpellingDictionary.java:378-386 | an absent code gives an empty list, never null; any word returned is stored under that code |
| HashedDictionary.LoadedDictionaryLists | src/uk/ac/open/crc/mdsc/engine/HashedSpellingDictionary.java:269-277 | a loaded dictionary's list for a code is exactly the non-empty lines with that code, in file order, and every non-empty line is found under its own code |
| HashedDictionary.StoreStep | src/uk/ac/open/crc/mdsc/engine/HashedSpellingDictionary.java:272-276 | reading a line stores it with putWord when it is not empty and changes nothing otherwise |
| HashedDictionary.StoreLowerCasedStep | src/uk/ac/open/crc/mdsc/engine/HashedSpellingDictionary.java:295-299 | reading a line stores it lower-cased when it is not empty and changes nothing otherwise |
| HashedDictionary.StoreUniqueStep | src/uk/ac/open/crc/mdsc/engine/HashedSpellingDictionary.java:314-318 | reading a line merges it with putWordUnique when it is not empty and changes nothing otherwise |
| GenericDictionary.GenericSpellingDictionary.constructor | src/uk/ac/open/crc/mdsc/engine/GenericSpellingDictionary.java:112-118 | every line of the word list, empty ones included, is stored, the store is what putting them in turn builds, and nothing is written to the file |
| GenericDictionary.GenericSpellingDictionary.CreateDictionary | src/uk/ac/open/crc/mdsc/engine/GenericSpellingDictionary.java:153-161 | putWord for every line readLine returns, including empty lines |
| GenericDictionary.GenericSpellingDictionary.PutWord | src/uk/ac/open/crc/mdsc/engine/GenericSpellingDictionary.java:168-179 | the word goes to the end of its code's list, created when absent; other lists are unchanged |
| GenericDictionary.GenericSpellingDictionary.AddWord | src/uk/ac/open/crc/mdsc/engine/GenericSpellingDictionary.java:127-143 | the word is put into the store, which stays what putting every stored word in turn builds; it and the line separator are appended to the file only when there is one |
| GenericDictionary.GenericSpellingDictionary.GetWords | src/uk/ac/open/crc/mdsc/engine/GenericSpellingDictionary.java:187-195 | an absent code gives an empty list; after the constructor and any addWord calls, a code's list is exactly the lines read and words added that have the code, in the order stored, the empty line included |
| DiskIndex.UnchangedFilesKeepDatabase | src/uk/ac/open/crc/mdsc/engine/DiskSpellingDictionary.java:272-292 | a listing with as many files as the manifest, each (name, length) pair listed in it, causes no rebuild, whatever the order |
| DiskIndex.ChangedFileForcesRebuild | src/uk/ac/open/crc/mdsc/engine/DiskSpellingDictionary.java:281-289 | a file whose (name, length) pair is missing from the manifest forces a rebuild |
| DiskIndex.Cleaned | src/uk/ac/open/crc/mdsc/engine/DiskSpellingDictionary.java:311-315 | the reading loop never yields more words than lines |
| DiskIndex.CleanedMembers | src/uk/ac/open/crc/mdsc/engine/DiskSpellingDictionary.java:311-315 | a word is read exactly when it is the trimmed form of a line that is not exactly "" |
| DiskIndex.CompareToIsComparator | src/uk/ac/open/crc/mdsc/engine/DiskSpellingDictionary.java:319 | String.compareTo is a total preorder the sort can rely on |
| DiskIndex.Flatten | src/uk/ac/open/crc/mdsc/engine/DiskSpellingDictionary.java:306-317 | the words of all files together are exactly the words of each file |
| DiskIndex.SortedWordsSorted | src/uk/ac/open/crc/mdsc/engine/DiskSpellingDictionary.java:319 | the collected word list is sorted by String.compareTo |
| DiskIndex.CompareCodes | src/uk/ac/open/crc/mdsc/engine/DiskSpellingDictionary.java:570-573 | CodeWord.compareTo returns 0 exactly when the codes are equal |
| DiskIndex.CompareCodesIsComparator | src/uk/ac/open/crc/mdsc/engine/DiskSpellingDictionary.java:570-573 | CodeWord.compareTo is a total preorder the sort can rely on |
| DiskIndex.RecordsOrdered | src/uk/ac/open/crc/mdsc/engine/DiskSpellingDictionary.java:360 | the records are a permutation of the word list's records, sorted by code, and the records of each code keep the word list's order |
| DiskIndex.RecordText | src/uk/ac/open/crc/mdsc/engine/DiskSpellingDictionary.java:373 | a record's text is code, ',' and word followed by '\n' |
| DiskIndex.ConcatAppend | src/uk/ac/open/crc/mdsc/engine/DiskSpellingDictionary.java:388 | writing two runs of records one after the other writes the concatenation of their texts |
| DiskIndex.Matching | src/uk/ac/open/crc/mdsc/engine/DiskSpellingDictionary.java:217-222 | every word kept comes from a record whose code is exactly the one asked for |
| DiskIndex.ConcatLineFields | src/uk/ac/open/crc/mdsc/engine/DiskSpellingDictionary.java:216 | splitting the database text at line breaks gives one line per record, then an empty remainder |
| DiskIndex.SplitLine | src/uk/ac/open/crc/mdsc/engine/DiskSpellingDictionary.java:218 | a readable record's line splits at ',' into its code and its word |
| DiskIndex.FilterLinesReadable | src/uk/ac/open/crc/mdsc/engine/DiskSpellingDictionary.java:217-222 | over the lines of readable records the filter keeps exactly the words of the records with the code asked for |
| DiskIndex.ReadBackRecords | src/uk/ac/open/crc/mdsc/engine/DiskSpellingDictionary.java:204-234 | the record format round-trips: getWords' filter over the text of readable records yields exactly the words of the records whose code is the one asked for, in file order |
| DiskIndex.ExtendTiles | src/uk/ac/open/crc/mdsc/engine/DiskSpellingDictionary.java:376-387 | a record either joins the open run or starts a new one, and the runs still cut the records into consecutive pieces |
| DiskIndex.RunsPartition | src/uk/ac/open/crc/mdsc/engine/DiskSpellingDictionary.java:366-389 | consecutive records with the same index code form one run; runs are consecutive and non-empty, cover all records, and neighbours differ in code |
| DiskIndex.OffsetMonotone | src/uk/ac/open/crc/mdsc/engine/DiskSpellingDictionary.java:381 | offsets grow with the record number, strictly when every record has text |
| DiskIndex.LayoutEntries | src/uk/ac/open/crc/mdsc/engine/DiskSpellingDictionary.java:391-394 | the index has one entry per run when there are at least two runs and is empty when every record shares one index code, because the last run is dropped when its position is 0 |
| DiskIndex.SingleRun | src/uk/ac/open/crc/mdsc/engine/DiskSpellingDictionary.java:376-394 | there is at most one run exactly when every record has the same index code |
| DiskIndex.EntriesTile | src/uk/ac/open/crc/mdsc/engine/DiskSpellingDictionary.java:380-386 | spans are contiguous: the first starts at 0, each starts where the previous ends, and the last ends at the end of the database |
| DiskIndex.RunAt | src/uk/ac/open/crc/mdsc/engine/DiskSpellingDictionary.java:376-387 | every record of a run has the run's index code |
| DiskIndex.OffsetIsTextLength | src/uk/ac/open/crc/mdsc/engine/DiskSpellingDictionary.java:381 | the offset of a record is the length of the database text before it |
| DiskIndex.SpanText | src/uk/ac/open/crc/mdsc/engine/DiskSpellingDictionary.java:204-216 | the bytes between two record offsets are exactly the text of the records between them |
| DiskIndex.SpanReadsBack | src/uk/ac/open/crc/mdsc/engine/DiskSpellingDictionary.java:204-222 | every index entry covers one run of records with its code, and reading its span yields exactly the words of that run's records with the code asked for |
| DiskIndex.SliceReadsBack | src/uk/ac/open/crc/mdsc/engine/DiskSpellingDictionary.java:204-222 | reading the bytes between two record offsets yields exactly the words of those records with the code asked for |
| DiskIndex.BinarySearch | src/uk/ac/open/crc/mdsc/engine/DiskSpellingDictionary.java:501 | a non-negative result is the position of a record whose code is the key; on sorted records the converse and the insertion point of a miss are BinarySearchComplete's |
| DiskIndex.Search | src/uk/ac/open/crc/mdsc/engine/DiskSpellingDictionary.java:501 | a non-negative result lies within the bounds and holds a record with the key; on records in code order a miss gives the insertion point, as SearchInsertionPoint states |
| DiskIndex.SearchInsertionPoint | src/uk/ac/open/crc/mdsc/engine/DiskSpellingDictionary.java:501 | on records in code order a miss returns -(insertion point) - 1, with the range's records before that point sorting before the key and the rest after it |
| DiskIndex.BinarySearchComplete | src/uk/ac/open/crc/mdsc/engine/DiskSpellingDictionary.java:501 | on records sorted by code, a key some record holds is found, and a miss gives -(insertion point) - 1 with every record before that point below the key and every record from it on above it |
| DiskIndex.ScanStart | src/uk/ac/open/crc/mdsc/engine/DiskSpellingDictionary.java:499-505 | the count starts at the record binarySearch found, or at the first record |
| DiskIndex.PastPrefix | src/uk/ac/open/crc/mdsc/engine/DiskSpellingDictionary.java:514 | a code past the prefix that does not start with it sorts after every code that does |
| DiskIndex.NothingPrefixedAfter | src/uk/ac/open/crc/mdsc/engine/DiskSpellingDictionary.java:514-515 | in code order, once a record passes the prefix without starting with it, no later record starts with it |
| DiskIndex.ScanCounts | src/uk/ac/open/crc/mdsc/engine/DiskSpellingDictionary.java:499-518 | on records sorted by code the loop counts the prefixed records from its start, capped at one past MAXIMUM_INDEX_SIZE |
| DiskIndex.CountedRecords | src/uk/ac/open/crc/mdsc/engine/DiskSpellingDictionary.java:496-519 | the count compared with MAXIMUM_INDEX_SIZE is the number of prefixed records from where the scan starts, capped at 201, and never more than the true number |
| DiskIndex.CountedWhenNotACode | src/uk/ac/open/crc/mdsc/engine/DiskSpellingDictionary.java:496-519 | when the prefix is not itself a code the count is exact, capped at 201 |
| DiskDictionary.IndexMap | src/uk/ac/open/crc/mdsc/engine/DiskSpellingDictionary.java:439-451 | loadIndex puts every entry's code, later entries replacing earlier ones |
| DiskDictionary.ParseDecimal | src/uk/ac/open/crc/mdsc/engine/DiskSpellingDictionary.java:447-450 | parseInt reads back the decimal text of any value an int can hold |
| DiskDictionary.EntryLineReadsBack | src/uk/ac/open/crc/mdsc/engine/DiskSpellingDictionary.java:445-450 | a decimal entry line of a plain code holds no line terminator and parses back into its code, position and length |
| DiskDictionary.IndexFileRoundTrip | src/uk/ac/open/crc/mdsc/engine/DiskSpellingDictionary.java:398-407 | an index file written with decimal numbers reads back through loadIndex as exactly the entries written, in order, when codes hold no ',' or line terminator and numbers fit in an int |
| DiskDictionary.AsWrittenFirstLine | src/uk/ac/open/crc/mdsc/engine/DiskSpellingDictionary.java:400-406 | the source's index file, whose first entry is at position 0, has U+0000 as the second field of its first line |
| DiskDictionary.NulPositionThrows | src/uk/ac/open/crc/mdsc/engine/DiskSpellingDictionary.java:446-450 | a line whose position field is U+0000 makes parseInt throw NumberFormatException |
| DiskDictionary.AsWrittenIndexUnreadable | src/uk/ac/open/crc/mdsc/engine/DiskSpellingDictionary.java:398-450 | loadIndex throws NumberFormatException on the source's index file as soon as its first entry is at position 0 |
| DiskDictionary.LayoutStartsAtZero | src/uk/ac/open/crc/mdsc/engine/DiskSpellingDictionary.java:367-393 | the first entry the build writes starts at position 0 |
| DiskDictionary.BuiltIndexUnreadable | src/uk/ac/open/crc/mdsc/engine/DiskSpellingDictionary.java:367-450 | whenever the build writes an index entry with a plain code, the source's loadIndex throws on the file it wrote |
| DiskDictionary.ReadSpan | src/uk/ac/open/crc/mdsc/engine/DiskSpellingDictionary.java:209-215 | the bytes read for a span are the span's length long, and are the database's bytes when the span lies inside the file |
| DiskDictionary.DedupLast | src/uk/ac/open/crc/mdsc/engine/DiskSpellingDictionary.java:335-342 | the last word written is the last word of the list |
| DiskDictionary.DedupMembers | src/uk/ac/open/crc/mdsc/engine/DiskSpellingDictionary.java:335-342 | every word of the list is written and nothing else is |
| DiskDictionary.DedupNoRepeats | src/uk/ac/open/crc/mdsc/engine/DiskSpellingDictionary.java:335-342 | no word is written twice in a row |
| DiskDictionary.DedupStrictlyIncreasing | src/uk/ac/open/crc/mdsc/engine/DiskSpellingDictionary.java:319-342 | from a sorted list the written words are strictly increasing |
| DiskDictionary.WriteSortedWords | src/uk/ac/open/crc/mdsc/engine/DiskSpellingDictionary.java:333-343 | the writing loop writes each word unless it equals the word before it |
| DiskDictionary.BuildSortedFile | src/uk/ac/open/crc/mdsc/engine/DiskSpellingDictionary.java:299-346 | the sorted file holds exactly the trimmed non-"" lines of all word-list files, strictly increasing |
| DiskDictionary.DiskSpellingDictionary.constructor | src/uk/ac/open/crc/mdsc/engine/DiskSpellingDictionary.java:133-165 | when the files no longer match the manifest the database, index file, index and manifest are rebuilt from them; otherwise the stored ones are kept; either way the dictionary is ready |
| DiskDictionary.DiskSpellingDictionary.BuildNewDictionaryDatabase | src/uk/ac/open/crc/mdsc/engine/DiskSpellingDictionary.java:173-184 | the database and index are built from the sorted file, the index file holds the entries written, and the manifest lists the files' sizes, or is empty when there are none |
| DiskDictionary.DiskSpellingDictionary.BuildAndLoad | src/uk/ac/open/crc/mdsc/engine/DiskSpellingDictionary.java:156-159 | the rebuild branch writes the index file as the decimal text of the entries built and loads those entries as the index, with the database and manifest rebuilt from the files |
| DiskDictionary.DiskSpellingDictionary.AddWord | src/uk/ac/open/crc/mdsc/engine/DiskSpellingDictionary.java:192-195 | addWord always throws UnsupportedOperationException |
| DiskDictionary.DiskSpellingDictionary.IsReady | src/uk/ac/open/crc/mdsc/engine/DiskSpellingDictionary.java:242-244 | isReady reports the ready flag |
| DiskDictionary.DiskSpellingDictionary.BuildCodeDatabase | src/uk/ac/open/crc/mdsc/engine/DiskSpellingDictionary.java:348-395 | the database is the records' texts in code order, and the index is one entry per run of equal index codes, the last dropped when its position or length is 0 |
| DiskDictionary.DiskSpellingDictionary.WriteRecord | src/uk/ac/open/crc/mdsc/engine/DiskSpellingDictionary.java:370-388 | one record is written and its index code joins the run bookkeeping |
| DiskDictionary.DiskSpellingDictionary.NextRun | src/uk/ac/open/crc/mdsc/engine/DiskSpellingDictionary.java:376-387 | the first record opens a run, a new index code closes the open run into the index and opens the next at the previous start plus length, and the same code lengthens the open run |
| DiskDictionary.DiskSpellingDictionary.GetIndexCode | src/uk/ac/open/crc/mdsc/engine/DiskSpellingDictionary.java:479-531 | a code of length at most 1 is returned unchanged; otherwise the first cached prefix, if any; otherwise the shortest proper prefix whose count is at most 200, which is cached, or the whole code, uncached; the result always begins the code |
| DiskDictionary.DiskSpellingDictionary.CachedIndexCode | src/uk/ac/open/crc/mdsc/engine/DiskSpellingDictionary.java:488-492 | the position of the first cached index code that begins the code, or -1 when none does |
| DiskDictionary.DiskSpellingDictionary.ShortestPrefix | src/uk/ac/open/crc/mdsc/engine/DiskSpellingDictionary.java:494-524 | the length of the shortest proper prefix whose count is within MAXIMUM_INDEX_SIZE, every shorter one being over it, or -1 when none qualifies |
| DiskDictionary.DiskSpellingDictionary.CountPrefix | src/uk/ac/open/crc/mdsc/engine/DiskSpellingDictionary.java:498-518 | the loop computes the count the model defines for the prefix |
| DiskDictionary.DiskSpellingDictionary.GetLocationFor | src/uk/ac/open/crc/mdsc/engine/DiskSpellingDictionary.java:461-472 | the span of the longest non-empty prefix of the code that the index holds, and none exactly when no such prefix is indexed |
| DiskDictionary.DiskSpellingDictionary.GetWords | src/uk/ac/open/crc/mdsc/engine/DiskSpellingDictionary.java:203-234 | no span gives no words; otherwise the words of the records in the span of the longest indexed prefix whose code equals the one asked for |
| DiskDictionary.IndexCodesSnoc | src/uk/ac/open/crc/mdsc/engine/DiskSpellingDictionary.java:372 | every index code begins its record's code |
| DiskDictionary.ConcatSnoc | src/uk/ac/open/crc/mdsc/engine/DiskSpellingDictionary.java:388 | the database grows by one record's text per iteration |
| DiskDictionary.BuildStart | src/uk/ac/open/crc/mdsc/engine/DiskSpellingDictionary.java:376-378 | the first record opens the first run |
| DiskDictionary.BuildNewRun | src/uk/ac/open/crc/mdsc/engine/DiskSpellingDictionary.java:379-384 | a record with a new index code closes the open run and opens the next |
| DiskDictionary.BuildSameRun | src/uk/ac/open/crc/mdsc/engine/DiskSpellingDictionary.java:385-387 | a record with the open run's index code lengthens that run |
| DiskDictionary.BuildFinish | src/uk/ac/open/crc/mdsc/engine/DiskSpellingDictionary.java:391-394 | recording the open run only when its position and length are non-zero gives exactly the index layout |
| Dichotomy.LineEnd | src/main/java/uk/ac/open/crc/mdsc/engine/DichotomyDiskSpellingDictionary.java:168 | the first end-of-line character at or after the offset, or the end of the file, with none before it |
| Dichotomy.ReadLine | src/main/java/uk/ac/open/crc/mdsc/engine/DichotomyDiskSpellingDictionary.java:168-175 | readLine gives no line exactly at the end of the file; otherwise a line without end-of-line characters, and the file pointer moves forward |
| Dichotomy.LineWords | src/main/java/uk/ac/open/crc/mdsc/engine/DichotomyDiskSpellingDictionary.java:224-230 | a line without '*' throws the bad-format IOException; otherwise it contributes at most one word |
| Dichotomy.Then | src/main/java/uk/ac/open/crc/mdsc/engine/DichotomyDiskSpellingDictionary.java:202-203 | appending lists completes exactly when both parts complete, giving their concatenation |
| Dichotomy.Half | src/main/java/uk/ac/open/crc/mdsc/engine/DichotomyDiskSpellingDictionary.java:163 | division by 2 rounds down |
| Dichotomy.Midpoint | src/main/java/uk/ac/open/crc/mdsc/engine/DichotomyDiskSpellingDictionary.java:163 | the midpoint lies within the range |
| Dichotomy.ProbeOf | src/main/java/uk/ac/open/crc/mdsc/engine/DichotomyDiskSpellingDictionary.java:163-188 | the probe line lies strictly inside the range, after the line through the midpoint |
| Dichotomy.GetWords | src/main/java/uk/ac/open/crc/mdsc/engine/DichotomyDiskSpellingDictionary.java:271-282 | an IOException during the search gives an empty list |
| Dichotomy.AddWord | src/main/java/uk/ac/open/crc/mdsc/engine/DichotomyDiskSpellingDictionary.java:145-150 | addWord always throws UnsupportedOperationException |
| Dichotomy.SequentialFind | src/main/java/uk/ac/open/crc/mdsc/engine/DichotomyDiskSpellingDictionary.java:208-233 | the loop computes what the specification of sequentialFind gives: the matching words of the lines that start before position2, or the bad-format exception |
| Dichotomy.WordsAppend | src/main/java/uk/ac/open/crc/mdsc/engine/DichotomyDiskSpellingDictionary.java:202-203 | the words of two runs of lines are the words of each, in order |
| Dichotomy.ReadLineAt | src/main/java/uk/ac/open/crc/mdsc/engine/DichotomyDiskSpellingDictionary.java:173-180 | readLine from the start of a line returns that line and leaves the file pointer at the next |
| Dichotomy.LineLaidOut | src/main/java/uk/ac/open/crc/mdsc/engine/DichotomyDiskSpellingDictionary.java:163-180 | each line of a written file is where its offset says, and readLine anywhere inside it moves to the next line |
| Dichotomy.JoinLaidOut | src/main/java/uk/ac/open/crc/mdsc/engine/DichotomyDiskSpellingDictionary.java:157-233 | the file written from well-formed lines is laid out line by line |
| Dichotomy.ScanLines | src/main/java/uk/ac/open/crc/mdsc/engine/DichotomyDiskSpellingDictionary.java:208-233 | sequentialFind over whole lines gives the words of those lines whose code matches |
| Dichotomy.MatchesNoneAfter | src/main/java/uk/ac/open/crc/mdsc/engine/DichotomyDiskSpellingDictionary.java:190-191 | in a sorted file a code before the probe's matches no line from the probe on |
| Dichotomy.MatchesNoneBefore | src/main/java/uk/ac/open/crc/mdsc/engine/DichotomyDiskSpellingDictionary.java:193-194 | in a sorted file a code after the probe's matches no line up to the probe |
| Dichotomy.ProbeLines | src/main/java/uk/ac/open/crc/mdsc/engine/DichotomyDiskSpellingDictionary.java:163-188 | the probe either ends past the range or is a whole line strictly inside it |
| Dichotomy.FindPast | src/main/java/uk/ac/open/crc/mdsc/engine/DichotomyDiskSpellingDictionary.java:181-183 | a probe ending past the range falls back to sequentialFind |
| Dichotomy.FindProbe | src/main/java/uk/ac/open/crc/mdsc/engine/DichotomyDiskSpellingDictionary.java:184-205 | a probe with a '*' splits the search around it |
| Dichotomy.DichotomyLines | src/main/java/uk/ac/open/crc/mdsc/engine/DichotomyDiskSpellingDictionary.java:157-206 | dichotomyFind over whole lines of a sorted well-formed file gives exactly the words of the lines with the code sought, in file order |
| Dichotomy.AroundWords | src/main/java/uk/ac/open/crc/mdsc/engine/DichotomyDiskSpellingDictionary.java:189-205 | each branch around the probe gives the words of all the lines in the range |
| Dichotomy.GetWordsOfSortedFile | src/main/java/uk/ac/open/crc/mdsc/engine/DichotomyDiskSpellingDictionary.java:271-282 | on a well-formed file sorted by code, getWords returns exactly the words of all lines with the code sought, in file order: none is lost, none is extra |
| Words.Compare | src/uk/ac/open/crc/mdsc/engine/Word.java:66-75 | the result is -1, 0 or 1, negative exactly when the first cost is lower and positive exactly when it is higher; the text plays no part |
| Words.CompareIsTotalPreorder | src/uk/ac/open/crc/mdsc/engine/Word.java:66-75 | compare is antisymmetric, transitive and reflexive on costs |
| Words.CompareIsComparator | src/uk/ac/open/crc/mdsc/engine/Word.java:66-75 | compare meets the comparator contract the stable sort relies on |
| Words.CompareSeparatesOnlyCosts | src/uk/ac/open/crc/mdsc/engine/Word.java:66-75 | compare only separates words whose costs differ |
| Words.Wrap | src/uk/ac/open/crc/mdsc/engine/Word.java:91-96 | int arithmetic: the result is in the int range and congruent to the input modulo 2^32 |
| Words.StringHash | src/uk/ac/open/crc/mdsc/engine/Word.java:94 | the text's hash is an int |
| Words.WordHash | src/uk/ac/open/crc/mdsc/engine/Word.java:91-96 | hashCode is an int |
| Words.Word.constructor | src/uk/ac/open/crc/mdsc/engine/Word.java:43-46 | the word holds the text and cost it is given |
| Words.Word.Empty | src/uk/ac/open/crc/mdsc/engine/Word.java:51-54 | the default word is the empty text at cost 0 |
| Words.Word.GetWord | src/uk/ac/open/crc/mdsc/engine/Word.java:103-105 | getWord gives the current text |
| Words.Word.GetCost | src/uk/ac/open/crc/mdsc/engine/Word.java:122-124 | getCost gives the final cost |
| Words.Word.SetWord | src/uk/ac/open/crc/mdsc/engine/Word.java:112-114 | setWord replaces the text and leaves the cost as it was |
| Words.Word.HashCode | src/uk/ac/open/crc/mdsc/engine/Word.java:91-96 | hashCode is an int |
| Words.EqualsAgreesWithHashCode | src/uk/ac/open/crc/mdsc/engine/Word.java:83-96 | equal words have equal hash codes, and equality is symmetric |
| Words.EqualsIgnoresCost | src/uk/ac/open/crc/mdsc/engine/Word.java:83-89 | two words with the same text are equal whatever their costs |
| Ranking.CompareSpellingsOrder | src/uk/ac/open/crc/mdsc/SuggestedSpelling.java:79-94 | a suggestion compares equal to itself; lower cost sorts first; equal costs are ordered by compareToIgnoreCase of the words |
| Ranking.CompareSpellingsAntisymmetric | src/uk/ac/open/crc/mdsc/SuggestedSpelling.java:79-94 | swapping the arguments flips the sign |
| Ranking.CompareSpellingsTransitive | src/uk/ac/open/crc/mdsc/SuggestedSpelling.java:79-94 | the order is transitive |
| Ranking.CompareSpellingsIsComparator | src/uk/ac/open/crc/mdsc/SuggestedSpelling.java:79-94 | compareTo meets the comparator contract the sort relies on |
| Ranking.SortedInOrder | src/uk/ac/open/crc/mdsc/SuggestedSpelling.java:79-94 | in a sorted list every suggestion sorts no later than every one after it |
| Ranking.SortedByCost | src/uk/ac/open/crc/mdsc/SuggestedSpelling.java:84-93 | in a sorted list costs never decrease |
| Ranking.ResultConstructorsAgree | src/main/java/uk/ac/open/crc/mdsc/Result.java:41-86 | the two short constructors are the four-argument one with the flag fixed, and never build the same result |
| Sorting.Insert | src/uk/ac/open/crc/mdsc/Dictionary.java:138 | inserting adds exactly the one element |
| Sorting.Sort | src/uk/ac/open/crc/mdsc/Dictionary.java:138 | the sorted list is a permutation of its input |
| Sorting.SortSorted | src/uk/ac/open/crc/mdsc/Dictionary.java:138 | with a comparator, the result is sorted |
| Sorting.SortStable | src/uk/ac/open/crc/mdsc/engine/ASpellSpellingDictionary.java:262-264 | when the comparator separates only elements with different keys, the elements of each key keep their relative order |
| Checking.TruncatedKeeps | src/uk/ac/open/crc/mdsc/Dictionary.java:139-141 | a list no longer than the maximum is kept whole; a longer one keeps its first maximum entries and its last; only a negative maximum throws, with IndexOutOfBoundsException; nothing is added |
| Checking.TruncatedSorted | src/uk/ac/open/crc/mdsc/Dictionary.java:138-141 | truncating a sorted list leaves it sorted |
| Checking.Dictionary.constructor | src/uk/ac/open/crc/mdsc/Dictionary.java:70-80 | the dictionary holds the name, description, backend and both caps it is given |
| Checking.Dictionary.CheckSpelling | src/uk/ac/open/crc/mdsc/Dictionary.java:124-145 | the method computes what the specification of checkSpelling gives: correct when the backend finds the word, otherwise the tagged, sorted and truncated suggestions, or the exception on the way |
| Checking.Dictionary.TagAll | src/uk/ac/open/crc/mdsc/Dictionary.java:132-135 | the loop tags every alternative, in order |
| Checking.Dictionary.Truncate | src/uk/ac/open/crc/mdsc/Dictionary.java:139-141 | the subList clear gives the truncation the model defines |
| Checking.Dictionary.CheckSpellingDefault | src/uk/ac/open/crc/mdsc/Dictionary.java:154-156 | checkSpelling(word) uses the dictionary's own maximum cost, which is costThreshold() |
| Checking.CheckCorrect | src/uk/ac/open/crc/mdsc/Dictionary.java:124-145 | the result is correct exactly when the backend finds the word; every result names the word and the dictionary; a misspelling has a suggestion list; the cost threshold passed makes no difference |
| Checking.RankedSuggestions | src/uk/ac/open/crc/mdsc/Dictionary.java:138-141 | the reported suggestions are the sorted list when it fits, else its first maximum entries and its last entry |
| Checking.RankedOrder | src/uk/ac/open/crc/mdsc/Dictionary.java:138 | the reported suggestions are in compareTo order, and the sort only reorders the tagged alternatives |
| Checking.RankedMembers | src/uk/ac/open/crc/mdsc/Dictionary.java:132-143 | every reported suggestion is one of the backend's alternatives, tagged with this dictionary's name |
| Checking.CheckSuggestions | src/uk/ac/open/crc/mdsc/Dictionary.java:129-143 | a misspelt word that does not throw is reported with the ranking of exactly what the backend suggests |
| Checking.CheckThrows | src/uk/ac/open/crc/mdsc/Dictionary.java:124-145 | checkSpelling throws exactly when the word is misspelt and either the word is blank, so the backend throws, or the maximum number of suggestions is negative |
| DictionarySets.DictionaryList.constructor | src/main/java/uk/ac/open/crc/mdsc/DictionarySet.java:42-44 | a new list is empty |
| DictionarySets.DictionarySet.constructor | src/main/java/uk/ac/open/crc/mdsc/DictionarySet.java:42-44 | a new set owns a fresh, empty list |
| DictionarySets.DictionarySet.Copy | src/main/java/uk/ac/open/crc/mdsc/DictionarySet.java:58-60 | the copy shares the existing set's list rather than copying it |
| DictionarySets.DictionarySet.GetDictionaryList | src/main/java/uk/ac/open/crc/mdsc/DictionarySet.java:106-108 | the list itself is returned, not a copy |
| DictionarySets.DictionarySet.Register | src/main/java/uk/ac/open/crc/mdsc/DictionarySet.java:66-68 | the dictionary is appended to the list and nothing else changes |
| DictionarySets.DictionarySet.Remove | src/main/java/uk/ac/open/crc/mdsc/DictionarySet.java:74-76 | remove always throws UnsupportedOperationException |
| DictionarySets.DictionarySet.SpellCheck | src/main/java/uk/ac/open/crc/mdsc/DictionarySet.java:87-100 | the loop returns what the specification of spellCheck gives: IllegalArgumentException for anything but a \w+ word, else the results of every dictionary in order, or the first exception one of them throws |
| DictionarySets.CollectStops | src/main/java/uk/ac/open/crc/mdsc/DictionarySet.java:95-97 | once a dictionary throws, the later dictionaries do not change the outcome |
| DictionarySets.CheckNeverIllegalArgument | src/main/java/uk/ac/open/crc/mdsc/DictionarySet.java:95-97 | a dictionary's checkSpelling never throws IllegalArgumentException on its own |
| DictionarySets.CollectDone | src/main/java/uk/ac/open/crc/mdsc/DictionarySet.java:93-99 | a completed check has one result per dictionary, each the one that dictionary gave, in order |
| DictionarySets.CollectThrown | src/main/java/uk/ac/open/crc/mdsc/DictionarySet.java:93-99 | the check completes exactly when no dictionary throws, and otherwise throws what one of them threw |
| DictionarySets.SpellCheckResults | src/main/java/uk/ac/open/crc/mdsc/DictionarySet.java:87-100 | spellCheck throws IllegalArgumentException exactly when the word is not \w+; a completed check has one result per dictionary naming the word and that dictionary; with non-negative suggestion caps a \w+ word never throws |
| DictionarySets.WordIsNotBlank | src/main/java/uk/ac/open/crc/mdsc/DictionarySet.java:110-112 | a \w+ word has a character above U+0020 |
| Management.Configuration.constructor | src/uk/ac/open/crc/mdsc/DictionaryManager.java:61-62 | the configuration holds the SPELL_THRESHOLD it is given |
| Management.DictionaryManager.constructor | src/uk/ac/open/crc/mdsc/DictionaryManager.java:59-66 | caps of 3 and 5, SPELL_THRESHOLD set to 3, and a fresh empty set |
| Management.DictionaryManager.Install | src/uk/ac/open/crc/mdsc/DictionaryManager.java:88-95 | the new dictionary carries the name, description, backend and current caps, and is appended to the current set |
| Management.DictionaryManager.Create | src/uk/ac/open/crc/mdsc/DictionaryManager.java:81-98 | the dictionary holds the file's non-empty lines keyed by code, with the current caps, and is appended to the current set |
| Management.DictionaryManager.CreateFromFile | src/uk/ac/open/crc/mdsc/DictionaryManager.java:114-135 | as the plain create: the File backend ignores isNormalised |
| Management.DictionaryManager.CreateFromReader | src/uk/ac/open/crc/mdsc/DictionaryManager.java:154-175 | the lines are lower-cased exactly when isNormalised, and the dictionary is appended to the current set |
| Management.DictionaryManager.SetCostThreshold | src/uk/ac/open/crc/mdsc/DictionaryManager.java:187-189 | only the manager's cost changes; SPELL_THRESHOLD and the set stay as they were |
| Management.DictionaryManager.SetMaximumSuggestions | src/uk/ac/open/crc/mdsc/DictionaryManager.java:201-203 | only the manager's maximum number of suggestions changes |
| Management.DictionaryManager.CurrentSet | src/uk/ac/open/crc/mdsc/DictionaryManager.java:217-219 | a new set sharing the manager's current list |
| Management.DictionaryManager.Reset | src/uk/ac/open/crc/mdsc/DictionaryManager.java:225-227 | the manager gets a fresh empty set; the old set's list and the caps stay as they were |
| Management.SnapshotSeesLaterCreate | src/uk/ac/open/crc/mdsc/DictionaryManager.java:217-219 | a set handed out before a create sees the new dictionary, which has the manager's caps |
| Management.SnapshotKeepsListAfterReset | src/uk/ac/open/crc/mdsc/DictionaryManager.java:225-227 | a set handed out before a reset keeps the old list, and a later create reaches only the new set |
| Management.SettersLeaveExistingDictionaries | src/uk/ac/open/crc/mdsc/DictionaryManager.java:187-203 | changing the caps does not alter dictionaries already created |
| Management.CreatedDictionaryAcceptsItsWords | src/uk/ac/open/crc/mdsc/DictionaryManager.java:81-98 | a dictionary created from a word list reports each of its non-empty lines as correctly spelt |
| WordLists.LineParts | src/main/java/uk/ac/open/crc/mdsc/wordlists/WordlistReader.java:176-190 | a line starting with '#' is all comment and no payload; otherwise the split is at the first '#', before which there is none; a line without '#' is all payload |
| WordLists.TrimTrimmed | src/main/java/uk/ac/open/crc/mdsc/wordlists/WordlistReader.java:153 | trimming twice is trimming once |
| WordLists.LinePayload | src/main/java/uk/ac/open/crc/mdsc/wordlists/WordlistReader.java:176-195 | a payload holds no '#' and is already trimmed, and a line that is all comment has no payload |
| WordLists.AllCommentStartsWithHash | src/main/java/uk/ac/open/crc/mdsc/wordlists/WordlistReader.java:192-193 | a line that is nothing but a non-empty comment starts with '#' |
| WordLists.HashStartComment | src/main/java/uk/ac/open/crc/mdsc/wordlists/WordlistReader.java:178-181 | on a line starting with '#' the comment is the whole line, trimmed |
| WordLists.CommentLine | src/main/java/uk/ac/open/crc/mdsc/wordlists/WordlistReader.java:176-195 | a trimmed line is all comment exactly when it starts with '#' |
| WordLists.Parsed | src/main/java/uk/ac/open/crc/mdsc/wordlists/WordlistReader.java:152-154 | one Line per line of the file |
| WordLists.ParsedAt | src/main/java/uk/ac/open/crc/mdsc/wordlists/WordlistReader.java:152-154 | the i-th Line is the i-th line of the file, trimmed |
| WordLists.WordlistReader.constructor | src/main/java/uk/ac/open/crc/mdsc/wordlists/WordlistReader.java:52-56 | the reader holds every line of the file, trimmed, in order |
| WordLists.WordlistReader.Read | src/main/java/uk/ac/open/crc/mdsc/wordlists/WordlistReader.java:146-161 | read appends every line, trimmed, after what the list held |
| WordLists.AsListOfLengthMembers | src/main/java/uk/ac/open/crc/mdsc/wordlists/WordlistReader.java:83-93 | asList(minimumWordLength) holds exactly the payloads of the lines that have one at least that long |
| WordLists.ShortMinimumKeepsAll | src/main/java/uk/ac/open/crc/mdsc/wordlists/WordlistReader.java:83-143 | a minimum length of at most 1 filters nothing: asList(1) is asList() and asLowerCaseList(1) is asLowerCaseList() |
| WordLists.LowerCaseList | src/main/java/uk/ac/open/crc/mdsc/wordlists/WordlistReader.java:101-111 | asLowerCaseList() is asList() with every word lower-cased |
| WordLists.LowerCaseListOfLength | src/main/java/uk/ac/open/crc/mdsc/wordlists/WordlistReader.java:133-143 | asLowerCaseList(n) is asList(n) with every word lower-cased |
| WordLists.WordlistMembers | src/main/java/uk/ac/open/crc/mdsc/wordlists/Wordlist.java:65-83 | a word list holds a word exactly when some line's payload, lower-cased when normalised, is that word and is at least minimumLength long |
| WordLists.Wordlist.constructor | src/main/java/uk/ac/open/crc/mdsc/wordlists/Wordlist.java:65-83 | the list is the reader view the flag and the minimum length select |
| WordLists.Wordlist.Plain | src/main/java/uk/ac/open/crc/mdsc/wordlists/Wordlist.java:40-42 | every word as written, with no minimum length |
| WordLists.Wordlist.WithCase | src/main/java/uk/ac/open/crc/mdsc/wordlists/Wordlist.java:51-53 | every word, lower-cased when normalised |
| WordLists.PlainLine | src/main/java/uk/ac/open/crc/mdsc/wordlists/WordlistReader.java:187-190 | a line with no '#' and no surrounding blanks is all payload |
| WordLists.MinimumLengthExample | src/test/java/uk/ac/open/crc/mdsc/wordlists/WordlistTest.java:71-77 | example: with a minimum length of 5 a list of "Wii" and "Milano" keeps "Milano" and drops "Wii" |

## Findings

| source | as written | input that shows it | evidently intended | confidence | as-written member | corrected member |
|---|---|---|---|---|---|---|
| src/uk/ac/open/crc/mdsc/engine/DiskSpellingDictionary.java:403-405 | `writer.write( indexedCode.position() )` and `writer.write( indexedCode.length() )` call `Writer.write(int)`, which writes one raw character, while `loadIndex` (lines 446-450) parses those fields with `Integer.parseInt` | any word list whose records fall into two or more index runs, such as the words "A" and "B" under the identity transformation: the first entry is at position 0, so its line carries U+0000 as its position and `parseInt` throws NumberFormatException, which the constructor does not catch | write the numbers in decimal, as `buildContentsFile` writes its lengths with `String.valueOf` | high; not executed | DiskDictionary.BuiltIndexUnreadable | DiskDictionary.IndexFileRoundTrip |

## Left out

- File and stream I/O is not modelled. Word-list files, the rule file, `words.db`, `contents` and the `Reader`s are given as their lines or text. A file is a string with one character per byte. Character encodings and `IOException`s from the file system are not modelled.
- `words.idx` is modelled as text written by the evidently intended writer, with the position and length in decimal, as the manifest writes its lengths; the source's own writer is modelled beside it (see Findings). `newLine()` is taken to be `"\n"`, `parseInt` is stated for ASCII digits, and the stored index the constructor keeps when nothing changed is taken as already loaded.
- DiskDictionary.DiskSpellingDictionary.constructor: the rebuild branch stands for the evidently intended decimal index file. As written, the source writes each position and length with `Writer.write(int)`, one raw character, which `loadIndex` cannot parse, so the source's constructor throws whenever the build writes an index entry; `BuiltIndexUnreadable` states that.
- DiskDictionary.DiskSpellingDictionary.BuildAndLoad: takes the loaded index to be the entries written rather than running `LoadIndex` on the file; `IndexFileRoundTrip` proves the two agree, but only for index codes without ',' or a line terminator and numbers that fit in an int; other codes make `loadIndex` misread or throw, which is not modelled.
- The `Transformator` a backend uses (the double-metaphone transformator or a rule-file `GenericTransformator`) is a parameter `transform: string -> string`. `GenericTransformator` itself is modelled in `PhoneticRules`, but the double-metaphone algorithm is not part of this model.
- `Configuration` is not modelled. Its entries (`SPELL_THRESHOLD` and the five edit costs) are explicit parameters; `Management.Configuration` keeps only `SPELL_THRESHOLD`, as the manager's constructor writes it.
- The iteration order of a `HashMap` or `HashSet` is not modelled. The near-miss codes are kept in the order they are first generated, and the replace list in alphabet order. The contracts about them state membership and ordering properties that hold whatever the iteration order.
- Java `int` overflow is not modelled for distances, costs, offsets and counts. `Integer.MAX_VALUE` is kept where the source uses it as a sentinel, and `Word.hashCode` wraps explicitly.
- Logging is left out, and so are the file checks that only log.
- `null` arguments and fields are not modelled. The exception is `Word.equals`, where `null` stands for an object that is not a `Word`. A `null` rule array is not modelled either.
- `DichotomyDiskSpellingDictionary`: the `dictionaryReadLine` path, taken when an encoding is given, is not modelled. Only `RandomAccessFile.readLine` is. Its constructors, which open files, are not modelled either.
- `DictionarySet` under `src/uk/ac/open/crc/mdsc/` is a second copy of the one under `src/main/java/` with the same behaviour, and is modelled once, by `DictionarySets`.
- The convenience managers, the `Wordlists` enumeration and the resource lookup of `WordlistReader` are not part of this model. A word list is given as its lines; `WordLists.WordlistReader` keeps the file name only as a value.
- `Collections.binarySearch` in `getIndexCode` is modelled by the JDK's indexed binary search over the record list, with the same midpoint, branches and `-(low + 1)` on a miss, so it finds the record the JDK finds. When a run of records shares the key, that record may lie anywhere inside the run. What is proved about the count holds for any such position: it never exceeds the true number of records with the prefix, and it is exact when the prefix is not itself a code.
- `getDistance`'s scratch matrix is modelled as an `array2`. A matrix with rows of different lengths cannot be expressed.
- `Collections.sort` is modelled as a stable insertion sort. Stability and the comparator contract are proved, and a stable sort by a total preorder has exactly one result.
- Character classes, case mapping, `trim` and `\w` are stated for ASCII text. Java's `\w` without the Unicode flag is `[A-Za-z0-9_]`.
- DiskDictionary.DiskSpellingDictionary.BuildCodeDatabase: does not state the index-code cache it leaves behind, because only `GetIndexCode` relies on the cache and states it.
- Dichotomy.DichotomyFind: modelled as a function over the file text and offsets rather than a method moving a `RandomAccessFile` pointer; the file pointer after each `readLine` is the `next` offset `ReadLine` returns.
- PhoneticRules.GenericTransformator.Transform: requires every rule's take-out to be at least 1. With a take-out of 0 or less the source's loop need not terminate, so such rule tables are not modelled.
- PhoneticRules.GenericTransformator.constructor: carries the same restriction (through `Valid()`), because building the replace list runs the transformation on each alphabet letter. The source accepts some tables with a take-out of 0, for example one whose rule `AB-- X` never fires on a single letter, so its wash still ends; such tables are not modelled.
- PhoneticRules.GenericTransformator.FromLines: the same restriction as the constructor, for the same reason.
- PhoneticRules.GenericTransformator.WashAlphabetIntoReplaceList: requires `Valid()`, so the same restriction as the constructor.
- Ranking.SuggestedSpelling: identity is value equality. The `this == compared` shortcut of `compareTo` therefore also covers distinct objects with equal fields, and `CompareSpellingsOrder` shows it agrees with the rest of `compareTo` there.
