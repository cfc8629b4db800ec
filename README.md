# concept-engine, modelled in Dafny

concept-engine is a small knowledge engine. Facts are written in ConceptML,
a little language of atoms, compounds, inline `{…}`, nested `[…]` and
parenthetical `(…)` blocks. Each fact is a *concept*: a tree whose string
key is its identity. A *space* stores concepts in a key-value store under
encoded keys, together with an index of masks (patterns made by replacing
parts by variables) and an index of containment (which concept contains
which as a part). Conjunctive rule queries are answered from those
indexes. *Triggers* are defined by fragment concepts; when new concepts
match a trigger's clauses, the trigger adds concepts, removes concepts
and sends notifications.

This project models the engine's core and proves what it promises:

- **The ConceptML library**: the `Concept` value and its constructor
  (set compounds sorted, one-part compounds collapsed), the tokenizer, the
  expansion of blocks into facts, the `&` plugin and the operators,
  interpolation of variables, structural matching and string masks
  (modules `Concepts`, `Tokenization`, `Expansion`, `ExpansionText`,
  `Plugins`, `Operators`, `Interpolation`, `Alternatives`, `ReadBack`,
  `Matching`, `Masking`).
- **The storage key scheme and the masks of the API**: the bracket
  post-encoding, percent-encoding, concept, mask-match and containment
  keys and their parsers, and variable renaming and mask enumeration
  (modules `PostEncoding`, `Percent`, `Keys`, `ConceptMasks`,
  `MaskReadBack`).
- **The store-backed engine**: the store as a class over a map, the
  read-only queries, adding concepts with their masks and containments,
  the removal cascade, the conjunctive matcher `matchConcepts` with its
  unifier `matchVariables`, and the trigger engine: the trigger index,
  partial matches, store queries, triggered changes and the recursive
  `addConceptsWithTriggers` (modules `Store`, `Lookups`, `Additions`,
  `Removal`, `Cascade`, `Conjunction`, `Rules`, `Unification`, `Triggers`,
  `TriggerComponents`, `Triggered`, `TriggerQueries`, `Firing`, `Folds`,
  `SpaceUtil`).
- **Small helpers**: batching and `toVariableDict`, pagination, random
  ids, deep merge, cookie parsing and form encoding (modules `SpaceUtil`,
  `Pagination`, `RandomIds`, `DeepMerge`, `Cookies`, `FormData`).

Pure code (expressions, recursion, calls) is modelled by datatypes,
functions and lemmas. Code that changes state step by step is modelled by
methods with loops. The store and the trigger index are classes whose
methods change their fields. Each such method is proved against a
function that defines its result or new state. Where the source throws,
the model returns `Err` with the source's message, except for the
`TypeError`s of trigger names that an object literal inherits from
`Object.prototype`, listed under "## Left out". Where it returns
`null`, the model returns `None`. `Promise.all` over store reads is
modelled as sequential reads.

Where the code departs from what its names promise, the program is
modelled as written, and a corrected definition is proved beside it (see
"## Findings").

## Model

| member | source | states |
|---|---|---|
| Concepts.KeyShape | packages/concept-ml-parser/src/concepts.ts:94-98 | an atom's key is its source string; a compound's key is its part keys joined by single spaces, with every compound part wrapped in `[ ]` |
| Concepts.MakeAtom | packages/concept-ml-parser/src/concepts.ts:34-45 | an atom is made exactly when the atom test passes (a `<<…>>` string literal, or no `,{}()` and no space); its key is the source text; otherwise the call fails with the check's message |
| Concepts.StripDelimitersShape | packages/concept-ml-parser/src/concepts.ts:39 | an atom's text loses a leading `<<` and a trailing `>>`: a key with neither is its own text, and a string literal's text is its inside |
| Concepts.PredicateFacts | packages/concept-ml-parser/src/concepts.ts:65-92 | atom iff no parts; variable iff an atom whose key starts with `$`; directive iff an atom whose key starts with `@`; a variable is never a pattern; a pattern is always a compound |
| Concepts.InsertSorted | packages/concept-ml-parser/src/concepts.ts:26-28 | inserting a part into a key-sorted list keeps it sorted |
| Concepts.SortByKeySorted | packages/concept-ml-parser/src/concepts.ts:26-28 | the sort of a set compound's tail leaves it ordered by key |
| Concepts.SortByKeyOfSorted | packages/concept-ml-parser/src/concepts.ts:26-28 | sorting a tail that is already ordered by key changes nothing |
| Concepts.Build | packages/concept-ml-parser/src/concepts.ts:10-51 | a single part becomes the concept itself; otherwise the compound holds the same parts, the same number of times, with the head first; a set compound (head `:`) has its tail ordered by key, any other compound keeps the order; the key is `joinPartKeys` of the parts |
| Concepts.MakeCompound | packages/concept-ml-parser/src/concepts.ts:15-24 | building from a part array fails exactly when the array is empty (where `parts[0].key` throws), and otherwise gives the constructor's concept |
| Concepts.SetKeyCanonical | packages/concept-ml-parser/src/concepts.ts:23-32 | every order of a set compound's tail gives the same key, as long as parts that share a key are both atoms or both compounds |
| Concepts.BuildOfParts | packages/concept-ml-parser/src/concepts.ts:10-32 | rebuilding a constructed compound from its own parts gives it back |
| Concepts.BuildWellFormed | packages/concept-ml-parser/src/concepts.ts:10-51 | the constructor applied to constructed parts gives a concept of the same kind: atoms pass the atom check, no compound has fewer than two parts, and every set tail is ordered by key, at any depth |
| Concepts.UniqueByKeyFacts | packages/concept-ml-parser/src/concepts.ts:141-145 | `filterUniqueConcepts` returns concepts with pairwise distinct keys, the same set of keys as its input, and only concepts of its input |
| Concepts.UniqueByKeyOfDistinct | packages/concept-ml-parser/src/concepts.ts:141-145 | a list whose keys are already distinct comes back unchanged |
| Concepts.UniqueByKeyIdempotent | packages/concept-ml-parser/src/concepts.ts:141-145 | deduplicating twice gives what deduplicating once gives |
| Concepts.FilterUniqueConcepts | packages/concept-ml-parser/src/concepts.ts:141-145 | the `forEach` filling the `Map` computes the deduplication: each key once, in order of first appearance, holding the last concept with that key |
| Concepts.ConceptsDeepFacts | packages/concept-ml-parser/src/concepts.ts:126-139 | `getConceptsDeep` returns each key of an input or of any transitive part exactly once, and nothing that is not such a sub-concept |
| Concepts.DeepKeysSubConcept | packages/concept-ml-parser/src/concepts.ts:129-134 | the key of every sub-concept, at any depth, is collected |
| Concepts.GetConceptsDeep | packages/concept-ml-parser/src/concepts.ts:126-139 | the recursive loop over one `Map` computes the deep collection of the inputs |
| Concepts.DeepInto | packages/concept-ml-parser/src/concepts.ts:129-134 | one `recurse` call, threading the map's entries, adds each concept and then its parts |
| Strings.LeReflexive | packages/concept-ml-parser/src/concepts.ts:26-28 | the order standing in for `localeCompare` is reflexive |
| Strings.LeAntisymmetric | packages/concept-ml-parser/src/concepts.ts:26-28 | the order is antisymmetric: strings ordered both ways are equal |
| Strings.LeTransitive | packages/concept-ml-parser/src/concepts.ts:26-28 | the order is transitive |
| Strings.LeTotal | packages/concept-ml-parser/src/concepts.ts:26-28 | the order is total, so every sort by key has one answer |
| Strings.IndexOf | apps/api/src/lib/keys.ts:37 | the index of the first occurrence of a character, or the length when there is none |
| Strings.SplitFieldsLackSeparator | apps/api/src/lib/keys.ts:37 | no field of `split(c)` contains `c` |
| Strings.JoinSplit | apps/api/src/lib/keys.ts:37 | joining the fields of `split(c)` with `c` gives the text back |
| Strings.SplitJoin | apps/api/src/lib/keys.ts:21 | splitting, at `c`, fields joined with `c` that do not contain `c` gives the fields back |
| Strings.NatToString | apps/api/src/lib/keys.ts:72 | a number's decimal numeral is non-empty and made of digits |
| Strings.ParseNatToString | apps/api/src/lib/keys.ts:104 | `parseInt(String(n), 10)` is `n` |
| Tokenization.Span | packages/concept-ml-parser/src/tokenization.ts:137-148 | a greedy run of a character class ends at the first character outside it, or at the end of the input |
| Tokenization.LazyEndFacts | packages/concept-ml-parser/src/tokenization.ts:139-141 | a lazy `open body+? close` match ends just after the first closing delimiter that follows at least one body character, and all characters before it are body characters; otherwise there is no match |
| Tokenization.FirstMatchExists | packages/concept-ml-parser/src/tokenization.ts:136-149 | some entry of the token table matches every non-empty input, so the `Could not find a matching TokenType` error is never thrown |
| Tokenization.AtomCharFirst | packages/concept-ml-parser/src/tokenization.ts:136-148 | input starting with a character that only ATOM accepts gives an ATOM token, as long as the run of ATOM characters |
| Tokenization.ParseTokens | packages/concept-ml-parser/src/tokenization.ts:41-83 | the loop over the rest of the input, trying the table in order, gives the token list of the tokenizer's definition |
| Tokenization.MatchTokenType | packages/concept-ml-parser/src/tokenization.ts:47-75 | the inner loop stops at the first table entry with a non-empty match, or reports none |
| Tokenization.TokenizeFromTotal | packages/concept-ml-parser/src/tokenization.ts:46-80 | the tokenizer never reaches its `throw` |
| Tokenization.TokenizeCorrect | packages/concept-ml-parser/src/tokenization.ts:41-83 | `parseTokens` always succeeds, the token values concatenate to the source, and each token is the first non-empty match of the table at its offset |
| Tokenization.TokenAtomsPassCheck | packages/concept-ml-parser/src/tokenization.ts:141-148 | the value of an ATOM or STRING token passes the atom check of the concept constructor (concepts.ts:41-44) |
| Tokenization.AtomTokenShape | packages/concept-ml-parser/src/tokenization.ts:148 | an ATOM token contains no `,{}[]()`, newline or space |
| Tokenization.StringTokenShape | packages/concept-ml-parser/src/tokenization.ts:141 | a STRING token starts with `<<`, ends at the first `>>` after at least one character, and is a string literal for the atom check |
| Tokenization.SeparatorTokenShape | packages/concept-ml-parser/src/tokenization.ts:137-138 | a BRANCH token holds a comma or a newline; a SPACES token holds only spaces and tabs |
| Tokenization.TokenLines | packages/concept-ml-parser/src/tokenization.ts:57-132 | a token's end line is its start line plus the number of newlines in its value |
| Tokenization.TokenFollows | packages/concept-ml-parser/src/tokenization.ts:53-60 | each token after the first starts on the line the previous one ends on, one column after it |
| Plugins.ReplaceOne | packages/concept-ml-parser/src/plugins.ts:9-20 | `recurse` on one part sets the flag exactly when the part holds an `&` at some depth, and leaves an atom other than `&` as it is |
| Plugins.ReplaceAll | packages/concept-ml-parser/src/plugins.ts:9-20 | `recurse` on a list keeps its length and sets the flag exactly when some part holds an `&` |
| Plugins.AmpersandShape | packages/concept-ml-parser/src/plugins.ts:5-25 | without an `&` after the head the parts come back unchanged; with one, the head is dropped and the rest replaced; a non-empty input gives a non-empty output |
| Plugins.AmpersandHeadKept | packages/concept-ml-parser/src/plugins.ts:6-24 | an `&` in head position is never replaced: without an `&` in the rest the list is kept as it is |
| Plugins.ReplaceOneClears | packages/concept-ml-parser/src/plugins.ts:9-20 | when the head holds no `&`, the replaced part holds none, at any depth |
| Plugins.BuildNoAmpersand | packages/concept-ml-parser/src/plugins.ts:15 | rebuilding parts without `&` through the constructor gives a concept without `&` |
| Plugins.NoAmpersandKey | packages/concept-ml-parser/src/plugins.ts:11 | a compound of at least two parts never has the key `&`, so only atoms are replaced |
| Plugins.ApplyPluginsConcat | packages/concept-ml-parser/src/plugins.ts:29-36 | `applyPlugins` with no plugins is the identity, and one list after another is their concatenation, applied left to right |
| Plugins.ApplyPluginsNonEmpty | packages/concept-ml-parser/src/plugins.ts:27-36 | the plugins keep a non-empty permutation non-empty |
| Operators.OpReplace | packages/concept-ml-parser/src/lib/operators.ts:12-23 | the operator's `recurse` sets the flag exactly when the part holds an `&`, and leaves an atom without one as it is |
| Operators.OpReplaceAll | packages/concept-ml-parser/src/lib/operators.ts:25 | `rest.map(recurse)` keeps the length and sets the flag exactly when some part holds an `&` |
| Operators.ApplyAmpersandOperator | packages/concept-ml-parser/src/lib/operators.ts:4-28 | an atom, or a compound without `&` after the head, is returned as it is; otherwise the result is the compound of the replaced rest |
| Operators.OpReplaceClears | packages/concept-ml-parser/src/lib/operators.ts:12-23 | when the head holds no `&`, the replaced part holds none, at any depth |
| Operators.OpBuildClear | packages/concept-ml-parser/src/lib/operators.ts:12-27 | `createCompound` of parts without `&` has no `&` |
| Operators.AmpersandOperatorClears | packages/concept-ml-parser/src/lib/operators.ts:4-28 | an `&` compound whose head holds no `&` gives a concept with no `&` left |
| Operators.OperatorAgreesWithPlugin | packages/concept-ml-parser/src/lib/operators.ts:4-28 | on constructed compounds the operator and the `&` plugin (plugins.ts:5-25) see the same `&`s and agree: the operator is the constructor applied to what the plugin makes of the parts |
| Operators.ColonAll | packages/concept-ml-parser/src/lib/operators.ts:35 | `concept.parts.map(applyColonOperator)` applies the operator to each part in place |
| Operators.ColonShape | packages/concept-ml-parser/src/lib/operators.ts:30-46 | an atom, and a compound whose processed first part is not `:`, come back unchanged (the original parts, not the processed ones); otherwise the result keeps the processed head and holds the processed rest ordered by key |
| Operators.ColonIdempotent | packages/concept-ml-parser/src/lib/operators.ts:30-46 | applying `:` twice gives what applying it once gives |
| Matching.MatchPattern | packages/concept-ml-parser/src/matching.ts:7-43 | the loop over the pattern's parts, merging each part's bindings into one map, computes the structural match |
| Matching.MatchCases | packages/concept-ml-parser/src/matching.ts:13-26 | a variable binds the whole concept; a pattern without variables matches exactly the concept with the same key and binds nothing; a pattern compound with a different number of parts fails |
| Matching.MatchPartsPrefixFails | packages/concept-ml-parser/src/matching.ts:28-36 | once a prefix of the parts fails to match, the whole match fails |
| Matching.MatchPartsAll | packages/concept-ml-parser/src/matching.ts:28-40 | the parts match exactly when every part matches its partner |
| Matching.MatchPartsLastWins | packages/concept-ml-parser/src/matching.ts:37-39 | every name in the result was bound by some part, with the value of the last part that binds it, and every name some part binds is in the result |
| Matching.RepeatedVariableLastWins | packages/concept-ml-parser/src/matching.ts:37-39 | repeated variables are not checked for consistency: `[$x $x]` matches `a b` and binds `$x` to `b` |
| Matching.BoundNamesAreVariables | packages/concept-ml-parser/src/matching.ts:13-40 | every bound name is the key of a variable occurring in the pattern |
| Matching.Variables | packages/concept-ml-parser/src/matching.ts:56 | the filter keeps exactly the variables of the list |
| Matching.VariablesDistinct | packages/concept-ml-parser/src/matching.ts:56 | filtering a list of distinct keys keeps them distinct |
| Matching.CompoundKeySpace | packages/concept-ml-parser/src/concepts.ts:94-98 | a constructed compound's key holds a space, so it is never a variable's key |
| Matching.PatternVariablesFacts | packages/concept-ml-parser/src/matching.ts:53-57 | `getPatternVariables` returns variables with distinct keys that occur in the patterns, and for constructed patterns one for every variable key that occurs |
| Expansion.RunFailed | packages/concept-ml-parser/src/expansion.ts:75-116 | once a step has thrown, the rest of the tokens change nothing: the error is the result |
| Expansion.ParseExpansionTree | packages/concept-ml-parser/src/expansion.ts:48-121 | the loop moving `curBranch` over the tokens, then the final `handleClosing`, builds the tree of the parser's definition, or throws its error |
| Expansion.HandleClosingGood | packages/concept-ml-parser/src/expansion.ts:59-73 | closing a block keeps the finished part of the tree free of empty branches and branch-less blocks |
| Expansion.StepGood | packages/concept-ml-parser/src/expansion.ts:75-116 | every token keeps the finished part of the tree in that shape |
| Expansion.RunGood | packages/concept-ml-parser/src/expansion.ts:75-116 | so does the whole token loop |
| Expansion.ExpansionTreeShape | packages/concept-ml-parser/src/expansion.ts:48-121 | when every opened block has been closed, the tree is returned and every branch at every depth has children |
| Expansion.MismatchedCloseIgnored | packages/concept-ml-parser/src/expansion.ts:98-112 | a closing bracket of another kind than the innermost open block leaves the cursor where it is |
| Expansion.Mark | packages/concept-ml-parser/src/expansion.ts:241-245 | `visit(parts, flag)` for each list, in order, with the same flag |
| Expansion.Wrap | packages/concept-ml-parser/src/expansion.ts:272 | each permutation of a nested block becomes one part, the compound of that permutation |
| Expansion.PrependTails | packages/concept-ml-parser/src/expansion.ts:282-284 | `[left, ...right]` for each tail, in order |
| Expansion.PassAgainstExtra | packages/concept-ml-parser/src/expansion.ts:256-270 | what a passthrough of a nested block adds to `subpermutations` after a directive tail is the passthrough itself |
| Expansion.CrossAt | packages/concept-ml-parser/src/expansion.ts:217-221 | the flatMap lists, for each left in order, that left followed by each right in order: entry `i·|rights| + j` is `left[i] + right[j]` |
| Expansion.CombineNonEmpty | packages/concept-ml-parser/src/expansion.ts:207-222 | `combine` of non-empty permutations and suffixes gives non-empty permutations |
| Expansion.HandleBlockNonEmpty | packages/concept-ml-parser/src/expansion.ts:231-288 | a block child emits only non-empty part lists and leaves non-empty permutations |
| Expansion.NestedEmissionsNonEmpty | packages/concept-ml-parser/src/expansion.ts:256-270 | a nested block's passthroughs are emitted non-empty |
| Expansion.ParentheticalNonEmpty | packages/concept-ml-parser/src/expansion.ts:277-285 | a parenthetical block's emissions are non-empty |
| Expansion.Next | packages/concept-ml-parser/src/expansion.ts:195-292 | `next` from non-empty prefixes emits only non-empty part lists |
| Expansion.VisitBlock | packages/concept-ml-parser/src/expansion.ts:191-297 | `visitPermutations` of a block emits only non-empty part lists |
| Expansion.Permutations | packages/concept-ml-parser/src/expansion.ts:38-46 | every permutation `getPermutations` collects is non-empty, so the constructor (concepts.ts:24) never meets an empty list |
| Expansion.ApplyAll | packages/concept-ml-parser/src/expansion.ts:27-29 | `applyPlugins` on each permutation, in place, keeping them non-empty |
| Expansion.BuildAll | packages/concept-ml-parser/src/expansion.ts:32-34 | `new Concept(permutation)` for each permutation, in order |
| Expansion.ParseConcept | packages/concept-ml-parser/src/expansion.ts:5-16 | the first concept parsed, `Invalid concept source` when there is none, and the parse error when parsing throws |
| Expansion.ParseConceptsDistinct | packages/concept-ml-parser/src/expansion.ts:31-35 | the parsed concepts have pairwise distinct keys |
| Expansion.TokenizeAtomsPass | packages/concept-ml-parser/src/expansion.ts:77-82 | every ATOM and STRING token of a tokenized source passes the atom check, so `new Concept(token.value)` never throws in the tree builder |
| Expansion.RunNullFailure | packages/concept-ml-parser/src/expansion.ts:59-119 | once the cursor has gone `null` the only error that can follow is reading a property of `null` |
| Expansion.ParseConceptsErrors | packages/concept-ml-parser/src/expansion.ts:18-36 | the only way `parseConcepts` throws is by reading a property of a `null` cursor after a stray closing bracket at the root |
| Expansion.FlatBranches | packages/concept-ml-parser/src/expansion.ts:150-156 | a block of plain alternatives: one branch per alternative, holding its concepts |
| Expansion.ExtendAllFacts | packages/concept-ml-parser/src/expansion.ts:224-230 | concept children extend every permutation in place; before any permutation they start one |
| Expansion.LeavesThen | packages/concept-ml-parser/src/expansion.ts:224-291 | `next` over concept children only extends the permutations, then goes on with the rest |
| Expansion.VisitFlat | packages/concept-ml-parser/src/expansion.ts:294-296 | a block of branches of plain concepts emits each branch as one permutation, not passed through |
| Expansion.InlineBlockSplices | packages/concept-ml-parser/src/expansion.ts:273-275 | an inline block `{a, b}` splices each alternative after each permutation so far |
| Expansion.NestedBlockWraps | packages/concept-ml-parser/src/expansion.ts:255-272 | a nested block `[a, b]` adds each alternative as one compound part |
| Expansion.ParentheticalBlockEmits | packages/concept-ml-parser/src/expansion.ts:276-288 | a parenthetical block `x (a, b)` emits each alternative after each distinct last part so far, as facts of their own, and leaves the permutations unchanged |
| Expansion.CombineSingle | packages/concept-ml-parser/src/expansion.ts:207-222 | after a single permutation `p`, a block splices each alternative after `p` |
| Expansion.InlineExample | packages/concept-ml-parser/src/expansion.test.ts:1-84 | on its tree, `john uses {javascript, python}` expands to `john uses javascript` and `john uses python` |
| Expansion.ParentheticalExample | packages/concept-ml-parser/src/expansion.test.ts:1-84 | on its tree, `javascript (ProgrammingLanguage)` expands to `javascript ProgrammingLanguage` and `javascript` |
| Expansion.StringLiteralSource | packages/concept-ml-parser/src/expansion.ts:18-36 | a source that is one `<<…>>` literal, over any number of lines, parses as that one atom, whose text is its inside |
| ExpansionText.InlineParses | packages/concept-ml-parser/src/expansion.ts:18-36 | the text `a b {x, y}` of four simple words, `x` and `y` different, parses to the two concepts `a b x` and `a b y` |
| ExpansionText.ParentheticalParses | packages/concept-ml-parser/src/expansion.ts:18-36 | the text `x (p)` parses to the two concepts `x p` and `x` |
| ExpansionText.InlineTextExample | packages/concept-ml-parser/src/expansion.test.ts:1-84 | `parseConcepts('john uses {javascript, python}')` is `john uses javascript` and `john uses python` |
| ExpansionText.ParentheticalTextExample | packages/concept-ml-parser/src/expansion.test.ts:1-84 | `parseConcepts('javascript (ProgrammingLanguage)')` is `javascript ProgrammingLanguage` and `javascript` |
| Alternatives.TokenizeBracketed | packages/concept-ml-parser/src/tokenization.ts:41-83 | `[k1,…,kn]` over simple keys tokenizes as `[` followed by one ATOM per key with a BRANCH token between two of them and `]` at the end |
| Alternatives.TreeBracketed | packages/concept-ml-parser/src/expansion.ts:48-121 | its tree is the root holding one nested block with one branch per key |
| Alternatives.NestedAlone | packages/concept-ml-parser/src/expansion.ts:255-272 | a lone nested block of single concepts at the top level yields one permutation per concept |
| Alternatives.SinglesBuilt | packages/concept-ml-parser/src/expansion.ts:27-34 | atoms come out of the plugins and the constructor as they went in |
| Alternatives.ParseBracketed | packages/concept-ml-parser/src/expansion.ts:18-36 | `parseConcepts('[k1,…,kn]')` is the atoms `k1 … kn` with later repeats of a key dropped |
| Alternatives.ParseKey | packages/concept-ml-parser/src/expansion.ts:18-36 | a lone simple key parses as its atom |
| ReadBack.PlainWellFormed | packages/concept-ml-parser/src/concepts.ts:10-51 | a concept whose key reads back satisfies every invariant the constructor establishes |
| ReadBack.PlainNoAmpersand | packages/concept-ml-parser/src/plugins.ts:4-28 | no part of such a concept, at any depth, is the `&` atom |
| ReadBack.PluginsKeepPlain | packages/concept-ml-parser/src/plugins.ts:30-36 | the default plugins return such parts unchanged |
| ReadBack.TokenizeLexes | packages/concept-ml-parser/src/tokenization.ts:41-83 | text made of the lexemes of a token list tokenizes back to tokens of the same types and values |
| ReadBack.KeyTokens | packages/concept-ml-parser/src/concepts.ts:94-98 | the key the constructor writes tokenizes as the tokens of the concept's top-level parts, nested parts in brackets |
| ReadBack.KeyTree | packages/concept-ml-parser/src/expansion.ts:48-121 | that key's expansion tree is one branch holding one node per top-level part |
| ReadBack.NestedPart | packages/concept-ml-parser/src/expansion.ts:255-272 | a bracketed compound part contributes exactly that compound as one part |
| ReadBack.KeyPermutations | packages/concept-ml-parser/src/expansion.ts:191-297 | that tree has one permutation: the concept's own parts |
| ReadBack.PlainParses | packages/concept-ml-parser/src/expansion.ts:18-36 | `parseConcepts(concept.key)` is exactly `[concept]` |
| ReadBack.PlainParsesBack | packages/concept-ml-parser/src/expansion.ts:5-16 | `parseConcept(concept.key)` gives the concept back, the premise the storage readers rely on |
| ReadBack.RowTokens | packages/concept-ml-parser/src/tokenization.ts:41-83 | a row of bracketed blocks of alternatives, separated by `,` or `, `, tokenizes as the tokens of its blocks |
| ReadBack.RowTree | packages/concept-ml-parser/src/expansion.ts:48-121 | its tree is one branch holding one nested block per row entry, one branch per alternative |
| ReadBack.BlockStep | packages/concept-ml-parser/src/expansion.ts:207-272 | such a nested block combines each alternative, as one part, after each permutation so far |
| ReadBack.RowPermutations | packages/concept-ml-parser/src/expansion.ts:191-297 | the permutations of a row are every choice of one alternative per block, in order |
| ReadBack.RowParses | packages/concept-ml-parser/src/expansion.ts:18-36 | the text of a row parses to the compound of each choice, repeats by key dropped |
| ReadBack.ChoicesAfterOne | packages/concept-ml-parser/src/expansion.ts:207-222 | a single first alternative followed by a block: that alternative before each of the block's |
| ReadBack.PairKeysDiffer | packages/concept-ml-parser/src/concepts.ts:94-98 | two pairs with the same first part and second parts of different keys have different keys |
| ReadBack.PairChoicesTwo | packages/concept-ml-parser/src/expansion.ts:18-36 | the row `[x] [y1,y2]` gives the two pairs, in order |
| Interpolation.RenderParts | packages/concept-ml-parser/src/interpolation.ts:41-46 | each part interpolated on its own and written as a bracketed block of the keys it gave; one text per part |
| Interpolation.RenderAll | packages/concept-ml-parser/src/interpolation.ts:21-48 | one rewritten text per source concept |
| Interpolation.InterpolateToConcept | packages/concept-ml-parser/src/interpolation.ts:10-15 | the first interpolated concept, `null` when there is none, and the error when interpolation throws |
| Interpolation.InterpolateOneIsInterpolate | packages/concept-ml-parser/src/interpolation.ts:43 | the recursive call on a part is the whole interpolation of that part as a source |
| Interpolation.ParseEachFacts | packages/concept-ml-parser/src/interpolation.ts:54-56 | the strings of an array parse together exactly when each parses, giving their concepts |
| Interpolation.ToConceptsFacts | packages/concept-ml-parser/src/interpolation.ts:53-67 | `toConcepts`: a concept alone, an array's concepts one per key and nothing else, a string parsed, never two with one key |
| Interpolation.InterpolateDistinct | packages/concept-ml-parser/src/interpolation.ts:17-51 | the interpolated concepts never share a key |
| Interpolation.InterpolateErrors | packages/concept-ml-parser/src/interpolation.ts:17-51 | interpolation throws only the error the parser throws |
| Interpolation.UnboundVariableKept | packages/concept-ml-parser/src/interpolation.ts:23-28 | a variable with no value, or the empty string, is left as it is |
| Interpolation.AtomKept | packages/concept-ml-parser/src/interpolation.ts:37-39 | an atom that is not a variable is left as it is, whatever the dictionary |
| Interpolation.KeyBlockParses | packages/concept-ml-parser/src/interpolation.ts:30-34 | simple atoms of distinct keys come back from their `[k1,…]` block as they were |
| Interpolation.BoundVariableReplaced | packages/concept-ml-parser/src/interpolation.ts:23-35 | a variable bound to simple atoms becomes each of them, one result per distinct key, in the order given |
| Interpolation.BoundToKey | packages/concept-ml-parser/src/interpolation.ts:23-35 | a variable bound to the text of one simple key becomes that atom |
| Interpolation.CompoundInterpolated | packages/concept-ml-parser/src/interpolation.ts:41-50 | a compound becomes one compound per choice of one result for each part, repeats dropped |
| Interpolation.PairToOne | packages/concept-ml-parser/src/interpolation.ts:41-50 | a pair whose parts give one concept each becomes the pair of those |
| Interpolation.PairToTwo | packages/concept-ml-parser/src/interpolation.ts:41-50 | a pair whose second part gives two concepts becomes two pairs, in order |
| Interpolation.SourceOfOne | packages/concept-ml-parser/src/interpolation.ts:53-64 | the text of a concept interpolates as that concept does |
| Interpolation.PartKept | packages/concept-ml-parser/src/interpolation.ts:37-39 | a part that is a non-variable atom interpolates to itself |
| Interpolation.NestedText | packages/concept-ml-parser/src/expansion.ts:18-36 | `j [k v]` parses as the atom `j` before the compound `k v` |
| Interpolation.NestedVariable | packages/concept-ml-parser/src/interpolation.ts:17-51 | `j [k $v]` with `$v` bound to the text `w` interpolates exactly as the text `j [k w]` parses |
| Interpolation.InnerTwice | packages/concept-ml-parser/src/interpolation.ts:41-50 | `[k $v]` with `$v` bound to two values gives `[k w1]` and `[k w2]` |
| Interpolation.NestedVariableTwice | packages/concept-ml-parser/src/interpolation.ts:17-51 | `j [k $v]` with `$v` bound to two values gives one result per value, in order |
| Interpolation.NestedVariableExample | packages/concept-ml-parser/src/interpolation.test.ts:9-19 | `john [knows $lang]` with `$lang = javascript` equals `parseConcepts('john [knows javascript]')` |
| Interpolation.SeveralValuesExample | packages/concept-ml-parser/src/interpolation.ts:17-51 | with `$lang` bound to `javascript` and `python` it gives `john [knows javascript]` and `john [knows python]` |
| ConceptMasks.Renamer.Normalize | apps/api/src/lib/mask.ts:15-30 | `recurse`: a variable becomes the atom already stored for its key or `$` plus the table's size, and is stored; a pattern is rebuilt from its parts; anything else is kept; the table grows as the walk says |
| ConceptMasks.CreateMask | apps/api/src/lib/mask.ts:12-33 | `createMask` with a fresh `Map` returns the mask of the pattern |
| ConceptMasks.AddNewFacts | apps/api/src/lib/mask.ts:17-20 | the table grows by exactly the keys not yet in it, in order, and never holds a key twice |
| ConceptMasks.WalkTable | apps/api/src/lib/mask.ts:15-30 | after the walk the table is the old one extended by the pattern's variables in order of first appearance |
| ConceptMasks.RenameKind | apps/api/src/lib/mask.ts:16-29 | renaming variables into variables keeps variables variables, patterns patterns and the number of parts |
| ConceptMasks.RenameFixed | apps/api/src/lib/mask.ts:16-29 | a renaming that fixes every variable of a pattern changes nothing |
| ConceptMasks.RenameCompose | apps/api/src/lib/mask.ts:16-29 | renaming twice is renaming once by the composition |
| ConceptMasks.OccurrencesRename | apps/api/src/lib/mask.ts:16-29 | the variables of a renamed pattern are the renamed variables in the same order |
| ConceptMasks.RenameShaped | apps/api/src/lib/mask.ts:26 | renaming keeps a compound that `createCompound` leaves alone in that shape |
| ConceptMasks.WalkRenames | apps/api/src/lib/mask.ts:15-30 | on such a pattern the walk renames each variable by the table it ends with |
| ConceptMasks.MaskRenames | apps/api/src/lib/mask.ts:12-33 | the mask renames the variable of key `k` to `$i`, `i` its position in order of first appearance, distinct keys to distinct names |
| ConceptMasks.MaskNames | apps/api/src/lib/mask.ts:17-18 | the mask's variables in order of first appearance are `$0, $1, …` |
| ConceptMasks.MaskIdempotent | apps/api/src/lib/mask.ts:12-33 | a mask is its own mask |
| ConceptMasks.MaskRenameInvariant | apps/api/src/lib/mask.ts:12-33 | renaming a pattern's variables one to one does not change its mask |
| ConceptMasks.MaskWellFormed | apps/api/src/lib/mask.ts:12-33 | the mask of a constructed concept is a constructed concept, a pattern or a variable exactly when the input is |
| ConceptMasks.MaskMatches | apps/api/src/lib/mask.ts:12-33 | a pattern and its mask match the same concepts |
| ConceptMasks.HasAllVariablesLeaves | apps/api/src/lib/mask.ts:61-71 | `hasAllVariables` holds exactly when every atom of the concept is a variable |
| ConceptMasks.Md5 | apps/api/src/lib/mask.ts:44 | the digest is written in digits and `x`, so `'$' + digest` is a variable name |
| ConceptMasks.Md5Injective | apps/api/src/lib/mask.ts:44 | distinct keys give distinct digests |
| ConceptMasks.Patterns | apps/api/src/lib/mask.ts:52 | `filter(isPattern)`: exactly the patterns, in order |
| ConceptMasks.MaskPermutations | apps/api/src/lib/mask.ts:35-53 | nothing for an atom; otherwise only patterns, or the parser's error |
| ConceptMasks.PartsAlternatives | apps/api/src/lib/mask.ts:40-50 | one `[…]` block per part |
| ConceptMasks.KeepMasks | apps/api/src/lib/mask.ts:56-58 | exactly the masks of the permutations that are not all variables |
| ConceptMasks.ConceptMasks | apps/api/src/lib/mask.ts:55-59 | `getConceptMasks` throws exactly when the permutations do; every mask is the mask of some pattern permutation and not all variables; nothing for an atom |
| MaskReadBack.HashVar | apps/api/src/lib/mask.ts:44 | `'$' + md5(part.key)` is a variable |
| MaskReadBack.HashVarSame | apps/api/src/lib/mask.ts:44 | two parts get the same hashed variable exactly when their keys are equal |
| MaskReadBack.MaskRows | apps/api/src/lib/mask.ts:42-46 | the alternatives of each part: itself, its hashed variable, then its own permutations |
| MaskReadBack.PartsAlternativesRows | apps/api/src/lib/mask.ts:40-50 | the blocks written for the parts are the `, `-separated keys of those alternatives |
| MaskReadBack.PermutationsOfRows | apps/api/src/lib/mask.ts:35-53 | `getMaskPermutations` is the patterns among the compounds of every choice of one alternative per part |
| MaskReadBack.ChoicesPick | packages/concept-ml-parser/src/expansion.ts:207-222 | every choice the blocks give takes one alternative from each block, in order |
| MaskReadBack.AlternativeFacts | apps/api/src/lib/mask.ts:42-46 | every alternative of a part matches that part |
| MaskReadBack.MatchSelf | packages/concept-ml-parser/src/matching.ts:7-43 | a concept matches itself |
| MaskReadBack.PermutationsFacts | apps/api/src/lib/mask.ts:35-53 | every permutation of a concept whose parts read back matches the concept |
| MaskReadBack.PermutationParts | apps/api/src/lib/mask.ts:40-52 | each part of a permutation is the concept's part, its hashed variable, or one of that part's own permutations |
| MaskReadBack.PermutationVariables | apps/api/src/lib/mask.ts:44 | two parts replaced by variables get the same variable exactly when their keys are equal |
| MaskReadBack.MasksMatch | apps/api/src/lib/mask.ts:55-59 | every mask `getConceptMasks` returns matches its concept, so its match key can be made |
| MaskReadBack.MasksShaped | apps/api/src/lib/mask.ts:55-59 | every permutation has the shape the mask lemmas need, and every mask is its own mask |
| MaskReadBack.MaskKeysMade | apps/api/src/apis/space/queries/saveMasks.ts:12-16 | `saveMasks` never meets `Mask does not match concept`: every mask gets a match key, and it is among those written |
| Masking.BracketAll | packages/concept-ml-parser/src/masking.ts:20 | each right side bracketed when the part is a compound |
| Masking.Row | packages/concept-ml-parser/src/masking.ts:19-21 | one `left right` per right side, in order |
| Masking.Pair | packages/concept-ml-parser/src/masking.ts:18-22 | the first pair is the first left followed by the first right |
| Masking.PairLast | packages/concept-ml-parser/src/masking.ts:18-22 | the last pair is the last left followed by the last right |
| Masking.GetConceptMasks | packages/concept-ml-parser/src/masking.ts:3-26 | the `forEach` updating `permutations` returns the masks of the concept |
| Masking.MaskCount | packages/concept-ml-parser/src/masking.ts:3-26 | there is at least one mask |
| Masking.MasksCount | packages/concept-ml-parser/src/masking.ts:3-26 | two masks per atom, the product of the parts' counts for a compound |
| Masking.AtomMasks | packages/concept-ml-parser/src/masking.ts:4-6 | an atom's masks are its key and `$*` |
| Masking.TwoPartMasks | packages/concept-ml-parser/src/masking.ts:10-23 | a pair ending in an atom: each mask of the first part before the atom's key, then before `$*` |
| Masking.MasksNonEmpty | packages/concept-ml-parser/src/masking.ts:10-23 | a compound with parts has masks |
| Masking.FirstMaskUnbracketed | packages/concept-ml-parser/src/masking.ts:13-16 | as written, the first part is never bracketed: the first mask of `[a b] c` is `a b c`, not the key |
| Masking.BracketedMasksFacts | packages/concept-ml-parser/src/masking.ts:3-26 | with the first part bracketed too: as many masks, the first is the concept's key, the last its key with every atom `$*` |
| Masking.MasksAgree | packages/concept-ml-parser/src/masking.ts:3-26 | the two agree on concepts whose first part, at every depth, is an atom |
| Keys.DecodeEncodeConceptKey | apps/api/src/lib/keys.ts:80-86 | `decodeConceptKey(encodeConceptKey(key)) == key` for every key |
| Keys.EncodeConceptKeyInjective | apps/api/src/lib/keys.ts:80-82 | two keys have the same encoding exactly when they are equal |
| Keys.EncodedKeyPlain | apps/api/src/lib/keys.ts:80-82 | an encoded key is not empty and holds none of `:`, `/`, `;` or the pipe character |
| Keys.SortedNames | apps/api/src/lib/keys.ts:30-31 | the sort of the entries: every name once, in strictly ascending order |
| Keys.PositionalNames | apps/api/src/lib/keys.ts:44-46 | the names `parseMatchKey` gives: `$i` at position `i` |
| Keys.MaskMatchKey | apps/api/src/lib/keys.ts:8-22 | throws `Mask does not match concept.` exactly when the mask does not match; otherwise `mask/match:` + encoded mask key + `/` + the value string |
| Keys.ContainmentKeys | apps/api/src/lib/keys.ts:64-74 | one key per part: `concept/index/container:` + encoded part key + `/` + index + `/` + encoded container key |
| Keys.BindEach | apps/api/src/lib/keys.ts:44-46 | when every value reads, every name is bound |
| Keys.TwoFields | apps/api/src/lib/keys.ts:37 | `key.split(':')[1]?.split('/')` of `tag:a/b` is `[a, b]` |
| Keys.ThreeFields | apps/api/src/lib/keys.ts:95 | the same split of `tag:a/n/b` is `[a, n, b]` |
| Keys.ValueListRead | apps/api/src/lib/keys.ts:33-44 | a `;`-joined list of encoded keys splits back into them, and an empty list is the empty string |
| Keys.StorageKeyRead | apps/api/src/lib/keys.ts:51-53 | the storage key of a concept gives back that concept's key |
| Keys.MatchKeyFields | apps/api/src/lib/keys.ts:8-34 | the value fields of a match key are the encoded keys of the bound values in sorted name order |
| Keys.MatchKeyRoundTrip | apps/api/src/lib/keys.ts:8-49 | a match key read with the names sorted as they were written gives the bindings back |
| Keys.SortedRoundTrip | apps/api/src/lib/keys.ts:29-49 | the same for any key whose value fields are those of the bindings |
| Keys.SortedNamesCover | apps/api/src/lib/keys.ts:29-34 | the sorted names are exactly the bound names |
| Keys.SortedReading | apps/api/src/lib/keys.ts:36-49 | the corrected reading binds the values to the sorted names in order |
| Keys.PositionalNamesMisorder | apps/api/src/lib/keys.ts:31-45 | with eleven variables the names sort as `$0, $1, $10, $2, …`, not as `parseMatchKey` numbers them |
| Keys.VarOrder | apps/api/src/lib/keys.ts:31 | `$0 … $9` sort in numeric order |
| Keys.SortedVarNames | apps/api/src/lib/keys.ts:31-45 | up to ten variables the sorted names are the positional ones |
| Keys.ReadersAgree | apps/api/src/lib/keys.ts:36-49 | a key of at most ten values reads alike positionally and by the sorted names |
| Keys.ParseMatchKeyRoundTrip | apps/api/src/lib/keys.ts:8-49 | `parseMatchKey(createMaskMatchKey({concept, mask}))` as written gives the bindings back when the mask has the variables `$0 … $(n-1)`, `n` at most ten |
| Keys.ContainmentKeyFields | apps/api/src/lib/keys.ts:64-74 | each containment key reads as the encoded part key, its index and the encoded container key |
| Keys.ContainmentKeyRoundTrip | apps/api/src/lib/keys.ts:88-106 | `parseContainmentKey` gives the part, the container and the index back |
| Keys.ContainmentPrefixExact | apps/api/src/lib/keys.ts:70-78 | a containment key lies under the prefix key of `x` exactly when its part has `x`'s key |
| Keys.PrefixUnderTag | apps/api/src/lib/keys.ts:70-78 | the prefix test on the part field is exact since encoded keys hold no `/` |
| Percent.HexRoundTrip | apps/api/src/lib/keys.ts:81 | a hexadecimal digit reads back as its value |
| Percent.Utf8 | apps/api/src/lib/keys.ts:81 | a code point takes one to four UTF-8 bytes |
| Percent.CodePoint | apps/api/src/lib/keys.ts:85 | a decoded sequence is a Unicode scalar value, overlong forms and surrogates refused |
| Percent.EscapeAll | apps/api/src/lib/keys.ts:81 | each byte is written as three characters `%XY` |
| Percent.DecodeEscape | apps/api/src/lib/keys.ts:85 | a decoded escape takes at least one `%XY` and no more than the text |
| Percent.EscapesRead | apps/api/src/lib/keys.ts:81-85 | the escapes of a character's UTF-8 bytes decode to that character |
| Percent.SequenceRead | apps/api/src/lib/keys.ts:85 | the escapes of a well-formed byte sequence decode to its code point |
| Percent.DecodeEncode | apps/api/src/lib/keys.ts:81-85 | `decodeURIComponent(encodeURIComponent(s)) == s` |
| Percent.EncodeLacksSeparators | apps/api/src/lib/keys.ts:81 | the encoding holds no `:`, `/`, `;` or the pipe character |
| Percent.EncodeUnescaped | apps/api/src/lib/keys.ts:81 | text of unreserved characters encodes to itself |
| Percent.MalformedEscape | apps/api/src/lib/keys.ts:85 | a `%` without two hexadecimal digits after it is a `URIError` |
| Percent.MalformedLead | apps/api/src/lib/keys.ts:85 | an escape of a lone continuation byte is a `URIError` |
| Percent.EncodeLength | apps/api/src/lib/keys.ts:81 | the encoding is no shorter than the text |
| PostEncoding.Stripped | apps/api/src/lib/keys.ts:123 | `key.replace(rxp, '')` holds no bracket |
| PostEncoding.Positions | apps/api/src/lib/keys.ts:117-120 | the positions collected for a bracket hold it, in ascending order |
| PostEncoding.Numerals | apps/api/src/lib/keys.ts:124-125 | each position written as its decimal numeral |
| PostEncoding.ToPostEncoding | apps/api/src/lib/keys.ts:108-127 | the `exec` loop and the join give the post-encoding of the key |
| PostEncoding.ParseIndexes | apps/api/src/lib/keys.ts:139 | `parseInt(str, 10)` of each field |
| PostEncoding.Tag | apps/api/src/lib/keys.ts:140-143 | each index paired with its bracket |
| PostEncoding.InsertReplacement | apps/api/src/lib/keys.ts:145-147 | insertion keeps every replacement and adds the new one |
| PostEncoding.SortReplacements | apps/api/src/lib/keys.ts:145-147 | the sort is a rearrangement of the replacements |
| PostEncoding.Cut | apps/api/src/lib/keys.ts:152 | `slice` never cuts past the end |
| PostEncoding.InsertAt | apps/api/src/lib/keys.ts:152 | each replacement adds one character |
| PostEncoding.FromPostEncoding | apps/api/src/lib/keys.ts:129-156 | the `forEach` putting brackets back gives the post-decoding of the text |
| PostEncoding.PositionListRead | apps/api/src/lib/keys.ts:124-139 | a written position list reads back as its positions |
| PostEncoding.EncodedFields | apps/api/src/lib/keys.ts:122-133 | an encoding splits at the pipe character into the stripped key's fields and then the two lists |
| PostEncoding.SortAscending | apps/api/src/lib/keys.ts:145-147 | replacements of distinct indexes sort into ascending order |
| PostEncoding.BracketsSound | apps/api/src/lib/keys.ts:117-143 | every replacement read back names a bracket of the key at its position |
| PostEncoding.BracketsComplete | apps/api/src/lib/keys.ts:117-143 | every bracket of the key is among them |
| PostEncoding.PostDecodeEncode | apps/api/src/lib/keys.ts:108-156 | `fromPostEncoding(toPostEncoding(key)) == key`, for every key including those that hold the pipe character |
| PostEncoding.PostEncodeLacksBrackets | apps/api/src/lib/keys.ts:108-127 | the post-encoding holds no bracket |
| Store.Assign | apps/api/src/apis/space/queries/addConcepts.ts:29-31 | `Object.fromEntries(entries)` binds exactly the keys some entry names |
| Store.AssignLast | apps/api/src/apis/space/queries/addConcepts.ts:29-31 | a key takes the value of the last entry naming it |
| Store.AssignAppend | apps/api/src/apis/space/queries/addConcepts.ts:28-33 | writing two batches one after the other writes what one batch of both writes |
| Store.Marks | apps/api/src/apis/space/queries/addConcepts.ts:30 | `[key, true]` for each key, in order |
| Store.MarksAssign | apps/api/src/apis/space/queries/addConcepts.ts:28-33 | writing marks binds exactly the given keys, each to `true` |
| Store.Listing | apps/api/src/apis/space/queries/getContexts.ts:11-13 | `storage.list({ prefix })`: exactly the stored keys under the prefix, in ascending order |
| Store.Filter | apps/api/src/apis/space/queries/getAllConcepts.ts:14-19 | the keys that pass, no more than there were |
| Store.FilterSorted | apps/api/src/apis/space/queries/getAllConcepts.ts:14-19 | filtering keeps ascending order |
| Store.Window | apps/api/src/apis/space/queries/getAllConcepts.ts:14-19 | `storage.list({ prefix, start, end, limit })`: at most `limit` stored keys under the prefix, from `start` inclusive to `end` exclusive, ascending |
| Store.Storage.Get | apps/api/src/apis/space/queries/getConcept.ts:11 | `storage.get(key)` is the stored value, `undefined` exactly when the key is absent |
| Store.Storage.GetMany | apps/api/src/apis/space/queries/removeConcepts.ts:40 | `storage.get(keys)` holds exactly the present keys with their values |
| Store.Storage.Put | apps/api/src/apis/space/queries/addConcepts.ts:29-32 | `storage.put(dict)` overwrites exactly the keys of the dictionary |
| Store.Storage.PutMap | apps/api/src/apis/space/queries/removeConcepts.ts:47 | `storage.put(Object.fromEntries(map))` overwrites exactly those keys |
| Store.Storage.Delete | apps/api/src/apis/space/queries/removeConcepts.ts:24-27 | `delete(keys)` removes exactly those keys and counts the ones that were present |
| Store.Storage.PutInBatches | apps/api/src/apis/space/queries/addConcepts.ts:28-33 | writing in batches of 128 writes what one `put` of all the entries would |
| SpaceUtil.BatchesFlatten | apps/api/src/apis/space/util.ts:22-26 | the batches, concatenated, are the items in order |
| SpaceUtil.BatchesSizes | apps/api/src/apis/space/util.ts:22-23 | every batch has between one and `size` items and only the last may be shorter |
| SpaceUtil.BatchesCount | apps/api/src/apis/space/util.ts:20-22 | there are `Math.ceil(items.length / size)` batches |
| SpaceUtil.BatchStart | apps/api/src/apis/space/util.ts:22-23 | the `k`th batch is `items.slice(k·size, k·size + size)` |
| SpaceUtil.BatchProcess | apps/api/src/apis/space/util.ts:10-29 | `process` is called once per batch with the batch, its offset and the batch count, results in order |
| SpaceUtil.FromEntriesKeys | apps/api/src/apis/space/util.ts:4-8 | `toVariableDict` binds exactly the keys some interpolation names |
| SpaceUtil.FromEntriesLast | apps/api/src/apis/space/util.ts:4-8 | a key takes the value of the last interpolation naming it |
| SpaceUtil.FromEntriesError | apps/api/src/apis/space/util.ts:4-8 | a value that does not parse makes the whole call throw |
| SpaceUtil.ToVariableDictEntries | apps/api/src/apis/space/util.ts:4-8 | `toVariableDict` binds exactly the named keys, each to the concepts of its last value, and throws when some value does not parse |
| Folds.CollectStep | apps/api/src/apis/space/queries/findAll.ts:15-21 | one more item read after a successful prefix is that item's result appended |
| Folds.CollectPrefixError | apps/api/src/apis/space/queries/findAll.ts:15-21 | once a read throws, the loop throws that error |
| Folds.CollectFirstError | apps/api/src/apis/space/queries/findAll.ts:15-21 | the first read that throws decides the loop's error |
| Folds.CollectErrorAt | apps/api/src/apis/space/queries/findAll.ts:15-21 | one read that throws makes the loop throw |
| Folds.CollectErrorWitness | apps/api/src/apis/space/queries/findAll.ts:15-21 | the loop throws only because some read does |
| Folds.CollectMember | apps/api/src/apis/space/queries/findAll.ts:15-21 | every item read as a value contributes it |
| Folds.CollectSound | apps/api/src/apis/space/queries/findAll.ts:15-21 | every kept value was read from some item |
| Folds.Keep | apps/api/src/apis/space/queries/filterNew.ts:11 | `filter`: exactly the items that pass, in order |
| Folds.KeepOrder | apps/api/src/apis/space/queries/filterNew.ts:11 | the kept items keep their relative order |
| Folds.CollectKeep | apps/api/src/apis/space/queries/findAll.ts:15-21 | a loop whose reads give the item itself or nothing keeps exactly the items read as themselves |
| Folds.ReadEach | apps/api/src/apis/space/queries/getAllConcepts.ts:21-23 | each item read in turn, in order, the first throw aborting |
| Folds.ReadEachErrorAt | apps/api/src/apis/space/queries/getAllConcepts.ts:21-23 | one read that throws makes the whole read throw |
| Folds.ReadEachFirstError | apps/api/src/apis/space/queries/getAllConcepts.ts:21-23 | the first read that throws decides the error |
| Folds.ReadEachAllOk | apps/api/src/apis/space/queries/getAllConcepts.ts:21-23 | when every read succeeds the whole read does |
| Folds.ReadEachErrorWitness | apps/api/src/apis/space/queries/getAllConcepts.ts:21-23 | the whole read throws only because some read does |
| Folds.KeepSplit | apps/api/src/apis/space/queries/filterNew.ts:11 | a test and its negation split a list: each item is kept by exactly one |
| Folds.ReadEachMembers | apps/api/src/apis/space/queries/getAllConcepts.ts:21-23 | after a successful read every item's value is in the result |
| Folds.FlatMapFacts | apps/api/src/apis/space/queries/addConcepts.ts:45-49 | a `flatMap` of reads succeeds exactly when each does and then holds exactly their values |
| Folds.FlatMapAppend | apps/api/src/apis/space/queries/addConcepts.ts:45-49 | the `flatMap` of two lists is the first one's error, else the second one's, else both in order |
| Folds.FlatMapFirstError | apps/api/src/apis/space/queries/addConcepts.ts:45-49 | a `flatMap` that throws throws the first error |
| Lookups.GetConcept | apps/api/src/apis/space/queries/getConcept.ts:4-13 | `getConcept` throws exactly when the source does not parse |
| Lookups.GetConceptStored | apps/api/src/apis/space/queries/getConcept.ts:4-13 | a concept that reads back from its key is found exactly when its `concept:` key is stored, else `null` |
| Lookups.GetConceptReparsed | apps/api/src/apis/space/queries/getConcept.ts:8-12 | any text that parses to a concept looks up that concept's key |
| Lookups.Stored | apps/api/src/apis/space/queries/findAll.ts:15-21 | the concepts whose storage key is present, or absent, in order |
| Lookups.KeyNotIn | apps/api/src/apis/space/queries/filterNew.ts:10-11 | the concepts whose key is not among the found ones |
| Lookups.FindAll | apps/api/src/apis/space/queries/findAll.ts:9-24 | the loop over `toConcepts(source)` gives what the query's definition gives; the store is only read |
| Lookups.LookupStored | apps/api/src/apis/space/queries/findAll.ts:16-20 | each read gives the concept when stored and `null` otherwise |
| Lookups.FindInStored | apps/api/src/apis/space/queries/findAll.ts:9-24 | `findAll` of concepts is exactly the stored ones, in input order |
| Lookups.FindAllStored | apps/api/src/apis/space/queries/findAll.ts:9-24 | of a source: the stored distinct concepts, in order, no more than the source gives |
| Lookups.FilterNew | apps/api/src/apis/space/queries/filterNew.ts:4-12 | `findAll`, then the concepts whose key it did not find |
| Lookups.FilterNewUnstored | apps/api/src/apis/space/queries/filterNew.ts:4-12 | exactly the distinct unstored concepts, in order; each source concept is new exactly when `findAll` did not find it |
| Lookups.NoCountersReadZero | apps/api/src/apis/space/queries/getMaskMatchCount.ts:9-15 | with no counter stored the count reads as 0 |
| Lookups.CountRenameInvariant | apps/api/src/apis/space/queries/getMaskMatchCount.ts:9-15 | patterns equal up to a one-to-one renaming of variables read the same counter |
| Lookups.ReadAll | apps/api/src/apis/space/queries/getAllConcepts.ts:21-23 | one concept per listed key, each read back from it |
| Lookups.GetAllConcepts | apps/api/src/apis/space/queries/getAllConcepts.ts:4-26 | the `forEach` over the listed keys gives the query's definition |
| Lookups.ReadAllError | apps/api/src/apis/space/queries/getAllConcepts.ts:21-23 | the listing throws exactly when some listed key does not read back |
| Lookups.AllConceptsListed | apps/api/src/apis/space/queries/getAllConcepts.ts:4-26 | at most `limit` concepts, each read from a stored `concept:` key; every stored concept in the window is there |
| Lookups.GetContexts | apps/api/src/apis/space/queries/getContexts.ts:7-25 | the loop over the keys under the concept's containment prefix gives the query's definition |
| Lookups.ContextsFound | apps/api/src/apis/space/queries/getContexts.ts:7-25 | every container whose containment key for the concept is stored is found |
| Lookups.ContextsSound | apps/api/src/apis/space/queries/getContexts.ts:17-22 | every context was read from a stored key under the concept's prefix |
| Additions.GetConceptsDeepWithoutContainers | apps/api/src/apis/space/queries/addConcepts.ts:57-69 | the `Map` filled over the top concepts' deep parts gives the function's definition |
| Additions.DeepWithoutContainersFacts | apps/api/src/apis/space/queries/addConcepts.ts:57-69 | it holds each transitive part of the top concepts once by key, and only parts |
| Additions.StorageKeys | apps/api/src/apis/space/queries/addConcepts.ts:30 | `createConceptStorageKey` of each concept |
| Additions.SaveMasks | apps/api/src/apis/space/queries/saveMasks.ts:6-23 | every mask-match key of every concept is marked `true` and the concepts returned; when some key cannot be made it throws before writing |
| Additions.SaveContainments | apps/api/src/apis/space/queries/addConcepts.ts:41-55 | every containment key of every concept is marked `true`, nothing else written |
| Additions.AddConcepts | apps/api/src/apis/space/queries/addConcepts.ts:11-39 | the whole query, store and result, is the outcome of its definition |
| Additions.NewConceptsUnstored | apps/api/src/apis/space/queries/addConcepts.ts:15-26 | the added concepts are the unstored inputs followed by their unstored parts, each list free of repeats |
| Additions.MarkedKeys | apps/api/src/apis/space/queries/addConcepts.ts:28-33 | marking keeps every old key, sets the marked ones to `true` and leaves the rest |
| Additions.AddedStored | apps/api/src/apis/space/queries/addConcepts.ts:28-35 | the storage keys are written even when `saveMasks` throws afterwards |
| Additions.AddedWereNew | apps/api/src/apis/space/queries/addConcepts.ts:11-39 | every returned concept was absent before and is stored after; every input is stored after |
| Additions.AddKeepsKeys | apps/api/src/apis/space/queries/addConcepts.ts:11-39 | no key is ever deleted |
| Additions.StoredByKey | apps/api/src/apis/space/queries/addConcepts.ts:15-33 | a key is stored after if it was before or a new concept with that key is added |
| Additions.AddedPartsStored | apps/api/src/apis/space/queries/addConcepts.ts:21-33 | every transitive part of every added concept is stored after |
| Additions.ReAddWritesNothing | apps/api/src/apis/space/queries/addConcepts.ts:11-39 | adding concepts that are all stored returns `[]` and writes nothing |
| Additions.AddingNone | apps/api/src/apis/space/queries/addConcepts.ts:11-39 | with nothing new nothing is written |
| Additions.ContainmentEntriesFacts | apps/api/src/apis/space/queries/addConcepts.ts:45-49 | every containment key of every concept is among the entries, all under the containment tag |
| Additions.ContainmentsWritten | apps/api/src/apis/space/queries/addConcepts.ts:36 | after a successful call each returned concept has a containment entry per part |
| Additions.MaskKeysFacts | apps/api/src/apis/space/queries/saveMasks.ts:12-16 | the match keys succeed exactly when each concept's do, and are exactly theirs |
| Additions.MatchKeyTagged | apps/api/src/lib/keys.ts:21 | a match key is filed under `mask/match:` |
| Additions.ConceptMaskKeysFacts | apps/api/src/apis/space/queries/saveMasks.ts:13-15 | one match key per mask, all under `mask/match:`; a mask that does not match makes the call throw |
| Additions.MasksWritten | apps/api/src/apis/space/queries/addConcepts.ts:35 | after a successful call each returned concept has a mask-match entry per mask |
| Additions.CounterNotTagged | apps/api/src/lib/keys.ts:21-26 | no `mask/matchCount:` key carries one of the written tags |
| Additions.AddFrame | apps/api/src/apis/space/queries/addConcepts.ts:11-39 | deletes nothing, writes only storage, match and containment keys, leaves all counters, and writes nothing when reading throws |
| Additions.ParsesBackUnique | apps/api/src/apis/space/queries/getConcept.ts:8-10 | two concepts read back from the same key are the same |
| Additions.AddedTwice | apps/api/src/apis/space/queries/addConcepts.ts:21-26 | a new input that is also a part of another new input is returned twice |
| Additions.NewInputAt | apps/api/src/apis/space/queries/addConcepts.ts:15 | every unstored input is among the new top concepts |
| Additions.NewPartAt | apps/api/src/apis/space/queries/addConcepts.ts:21-26 | every unstored part of a top concept is among the new parts |
| Removal.CountKeys | apps/api/src/apis/space/queries/removeConcepts.ts:66 | `createMaskMatchCountKey` of each mask |
| Removal.AddOne | apps/api/src/apis/space/queries/removeConcepts.ts:62-77 | visiting one concept throws exactly when one of its match keys cannot be made |
| Removal.Recurse | apps/api/src/apis/space/queries/removeConcepts.ts:61-82 | `recurse(concept)` with the shared `keys` object adds what the walk from the concept visits, in order |
| Removal.Climb | apps/api/src/apis/space/queries/removeConcepts.ts:74-81 | after the concept's own keys: `getContexts`, then `recurse` of each container |
| Removal.Visit | apps/api/src/apis/space/queries/removeConcepts.ts:62-77 | the storage key, one match key and counter bump per mask, and the containment keys of one concept |
| Removal.RecurseAll | apps/api/src/apis/space/queries/removeConcepts.ts:84-86 | `for (const concept of concepts) await recurse(concept)` |
| Removal.GetKeysToUpdate | apps/api/src/apis/space/queries/removeConcepts.ts:50-89 | `getKeysToUpdate` gives its definition; the store is only read |
| Removal.TallyCounts | apps/api/src/apis/space/queries/removeConcepts.ts:68-71 | each counter ends at its start plus the number of times it was bumped; no other counter appears |
| Removal.WalkAccumulate | apps/api/src/apis/space/queries/removeConcepts.ts:61-82 | visiting a concept adds its own keys, then those of its containers' walk |
| Removal.WalkFails | apps/api/src/apis/space/queries/removeConcepts.ts:61-82 | a concept whose match keys cannot be made, or whose contexts cannot be read, makes the walk throw that error |
| Removal.WalkKeysOk | apps/api/src/apis/space/queries/removeConcepts.ts:61-82 | keys can be made for every concept a successful walk visits |
| Removal.AddFacts | apps/api/src/apis/space/queries/removeConcepts.ts:54-86 | after visiting concepts in turn the lists hold their storage, containment and match keys in visit order and the counters their tally |
| Removal.KeysOfVisited | apps/api/src/apis/space/queries/removeConcepts.ts:50-89 | `getKeysToUpdate` succeeds exactly when the walk does, and holds the keys of the visited concepts |
| Removal.VisitedReach | apps/api/src/apis/space/queries/removeConcepts.ts:74-86 | every input is visited, and every container reachable from one, and nothing else |
| Removal.Decremented | apps/api/src/apis/space/queries/removeConcepts.ts:39-45 | exactly the counters that exist among the deltas are rewritten |
| Removal.DecrementMaskMatchCounts | apps/api/src/apis/space/queries/removeConcepts.ts:35-48 | each existing counter drops by its delta; missing counters are not created |
| Removal.Without | apps/api/src/apis/space/queries/removeConcepts.ts:24-27 | the data without the deleted keys |
| Removal.RemoveConcepts | apps/api/src/apis/space/queries/removeConcepts.ts:13-33 | the store and the count are the outcome of the query's definition |
| Removal.StorageKeyApart | apps/api/src/lib/keys.ts:21-70 | a storage key is neither a match key, a containment key nor a counter |
| Removal.KeysTagged | apps/api/src/apis/space/queries/removeConcepts.ts:62-77 | every collected key carries its list's tag and every counter the counter tag |
| Removal.TransactionEffect | apps/api/src/apis/space/queries/removeConcepts.ts:23-28 | no listed key is left, no key is created, every other key keeps its value except counters lowered by their delta, and the count is the number of storage keys present |
| Removal.CollectedApart | apps/api/src/apis/space/queries/removeConcepts.ts:50-89 | the collected lists are apart, so the deletes do not interfere |
| Removal.RemoveEffect | apps/api/src/apis/space/queries/removeConcepts.ts:13-33 | `removeConcepts` as a whole has the transaction's effect on the collected keys |
| Removal.RemoveErrorWritesNothing | apps/api/src/apis/space/queries/removeConcepts.ts:20-23 | when collecting the keys throws, nothing is written |
| Removal.RemovedConceptGone | apps/api/src/apis/space/queries/removeConcepts.ts:13-33 | every visited concept loses its storage key, each match key and each containment key of its parts |
| Removal.PartsRemain | apps/api/src/apis/space/queries/removeConcepts.ts:13-33 | a part that is not itself visited stays stored and only loses its containment edge |
| Removal.CountersDropped | apps/api/src/apis/space/queries/removeConcepts.ts:35-48 | a counter that existed drops by the number of collected masks naming it; one that did not is not created |
| Cascade.WalkStep | apps/api/src/apis/space/queries/removeConcepts.ts:61-82 | one step of `recurse`: the concept, then the walks of its containers in order |
| Cascade.FoldOk | apps/api/src/apis/space/queries/removeConcepts.ts:84-86 | a fold whose step cannot fail succeeds |
| Cascade.WalkAllPrefixError | apps/api/src/apis/space/queries/removeConcepts.ts:84-86 | once a walk throws the loop throws that error |
| Cascade.WalkFacts | apps/api/src/apis/space/queries/removeConcepts.ts:61-82 | a walk starts at its concept, every visited concept passes the per-concept test, and it is closed under containers |
| Cascade.WalkAllFacts | apps/api/src/apis/space/queries/removeConcepts.ts:84-86 | a walk of several concepts visits each, checks all it visits and is closed |
| Cascade.ClosedReaches | apps/api/src/apis/space/queries/removeConcepts.ts:79-81 | everything reachable from a member of a closed list is a member |
| Cascade.WalkSound | apps/api/src/apis/space/queries/removeConcepts.ts:79-81 | a walk visits only concepts reachable from its start |
| Cascade.WalkAllSound | apps/api/src/apis/space/queries/removeConcepts.ts:84-86 | each concept a walk of several visits is reachable from one of them |
| Cascade.WalkAllReach | apps/api/src/apis/space/queries/removeConcepts.ts:61-86 | the cascade: the inputs and everything reachable from them, and nothing else |
| Conjunction.UniqueKeysFacts | apps/api/src/apis/space/queries/matchRules.ts:27 | `new Set(rules.map(r => r.key))` holds the same keys, each once |
| Conjunction.UniqueKeysRepeat | apps/api/src/apis/space/queries/matchRules.ts:27 | a key repeating an earlier one changes nothing |
| Conjunction.Grounds | apps/api/src/apis/space/queries/matchRules.ts:33 | `rules.filter(anti(isPattern))`: exactly the rules that are not patterns |
| Conjunction.Unfound | apps/api/src/apis/space/queries/matchRules.ts:42-44 | exactly the rules whose key was not found |
| Conjunction.GroupByFacts | apps/api/src/apis/space/queries/matchRules.ts:53-60 | every rule filed exactly once under its mask's key, one entry per key in first-seen order, the first rule leading |
| Conjunction.AddToFacts | apps/api/src/apis/space/queries/matchRules.ts:56-59 | filing one more rule files just that rule under its mask's key |
| Conjunction.Insert | apps/api/src/apis/space/queries/matchRules.ts:72-74 | insertion keeps every mask and adds one |
| Conjunction.SortByCount | apps/api/src/apis/space/queries/matchRules.ts:72-74 | the sort is a rearrangement of the masks |
| Conjunction.SortByCountDescending | apps/api/src/apis/space/queries/matchRules.ts:72-74 | the sort puts the masks in order of count, highest first, and keeps them all |
| Conjunction.SortByCountEqual | apps/api/src/apis/space/queries/matchRules.ts:72-74 | the sort is stable: with equal counts the order is kept |
| Conjunction.PlanHeadMostMatched | apps/api/src/apis/space/queries/matchRules.ts:62-80 | the head mask is one of the masks, and no mask has a higher count |
| Conjunction.PlanFollowsRuleOrder | apps/api/src/apis/space/queries/matchRules.ts:62-81 | with all counts equal the head rule is the first rule and the head mask its mask |
| Conjunction.GroupLead | apps/api/src/apis/space/queries/matchRules.ts:55-60 | each entry is led by a rule filed under that entry's key |
| Conjunction.ReadGroupKeys | apps/api/src/apis/space/queries/matchRules.ts:62 | every mask key reads back as the mask it came from |
| Conjunction.FirstRuleFirst | apps/api/src/apis/space/queries/matchRules.ts:62-81 | with equal counts and masks that read back, the search starts from the first rule and its mask |
| Conjunction.Merged | apps/api/src/apis/space/queries/matchRules.ts:110-112 | `{ ...rulePartial, ...recursedPartial }` for each sub-answer, in order |
| Conjunction.SolveSteps | apps/api/src/apis/space/queries/matchRules.ts:27-50 | a throw while preparing is the result; a missing ground rule gives `[]`; rules all found give `[{}]` |
| Conjunction.AnswersOk | apps/api/src/apis/space/queries/matchRules.ts:94-116 | the loop over the match keys succeeds exactly when each key's answers do |
| Conjunction.AnswersMeaning | apps/api/src/apis/space/queries/matchRules.ts:94-116 | an answer of the loop is exactly an answer one of the match keys gives |
| Conjunction.DuplicateRuleIgnored | apps/api/src/apis/space/queries/matchRules.ts:27 | a rule whose key appears earlier can be dropped without changing the result |
| Conjunction.MissingGroundRule | apps/api/src/apis/space/queries/matchRules.ts:33-40 | a ground rule not found leaves no answer, whatever the other rules |
| Conjunction.GroundRulesFound | apps/api/src/apis/space/queries/matchRules.ts:33-50 | rules all ground and all found answer with one empty binding |
| Conjunction.NoVariableValues | apps/api/src/apis/space/queries/matchRules.ts:118-122 | without `includeVariables` no answer binds a name to a variable |
| Conjunction.SolveReachesHead | apps/api/src/apis/space/queries/matchRules.ts:47-125 | with rules left after the ground check, the answers are those of the search from the head rule |
| Conjunction.MatchedMeaning | apps/api/src/apis/space/queries/matchRules.ts:82-125 | from the head rule an answer is exactly one a match key under the head mask gives, kept unless it binds a variable and `includeVariables` is off |
| Rules.Entries | apps/api/src/apis/space/queries/matchRules.ts:97-101 | `Object.entries` of the bindings over the names in order |
| Rules.MatchConcepts | apps/api/src/apis/space/queries/matchRules.ts:17-125 | `matchConcepts`, its readers as written, gives its definition; the store is only read |
| Rules.Prepare | apps/api/src/apis/space/queries/matchRules.ts:27-45 | uniquify and reparse the rules, check the ground ones, drop the found ones |
| Rules.MatchFrom | apps/api/src/apis/space/queries/matchRules.ts:53-124 | group by mask, sort, bind the head rule and read the match keys |
| Rules.GroupByMask | apps/api/src/apis/space/queries/matchRules.ts:53-60 | the `forEach` over the rules fills the `Map` as the grouping says |
| Rules.AnswerKeys | apps/api/src/apis/space/queries/matchRules.ts:94-116 | the answers of each match key in turn |
| Rules.KeyAnswers | apps/api/src/apis/space/queries/matchRules.ts:95-115 | one match key's values, named for the head rule, extended by the rest's answers |
| Rules.MergeEach | apps/api/src/apis/space/queries/matchRules.ts:110-112 | each sub-answer pushed after the key's own values |
| Rules.ReadRules | apps/api/src/apis/space/queries/matchRules.ts:27 | rules that read back from their keys read back uniquified as the same rules, each key once |
| Rules.FinderStored | apps/api/src/apis/space/queries/matchRules.ts:36 | `findAll` of distinct concepts that read back: the stored ones, in order |
| Rules.UnstoredRuleNoAnswer | apps/api/src/apis/space/queries/matchRules.ts:33-40 | a ground rule that is not stored leaves no answer |
| Rules.StoredRulesAnswerEmpty | apps/api/src/apis/space/queries/matchRules.ts:46-50 | rules all ground and all stored answer with one empty binding |
| Rules.FirstRuleHeads | apps/api/src/apis/space/queries/matchRules.ts:62-80 | with no counter stored every mask counts 0, the stable sort keeps first-seen order, and the first rule heads the search |
| Rules.MatchKeyListed | apps/api/src/apis/space/queries/matchRules.ts:88-90 | a stored match key of a concept under a mask is listed under the prefix of `m` exactly when `m` has that mask's key |
| Rules.MatchEntriesRead | apps/api/src/apis/space/queries/matchRules.ts:95-101 | the entries the search iterates pair each name `parseMatchKey` binds with its value, and name all of them |
| Rules.SortedEntriesRead | apps/api/src/apis/space/queries/matchRules.ts:95-101 | the same for the corrected reading |
| Rules.MatchEntriesRoundTrip | apps/api/src/apis/space/queries/matchRules.ts:95-101 | with `$0 … $(n-1)`, `n` at most ten, the entries read from a stored match key are the bindings it was made from |
| Rules.SortedEntriesRoundTrip | apps/api/src/apis/space/queries/matchRules.ts:95-101 | the corrected reading gives the bindings back for any number of variables |
| Rules.EntriesAgree | apps/api/src/apis/space/queries/matchRules.ts:95 | with at most ten values the two readings give the same entries |
| Rules.OpsAgree | apps/api/src/apis/space/queries/matchRules.ts:82-107 | the search as written and the corrected one share every operation but the two readers, which agree on keys of at most ten values and on patterns with no part named like an inherited property |
| Unification.Matcher.Run | apps/api/src/apis/space/queries/matchRules.ts:137-173 | `recurse` over the shared `matches` dictionary: the flag says whether it returned the dictionary or `null`, and the dictionary ends as the definition says |
| Unification.MatchVariables | apps/api/src/apis/space/queries/matchRules.ts:127-176 | `matchVariables` gives the unifier's definition, with the inherited names seen by `in` |
| Unification.NameOnlyForVariables | apps/api/src/apis/space/queries/matchRules.ts:139-157 | a part's key is a variable name exactly when the part is a variable |
| Unification.RecurseSound | apps/api/src/apis/space/queries/matchRules.ts:137-173 | a successful `recurse` extends the dictionary, binds only variables and makes the concept an instance |
| Unification.RecurseComplete | apps/api/src/apis/space/queries/matchRules.ts:137-173 | an instance is found when no part is named like an inherited property |
| Unification.RecurseShadow | apps/api/src/apis/space/queries/matchRules.ts:157 | with no part so named the inherited names make no difference |
| Unification.UnifySound | apps/api/src/apis/space/queries/matchRules.ts:127-176 | a success binds only the pattern's variables, over the same number of parts, and the concept is an instance under it |
| Unification.UnifyComplete | apps/api/src/apis/space/queries/matchRules.ts:127-176 | an instance of the pattern of the same arity unifies, and its binding agrees |
| Unification.UnifyMeaning | apps/api/src/apis/space/queries/matchRules.ts:127-176 | with an own-property test, unification succeeds exactly on the instances of the same arity |
| Unification.UnifyInherited | apps/api/src/apis/space/queries/matchRules.ts:157 | the inherited names matter only to patterns with a part so named |
| Unification.RepeatedVariableAgrees | apps/api/src/apis/space/queries/matchRules.ts:157-160 | two parts that are the same variable must meet parts with equal keys |
| Unification.InheritedNameFails | apps/api/src/apis/space/queries/matchRules.ts:157 | as written, `constructor $x` never unifies with `constructor john`, although `john` fits |
| Unification.OwnNameUnifies | apps/api/src/apis/space/queries/matchRules.ts:157 | with an own-property test the same pattern binds `$x` to `john` |
| Triggers.Append | apps/api/src/lib/triggers.ts:71 | `components[kind].push(c)` grows that one list by `c` and leaves the other three |
| Triggers.CreateTrigger | apps/api/src/lib/triggers.ts:37-47 | a trigger of that name with all four component lists empty |
| Triggers.KindOf | apps/api/src/lib/triggers.ts:195-210 | the `switch`: the component kind whose type key is the key, if there is one |
| Triggers.NestedMatch | apps/api/src/lib/triggers.ts:216-218 | the pattern `$trigger [$componentType $component]` matches exactly the concepts shaped `a [b c]`, binding the three names to `a`, `b` and `c` |
| Triggers.FragParts | apps/api/src/lib/triggers.ts:188-189 | the three parts `extractVariables` binds are those of the concept's nested shape |
| Triggers.FileAllAppend | apps/api/src/lib/triggers.ts:187-211 | filing two runs of fragments one after the other is filing them together |
| Triggers.FiledWellFormed | apps/api/src/lib/triggers.ts:69-72 | `indexTriggerFrag` keeps the index well formed, with the trigger's name added at the end when it is new |
| Triggers.FiledComponents | apps/api/src/lib/triggers.ts:69-72 | `indexTriggerFrag` adds the fragment to the one list named by trigger and kind |
| Triggers.FiledFacts | apps/api/src/lib/triggers.ts:63-73 | the named trigger exists afterwards, one of its lists gains the fragment, and every other list and trigger is unchanged |
| Triggers.NamesOf | apps/api/src/lib/triggers.ts:69 | a name is among the filings' names exactly when some filing carries it |
| Triggers.FileAllNames | apps/api/src/lib/triggers.ts:184-214 | the triggers indexed after filing are the old ones and the filings' ones |
| Triggers.FileAllOrder | apps/api/src/lib/triggers.ts:184-214 | the names already indexed keep their order, new ones come after |
| Triggers.FileAllComponents | apps/api/src/lib/triggers.ts:184-214 | each component list is the old one followed by the fragments filed under that name and kind, in order |
| Triggers.ValuesDistinct | apps/api/src/lib/triggers.ts:27 | `Object.values` of an index gives triggers with pairwise distinct names, and every indexed trigger is one of them |
| Triggers.TriggerIndex.IndexTriggerFrag | apps/api/src/lib/triggers.ts:63-73 | the index object after `indexTriggerFrag` is the filing of the fragment under the trigger concept's key |
| Triggers.BuildTriggerIndex | apps/api/src/lib/triggers.ts:184-214 | `buildTriggerIndex` files the fragments in order into a new index |
| Triggers.BuildTriggerIndexMeaning | apps/api/src/lib/triggers.ts:184-214 | the index holds exactly the triggers some well-shaped fragment of a known type names, each list being those fragments' components in order |
| Triggers.FilingsMeaning | apps/api/src/lib/triggers.ts:187-211 | a filing is made exactly when some concept yields it |
| Triggers.SeparateTriggerFrags | apps/api/src/lib/triggers.ts:220-239 | `separateTriggerFrags` keeps the concepts that pass the directive test as fragments, in order, and the rest as concepts, in order |
| Triggers.SeparatePartition | apps/api/src/lib/triggers.ts:220-239 | each concept lands in exactly one of the two lists, and together they are the input |
| Triggers.MemberNamesFileNothing | apps/api/src/lib/triggers.ts:227-241 | as written, compared with `Object.keys(ComponentType)`, no concept taken for a fragment is one `buildTriggerIndex` would file |
| Triggers.FragsLeftBehind | apps/api/src/lib/triggers.ts:227-241 | as written, every concept `buildTriggerIndex` would file is left among the plain concepts |
| Triggers.NameKeyUnknown | apps/api/src/lib/triggers.ts:241 | no member name of `ComponentType` is a type key the `switch` knows |
| Triggers.MatchesFragSkipped | apps/api/src/lib/triggers.ts:225-232 | `t [@matches r]` is a fragment `buildTriggerIndex` files, yet as written it is not separated as one; against the enum's values it is |
| Triggers.MemberValuesSeparateFilings | apps/api/src/lib/triggers.ts:220-239 | compared with the values of `ComponentType`, the fragments are exactly the concepts `buildTriggerIndex` files |
| Triggers.FullMatchCases | apps/api/src/lib/triggers.ts:173-182 | `isFullMatch`: as many clauses as the trigger's rules and some value that is not a variable; a partial that binds nothing is never full |
| Triggers.VariableDictsAreComplimentary | apps/api/src/lib/triggers.ts:154-171 | the loop over the keys of `a` gives the complimentary test: every shared key equal and at least one shared |
| Triggers.ComplimentaryMerge | apps/api/src/lib/triggers.ts:124-131 | complimentary bindings agree on every shared name, so merging them in either order gives the same bindings |
| Triggers.MergeInto | apps/api/src/lib/triggers.ts:114-143 | the inner `forEach` over the partials merges with each in turn, pushing the merged partials onto the list |
| Triggers.ConsiderRule | apps/api/src/lib/triggers.ts:88-143 | one clause against one concept: nothing when it does not match, a full match, or a new partial merged with the others |
| Triggers.ExtractTriggerMatches | apps/api/src/lib/triggers.ts:75-152 | `extractTriggerMatches` gives its definition: the full matches and the partials of every trigger, in order |
| Triggers.ConsiderGrows | apps/api/src/lib/triggers.ts:88-143 | trying a clause only adds matches after those found so far |
| Triggers.RulesGrow | apps/api/src/lib/triggers.ts:87-144 | the clause loop only adds matches |
| Triggers.TriggersFrom | apps/api/src/lib/triggers.ts:86-145 | the matches found for any one trigger are kept to the end of the trigger loop |
| Triggers.TriggersGrow | apps/api/src/lib/triggers.ts:86-145 | the trigger loop only adds matches |
| Triggers.ConceptsFrom | apps/api/src/lib/triggers.ts:85-146 | the matches found for any one concept are kept to the end of the concept loop |
| Triggers.SingleClauseFullMatch | apps/api/src/lib/triggers.ts:97-110 | a one-clause trigger fires with the clause's bindings for every concept the clause matches with a value that is not a variable |
| Triggers.SingleExtracted | apps/api/src/lib/triggers.ts:85-146 | one trigger against one concept is its clause loop |
| Triggers.AnnSingsMatches | apps/api/src/lib/triggers.ts:88-92 | `ann sings` matches `$p sings`, binding `$p` to `ann`, and does not match `$p dances` |
| Triggers.SingerDancerLoop | apps/api/src/lib/triggers.ts:87-144 | for the two-clause trigger on `ann sings`, the second clause changes nothing |
| Triggers.MergeOne | apps/api/src/lib/triggers.ts:114-143 | merging with one partial: nothing if not complimentary, else a full match or a new partial with both clauses |
| Triggers.SelfMergeCompletes | apps/api/src/lib/triggers.ts:112-143 | as written the new partial is pushed before the `forEach` and merged with itself, so the two-clause trigger fires on `ann sings` alone; merged only with the others it does not |
| Triggers.AllMatched | apps/api/src/lib/triggers.ts:87-88 | a concept matching as many rules as there are matches every one of them |
| Triggers.MergeBound | apps/api/src/lib/triggers.ts:124-142 | a merge adds one clause to the partial it merges with |
| Triggers.ConsiderBound | apps/api/src/lib/triggers.ts:88-143 | merged with the others only, each clause a concept matches adds at most one clause to that trigger's partials |
| Triggers.RulesBound | apps/api/src/lib/triggers.ts:87-144 | merged with the others only, the partials of one concept have at most as many clauses as rules it matches |
| Triggers.OneConceptFullMatch | apps/api/src/lib/triggers.ts:85-146 | merged with the others only, a trigger fires on a single concept only when the concept matches every one of its clauses |
| TriggerComponents.ParseTriggerComponentMeaning | apps/api/src/apis/space/queries/addConceptsWithTriggers.ts:399-413 | a concept is a component exactly when it is shaped `t [y a]` with `y` one of the four type keys; it is filed under `t`'s key with `a` |
| TriggerComponents.ParseIsFiling | apps/api/src/apis/space/queries/addConceptsWithTriggers.ts:399-413 | `parseTriggerComponent` recognises exactly the fragments `buildTriggerIndex` files |
| TriggerComponents.TypeKeySlice | apps/api/src/apis/space/queries/addConceptsWithTriggers.ts:404-407 | checking the key against `COMPONENT_TYPE_KEYS` and naming the list by `key.slice(1)` is the kind lookup of the `switch` |
| TriggerComponents.SeparatedStep | apps/api/src/apis/space/queries/addConceptsWithTriggers.ts:374-394 | one more concept is filed and kept as a component, or kept as a plain concept |
| TriggerComponents.UniqueByKeySnoc | apps/api/src/apis/space/queries/addConceptsWithTriggers.ts:378 | assigning `record[concept.key] = concept` one more time is the keyed record of the longer list |
| TriggerComponents.SeparateTriggers | apps/api/src/apis/space/queries/addConceptsWithTriggers.ts:363-397 | `separateTriggers` gives its definition |
| TriggerComponents.SeparatedPartition | apps/api/src/apis/space/queries/addConceptsWithTriggers.ts:363-397 | every input lands under its key in the component or the concept record by its kind, and each record holds only inputs of its kind with distinct keys |
| TriggerComponents.SeparatedTriggers | apps/api/src/apis/space/queries/addConceptsWithTriggers.ts:380-391 | the new triggers have distinct names, one per name a component names, each list being exactly that name's components of that kind in order |
| TriggerComponents.NoComponentsNoTriggers | apps/api/src/apis/space/queries/addConceptsWithTriggers.ts:380-392 | there are no new triggers exactly when there are no components |
| TriggerComponents.ComponentNamesTrigger | apps/api/src/apis/space/queries/addConceptsWithTriggers.ts:380-392 | a component makes a trigger |
| TriggerComponents.TriggerHasComponent | apps/api/src/apis/space/queries/addConceptsWithTriggers.ts:380-392 | a trigger comes with a component |
| TriggerComponents.ComponentOfFiling | apps/api/src/apis/space/queries/addConceptsWithTriggers.ts:375-392 | a concept that files something is kept among the components |
| Triggered.FirstMatch | apps/api/src/apis/space/queries/addConceptsWithTriggers.ts:253-260 | the rule loop stops at the first clause the concept matches: every earlier clause fails, and that one matches |
| Triggered.AllBut | apps/api/src/apis/space/queries/addConceptsWithTriggers.ts:271 | the rules without the `i`-th, the others in order |
| Triggered.Extended | apps/api/src/apis/space/queries/addConceptsWithTriggers.ts:281-289 | one match per answer of the other clauses, its bindings those of the clause overridden by the answer's |
| Triggered.TriggerFiresMeaning | apps/api/src/apis/space/queries/addConceptsWithTriggers.ts:249-295 | a trigger fires for a concept only through the first clause it matches: with one clause with that clause's bindings, otherwise with them overridden by an answer of the other clauses filled in with them |
| Triggered.ForConceptMeaning | apps/api/src/apis/space/queries/addConceptsWithTriggers.ts:236-298 | an atom fires nothing; a compound fires exactly what each trigger contributes, and fails when one of them fails |
| Triggered.FiresFor | apps/api/src/apis/space/queries/addConceptsWithTriggers.ts:249-294 | the rule loop for one trigger gives what the trigger fires |
| Triggered.FirstMatching | apps/api/src/apis/space/queries/addConceptsWithTriggers.ts:253-260 | the loop over the clauses stops at the first one the concept matches and returns that clause's bindings |
| Triggered.Complete | apps/api/src/apis/space/queries/addConceptsWithTriggers.ts:270-289 | the other clauses, filled in with the matched clause's bindings, are answered against the store; each answer gives one match whose bindings the answer overrides, and a failure of either step is passed on |
| Triggered.FindTriggerMatchesForConcept | apps/api/src/apis/space/queries/addConceptsWithTriggers.ts:236-298 | `findTriggerMatchesForConcept` gives its definition, reading the store |
| Triggered.FindTriggerMatchesForTrigger | apps/api/src/apis/space/queries/addConceptsWithTriggers.ts:300-317 | `findTriggerMatchesForTrigger` gives its definition, reading the store |
| Triggered.ForTriggerKeepsAll | apps/api/src/apis/space/queries/addConceptsWithTriggers.ts:305-316 | the filter drops nothing: `matchConcepts` without `includeVariables` never answers with a variable, so a new trigger fires once per answer of its clauses |
| Triggered.Notices | apps/api/src/apis/space/queries/addConceptsWithTriggers.ts:346-354 | one notification per URL concept of the match's trigger, with that concept's text, the trigger and the bindings |
| Triggered.TriggeredChangesMeaning | apps/api/src/apis/space/queries/addConceptsWithTriggers.ts:319-361 | the concepts to add and to remove have distinct keys, one per key some match's templates instantiate to, and each is such an instance |
| Triggered.TriggeredAddsComplete | apps/api/src/apis/space/queries/addConceptsWithTriggers.ts:323-358 | every instance of every match's `adds` is kept under its key |
| Triggered.AllNoticesMeaning | apps/api/src/apis/space/queries/addConceptsWithTriggers.ts:346-354 | a notification is sent exactly for each pair of a match and one of its trigger's URL concepts |
| Triggered.AllNoticesCount | apps/api/src/apis/space/queries/addConceptsWithTriggers.ts:346-354 | there are as many notifications as URL concepts over all matches |
| Triggered.TextMeaning | apps/api/src/lib/concepts.ts:3-7 | `getConceptText`: a compound's text is its key; an atom's is its key without a leading `<<` and a trailing `>>` |
| Triggered.LocalhostUrl | apps/api/src/lib/concepts.ts:3-7 | `<<http://localhost>>` has the text `http://localhost` |
| TriggerQueries.FragsOfMeaning | apps/api/src/apis/space/queries/getAllTriggers.ts:23-37 | each answer of a component query is read as a fragment of that query's list, at the answer's position |
| TriggerQueries.FragsOfPrefixError | apps/api/src/apis/space/queries/getAllTriggers.ts:23-37 | reading stops at the first answer that cannot be read |
| TriggerQueries.TriggersOfAnswersMeaning | apps/api/src/apis/space/queries/getAllTriggers.ts:15-39 | the triggers have distinct names, every fragment's trigger is there, and each list holds exactly that trigger's fragments of its kind, in query order |
| TriggerQueries.IndexedTriggers | apps/api/src/apis/space/queries/getAllTriggers.ts:15-39 | `Object.values` of an index filled from a fresh one gives those triggers |
| TriggerQueries.IndexFrags | apps/api/src/apis/space/queries/getAllTriggers.ts:23-37 | one `forEach` calls `indexTriggerFrag` for each answer, the index ending as the filing of them all |
| TriggerQueries.IndexAnswers | apps/api/src/apis/space/queries/getAllTriggers.ts:15-39 | the four loops over a fresh index and `Object.values` give the triggers of the four answer lists |
| TriggerQueries.QueryFrags | apps/api/src/apis/space/queries/getAllTriggers.ts:17-21 | the four queries in the order match, add, remove, notify, failing at the first that fails |
| TriggerQueries.GetAllTriggers | apps/api/src/apis/space/queries/getAllTriggers.ts:12-40 | `getAllTriggers` gives its definition on the store |
| TriggerQueries.Tagged | apps/api/src/apis/space/queries/findTriggerMatches.ts:28-33 | each answer as a match of the partial's trigger, its bindings as they are |
| TriggerQueries.TriggerMatchesMeaning | apps/api/src/apis/space/queries/findTriggerMatches.ts:10-37 | the full matches come first, as found; each later match is an answer of some partial's completion, tagged with its trigger, and every such answer is there |
| TriggerQueries.TaggedMember | apps/api/src/apis/space/queries/findTriggerMatches.ts:28-33 | a tagged match is one of the answers with the trigger |
| TriggerQueries.Complete | apps/api/src/apis/space/queries/findTriggerMatches.ts:22-34 | the loop over one partial's answers, after interpolating its rules with its bindings |
| TriggerQueries.FindTriggerMatches | apps/api/src/apis/space/queries/findTriggerMatches.ts:10-37 | `findTriggerMatches` gives its definition on the store |
| Firing.DuplicateIsFirst | apps/api/src/apis/space/queries/addConceptsWithTriggers.ts:99-103 | a known trigger whose name a new one takes, with none before it, is the one the error names |
| Firing.NoDuplicate | apps/api/src/apis/space/queries/addConceptsWithTriggers.ts:99-103 | with no name taken, nothing throws |
| Firing.DuplicateFound | apps/api/src/apis/space/queries/addConceptsWithTriggers.ts:99-103 | what the duplicate test reports is the name of the first known trigger whose name is taken |
| Firing.Deliveries | apps/api/src/apis/space/queries/addConceptsWithTriggers.ts:211-219 | each notification handed to `processNotification` in turn |
| Firing.AddChecked | apps/api/src/apis/space/queries/addConceptsWithTriggers.ts:105-158 | the new triggers found among the concepts form a well-formed index |
| Firing.StoreComponents | apps/api/src/apis/space/queries/addConceptsWithTriggers.ts:150-158 | storing the components changes neither the trigger list nor the deliveries, and keeps the result of processing |
| Firing.ComponentsAfterProcessing | apps/api/src/apis/space/queries/addConceptsWithTriggers.ts:110-156 | past the checks, processing reads the store with only the plain concepts added, and the components are stored by the final add, after processing |
| Firing.ComponentsStored | apps/api/src/apis/space/queries/addConceptsWithTriggers.ts:148-156 | once processing succeeds, every component of the call is in the store the run leaves |
| Firing.Notify | apps/api/src/apis/space/queries/addConceptsWithTriggers.ts:201-227 | after the nested call this level's notifications go to the sink, in order, and the changes are those computed |
| Firing.EmptyIsNull | apps/api/src/apis/space/queries/addConceptsWithTriggers.ts:91-96 | with no concepts nothing is stored, announced or delivered, and the result is `null` |
| Firing.InheritedNameThrows | apps/api/src/apis/space/queries/addConceptsWithTriggers.ts:99-103 | a known trigger named `constructor` throws as a duplicate although no new trigger takes its name, and nothing changes |
| Firing.DuplicateThrows | apps/api/src/apis/space/queries/addConceptsWithTriggers.ts:99-103 | a new trigger named like a known one throws, naming the first known trigger concerned, before anything is stored, pushed, announced or delivered |
| Firing.RunExtends | apps/api/src/apis/space/queries/addConceptsWithTriggers.ts:91-108 | the trigger list is only ever extended: the caller's list stays a prefix, and past the guards the new triggers follow the known ones |
| Firing.LoadedExtends | apps/api/src/apis/space/queries/addConceptsWithTriggers.ts:94-108 | the same once the trigger list is known |
| Firing.CheckedExtends | apps/api/src/apis/space/queries/addConceptsWithTriggers.ts:105-108 | past the guards the new triggers follow the known ones |
| Firing.AddedExtends | apps/api/src/apis/space/queries/addConceptsWithTriggers.ts:111-158 | storing and processing only extend the trigger list |
| Firing.ProcessExtends | apps/api/src/apis/space/queries/addConceptsWithTriggers.ts:161-234 | `processTriggers` only extends the trigger list |
| Firing.SkipLosesNothing | apps/api/src/apis/space/queries/addConceptsWithTriggers.ts:130-143 | processing is skipped only when there are no triggers and no new concepts, and then there are no components whose storing is skipped |
| Firing.ExtendsToAppend | apps/api/src/apis/space/queries/addConceptsWithTriggers.ts:211-219 | deliveries to the sink appended to a run of deliveries to it stay a run of deliveries to it |
| Firing.SinkKept | apps/api/src/apis/space/queries/addConceptsWithTriggers.ts:73-159 | with the sink handed on, a run only appends deliveries, every one to that sink |
| Firing.LoadedSinkKept | apps/api/src/apis/space/queries/addConceptsWithTriggers.ts:94-158 | the same once the trigger list is known |
| Firing.CheckedSinkKept | apps/api/src/apis/space/queries/addConceptsWithTriggers.ts:105-158 | the same past the guards |
| Firing.AddedSinkKept | apps/api/src/apis/space/queries/addConceptsWithTriggers.ts:111-158 | the same from storing on |
| Firing.ProcessSinkKept | apps/api/src/apis/space/queries/addConceptsWithTriggers.ts:161-234 | the same for `processTriggers` |
| Firing.NestedDeliveriesFetch | apps/api/src/apis/space/queries/addConceptsWithTriggers.ts:201-208 | as written the nested call gets no `processNotification`, so every deeper notification goes to `fetch` whatever sink the caller chose |
| Firing.ForwardedDeliveries | apps/api/src/apis/space/queries/addConceptsWithTriggers.ts:201-219 | with the sink handed on, every notification of every level reaches the caller's sink |
| Firing.TriggerList.PushAll | apps/api/src/apis/space/queries/addConceptsWithTriggers.ts:108 | `allTriggers.push(...newTriggers)` appends the new triggers |
| Firing.Log.Announce | apps/api/src/apis/space/queries/addConceptsWithTriggers.ts:117 | `forEach(onConceptAdded)` announces the concepts in order and delivers nothing |
| Firing.Log.Deliver | apps/api/src/apis/space/queries/addConceptsWithTriggers.ts:211-219 | the notification loop hands each notification to the sink in turn |
| Firing.LoadedStops | apps/api/src/apis/space/queries/addConceptsWithTriggers.ts:94-103 | an empty input returns `null`, the depth bound stops, and a taken name throws, each before anything changes |
| Firing.LoadedPassed | apps/api/src/apis/space/queries/addConceptsWithTriggers.ts:105-114 | past the guards a run stores the plain concepts, extends the trigger list and goes on |
| Firing.CheckDuplicates | apps/api/src/apis/space/queries/addConceptsWithTriggers.ts:99-103 | the loop reports the first known trigger whose name is taken, a name being taken when a new trigger has it or when the record inherits it from `Object.prototype` |
| Firing.CollectMatches | apps/api/src/apis/space/queries/addConceptsWithTriggers.ts:174-195 | the matches of each new concept, then of each new trigger |
| Firing.ProcessTriggers | apps/api/src/apis/space/queries/addConceptsWithTriggers.ts:161-234 | `processTriggers` changes the store, the trigger list and the log as its definition says |
| Firing.AddConceptsWithTriggers | apps/api/src/apis/space/queries/addConceptsWithTriggers.ts:73-159 | `addConceptsWithTriggers` with the caller's list or a loaded one changes the store, the list and the log as its definition says, keeping the caller's list object |
| Firing.AddToList | apps/api/src/apis/space/queries/addConceptsWithTriggers.ts:91-159 | the same once the trigger list is known |
| Firing.StoreAndProcess | apps/api/src/apis/space/queries/addConceptsWithTriggers.ts:105-159 | the same past the guards |
| Firing.ProcessAndStore | apps/api/src/apis/space/queries/addConceptsWithTriggers.ts:117-158 | announcing the stored concepts, processing, and storing the components |
| Cookies.TrimStart | apps/dash/lib/cookies.ts:4 | the leading white space and line terminators are removed, and what is left is a suffix of the text |
| Cookies.TrimEnd | apps/dash/lib/cookies.ts:4 | the trailing white space and line terminators are removed, and what is left is a prefix of the text |
| Cookies.BlankTrimsToEmpty | apps/dash/lib/cookies.ts:4 | a text of white space alone trims to nothing |
| Cookies.Pieces | apps/dash/lib/cookies.ts:12 | `split(/; ?/)` gives one piece per `;`-separated field, and at least one |
| Cookies.DecodeAll | apps/dash/lib/cookies.ts:13 | `map(decodeURIComponent)`: each field decoded in place, or the first failure thrown |
| Cookies.Entries | apps/dash/lib/cookies.ts:12-15 | one entry per piece, or the first failure thrown |
| Cookies.BlankIsEmpty | apps/dash/lib/cookies.ts:4-8 | a blank header gives `{}` |
| Cookies.NoEqualsEmptyValue | apps/dash/lib/cookies.ts:13 | a piece without `=` gives its decoded self as key and `''` as value |
| Cookies.SecondEqualsCuts | apps/dash/lib/cookies.ts:13 | of `k=v=w` only `v` becomes the value, although `w` must decode too |
| Cookies.DecodeAllOk | apps/dash/lib/cookies.ts:13 | fields that each decode decode together |
| Cookies.AssignKeys | apps/dash/lib/cookies.ts:14 | the object's keys are exactly the entries' keys other than `__proto__`, which an object literal does not store |
| Cookies.LaterDuplicateWins | apps/dash/lib/cookies.ts:14 | a key holds the value of the last entry that names it; `__proto__` is held by none |
| Cookies.ProtoCookieDropped | apps/dash/lib/cookies.ts:3-18 | a header `__proto__=v` gives `{}` |
| Cookies.ProtoEntry | apps/dash/lib/cookies.ts:13 | the piece `__proto__=v` reads as the key `__proto__` with value `v` |
| Percent.DecodePlain | apps/dash/lib/cookies.ts:13 | `decodeURIComponent` leaves text without `%` unchanged |
| Cookies.EntriesOfPieces | apps/dash/lib/cookies.ts:12-15 | the entries are those of the pieces, one each, in order |
| Cookies.ParseCookies | apps/dash/lib/cookies.ts:3-18 | `parseCookies` gives its definition |
| Cookies.AssignAll | apps/dash/lib/cookies.ts:10-17 | the `forEach` assigns every entry in order into `cookies`, or throws the first decoding failure |
| Cookies.EntriesPrefixError | apps/dash/lib/cookies.ts:12-15 | once a prefix of the pieces fails, the whole fails the same way |
| FormData.BracketsAppend | apps/api/src/providers/payment/stripe.ts:11 | `fullKey` grows by one bracketed part per level |
| FormData.FullKeyAppend | apps/api/src/providers/payment/stripe.ts:9-11 | the root key stays, each later part is bracketed |
| FormData.BracketedPath | apps/api/src/providers/payment/stripe.ts:9-11 | the path `[a, b, c]` gives `a[b][c]` |
| FormData.NullIsEmptyValue | apps/api/src/providers/payment/stripe.ts:13-15 | `null` and `undefined` encode as `key=` |
| FormData.SingleEntry | apps/api/src/providers/payment/stripe.ts:7-34 | an object of one entry joins that entry's pieces with `&` |
| FormData.ScalarEncoded | apps/api/src/providers/payment/stripe.ts:31 | a scalar encodes as `key=` and its percent-encoded text, the key written as it is |
| FormData.NestedObjectContext | apps/api/src/providers/payment/stripe.ts:27-29 | an object under `key` is encoded with `key` added to the context |
| FormData.ScalarField | apps/api/src/providers/payment/stripe.ts:7-34 | an object of one scalar encodes as its full bracketed key, `=`, and the percent-encoded text |
| FormData.SingleObjectItem | apps/api/src/providers/payment/stripe.ts:17-24 | an array holding one object is that object encoded under the context key `key[0]` |
| FormData.ThreeLevels | apps/api/src/providers/payment/stripe.ts:7-34 | `{a: {b: {c: t}}}` gives `a[b][c]=` and the encoded `t` |
| FormData.ScalarItems | apps/api/src/providers/payment/stripe.ts:17-24 | an array of scalars gives `key[i]=v` for each element, in order |
| FormData.ObjectItemContext | apps/api/src/providers/payment/stripe.ts:19-21 | an object inside an array is encoded with the context key `key[i]` |
| FormData.NullItemThrows | apps/api/src/providers/payment/stripe.ts:19-21 | a `null` inside an array is taken for an object and throws |
| FormData.EmptyObjectIsEmpty | apps/api/src/providers/payment/stripe.ts:7-34 | an empty object encodes as the empty text |
| FormData.JoinConcat | apps/api/src/providers/payment/stripe.ts:33 | joining two lists with `&`: the separator stands between them only when both lists are non-empty |
| FormData.ThenAgree | apps/api/src/providers/payment/stripe.ts:8-33 | pieces and pairs that agree part by part agree once concatenated |
| FormData.DensePairs | apps/api/src/providers/payment/stripe.ts:8-33 | an object or array without empty ones inside that does not throw has at least one pair |
| FormData.EntryPairsNonEmpty | apps/api/src/providers/payment/stripe.ts:8-33 | the same for one entry |
| FormData.EncodeIsJoinedPairs | apps/api/src/providers/payment/stripe.ts:6-34 | without empty objects or arrays nested inside, the encoding is the `key=value` pair of every leaf, in order, joined by `&`, and it throws exactly when that list does |
| FormData.PiecesAgree | apps/api/src/providers/payment/stripe.ts:8-33 | each entry's pieces carry the same pairs as the flattened list |
| FormData.NestedAgree | apps/api/src/providers/payment/stripe.ts:27-29 | a non-empty nested object's one joined piece carries its pairs |
| FormData.EntryAgree | apps/api/src/providers/payment/stripe.ts:9-32 | the same for one entry |
| FormData.ItemAgree | apps/api/src/providers/payment/stripe.ts:17-24 | the same for the items of an array |
| FormData.NestedArrayObjectPath | apps/api/src/providers/payment/stripe.ts:19-21 | an object in a nested array takes its index inside the bracket of its own key: `x[key[0]][a]` |
| DeepMerge.MergeKeys | apps/api/src/lib/merge.ts:1-17 | the result's keys are the union of the inputs' keys |
| DeepMerge.LastObjectWins | apps/api/src/lib/merge.ts:2-14 | a key of the last object holds its value merged with, or replacing, what came before |
| DeepMerge.EarlierKept | apps/api/src/lib/merge.ts:2-14 | a key the last object lacks keeps what the earlier objects gave it |
| DeepMerge.NestedObjectsMerged | apps/api/src/lib/merge.ts:4-10 | two plain objects under one key are merged, with the keys of both |
| DeepMerge.MergeIntoKeys | apps/api/src/lib/merge.ts:3-14 | one step that does not throw keeps the old keys and adds the new |
| DeepMerge.OthersReplaced | apps/api/src/lib/merge.ts:11-13 | anything but two plain objects is replaced by the later value |
| DeepMerge.ArraysReplaced | apps/api/src/lib/merge.ts:7-12 | an array replaces an array |
| DeepMerge.NullMeetsObjectThrows | apps/api/src/lib/merge.ts:4-10 | a `null` met by a plain object under one key throws, whichever comes first |
| DeepMerge.MergeNoneOrOne | apps/api/src/lib/merge.ts:1-17 | `merge()` is `{}`, and merging one object copies it |
| DeepMerge.Merge | apps/api/src/lib/merge.ts:1-18 | `merge(...objects)` gives its definition |
| DeepMerge.MergePrefixError | apps/api/src/lib/merge.ts:2-17 | once a prefix of the inputs throws, the whole merge throws the same |
| DeepMerge.MergeObject | apps/api/src/lib/merge.ts:3-14 | the `forEach` over the keys of one object, writing into the accumulated result |
| DeepMerge.MergeValues | apps/api/src/lib/merge.ts:10 | the recursive `merge(result[key], object[key])` |
| Pagination.Normalize | apps/api/src/lib/pagination.ts:7-16 | the limit lies in 1..100 and the offset is not negative; a missing limit is 20 and a missing offset 0; a positive limit is capped at 100, another is 20; a negative offset is 0 |
| Pagination.NormalizeIdempotent | apps/api/src/lib/pagination.ts:7-16 | normalising a normalised page changes nothing |
| Pagination.NormalizeKeepsValid | apps/api/src/lib/pagination.ts:7-16 | a page within the bounds is kept as it is |
| RandomIds.AlphaNumeric | apps/api/src/lib/random.ts:45-57 | one letter or digit |
| RandomIds.AlphaValue | apps/api/src/lib/random.ts:45-57 | a letter or digit's index lies in 0..61 |
| RandomIds.AlphaNumericRanges | apps/api/src/lib/random.ts:46-56 | digits for 0 to 9, `A` to `Z` for 10 to 35, `a` to `z` for 36 to 61, one code unit apart |
| RandomIds.AlphaValueInverse | apps/api/src/lib/random.ts:45-57 | the character of a value gives back the value modulo 62 |
| RandomIds.AlphaNumericInjective | apps/api/src/lib/random.ts:45-57 | distinct values in 0..61 give distinct characters |
| RandomIds.AlphaNumericPeriod | apps/api/src/lib/random.ts:46 | the map has period 62 |
| RandomIds.Drawn | apps/api/src/lib/random.ts:8-11 | the first `n` draws as letters and digits, in order |
| RandomIds.RandomAlphaNumeric | apps/api/src/lib/random.ts:5-14 | `createRandomAlphaNumericString` gives `length` drawn characters, twelve by default, none for a length of 0 or less |
| RandomIds.DigitsOf | apps/api/src/lib/random.ts:30 | `replace(/[^0-9]+/g, '')` keeps only digits |
| RandomIds.NowDigits | apps/api/src/lib/random.ts:27-30 | the time text is digits only |
| RandomIds.TimePrefixShape | apps/api/src/lib/random.ts:32-35 | the prefix has one character per two digits, rounding up, each a letter or digit |
| RandomIds.JsonPrefixLength | apps/api/src/lib/random.ts:26-35 | fifteen digits give a prefix of eight characters |
| RandomIds.RandomTimePrefixedId | apps/api/src/lib/random.ts:16-43 | `createRandomTimePrefixedId` gives its definition, with the clock and the draws as inputs |
| RandomIds.PrefixOf | apps/api/src/lib/random.ts:32-35 | the loop over the digits two at a time gives the prefix |
| RandomIds.FillUp | apps/api/src/lib/random.ts:37-40 | the loop draws characters until the string has `n` of them |
| RandomIds.TimePrefixedIdShape | apps/api/src/lib/random.ts:16-43 | a length under 16, sixteen by default, throws and nothing else does; otherwise the id has exactly the length asked for when the prefix is shorter, and only letters and digits |

## Left out

- Percent.Encode: a Dafny `char` is a Unicode scalar value, so the `URIError` that `encodeURIComponent` throws on a lone UTF-16 surrogate cannot arise, and strings are sequences of code points rather than of UTF-16 code units.
- Strings.Le: `localeCompare` is modelled by code-unit lexicographic order, a total order. A locale collation orders some strings differently (`a` before `B`, where code units put `B` first). As a result, the order of set-compound parts, of the variable names in mask-match keys and of the `Object.entries` sort can differ from the source's for mixed-case and non-ASCII keys.
- ConceptMasks.Md5: `md5` is modelled by an injective encoding of the key into digits and `x`, not by the MD5 digest. The proofs use only its injectivity and the fact that its characters are word characters.
- Triggers.VariableDictsAreComplimentary: the `===` test between bound concepts is reference equality on objects. It is taken as a parameter `same`, and the lemmas assume only that `same` implies equal values and, where stated, that it is reflexive or symmetric.
- Rules.MatchConcepts: the recursion on the remaining rules carries a depth bound `fuel`, and exhausting it yields `Err` with a depth-bound message the source does not have. Each level drops the head rule, but the rules that remain are interpolated and reparsed, and their masks and groups are then recomputed through the operations, so the model states no fuel-sufficiency lemma.
- Conjunction.Solve: the same depth bound as Rules.MatchConcepts.
- Removal.RemoveConcepts: the transitive walk over containers has a depth bound, because containment read from arbitrary stored data can form a cycle. The source would then recurse without end.
- Removal.GetKeysToUpdate: the same depth bound as Removal.RemoveConcepts.
- Firing.AddConceptsWithTriggers: trigger cascades have no measure that decreases (a trigger can add what fires it again), so the recursion carries a fuel that yields `Err`. The `bound` passed down is the depth bound of the `matchConcepts` calls inside.
- Firing.ProcessTriggers: the same fuel as Firing.AddConceptsWithTriggers. The notification sink is a tag (`Caller` or `Fetch`) recorded with each delivery. The HTTP request of `processNotificationWithFetch`, its failure, and the `console.error` of the catch are not modelled, because the catch swallows every failure anyway.
- `globalData` and `spaceId` are passed along by the source without being read by the core, and `removeConceptData` with the KV blob store it clears is not part of this model.
- TriggerQueries.QueryFrags: the four `matchRules` queries that `Promise.all` runs concurrently are run one after the other, the first failure winning. The same holds for the counter reads of `matchConcepts` (Conjunction.SortByCount).
- Store.Storage: the `DurableObjectStorage` API is the class `Store.Storage` over a `map<string, Value>`. `list({ prefix })` gives the keys with the prefix in ascending code-unit order, and a transaction is its calls in sequence. Values are the `true` marker and the numeric counters.
- Dictionaries keyed by strings are Dafny maps, and `Object.values`/`Object.keys` follow insertion order. JavaScript's rule that integer-like keys come first is not modelled.
- Dictionaries keyed by strings are Dafny maps, which have no inherited entries. The model agrees with the source's object literals on the names `Object.prototype` supplies (`constructor`, `toString`, `__proto__`, …) in the duplicate check (Firing.CheckDuplicates), in `parseCookies` (Cookies.ParseCookies) and in the unifier (Unification.Unify), but not in the trigger lookups of the next three lines.
- Triggers.TriggerIndex.IndexTriggerFrag: for a trigger named after a property of `Object.prototype`, `index[name] || createTrigger(name)` yields the inherited value, and the `components[kind].push` that follows throws a `TypeError`. The model files such a trigger like any other (Triggers.Filed, Triggers.FileAll and TriggerQueries.AllTriggersOf with it).
- Triggers.ExtractTriggerMatches: for a trigger named after a property of `Object.prototype`, `partialIndex[trigger.name] || []` yields the inherited value, and pushing a partial that is not a full match throws a `TypeError`. The model keeps such partials.
- TriggerComponents.SeparateTriggers: a component of a trigger named after a property of `Object.prototype` throws a `TypeError` in the source, because the inherited value has no `components`; the model files it (TriggerComponents.Separated with it). A plain concept keyed `__proto__` becomes the prototype of `organized.concepts` and is missed by `Object.values`; the model keeps it.
- Firing.StoreComponents: the model proves that processing reads the store with only the plain concepts added (Firing.ComponentsAfterProcessing, TriggerComponents.SeparatedPartition) and that the components are stored afterwards (Firing.ComponentsStored). It does not prove that the store processing reads lacks the components' keys, which fails anyway when a component was stored before or is a part of a plain concept of the same call.
- FormData.EncodeIsJoinedPairs: an object is a list of entries in the order given, not in `Object.entries` order (see the previous line). A scalar is its `String(value)` text, numbers and booleans included. Empty objects and arrays nested inside are excluded from the pair-list characterization, because they contribute an empty piece that `join('&')` still separates.
- DeepMerge.Merge: the arguments are objects. `merge` of a string or an array (whose indices `Object.keys` would list) is not modelled. Numbers are integers, which `merge` never looks into.
- RandomIds.RandomTimePrefixedId: `Math.random()` is an input sequence of draws in 0..61, and the date is the text of its `toJSON()`. An invalid date, for which `toJSON()` is `null` and the source throws, is not modelled. `createRandomId` only forwards to it.
- ConceptMasks.ConceptMasks: the theorems that every mask matches its concept and is well formed (MaskReadBack.MasksMatch, MasksShaped, MaskKeysMade) hold for concepts whose atoms are simple keys other than `&` (`Plain`), in the shape the constructor gives: compounds of at least two parts, and no set compound (`Shaped`). A set compound's parts are re-sorted by the constructor after renaming, which the renaming argument does not cover.
- Interpolation.Interpolate: the lemmas describe the results for plain values, whose keys are simple keys (`ReadBack`). Values whose keys are string literals or hold delimiters are also written back as text and reparsed by the model, but no lemma describes what that reparse gives.
- The end-to-end scenarios of the test suites (the `john-smith` trigger scenarios, the resolver's add, look up and remove sequence) are covered by the general lemmas on each operation and are not restated with the test data, except for the expansion, interpolation and notification-URL examples.
- The GraphQL layer, the admin queries, authentication, the billing client outside `encodeFormData`, hashing with SHA-256, the CLI and the dashboard outside `parseCookies` are outside the core and not modelled.

## Findings

Each row names a member that models the code as written and exhibits the
discrepancy, and a corrected member with the evidently intended property
proved. Where the rest of the engine calls the operation, the model of the
program keeps the behaviour as written. The corrected definition is a
second instance proved beside it: `Rules.CorrectedOps` for the matcher,
the `MemberValues` directive list for `separateTriggerFrags`, the
`OthersOnly` pass for `extractTriggerMatches`, and the `Forwarded` mode
for the trigger recursion. The parser's string masks of `masking.ts` are
not called by the rest of the core, which uses the masks of `mask.ts`.

| source | as written | input that shows it | evidently intended | confidence | as-written member | corrected member |
|---|---|---|---|---|---|---|
| packages/concept-ml-parser/src/masking.ts:13-16 | the first part's masks are taken without brackets, even when that part is a compound | `[a b] c`: its first mask is `a b c`, while its key is `[a b] c` | compound parts bracketed as in the key, so that the first mask is the key and the last keeps the brackets | high; not executed | Masking.FirstMaskUnbracketed | Masking.BracketedMasksFacts |
| apps/api/src/lib/keys.ts:31-45 | `createMaskMatchKey` writes the values in `localeCompare` order of the variable names; `parseMatchKey` names the i-th value `$i` | a mask with eleven variables: the order is `$0, $1, $10, $2, …`, so `$2` is bound to the value of `$10` | values named by the sorted names they were written under | high; not executed | Keys.PositionalNamesMisorder | Keys.SortedRoundTrip |
| apps/api/src/apis/space/queries/matchRules.ts:157 | `patternPart.key in matches` is also true for the names every object inherits (`constructor`, `toString`, …) | the rule `constructor $x` against the stored `constructor john` gives no answer, although `$x = john` fits | an own-property test, which unifies exactly the instances of the pattern | high; not executed | Unification.InheritedNameFails | Unification.UnifyMeaning |
| apps/api/src/lib/triggers.ts:227-241 | the directive list is `Object.keys(ComponentType)`, the member names without `@`, compared with the type key, which has the `@` | `t [@matches r]` is a fragment `buildTriggerIndex` files, but `separateTriggerFrags` keeps it among the plain concepts | the enum's values `@matches`, `@adds`, `@notifies`, `@removes` | high; not executed | Triggers.MemberNamesFileNothing | Triggers.MemberValuesSeparateFilings |
| apps/api/src/lib/triggers.ts:112-143 | the new partial is pushed onto the list before the `forEach` over that list, so it is merged with itself | a trigger with clauses `$p sings` and `$p dances` fires on `ann sings` alone, with `$p = ann` | merge the new partial with the earlier partials only, so that a trigger fires on one concept only when it meets every clause | high; not executed | Triggers.SelfMergeCompletes | Triggers.OneConceptFullMatch |
| apps/api/src/apis/space/queries/addConceptsWithTriggers.ts:201-208 | the nested `addConceptsWithTriggers` call is not given `processNotification`, so deeper levels fall back to `fetch` | a trigger whose added concept fires a second trigger with a URL: the second notification goes to `fetch`, not to the caller's callback | the caller's `processNotification` used at every level | medium; not executed | Firing.NestedDeliveriesFetch | Firing.ForwardedDeliveries |
