# Product-code resolver, modelled in Dafny

This project models the core of a product-image finder for a surfaces catalogue. A product code such as
`63_PK_PV_BR_MRP_975_FT_Pr_Eq_14L_12"9.5F_02_KYGH_Q8` is split into tokens and classified into a prefix, materials, colours,
sizes, a folder code, a supplier and a file token. The folder index then uses those fields on a cached
snapshot of the folder tree:

- it finds the supplier folder;
- it finds the folder carrying the code below it;
- it descends automatically to where the images are;
- it collects the candidate files;
- it filters them strictly (product-code search) or scores them (questionnaire search).

The older first version of the parser and of the dict-tree search is modelled alongside, as a contrast.

Modules, one per file:

| file | module | models |
|---|---|---|
| `wrappers.dfy` | `Wrappers` | `Option` |
| `strings.dfy` | `Strings` | the string operations used: ASCII case mapping, `strip`, `re.sub` of character runs, `split`/`join` |
| `vocabulary.dfy` | `Vocabulary` | the code tables of `constants.py` |
| `normalize.dfy` | `Normalize` | the normalisers, size variants, tokenizer and series signatures of `V2/parsing.py` |
| `parsing.dfy` | `Parsing` | `parse_product_code` of the second version |
| `parsing_example.dfy` | `ParsingExample` | the worked example code, parsed end to end |
| `selection.dfy` | `Selections` | `build_selection` |
| `matching.dfy` | `Matching` | the match predicates and `compute_match_score` |
| `folder_tree.dfy` | `FolderTree` | the tree datatype and `build_tree` |
| `folder_index.dfy` | `FolderIndex` | the `FolderIndex` class |
| `legacy_parsing.dfy`, `legacy_example.dfy` | `LegacyParsing`, `LegacyExample` | the pure helpers of `V1/main.py` |
| `legacy_tree.dfy` | `LegacyTree` | `V1/tree.py` |

The folder tree is an immutable `Node(path, files, children)`. A path is a sequence of segments. The file system and
object identities reach the model only as parameters:

- whether a path is a file;
- whether a directory holds a file;
- the `id()` order of two nodes;
- a directory listing (`Entry`);
- the directory hash;
- whether saving the cache succeeded.

Four behaviours of the code that are easy to misread:

- **Prefix case.** The prefix keeps its tokens as written, so the example's prefix is `63_PK`
  (V2/parsing.py:115-118, 174).
- **Supplier score.** The supplier folder's score is +3 for a whole-segment supplier match, +4 for `selected`, +1 for
  `item`, plus `max(0, 3 - segments % 3)`; all of these read the folder's own name and depth. Ties between equal scores
  are broken by `id()`, a memory address (Product_Search_Engine/V2/matching.py:5-16, V2/folder_index.py:27-34).
- **Signature fast path.** A candidate is accepted when its alphanumeric relative path contains the code's signature or
  its reverse anywhere (V2/parsing.py:69-81, V2/folder_index.py:434-436).
- **Search by selection.** `search_by_selection` raises `NameError` on every search that has a candidate, and returns
  empty results when there is none (see Findings). Its intended classification is modelled without the final ranking.

## Model

| member | source | states |
|---|---|---|
| Strings.LowerStr | V2/parsing.py:6 | lower-casing keeps the length and maps each character on its own |
| Normalize.NormalizeToken | V2/parsing.py:4-6 | a normalised token uses only `[0-9a-z_]`, never holds `__` and neither starts nor ends with `_` |
| Normalize.NormalizeTokenFixpoint | V2/parsing.py:4-6 | a string is its own normal form exactly when it already has the token shape |
| Normalize.NormalizeTokenIdempotent | V2/parsing.py:4-6 | normalising twice gives the same token as normalising once |
| Normalize.NormalizeSizeTokenShape | V2/parsing.py:11-17 | the canonical size form has no quote, dot, space, apostrophe or upper-case letter and no `__`, and is empty only for empty input |
| Normalize.NormalizeSizeTokenFixpoint | V2/parsing.py:11-17 | a size token is left unchanged exactly when it already has the canonical shape |
| Normalize.NormalizeSizeTokenIdempotent | V2/parsing.py:11-17 | canonicalising a size twice changes nothing more |
| Normalize.StripSizeUnit | V2/parsing.py:23 | dropping the unit letter never lengthens the size |
| Normalize.NormalizeSizeKeepsDigit | V2/parsing.py:11-17 | a size holding a digit still holds one after canonicalisation |
| Normalize.SizeVariants | V2/parsing.py:19-26 | no variants for an empty size; otherwise only non-empty variants, among them the canonical form and its underscore-free form |
| Normalize.NormalizeInput | V2/parsing.py:28-31 | every token is non-empty and drawn from `[0-9A-Za-z"]`; a missing or empty code has no tokens |
| Normalize.TokenizeJoin | V2/parsing.py:28-31 | non-empty code-character tokens come back unchanged from their `_`-join |
| Normalize.NormalizeInputRejoin | V2/parsing.py:28-31 | re-tokenising the `_`-join of a code's tokens gives the same tokens |
| Normalize.NormalizeInputSplice | V2/parsing.py:28-31 | any separator character between two stretches of code text splits tokens exactly as `_` does |
| Normalize.AlnumOnly | V2/parsing.py:66-67 | the alphanumeric-only form holds only `[a-z0-9]` and is no longer than the input |
| Normalize.AlnumOnlyIdempotent | V2/parsing.py:66-67 | squeezing twice is squeezing once |
| Normalize.SeriesSignatures | V2/parsing.py:69-77 | the signatures are exactly the non-empty squeezed code and its reverse: none without alphanumerics, one for a palindrome, at most two |
| Normalize.NoSignatureNoMatch | V2/parsing.py:79-81 | no path matches an empty signature set |
| Normalize.SignatureMatchMeaning | V2/parsing.py:69-81 | a path matches a code's signatures iff its squeezed form contains the squeezed code or its reverse |
| Parsing.InchesFragmentMeaning | V2/parsing.py:52-54 | the fragment exists iff the text starts with digits and `"`, and then it is that start, a whole `\d+"` token |
| Parsing.LeftoverAfterInches | V2/parsing.py:56-58 | the leftover holds no newline, and is empty when there is no fragment |
| Parsing.InchesRoundTrip | V2/parsing.py:52-58 | on one line starting with digits and `"`, fragment and leftover together give back the text |
| Parsing.InchesFragmentExtend | V2/parsing.py:52-54 | text after the inch mark does not change the fragment |
| Parsing.InchesTrailingNewline | V2/parsing.py:56-58 | a final newline is not part of the leftover; the rest of the text still comes back |
| Parsing.HeightHasDigit | V2/parsing.py:49-50 | a height-in-feet token holds a digit |
| Parsing.MaterialCodeIsPlain | V2/parsing.py:33-39 | no material code is an MRP marker or an all-digit price, so the MRP skip never swallows a material |
| Parsing.InchesStep | V2/parsing.py:138-153 | the inches branch records sizes and consumes one or two tokens, never running past the end |
| Parsing.MergedHeightHasDigit | V2/parsing.py:143-147 | a height merged from an inches leftover and the next token keeps that token's digits |
| Parsing.FragmentSizeOk | V2/parsing.py:138-140 | the inches fragment becomes a canonical size holding a digit |
| Parsing.MergedSizeOk | V2/parsing.py:143-147 | a merged height becomes a canonical size holding a digit |
| Parsing.RestSizeOk | V2/parsing.py:148-151 | a leftover that is itself a height becomes a canonical size holding a digit |
| Parsing.InchesStepOk | V2/parsing.py:138-153 | the inches branch records one or two sizes, each canonical and holding a digit |
| Parsing.ClassifyToken | V2/parsing.py:100-169 | every step advances by one or two tokens and stays within the tokens, so the loop terminates |
| Parsing.Classify | V2/parsing.py:100-169 | the step at any token moves forward by at least one and stays within the tokens |
| Parsing.ClassifyOk | V2/parsing.py:100-169 | MRP markers are skipped at any position; before a material only material-or-prefix is decided; materials and colours come from their vocabularies; sizes are canonical with a digit; a leftover is none of the recognised kinds |
| Parsing.FillSlot | V2/parsing.py:159-169 | after a leftover the folder code is set, and a supplier is only ever one already set or an allow-listed token |
| Parsing.FillSlotOk | V2/parsing.py:159-169 | filling a slot keeps every slot holding a plain leftover and the supplier on the allow-list |
| Parsing.StepsAreOk | V2/parsing.py:99-171 | every step the loop takes is well-formed for the material flag in force |
| Parsing.ApplyOk | V2/parsing.py:99-171 | one step keeps the state invariant and only extends the prefix, and only before a material |
| Parsing.RunOk | V2/parsing.py:99-171 | the loop keeps the state invariant, only extends prefix and materials, and freezes the prefix once a material is seen |
| Parsing.ParseTokens | V2/parsing.py:97-182 | materials and colours are vocabulary codes, sizes are canonical with a digit, the supplier is allow-listed, and without a material every field but the prefix is empty |
| Parsing.ParseProductCode | V2/parsing.py:83-182 | the tokens are the normalised input; materials and colours are vocabulary codes, sizes canonical with a digit, slots plain leftovers |
| Parsing.FirstMaterial | V2/parsing.py:110-114 | the position of the first token whose lower-case form is a material code, or the end |
| Parsing.PrefixStep | V2/parsing.py:103-118 | before the first material a step either skips an MRP marker or keeps the token verbatim |
| Parsing.RunFromMaterial | V2/parsing.py:110-114 | taking the first material fixes the prefix and starts the material list with that code |
| Parsing.PrefixAtMaterial | V2/parsing.py:110-114 | at the first material the prefix is complete and the material list starts with that code |
| Parsing.PrefixFromStep | V2/parsing.py:103-118 | one step before the first material moves exactly one kept token into the prefix, or none |
| Parsing.PrefixFrom | V2/parsing.py:103-118 | the prefix is the tokens before the first material without MRP markers, and a material is found iff one exists |
| Parsing.MaterialFrom | V2/parsing.py:110-114 | the first material recorded is the first material token, lower-cased |
| Parsing.ColorTokenIsColor | V2/parsing.py:120-127 | after the first material a token whose lower-case form is a colour code is recorded as that colour, before any size or design test |
| Parsing.OverlapCodesAreColors | V2/parsing.py:120-157 | a token that is both a colour and a design code is `rd` or `pl`, passes the design test, and after the first material is still recorded as a colour |
| Parsing.MrpSwallowsPrice | V2/parsing.py:103-106 | a bare `mrp` followed by an all-digit token skips both tokens, before or after the first material |
| Parsing.MrpAloneSkipsOne | V2/parsing.py:103-108 | any other MRP marker is skipped on its own, one token |
| Parsing.PrefixBeforeMaterial | V2/parsing.py:99-174 | the prefix is the `_`-join of the tokens before the first material, as written and without MRP markers, or none; the first material is that token |
| Parsing.LeftoversOk | V2/parsing.py:155-169 | no height, inches, design, MRP, material or colour token reaches the free slots |
| Parsing.LeftoversStep | V2/parsing.py:155-171 | the leftovers from a position are that token, lower-cased, if it is one, then those after its step |
| Parsing.LeftoversOrigin | V2/parsing.py:101-169 | every leftover is a lower-cased token of the code from the current position on |
| Parsing.SlotsFollowLeftovers | V2/parsing.py:159-169 | the loop fills the slots exactly as offering the leftovers one by one does |
| Parsing.FirstSupplier | V2/parsing.py:161-163 | the first leftover on the supplier allow-list, or none when no leftover is on it |
| Parsing.FoldAllSet | V2/parsing.py:159-169 | once all three slots are set, later leftovers change nothing |
| Parsing.FoldNoSupplier | V2/parsing.py:159-169 | with folder code and file token set, the supplier becomes the first allow-listed later leftover |
| Parsing.FoldNoFile | V2/parsing.py:167-169 | with folder code and supplier set, the file token is the next leftover |
| Parsing.SlotRule | V2/parsing.py:159-169 | offering leftovers fills the slots as the reference rule says: folder code first, then the first allow-listed supplier, then the first other token |
| Parsing.ParseSlots | V2/parsing.py:83-182 | the parsed slots follow the reference slot rule over the code's leftover tokens |
| ParsingExample.SampleCode | V2/parsing.py:28-31 | the worked example code tokenises into its fifteen tokens; the dot in `12"9.5F` separates as `_` does |
| ParsingExample.ParseSample | V2/parsing.py:97-182 | the example's tokens parse to prefix `63_PK`, material `pv`, colour `br`, sizes `12_` and `9_5f`, folder `02`, supplier `kygh`, file token `q8` |
| ParsingExample.ParseSampleCode | V2/parsing.py:83-182 | the raw example code parses end to end into those fields |
| Selections.LabelDict | V2/parsing.py:205-211 | the dictionary's keys are the lower-cased labels, each mapped to the code of the last entry with that label |
| Selections.LabelDictExtend | V2/parsing.py:208-211 | adding one more entry updates the dictionary as the comprehension does |
| Selections.MapLabel | V2/parsing.py:213-227 | a known label (in any case) becomes its lower-case code; any other answer is kept, lower-cased |
| Selections.TableAnswers | V2/parsing.py:213-227 | in a table with distinct labels apart from the codes, answering with a label or with its code selects that code |
| Selections.MaterialAnswers | V2/parsing.py:213-219 | a material given by its label or by its code selects the material code |
| Selections.ColorAnswers | V2/parsing.py:221-227 | a colour given by its label or by its code selects the colour code |
| Selections.DesignAnswers | V2/parsing.py:242-251 | a design given by its label or by its code selects its design code, which is in the design vocabulary |
| Selections.DesignCodesKnown | V2/parsing.py:207-211 | every design code, lower-cased, is in the design vocabulary |
| Selections.WidthEntry | V2/parsing.py:234-239 | a width always becomes a canonical size token ending in `_`, the canonical inch mark |
| Selections.WidthAgreesWithInches | V2/parsing.py:234-239 | a width typed as bare digits or with `"` gives the size the parser derives from the inches token |
| Selections.MarkedEndsWithUnderscore | V2/parsing.py:236-239 | a size ending in an inch mark canonicalises to one ending in `_` |
| Selections.SizeEntries | V2/parsing.py:229-239 | the height comes first and the width last, each present iff given and each canonical |
| Selections.DesignEntries | V2/parsing.py:242-251 | no more entries than answers, none of them empty |
| Selections.DesignEntriesMeaning | V2/parsing.py:242-251 | all answers filled in map position by position; all blank give no entries |
| Selections.Answered | V2/parsing.py:243-246 | the kept answers are all non-blank and no more than given |
| Selections.DesignEntriesSkipBlank | V2/parsing.py:242-251 | for any mix of answers, entry `k` is the table value of the `k`-th non-blank answer |
| Selections.DesignEntriesAppend | V2/parsing.py:242-251 | the entries of two answer lists in a row are the entries of their concatenation |
| Selections.AnsweredAppend | V2/parsing.py:243-246 | picking the non-blank answers distributes over concatenation |
| Selections.LabelValueNonEmpty | V2/parsing.py:247-251 | a non-empty answer never maps to an empty code |
| Selections.LabelEntries | V2/parsing.py:213-227 | a material or colour answer gives one mapped code iff it is given |
| Selections.OptionalToken | V2/parsing.py:258-260 | supplier, folder code and file token are present iff given, and then normalised tokens |
| Selections.BuildSelection | V2/parsing.py:184-262 | each field is present iff answered: material and colour mapped, height before width and both canonical, designs non-empty, the rest normalised tokens |
| Matching.ScoreSupplierSelectedPath | Product_Search_Engine/V2/matching.py:5-16 | the score lies in 1..11, is at least 4 with a whole-segment supplier match and at least 5 when the name contains `selected`; `ScoreParts` gives its exact value |
| Matching.DepthBonus | Product_Search_Engine/V2/matching.py:15 | the depth term is 1, 2 or 3, and 3 exactly at depths divisible by 3: the `max(0, …)` clamp never applies |
| Matching.ScoreParts | Product_Search_Engine/V2/matching.py:5-16 | the score is 3 for a supplier segment, plus 4 for `selected`, plus 1 for `item`, each counted once, plus the depth term |
| Matching.ScoreDependsOnNameAndDepth | Product_Search_Engine/V2/matching.py:5-16 | two paths with the same last segment and lengths equal modulo 3 score alike |
| Matching.ScoreFeatureWeights | Product_Search_Engine/V2/matching.py:9-14 | at depths equal modulo 3, the supplier segment alone adds exactly 3 and `selected` alone exactly 4 |
| Matching.FeaturesOfLast | Product_Search_Engine/V2/matching.py:6-13 | the supplier-segment and name tests read only the last segment of the path |
| Matching.ColorMatches | Product_Search_Engine/V2/matching.py:18-25 | holds iff some normalised colour occurs in the text; the segment test adds nothing; false for no colours |
| Matching.MatchesSize | Product_Search_Engine/V2/matching.py:27-35 | true for no sizes; otherwise holds iff some variant of some size occurs |
| Matching.AnySizeVariant | Product_Search_Engine/V2/matching.py:92-105 | the size loop of the scorer holds iff some variant of some size occurs |
| Matching.FileTokenMatch | Product_Search_Engine/V2/matching.py:37-43 | true without a token or one normalising to nothing; otherwise holds iff the normalised token occurs |
| Matching.AnyDesign | Product_Search_Engine/V2/matching.py:48-56 | holds iff some design code normalises to something non-empty that occurs |
| Matching.DesignMatches | Product_Search_Engine/V2/matching.py:45-56 | true for no codes; otherwise holds iff some code normalises to something non-empty that occurs |
| Matching.BlankColorVersusDesign | Product_Search_Engine/V2/matching.py:18-56 | a code normalising to nothing matches everything as a colour and nothing as a design |
| Matching.AnyContains | Product_Search_Engine/V2/matching.py:78-79 | the material test holds iff some normalised material occurs |
| Matching.NormalizeAll | Product_Search_Engine/V2/matching.py:75-77 | one normalised code per given code, in the same position |
| Matching.Checks | Product_Search_Engine/V2/matching.py:74-121 | a query has five checks in scoring order, each provided and holding exactly as the query and the text say |
| Matching.Tally | Product_Search_Engine/V2/matching.py:74-121 | every provided check either adds its weight or its name to `missing`, so score plus missing weight is the provided weight, and `missing` keeps check order |
| Matching.ComputeMatchScore | Product_Search_Engine/V2/matching.py:58-121 | score in 0..14; score + weight(missing) = weight(provided); a field is missing iff provided and failing; `missing` is ordered, duplicate-free, and empty iff the score is the full provided weight |
| Matching.MissingExactly | Product_Search_Engine/V2/matching.py:74-121 | a provided check that fails is named in `missing`, and only those; nothing is missing iff every provided check holds |
| Matching.ScoreMonotone | Product_Search_Engine/V2/matching.py:58-121 | a text passing every field test another passes scores at least as high |
| Matching.TallyMonotone | Product_Search_Engine/V2/matching.py:74-121 | passing more checks never lowers the tally |
| Matching.TallyOfChecks | Product_Search_Engine/V2/matching.py:74-121 | the tally of a query's five checks has the bounds and the missing-field meaning of the score |
| Matching.FieldWeights | Product_Search_Engine/V2/matching.py:64-73 | material, colour, size and file token weigh 3, design weighs 2 |
| Matching.ProvidedWeightOfChecks | Product_Search_Engine/V2/matching.py:74-121 | the checks of a query weigh what the query provides |
| Vocabulary.MaterialCodesDerived | Product_Search_Engine/V2/constants.py:15-24 | the material code list is the lower-cased codes of the material table, in order |
| Vocabulary.ColorCodesDerived | Product_Search_Engine/V2/constants.py:8-13 | the colour code list is the lower-cased codes of the colour table, in order |
| Vocabulary.DesignCodesDerived | Product_Search_Engine/V2/constants.py:55-59 | the design vocabulary is the set of lower-cased codes of the flattened design table |
| Vocabulary.DesignMapParts | Product_Search_Engine/V2/constants.py:55-58 | the flattened design table is the three categories one after another |
| Vocabulary.PatternCodes | Product_Search_Engine/V2/constants.py:27-35 | the pattern-type codes, lower-cased, in order |
| Vocabulary.FinishCodes | Product_Search_Engine/V2/constants.py:36-42 | the surface-finish codes, lower-cased, in order |
| Vocabulary.SpecialCodes | Product_Search_Engine/V2/constants.py:43-52 | the special-type codes, lower-cased, in order |
| Vocabulary.SupplierCodesDerived | Product_Search_Engine/V2/constants.py:61-66 | the lower-case supplier set is the image of the supplier set under lower-casing |
| Vocabulary.VocabulariesDisjoint | Product_Search_Engine/V2/constants.py:8-66 | material, colour and supplier codes never collide |
| Vocabulary.MaterialNotColor | Product_Search_Engine/V2/constants.py:8-24 | no material code is a colour code |
| Vocabulary.MaterialNotSupplier | Product_Search_Engine/V2/constants.py:15-66 | no material code is a supplier code |
| Vocabulary.ColorDesignOverlap | Product_Search_Engine/V2/constants.py:8-59 | colour and design codes share exactly `rd` and `pl` |
| Vocabulary.ColorsOutsideDesigns | Product_Search_Engine/V2/constants.py:8-59 | every other colour code is not a design code |
| Vocabulary.DesignCodeCount | Product_Search_Engine/V2/constants.py:26-59 | the design categories hold twenty distinct codes |
| Vocabulary.SupplierCodeCount | Product_Search_Engine/V2/constants.py:61-65 | twenty-six distinct supplier codes |
| Vocabulary.SupplierLowerCodeCount | Product_Search_Engine/V2/constants.py:66 | twenty-six distinct lower-case supplier codes |
| Vocabulary.SupplierCodeLetters | Product_Search_Engine/V2/constants.py:61-65 | every supplier code is four upper-case letters |
| Vocabulary.SupplierLowerCodeLetters | Product_Search_Engine/V2/constants.py:66 | every lower-case supplier code is four lower-case letters |
| Vocabulary.SupplierCodeLengths | Product_Search_Engine/V2/constants.py:61-65 | every supplier code has four characters |
| Vocabulary.SupplierLowerCodeLengths | Product_Search_Engine/V2/constants.py:66 | every lower-case supplier code has four characters |
| Vocabulary.ColorCodeLengths | Product_Search_Engine/V2/constants.py:8-13 | every colour code has two characters |
| Vocabulary.FileExtsShape | Product_Search_Engine/V2/constants.py:5 | ten lower-case extensions, each a dot and at least one more character |
| FolderTree.Preorder | V2/folder_index.py:142-154 | the stack walk visits every node of the tree exactly once, the root first |
| FolderTree.AllNodes | V2/folder_index.py:142-154 | no nodes without a tree; otherwise every node of the tree, root first |
| FolderTree.WithinWellFormed | V2/folder_index.py:77-103 | below a well-formed node every node is well formed and strictly extends its path |
| FolderTree.TrimmedName | V2/folder_index.py:88 | the trimmed name has no upper-case letter and no trailing dot |
| Strings.StripSpace | V2/folder_index.py:88 | the stripped name neither starts nor ends with white space |
| FolderTree.CandidateNorm | V2/folder_index.py:274-278 | the candidate filter's normalised name has no upper-case letter |
| FolderTree.FiltersAgree | V2/folder_index.py:274-295 | on names without zero-width characters or NBSP the tree's file filter and the candidate filter agree |
| FolderTree.SortByName | V2/folder_index.py:83 | the listing sorted by name is a permutation of it |
| FolderTree.SortedMembers | V2/folder_index.py:83 | sorting neither adds nor drops an entry |
| FolderTree.KeptFiles | V2/folder_index.py:83-94 | the files kept are exactly the listed files passing the filter, in name order |
| FolderTree.SubFolders | V2/folder_index.py:95-102 | each sub-folder's path is its parent's path plus its name |
| FolderTree.SubFoldersNamed | V2/folder_index.py:95-102 | every sub-folder is named after a directory entry, and none is `.git` |
| FolderTree.SubFoldersSorted | V2/folder_index.py:95-102 | sub-folders come in name order |
| FolderTree.SubFoldersComplete | V2/folder_index.py:95-102 | every directory entry other than `.git` becomes a sub-folder |
| FolderTree.BuildTree | V2/folder_index.py:77-103 | the node has the given path and exactly the listed files passing the filter, in name order |
| FolderTree.BuildTreeShape | V2/folder_index.py:77-103 | files kept iff they pass the filter, sorted; one sub-folder per directory entry but `.git`, sorted, none other |
| FolderTree.BuildTreeWellFormed | V2/folder_index.py:77-105 | a tree built from a non-empty root path is well formed |
| FolderIndex.CandidateOrderFollowsScore | V2/folder_index.py:27-34 | candidates order by score first; the identity key only breaks ties |
| FolderIndex.PickFrom | V2/folder_index.py:168-175 | the loop keeps a best candidate scoring at least as much as every item seen |
| FolderIndex.PickBestByScore | V2/folder_index.py:166-175 | nothing iff there are no items; otherwise an item no other item outscores |
| FolderIndex.FindSupplierSelectedFolder | V2/folder_index.py:156-181 | a node iff there is a tree; the node is in the tree and scores at least as much as every node of it |
| FolderIndex.SupplierFolderScore | V2/folder_index.py:161-181 | the chosen supplier folder scores 4..11 when some folder's own name has the supplier code as a segment |
| FolderIndex.CodeScore | V2/folder_index.py:193-198 | a node's code score is 0, 2, 5 or 7 |
| FolderIndex.ScanHits | V2/folder_index.py:190-206 | the walk keeps a hit no node outscores, and of equal scores the one nearest the parent |
| FolderIndex.FindFolderWithCode | V2/folder_index.py:183-207 | no hit without a parent or code; a hit lies under the parent |
| FolderIndex.FolderHitMeaning | V2/folder_index.py:183-207 | no hit iff no node scores; otherwise the hit scores 2, 5 or 7, the most of any node, and no equal scorer is nearer the parent |
| FolderIndex.MatchingChildren | V2/folder_index.py:214-219 | exactly the children whose normalised name has the code as a whole segment |
| FolderIndex.MatchingChildrenInOrder | V2/folder_index.py:214-219 | the matching children keep child order |
| FolderIndex.ChooseSubdirMatchingCode | V2/folder_index.py:209-220 | none without a code or node; otherwise exactly the direct children whose normalised name has the code as a segment |
| FolderIndex.Descend | V2/folder_index.py:228-264 | the descent ends at a node below where it started, and the reason given holds there |
| FolderIndex.DescendToImagesOrBranch | V2/folder_index.py:222-264 | `invalid_start` iff no start; otherwise a node below the start where the named stop condition holds |
| FolderIndex.DescentNeverCycles | V2/folder_index.py:229-233 | in a well-formed tree the descent never reports a cycle |
| FolderIndex.DescendStopsHere | V2/folder_index.py:228-261 | a fresh folder with images to stop at, no sub-folders, or several without a unique match is where the descent stops, for a reason other than a cycle |
| FolderIndex.DescendEntersSoleChild | V2/folder_index.py:246-263 | a fresh folder with no images to stop at and exactly one sub-folder is passed through: the descent goes on in that sub-folder |
| FolderIndex.DescendEntersUniqueMatch | V2/folder_index.py:251-255 | a fresh branching folder with exactly one sub-folder matching the code is passed through: the descent goes on in that sub-folder |
| FolderIndex.MatchIsChild | V2/folder_index.py:209-220 | a sub-folder chosen for matching the code is one of the node's children |
| FolderIndex.SoleChildChainEnd | V2/folder_index.py:234-263 | the end of a walk down sole sub-folders lies below the start and has images (when allowed) or not exactly one sub-folder |
| FolderIndex.NoCodeDescent | V2/folder_index.py:228-263 | without a folder code the loop ends at the end of the sole-child chain, with the reason its stop condition names |
| FolderIndex.NoCodeFollowsSoleChildren | V2/folder_index.py:222-264 | without a folder code the descent walks down sole sub-folders and stops at images, a leaf, or a branch, there with `multiple_subdirs_none_match_code` |
| FolderIndex.NoCodeStopsAtBranch | V2/folder_index.py:246-261 | without a folder code, a start folder that already branches (and shows no images to stop at) is where the descent stops, with `multiple_subdirs_none_match_code` |
| FolderIndex.NodeCandidates | V2/folder_index.py:289-298 | a folder's candidates are its files that exist on disk and have an image extension or none |
| FolderIndex.CandidatesOf | V2/folder_index.py:284-305 | the candidates of a list of folders are the candidates of each of them |
| FolderIndex.CollectCandidateFiles | V2/folder_index.py:266-306 | none without a start; otherwise exactly the qualifying files of the start and every node below it |
| FolderIndex.CandidatesUnderStart | V2/folder_index.py:284-305 | in a well-formed tree every candidate lies strictly under the start's path |
| FolderIndex.ExtensionlessIsCandidate | V2/folder_index.py:295 | a plain name without a dot passes the candidate filter |
| FolderIndex.LocateScanRoot | V2/folder_index.py:409-425 | the scan root is in the tree and below the code folder when one was found; a supplier folder is looked up iff a supplier is given |
| FolderIndex.ScanInTree | V2/folder_index.py:409-425 | everything a search scans is a candidate file of the tree |
| FolderIndex.Reasons | V2/folder_index.py:487-495 | the fail list names exactly the failing criteria, in checking order, and is empty iff none fails |
| FolderIndex.FailReasons | V2/folder_index.py:487-495 | a candidate's fail list is empty iff it passes the strict filter, and names each failing criterion |
| FolderIndex.KeepWhere | V2/folder_index.py:429-446 | the kept candidates, in order, are exactly those accepted |
| FolderIndex.SearchFiles | V2/folder_index.py:400-447 | results are the candidates in order that carry the code's signature or pass every given criterion |
| FolderIndex.Partition | V2/folder_index.py:478-499 | every candidate is matched or rejected, never both; a rejection carries the candidate's fail list |
| FolderIndex.PartitionKeeps | V2/folder_index.py:429-499 | the debug loop's matches are the plain filter's results when both judge alike |
| FolderIndex.DebugSearch | V2/folder_index.py:478-499 | the debug loop matches what the plain filter keeps, and splits every candidate |
| FolderIndex.SearchRejections | V2/folder_index.py:478-499 | the rejections are the dropped candidates, each with its non-empty ordered fail list |
| FolderIndex.DebugSearchFiles | V2/folder_index.py:449-513 | the debug search matches exactly what `search_files` returns, and every other candidate is rejected |
| FolderIndex.DebugRejections | V2/folder_index.py:449-513 | the rejections are exactly the candidates `search_files` drops, each naming the criteria it fails |
| FolderIndex.StrictMeansNothingMissing | V2/folder_index.py:438-445 | passing the strict filter is the same as the scorer missing nothing for those fields |
| FolderIndex.AnyInNormalized | V2/folder_index.py:404 | normalising materials first and then searching is the scorer's material test |
| FolderIndex.AllFieldsHold | V2/folder_index.py:363-374 | nothing is missing iff each given field holds |
| FolderIndex.ExactMeansNothingMissing | V2/folder_index.py:363-374 | a candidate is exact iff no criterion is missing |
| FolderIndex.ExactIffNothingMissing | V2/folder_index.py:363-374 | for every candidate, missing no provided criterion is missing nothing |
| FolderIndex.ClassifyCandidates | V2/folder_index.py:349-378 | exact matches are the candidates missing no provided criterion, in order; suggestions are the others scoring above zero, with their missing list and score |
| FolderIndex.ClassifiedSuggestions | V2/folder_index.py:373-378 | a suggestion is a non-exact candidate scoring above zero, with a non-empty missing list |
| FolderIndex.SearchBySelection | V2/folder_index.py:308-378 | exact matches are the candidates, in order, for which every given criterion holds |
| FolderIndex.SelectionSuggestions | V2/folder_index.py:373-378 | suggestions are the non-exact candidates scoring above zero, each with what it misses |
| FolderIndex.SearchBySelectionAsWritten | V2/folder_index.py:349-361 | as written the search raises `NameError` iff there is a candidate, and otherwise returns nothing |
| FolderIndex.SelectionSearchFails | V2/folder_index.py:349-361 | on a one-file index the search as written fails where the intended search returns the file as exact |
| FolderIndex.LoadOrBuild | V2/folder_index.py:125-137 | no tree without a root directory; the cached tree iff unforced and the cache has the current hash and a root; else a fresh build, saved when saving succeeds |
| FolderIndex.RebuildThenReload | V2/folder_index.py:125-137 | a saved rebuild is adopted again by the next unforced load for the same hash |
| FolderIndex.ForcedLoadRebuilds | V2/folder_index.py:139-140 | `rebuild` always builds the tree from the listing |
| LegacyParsing.LegacySearchable | V1/main.py:119-120 | the result holds only `[0-9a-z_]` and is no longer than the input |
| LegacyParsing.LegacySearchableOfWord | V1/main.py:119-120 | a name of word characters only changes case: underscores at the ends or in pairs survive |
| LegacyParsing.SearchableVersionsDiffer | V1/main.py:119-120 | `_A` stays `_a` in the first version, unlike the second version's `a` |
| LegacyParsing.LegacySizeToken | V1/main.py:122-127 | the canonical size is empty iff the input is; no quote, dot, space, upper-case letter or `__` |
| LegacyParsing.SizeTokenVersionsAgree | V1/main.py:122-127 | without apostrophes or typographic quotes both versions canonicalise a size alike |
| LegacyParsing.SizeTokenVersionsDiffer | V1/main.py:122-127 | an apostrophe is kept by the first version and separated by the second |
| LegacyParsing.LegacyParse | V1/main.py:134-190 | the tokens are the normalised input, and materials and colours are vocabulary codes |
| LegacyParsing.LegacyFromTokens | V1/main.py:156-190 | the loop keeps the tokens it was given and records only vocabulary codes as materials and colours |
| LegacyParsing.KindMaterial | V1/main.py:159-167 | a token is taken as a material exactly when its lower-case form is a material code |
| LegacyParsing.RunKeepsVocabulary | V1/main.py:157-179 | the loop only ever records vocabulary codes as materials and colours |
| LegacyParsing.StepAfterMaterial | V1/main.py:166-179 | after the first material each token goes to the list or slot its kind names |
| LegacyParsing.StepLists | V1/main.py:166-171 | after the first material a step leaves the prefix alone and appends the token only to the list its kind names |
| LegacyParsing.StepSlots | V1/main.py:172-179 | after the first material a leftover fills the folder code, then the supplier, and otherwise replaces the file token |
| LegacyParsing.RunAfterMaterial | V1/main.py:166-179 | after the first material the tokens land by kind, and the slots follow all leftovers |
| LegacyParsing.RunBeforeMaterial | V1/main.py:157-165 | before the first material every token goes verbatim into the prefix, and the first material starts the list |
| LegacyParsing.RunWithoutMaterial | V1/main.py:157-165 | without any material token every token goes verbatim into the prefix and nothing else is set |
| LegacyParsing.RunWithMaterial | V1/main.py:157-165 | with a material, the loop continues from the prefix before it and that code as the only material |
| LegacyParsing.RunFromMaterialState | V1/main.py:166-179 | from the state after the first material, later materials, colours and sizes append in order and the slots follow the leftovers |
| LegacyParsing.RunFieldsWithMaterial | V1/main.py:157-179 | with a material, the final state holds the tokens before it as the prefix, that code then the later materials, the later colours and sizes, and the slots of the later leftovers |
| LegacyParsing.LegacyParseMeaning | V1/main.py:134-190 | the one-pass parse is the reference parse: prefix before the first material; later materials, colours and sizes in order; first leftover the folder code, second the supplier, last the file token |
| LegacyParsing.LegacyColorMatches | V1/main.py:256-262 | holds iff some colour, as given, occurs in the text |
| LegacyParsing.LegacySizeForms | V1/main.py:264-268 | a size is looked for in three forms |
| LegacyParsing.SizeForms | V1/main.py:172-173 | each size token becomes its canonical size form, position by position |
| LegacyParsing.LegacyMatchesSize | V1/main.py:264-272 | holds iff some non-empty form of some size occurs |
| LegacyParsing.NoSizesVersionsDiffer | V1/main.py:264-272 | no sizes match nothing in the first version, everything in the second |
| LegacyExample.LegacySampleCode | V1/main.py:129-132 | the example code of the first version tokenises into its fifteen tokens |
| LegacyExample.LegacySampleParse | V1/main.py:134-190 | the example gives prefix `24_PK`, sizes `14l` and `5f`, folder code `mrp`, supplier `975`, file token `q8` |
| LegacyExample.LegacySampleEndToEnd | V1/main.py:134-190 | the raw example code parses end to end into those fields |
| LegacyTree.FirstMatch | V1/tree.py:45-54 | the sub-tree of the first entry whose name contains the code, none iff no name does |
| LegacyTree.Named | V1/tree.py:45-53 | the reference order lists only visible sub-folders strictly below the tree |
| LegacyTree.FindFirstMeaning | V1/tree.py:41-54 | the recursive search returns the first visible folder in pre-order whose name contains the code |
| LegacyTree.FindFromMeaning | V1/tree.py:45-53 | the search over the later children returns the first pre-order match among them |
| LegacyTree.FindSupplierFolder | V1/tree.py:41-54 | none iff no visible folder's name contains the supplier code; otherwise a visible folder below the tree whose name does |
| LegacyTree.FindFolderCode | V1/tree.py:57-70 | the same first-match contract for the folder code |
| LegacyTree.VisibleOrder | V1/tree.py:77-93 | the stack walk visits exactly the folders reachable through names not starting with `_`, the tree first |
| LegacyTree.Squash | V1/tree.py:82 | the squashed name holds no `_` and no space |
| LegacyTree.FirstFailing | V1/tree.py:84-88 | the first token not occurring in the squashed name, or none iff every token occurs |
| LegacyTree.Rejection | V1/tree.py:84-88 | a file gets a debug line iff it is not accepted |
| LegacyTree.ScanFiles | V1/tree.py:81-90 | each file of a folder is a match or one debug line |
| LegacyTree.ScanNodes | V1/tree.py:79-93 | over the folders, each file is a match or one debug line |
| LegacyTree.SearchFilesInTree | V1/tree.py:73-94 | matches plus debug lines number the files in visible folders |
| LegacyTree.SearchFilesMatches | V1/tree.py:73-94 | a path is a match iff it joins a visible folder's path with a file whose squashed name contains every squashed token |
| LegacyTree.MatchSound | V1/tree.py:81-90 | every match is an accepted file of a visible folder |
| LegacyTree.MatchComplete | V1/tree.py:81-90 | every accepted file of a visible folder is a match |
| LegacyTree.SearchFilesLogSound | V1/tree.py:84-88 | each debug line belongs to a rejected file and names its first failing token |
| LegacyTree.SearchFilesLogComplete | V1/tree.py:84-88 | every rejected file of a visible folder has its debug line |
| LegacyTree.NoTokensNoLog | V1/tree.py:84-88 | with no tokens nothing is logged |
| LegacyTree.NoTokensMatchAll | V1/tree.py:81-90 | with no tokens every file of a visible folder is a match |

## Left out

- Strings.LowerStr: only `A`–`Z` are lower-cased. Python's `str.lower()` maps every cased Unicode letter: `normalize_token("İ")` is `"i"` in Python but `""` in Normalize.NormalizeToken, and the Kelvin sign `"K"` behaves alike.
- Strings.StripSpace: strips ASCII white space only. Python's `str.strip()` also strips NBSP and other Unicode spaces. So `build_tree` keeps `"a.jpg "` (V2/folder_index.py:88), but FolderTree.TrimmedName keeps the NBSP and FolderTree.KeepFileName is false for that name.
- FolderIndex.PickBestByScore: the `TypeError` raised on a non-integer score (V2/folder_index.py:170-171) cannot occur, because the score function has type `T -> int`.
- FolderIndex.PickBestByScore: the tie-break on `id()`, a memory address (V2/folder_index.py:32-34), is the parameter `keyBelow`. The model claims no particular winner among equal scores.
- FolderIndex.Oracles: `os.path.isfile` (V2/folder_index.py:293) and the disk-scan fallback of the descent (V2/folder_index.py:240-245) are the oracles `isFile` and `dirHasFile`.
- FolderTree.BuildTree: `os.scandir` is a finite `Entry` listing. An unreadable directory is an empty listing. Symbolic-link loops and entries whose `is_file()` raises are not represented.
- FolderIndex.LoadOrBuild: `compute_dir_hash` (MD5 over `os.walk` and modification times, V2/folder_index.py:56-73) arrives as a plain string.
- FolderIndex.LoadOrBuild: the JSON cache is a `Cache` record with an optional hash and an optional root. A cache holding `"root": null` or non-object JSON cannot be represented.
- FolderIndex.LoadOrBuild: `save_cache`'s file write is the flag `saveOk`, and `time()` for `last_built` is left out.
- FolderIndex.SearchBySelection: the ranking and truncation of suggestions (V2/folder_index.py:380-383) are left out. The sort key applies `os.path.basename` to a tuple and raises `TypeError` whenever there is at least one suggestion, since every key is computed before the sort.
- FolderIndex.SearchBySelection: the `debug` dictionary is not built (V2/folder_index.py:385-396).
- FolderIndex.DebugSearchFiles: the `debug` dictionary and its `max_show` truncation (V2/folder_index.py:501-512) are left out; the full match and rejection lists are returned.
- FolderIndex.RelPath: paths are segment sequences. `os.path.relpath` and `os.sep` become a `/`-join of the segments below the scan root.
- FolderTree.Node: the tree is a datatype, not a dict with reserved `_path`/`_files` keys. A sub-folder actually named `_path` or `_files`, which collides with those keys in the source, is not reproduced.
- LegacyTree.SearchFilesInTree: the debug lines that `search_files_in_tree` appends to the caller's `debug_log` list (V1/tree.py:86) are returned in `Scanned.log` instead.
- LegacyTree: `build_folder_tree` (V1/tree.py:15-34) reads the disk; the V1 functions search any `Node`.
- LegacyParsing: `scan_images`, `build_dir_index`, `find_supplier_selected_folder`, `find_folder_with_code`, `search_files`, `debug_search_files` and `debug_search_files_wrapper` of V1/main.py walk the disk with `os.walk`, and are left out.
- LegacyParsing.LegacyParse: it reuses Normalize.NormalizeInput. V1's `normalize_input` differs only in not accepting `None`, which the model has no value for.
- Unicode: the zero-width and NBSP handling of `normalize_name` (V2/folder_index.py:274-278) and the typographic quotes of `normalize_size_token` are modelled as plain character tests.
- The GUI, configuration and entry points (the PySide6 classes, `V2/ui_search_tab.py`, `V2/ui_debug.py`, `V2/main.py`, `V2/config.py`), the WhatsApp client and the scratch files are not part of this model.
- `Product_Search_Engine/V1/main.py` and `Product_Search_Engine/V1/tree.py` are byte-identical to `V1/main.py` and `V1/tree.py`, and are modelled once.

## Findings

| source | as written | input that shows it | evidently intended | confidence | as-written member | corrected member |
|---|---|---|---|---|---|---|
| V2/folder_index.py:354 | `search_by_selection` calls `compute_match_score`, which the module never imports (lines 13-16 import only `score_supplier_selected_path`, `color_matches`, `matches_size`, `file_token_match`), so the loop raises `NameError` at its first candidate | an index whose root folder holds one extension-less file, searched with an empty selection | import `compute_match_score` from `.matching`: every candidate missing no provided criterion is an exact match, and every other one scoring above zero is a suggestion | not executed | FolderIndex.SearchBySelectionAsWritten, FolderIndex.SelectionSearchFails | FolderIndex.SearchBySelection, FolderIndex.SelectionSuggestions |
