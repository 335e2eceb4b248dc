# Gravity Forms merge tags, in Dafny

A model of the merge-tag machinery of the GravityFormsMergeTags WordPress plugin, with proofs about it.

- **Advanced merge tags** (`AdvancedMergeTags`). A tag is `{type:args}` or `{type:label:args}`.
  - Its argument block is read as a query string (`QueryString`).
  - `get(name)` and `post(name)` modifiers inside argument values are replaced by request parameters.
  - The type selects a resolver: a post property, post meta, an entry property, entry meta or a named callable.
  - Every occurrence of each tag found is replaced by its value. The text is scanned again until no tag is left.
  - `replace_get_variables` replaces `{get:name}` by the query parameter.
- **The `{subtotal_quantity}` tag** (`SubtotalQuantity`). It is replaced in calculation formulas by `( ( G1 + G2 + … ) + 0 )`. There is one group term `( ( price + options ) * quantity )` per product other than the field being calculated.
  - Option inputs are renumbered so that no suffix is a multiple of 10.
  - On submission, products without a valid quantity are left out.
  - On pre-render, a rewritten formula is first restored from its saved original.
- **Post content** (`PostContentMergeTags`):
  - a bare `{Field Label}` becomes `{Field Label:input id}`;
  - `{encrypted_entry_id}` becomes the entry's encrypted id;
  - the entry is found through the `eid` query parameter (decrypted when needed) or the post's `_gform-entry-id` meta;
  - the entry is cached for the request (`EntryCache`).
- **The merge-tag registry** (`MergeTagFactory`): a table of group labels and a table of tags per group. Groups and tags can be created and removed; each operation reports whether it did anything.
- **A single custom merge tag** (`MergeTag`): its sanitised text is registered with the registry and replaced in text by its value or its callback's result.

**How things are represented.**
- Each regular expression of the code is a scanner (`Scanner`). `Scan` lists the matches the way `preg_match_all` does.
- PHP's string functions and conversions are written out (`Strings`, `Php`): `str_replace`, `explode`, `trim`, `ucwords`, `is_numeric`, `intval`, `floatval(...) > 0` and truthiness.
- WordPress and Gravity Forms are reached only through lookups. These are fields of one value `Host.Env`: request parameters, posts, post meta, entries, entry meta, callables, encryption, field merge tags, labels, form meta and `GFCommon::replace_variables`.
- Forms are records (`Forms`). The subtotal code writes back only a field's calculation, so that part (`Calc`) is kept apart from the field's description (`FieldDef`).
- Where the code updates state, the model does so too:
  - the registry and the entry caches are classes whose methods modify their fields;
  - option inputs are renumbered in an array;
  - each loop of the code is a method with a loop, proved against a function that states its result.

**Where the documentation and the code differ, the model follows the code.**
- The code numbers fifteen option inputs 1 to 9, then 11 to 16 (`SubtotalQuantity.FifteenChoices`). Numbering continuing to 19 and then 21 is not what the loop at `src/SubtotalQuantity.php:205-215` does.
- `{get:name}` is handled by `replace_get_variables` only. In `replace_merge_tags` the type `get` is not a case of the switch, so that tag resolves to `""` there.

## Model

| member | source | states |
|---|---|---|
| `Strings.Find` | src/MergeTag.php:159 | the first occurrence of a needle at or after a position, or none |
| `Strings.ReplaceAll` | src/MergeTag.php:159 | `str_replace` leaves text without the needle unchanged |
| `Strings.ReplaceAllPieces` | src/AdvancedMergeTags.php:165 | `str_replace` splits the text at every occurrence of the needle and joins the pieces with the replacement |
| `Php.Trim` | src/MergeTagFactory.php:182 | the result neither starts nor ends with a listed character, and a string without one is kept |
| `Php.TrimSlice` | src/MergeTagFactory.php:182 | `trim` keeps a slice of the string, and only listed characters are cut off before and after it |
| `Php.UcWords` | src/MergeTagFactory.php:117 | `ucwords` upper-cases the first character and each one after white space, nothing else |
| `Php.NatStringNumeric` | src/SubtotalQuantity.php:286-288 | a printed natural number is numeric, and positive exactly when non-zero |
| `Php.IntValOfNat` | src/PostContentMergeTags.php:215-216 | `intval` reads back a printed natural number |
| `Php.IntValOfInt` | src/PostContentMergeTags.php:222 | `intval` reads back a printed integer |
| `Php.IntValNegativeExponent` | src/PostContentMergeTags.php:215 | `intval` applies a negative exponent: `5e-1` is 0 |
| `Php.IntValFractionExponent` | src/PostContentMergeTags.php:215 | `intval` reads the fraction before applying the exponent: `1.5e3` is 1500 |
| `Php.IntValTruncates` | src/PostContentMergeTags.php:222 | `intval` cuts a fraction toward zero: `-2.9` is -2 |
| `Scanner.TagAtIff` | src/AdvancedMergeTags.php:132 | the tag scanner finds a tag from `i` to `e` exactly when `s[i..e]` is `{`, a word, `:`, one or two argument blocks and `}` |
| `Scanner.ScanEmpty` | src/AdvancedMergeTags.php:132 | `preg_match_all` finds nothing exactly when no position starts a match |
| `Scanner.ScanWhole` | src/PostContentMergeTags.php:76 | a text that is one match from end to end is scanned as that single match |
| `Scanner.ModifierAt` | src/AdvancedMergeTags.php:181 | a modifier match is letters, `(`, argument characters, `)` |
| `Scanner.LabelAt` | src/PostContentMergeTags.php:76 | a bare label match is `{`, at least one character and no `:`, then `}` |
| `Scanner.GetVarAt` | src/AdvancedMergeTags.php:311 | a `{get:…}` match ends at a `}` |
| `Scanner.QtyAt` | src/SubtotalQuantity.php:293 | a quantity-tag match captures an input id inside the tag |
| `Scanner.FirstMatch` | src/SubtotalQuantity.php:293-294 | the first match is leftmost: no match starts before it |
| `QueryString.ParseQueryOfPairs` | src/AdvancedMergeTags.php:135 | `parse_str` of `k1=v1&k2=v2…` with distinct keys gives back exactly those pairs, in order |
| `QueryString.ParseBareKey` | src/AdvancedMergeTags.php:135 | a block that is a single key parses to that key with an empty value |
| `QueryString.ParsePieceOf` | src/AdvancedMergeTags.php:135 | a piece `k=v` is split at its first `=` |
| `Host.Get` | src/AdvancedMergeTags.php:203-206 | an argument is unset exactly when no pair has that key, and otherwise is the value of such a pair |
| `Host.Put` | src/AdvancedMergeTags.php:147 | after `$args[k] = v`, `k` maps to `v`, other keys are unchanged, and a new key is appended |
| `Host.Remove` | src/AdvancedMergeTags.php:156 | after `unset($args[k])`, `k` is unset and other keys are unchanged |
| `Host.RemoveAppend` | src/AdvancedMergeTags.php:156 | `unset` keeps the remaining pairs in their order |
| `AdvancedMergeTags.CheckForValueModifiers` | src/AdvancedMergeTags.php:179-200 | the loop's result is every modifier match replaced, in order, by its value |
| `AdvancedMergeTags.NoModifier` | src/AdvancedMergeTags.php:181-184 | a value holding no modifier is returned unchanged |
| `AdvancedMergeTags.WholeValueModifier` | src/AdvancedMergeTags.php:185-196 | a value that is exactly `name(arg)` becomes the query parameter for `get`, the POST parameter for `post`, `""` otherwise |
| `AdvancedMergeTags.ModifierAtWhole` | src/AdvancedMergeTags.php:181 | `name(arg)` with a letter name and a valid argument is a modifier match spanning the whole text |
| `AdvancedMergeTags.ModifierPairs` | src/AdvancedMergeTags.php:185-196 | one replacement per modifier match |
| `AdvancedMergeTags.PostValue` | src/AdvancedMergeTags.php:202-216 | `""` when `id` or `prop` is falsy or the post is missing; any other result is the post's property |
| `AdvancedMergeTags.PostMetaValue` | src/AdvancedMergeTags.php:218-229 | `""` when `id` or `meta_key` is falsy; when both are truthy, exactly the post meta of that post and key |
| `AdvancedMergeTags.FetchEntry` | src/AdvancedMergeTags.php:244 | an entry is found exactly when the id names a non-empty entry |
| `AdvancedMergeTags.EntrySource` | src/AdvancedMergeTags.php:237-245 | the `entry` argument when truthy; otherwise the entry of the `id` argument or else of `eid`, passed through the decryption hook |
| `AdvancedMergeTags.PropOrFirstKey` | src/AdvancedMergeTags.php:246-248 | the named argument when truthy, else the first argument key |
| `AdvancedMergeTags.EntryValue` | src/AdvancedMergeTags.php:231-255 | `""` when there is no entry or no property; otherwise the entry's value for the property |
| `AdvancedMergeTags.EntryMetaId` | src/AdvancedMergeTags.php:263-269 | the `id` argument, else `eid`, else the entry argument's id |
| `AdvancedMergeTags.EntryMetaValue` | src/AdvancedMergeTags.php:257-282 | `""` when the id or the key is still falsy; otherwise the entry meta of the (decrypted) id |
| `AdvancedMergeTags.CallbackValue` | src/AdvancedMergeTags.php:284-295 | `""` when the callback is not callable; otherwise its result for the remaining arguments |
| `AdvancedMergeTags.TagMatchOf` | src/AdvancedMergeTags.php:134 | a match's text is the matched slice and holds exactly one `{` |
| `AdvancedMergeTags.TagMatches` | src/AdvancedMergeTags.php:132-133 | one tag per scanner match, in order |
| `AdvancedMergeTags.TagMatchesEmpty` | src/AdvancedMergeTags.php:132 | no tag is found exactly when no position starts one |
| `AdvancedMergeTags.TagMatchInText` | src/AdvancedMergeTags.php:133-134 | every tag found occurs in the text and holds exactly one `{` |
| `AdvancedMergeTags.ApplyModifiers` | src/AdvancedMergeTags.php:136 | the argument keys and their order are kept; every string value has its modifiers replaced, other values are kept |
| `AdvancedMergeTags.PlainArgsKept` | src/AdvancedMergeTags.php:136 | arguments whose values hold no modifier pass through unchanged |
| `AdvancedMergeTags.TagValue` | src/AdvancedMergeTags.php:137-164 | an unknown type (compared case-sensitively) gives `""`; an array or object gives `""`; a scalar gives its text |
| `AdvancedMergeTags.KnownEntry` | src/AdvancedMergeTags.php:126-128 | an entry whose id is null or empty is treated as no entry |
| `AdvancedMergeTags.PostTag` | src/AdvancedMergeTags.php:139-141 | `{post:id=I&prop=P}` resolves to the property `P` of post `I` |
| `AdvancedMergeTags.BareKeyArgs` | src/AdvancedMergeTags.php:135-136 | a block of one bare key gives that key with an empty value |
| `AdvancedMergeTags.EntryTagArgs` | src/AdvancedMergeTags.php:146-147 | an `entry` tag's arguments gain the entry after the key |
| `AdvancedMergeTags.EntryTag` | src/AdvancedMergeTags.php:146-148 | `{entry:K}` with a known entry is that entry's value for `K` |
| `AdvancedMergeTags.EntryMetaTag` | src/AdvancedMergeTags.php:150-152 | `{entry_meta:K}` with a known entry and no `eid` is the meta `K` of that entry |
| `AdvancedMergeTags.CallbackArgsOfBareKey` | src/AdvancedMergeTags.php:155-157 | the first key becomes the callback name, is removed as an argument, and the entry is added |
| `AdvancedMergeTags.RemoveCallback` | src/AdvancedMergeTags.php:285-286 | the callable receives the arguments without `callback` |
| `AdvancedMergeTags.CallbackTag` | src/AdvancedMergeTags.php:154-158 | `{callback:F}` calls `F` with only the entry when `F` is callable, and is `""` otherwise |
| `AdvancedMergeTags.Pairs` | src/AdvancedMergeTags.php:133-165 | each tag is paired with the value that replaces it |
| `AdvancedMergeTags.LoopStep` | src/AdvancedMergeTags.php:132-167 | a scan that finds tags replaces them, then scans again |
| `AdvancedMergeTags.LoopDone` | src/AdvancedMergeTags.php:132-167 | the loop reports completion exactly when the text it reaches holds no tag |
| `AdvancedMergeTags.LoopKeeps` | src/AdvancedMergeTags.php:132-167 | one turn of the `while` leaves unchanged the text and outcome the loop reaches |
| `AdvancedMergeTags.LoopOutOfFuel` | src/AdvancedMergeTags.php:132 | without scans left, text with tags is returned incomplete |
| `AdvancedMergeTags.ReplacePass` | src/AdvancedMergeTags.php:133-166 | the `foreach` replaces every tag found, one `str_replace` after the other |
| `AdvancedMergeTags.RunLoop` | src/AdvancedMergeTags.php:132-167 | the `while` computes `ReplaceLoop` |
| `AdvancedMergeTags.ReplaceMergeTags` | src/AdvancedMergeTags.php:124-170 | when the loop completes, no substring of the result has the shape of a tag |
| `AdvancedMergeTags.NoTagText` | src/AdvancedMergeTags.php:132 | text in which the scanner finds no tag has no substring of the shape of a tag |
| `AdvancedMergeTags.PassRemovesBrace` | src/AdvancedMergeTags.php:133-166 | with values free of `{`, each scan removes at least one `{` |
| `AdvancedMergeTags.EnoughFuel` | src/AdvancedMergeTags.php:132-167 | the loop ends when there are as many scans as `{` and no value holds a `{` |
| `AdvancedMergeTags.GetVarPairs` | src/AdvancedMergeTags.php:311-324 | one replacement per `{get:…}` match |
| `AdvancedMergeTags.ReplaceGetVariables` | src/AdvancedMergeTags.php:307-328 | every `{get:name}` is replaced by the parameter `name`; text without one is returned unchanged |
| `AdvancedMergeTags.ReplaceGetMatches` | src/AdvancedMergeTags.php:315-325 | the `foreach` replaces each `{get:…}` match in turn by its parameter |
| `AdvancedMergeTags.GetVariableWhole` | src/AdvancedMergeTags.php:311-324 | a text that is exactly `{get:name}` becomes the parameter, `""` when absent |
| `SubtotalQuantity.FieldsOfProduct` | src/SubtotalQuantity.php:265-268 | exactly the fields of that type belonging to the product |
| `SubtotalQuantity.FieldsOfType` | src/SubtotalQuantity.php:279 | exactly the fields of that type |
| `SubtotalQuantity.FieldsOfTypeAppend` | src/SubtotalQuantity.php:279 | the fields of a type keep form order: those of a prefix come first |
| `SubtotalQuantity.FieldsOfProductAppend` | src/SubtotalQuantity.php:266-270 | the fields of a product keep form order: those of a prefix come first |
| `SubtotalQuantity.ProductGroups` | src/SubtotalQuantity.php:259-277 | the `k`-th group is the group of the `k`-th `product` field, in form order, with its options and first quantity field, and there is one per product field |
| `SubtotalQuantity.GetPricingFields` | src/SubtotalQuantity.php:255-282 | the loop builds the groups and the shipping fields |
| `SubtotalQuantity.ChoiceNumberIsNth` | src/SubtotalQuantity.php:205-215 | the `n`-th choice number is never a multiple of 10 and is the `n`-th such positive number |
| `SubtotalQuantity.ChoiceNumberNext` | src/SubtotalQuantity.php:210-214 | the counter moves to the next number, skipping a multiple of 10 |
| `SubtotalQuantity.ChoiceNumberIncreasing` | src/SubtotalQuantity.php:205-215 | the suffixes strictly increase |
| `SubtotalQuantity.FifteenChoices` | src/SubtotalQuantity.php:205-215 | fifteen inputs get 1 to 9, then 11 to 16 |
| `SubtotalQuantity.RenumberedInputs` | src/SubtotalQuantity.php:207-215 | input `k` becomes `fieldId.choice(k + 1)`, its label unchanged |
| `SubtotalQuantity.RenumberInputs` | src/SubtotalQuantity.php:203-217 | the array is renumbered in place |
| `SubtotalQuantity.NthTag` | src/SubtotalQuantity.php:182 | a missing tag reads as `""` |
| `SubtotalQuantity.QuantityTag` | src/SubtotalQuantity.php:171-192 | a quantity field's first tag wins; else the third tag of a single product with quantity enabled; else `1` |
| `SubtotalQuantity.ProductTags` | src/SubtotalQuantity.php:174-186 | a single product keeps only its second tag; others keep all tags |
| `SubtotalQuantity.RenumberedOption` | src/SubtotalQuantity.php:203-217 | only an inputs array is renumbered, nothing else changes |
| `SubtotalQuantity.OptionFieldTags` | src/SubtotalQuantity.php:219-226 | a checkbox field's tags lose their first element |
| `SubtotalQuantity.CollectFieldTags` | src/SubtotalQuantity.php:201-229 | the loop body renumbers one option field's inputs in an array and takes its tags, the first dropped for a checkbox |
| `SubtotalQuantity.CollectOptionTags` | src/SubtotalQuantity.php:199-231 | the loop gathers every option field's tags in order |
| `SubtotalQuantity.QtyInputId` | src/SubtotalQuantity.php:293-294 | no match gives an empty id |
| `SubtotalQuantity.ConstantQuantity` | src/SubtotalQuantity.php:286-288 | a numeric quantity is valid exactly when positive; `1` always is |
| `SubtotalQuantity.QtyInputIdOf` | src/SubtotalQuantity.php:293-294 | the id captured from `{name:n.m}` is `n.m` |
| `SubtotalQuantity.BraceNotNumeric` | src/SubtotalQuantity.php:286 | a tag starting with `{` is not numeric |
| `SubtotalQuantity.PostedInputName` | src/SubtotalQuantity.php:295 | input `n.m` is posted as `input_n_m` |
| `SubtotalQuantity.InputQuantity` | src/SubtotalQuantity.php:284-300 | `{name:n.m}` is valid exactly when the posted `input_n_m` is positive |
| `SubtotalQuantity.QtyColonSkip` | src/SubtotalQuantity.php:293 | the lazy prefix passes over characters that are neither `{` nor `:` |
| `SubtotalQuantity.QtyRestOf` | src/SubtotalQuantity.php:293 | `digits.digits}` is an input id that closes the tag |
| `SubtotalQuantity.Contributing` | src/SubtotalQuantity.php:165-168 | a group contributes exactly when its product is not the current field and, when filtering, its quantity is valid |
| `SubtotalQuantity.TermsStep` | src/SubtotalQuantity.php:159-235 | one more product adds its term exactly when it is kept |
| `SubtotalQuantity.ProductGroupTerm` | src/SubtotalQuantity.php:161-233 | the loop body decides whether to keep a group and builds its term |
| `SubtotalQuantity.AddGroupTerm` | src/SubtotalQuantity.php:161-233 | one turn of the loop appends the term of product `k` exactly when its group contributes |
| `SubtotalQuantity.GroupTerms` | src/SubtotalQuantity.php:159-235 | the loop collects the terms of the contributing groups |
| `SubtotalQuantity.SubtotalMergeTagString` | src/SubtotalQuantity.php:154-247 | the result is `( ( terms joined by " + " ) + 0 )` |
| `SubtotalQuantity.TwoProductExample` | src/SubtotalQuantity.php:154-247 | products A and B, quantity field of B, target A give `( ( ( ( {B:1} ) * {B:3} ) ) + 0 )` |
| `SubtotalQuantity.ExampleGroups` | src/SubtotalQuantity.php:259-277 | the example form has two groups, the quantity field under B |
| `SubtotalQuantity.ExampleContributing` | src/SubtotalQuantity.php:165-168 | only B contributes to A's formula |
| `SubtotalQuantity.ExampleTerm` | src/SubtotalQuantity.php:233 | B's term is `( ( {B:1} ) * {B:3} )` |
| `SubtotalQuantity.FieldHasSubtotalMergeTag` | src/SubtotalQuantity.php:390-394 | true exactly when the field has a formula containing the tag |
| `SubtotalQuantity.FormHasSubtotalMergeTag` | src/SubtotalQuantity.php:379-387 | true exactly when some field has the tag |
| `SubtotalQuantity.SubtotalFields` | src/SubtotalQuantity.php:364-374 | exactly the fields with the tag or already rewritten |
| `SubtotalQuantity.SubtotalFieldsAppend` | src/SubtotalQuantity.php:364-374 | the subtotal fields are listed in form order |
| `SubtotalQuantity.GetSubtotalFields` | src/SubtotalQuantity.php:364-374 | the loop gathers those fields |
| `SubtotalQuantity.Restored` | src/SubtotalQuantity.php:126-128 | outside pre-render nothing is restored |
| `SubtotalQuantity.ReplacedCalc` | src/SubtotalQuantity.php:126-137 | a formula without the tag is only restored; one with it is saved, has every tag replaced and is flagged |
| `SubtotalQuantity.ReplacedFields` | src/SubtotalQuantity.php:124-139 | each field is rewritten with its own formula |
| `SubtotalQuantity.MaybeReplaceSubtotalMergeTag` | src/SubtotalQuantity.php:122-142 | the in-place loop gives the rewritten form |
| `SubtotalQuantity.ReplaceFieldCalc` | src/SubtotalQuantity.php:126-137 | one field's calculation: the saved formula is restored on pre-render, and a formula holding the subtotal tag is saved and has the tag replaced by the subtotal formula of the form as it stands |
| `SubtotalQuantity.MaybeReplaceSubtotalMergeTagSubmission` | src/SubtotalQuantity.php:144-146 | the submission rewrite filters on valid quantities |
| `SubtotalQuantity.ReplacedFormShape` | src/SubtotalQuantity.php:122-142 | the form id and every field description are kept |
| `SubtotalQuantity.TaggedFormulaTruthy` | src/SubtotalQuantity.php:126 | a saved formula with the tag is truthy, so it is always restored |
| `SubtotalQuantity.ReplacedCalcTwice` | src/SubtotalQuantity.php:126-137 | rewriting one formula twice on pre-render is rewriting it once |
| `SubtotalQuantity.PreRenderIdempotent` | src/SubtotalQuantity.php:122-142 | a second pre-render rewrite gives the same form |
| `PostContentMergeTags.FirstLabelledInput` | src/PostContentMergeTags.php:92-98 | the first input whose label matches, or none when no input's does |
| `PostContentMergeTags.FieldAnswer` | src/PostContentMergeTags.php:87-102 | whether the field answers to the label (admin label or label) and the input id it yields |
| `PostContentMergeTags.FirstAnswering` | src/PostContentMergeTags.php:85-106 | the first field in form order that answers; none before it does |
| `PostContentMergeTags.FindLabelledInput` | src/PostContentMergeTags.php:92-98 | the input loop finds the first matching input |
| `PostContentMergeTags.FindInputId` | src/PostContentMergeTags.php:85-114 | the field loop stops at the first answering field |
| `PostContentMergeTags.LabelPairs` | src/PostContentMergeTags.php:81-111 | one replacement per bare label match |
| `PostContentMergeTags.ReplaceFieldLabelMergeTags` | src/PostContentMergeTags.php:74-119 | the nested loops rewrite every bare label match, in order |
| `PostContentMergeTags.RewriteLabelMatch` | src/PostContentMergeTags.php:83-115 | one match is rewritten to `{name:id}` when a field answers with an id, and left alone otherwise |
| `PostContentMergeTags.ReplaceSelf` | src/PostContentMergeTags.php:108-111 | a match left as it is changes nothing |
| `PostContentMergeTags.NoLabelTag` | src/PostContentMergeTags.php:76-79 | text without a bare label is unchanged |
| `PostContentMergeTags.WholeLabelTag` | src/PostContentMergeTags.php:108-111 | `{name}` becomes `{name:id}` for the first answering field with an id, else stays |
| `PostContentMergeTags.LabelledFieldId` | src/PostContentMergeTags.php:99-102 | a single-input field labelled `name`, first in the form, gives its own id |
| `PostContentMergeTags.PostContentMergeTags.constructor` | src/PostContentMergeTags.php:45-48 | `auto_append_eid` defaults to `true`, `encrypt_eid` to `false` |
| `PostContentMergeTags.PostContentMergeTags.IsAutoEidEnabled` | src/PostContentMergeTags.php:227-240 | true exactly for the setting `true` or a list holding the form id |
| `PostContentMergeTags.PostContentMergeTags.PrepareEid` | src/PostContentMergeTags.php:160-170 | encrypted when asked to and possible, otherwise unchanged |
| `PostContentMergeTags.PostContentMergeTags.MaybeDecryptEntryId` | src/PostContentMergeTags.php:208-225 | none exactly for a falsy id; a positive numeric id passes when encryption is off; otherwise the integer of the decrypted value |
| `PostContentMergeTags.PostContentMergeTags.GetEntryId` | src/PostContentMergeTags.php:193-206 | `eid` (decrypted) when truthy; otherwise exactly the current post's truthy `_gform-entry-id` meta, else none |
| `PostContentMergeTags.PostContentMergeTags.ExponentIdNotKept` | src/PostContentMergeTags.php:215-222 | `5e-1` is not a positive id, so it is read as entry 0 rather than passed through |
| `PostContentMergeTags.PostContentMergeTags.GetEntry` | src/PostContentMergeTags.php:172-191 | a cached entry is returned without lookup; otherwise the entry found is cached |
| `PostContentMergeTags.PostContentMergeTags.ReplaceMergeTags` | src/PostContentMergeTags.php:59-72 | without an entry the content is unchanged; otherwise labels, then Gravity Forms variables, are replaced |
| `PostContentMergeTags.PostContentMergeTags.EncryptedEntryIdReplaced` | src/PostContentMergeTags.php:121-134 | text without `{encrypted_entry_id}` is unchanged; otherwise the text splits at every occurrence of the tag into pieces free of it, joined by the entry's id, prepared when truthy |
| `PostContentMergeTags.PostContentMergeTags.EncryptedTagAlone` | src/PostContentMergeTags.php:128-133 | the tag alone becomes the prepared id of an entry with an id |
| `PostContentMergeTags.PostContentMergeTags.PlainIdKept` | src/PostContentMergeTags.php:215-216 | a printed positive id passes unchanged when encryption is off |
| `PostContentMergeTags.PostContentMergeTags.EncryptedIdRead` | src/PostContentMergeTags.php:217-222 | an encrypted id that decrypts to a printed id reads back as that id |
| `Host.PostEntryId` | src/PostContentMergeTags.php:200-205 | the current post's entry-id meta exactly when there is a post and the meta is truthy |
| `EntryCache.FetchedEntry` | src/PostContentMergeTags.php:176-184 | an entry only for a truthy id naming a non-empty entry, and always then |
| `EntryCache.EntryCache.Lookup` | src/MergeTag.php:169-185 | a cached entry is kept and returned; otherwise the entry found is cached, and a failure leaves the cache empty |
| `EntryCache.EntryCache.constructor` | src/MergeTag.php:38 | the cache starts empty |
| `MergeTagFactory.DefaultGroupLabelChars` | src/MergeTagFactory.php:117 | the default label has `-` and `_` as spaces and each word's first letter upper-cased |
| `MergeTagFactory.SanitizeMergeTag` | src/MergeTagFactory.php:181-185 | the result is wrapped in braces around the sanitised, trimmed tag |
| `MergeTagFactory.SanitizeWithBraces` | src/MergeTagFactory.php:182 | a tag may be given with or without its braces |
| `MergeTagFactory.SanitizeIdempotent` | src/MergeTagFactory.php:181-185 | sanitising twice is sanitising once |
| `MergeTagFactory.CreateGroupEffect` | src/MergeTagFactory.php:105-121 | created exactly for a new slug, with its label and an empty table; otherwise no change |
| `MergeTagFactory.RemoveGroupEffect` | src/MergeTagFactory.php:130-145 | removed exactly for an existing slug, from both tables; other groups unchanged |
| `MergeTagFactory.CreateThenRemove` | src/MergeTagFactory.php:105-145 | removing a group just created restores the tables |
| `MergeTagFactory.AddTagEffect` | src/MergeTagFactory.php:155-170 | the tag maps to `{tag, label}` in its group; every other tag is unchanged |
| `MergeTagFactory.AddTagOverwrites` | src/MergeTagFactory.php:165-168 | adding the same tag again overwrites its label |
| `MergeTagFactory.RemoveTagEffect` | src/MergeTagFactory.php:195-209 | removed exactly when group and tag exist, and only that tag; otherwise no change |
| `MergeTagFactory.AddThenRemoveTag` | src/MergeTagFactory.php:155-209 | removing a tag just added to an existing group restores the tables |
| `MergeTagFactory.OperationsKeepConsistent` | src/MergeTagFactory.php:105-209 | every group keeps both a label and a tag table |
| `MergeTagFactory.AddTagLabelled` | src/MergeTagFactory.php:155-168 | a tag added under its slug lands in a labelled group |
| `MergeTagFactory.AddTagAsWrittenUnlabelled` | src/MergeTagFactory.php:155-168 | as written, a tag added to `My Group` is filed in a group without a label |
| `MergeTagFactory.RemoveTagAsWrittenMisses` | src/MergeTagFactory.php:195-208 | as written, removing from `My Group` misses the tag stored in `my-group` |
| `MergeTagFactory.MergeTagFactory.constructor` | src/MergeTagFactory.php:75-80 | both tables start empty |
| `MergeTagFactory.MergeTagFactory.GroupExists` | src/MergeTagFactory.php:92-94 | a key of either table |
| `MergeTagFactory.MergeTagFactory.CreateMergeGroup` | src/MergeTagFactory.php:105-121 | the tables become `CreateGroup` of the old ones under the sanitised slug |
| `MergeTagFactory.MergeTagFactory.RemoveMergeGroup` | src/MergeTagFactory.php:130-145 | the tables become `RemoveGroup` of the old ones |
| `MergeTagFactory.MergeTagFactory.AddMergeTag` | src/MergeTagFactory.php:155-170 | the tables become `AddTag` of the old ones, under the sanitised slug |
| `MergeTagFactory.MergeTagFactory.RemoveMergeTag` | src/MergeTagFactory.php:195-209 | the tables become `RemoveTag` of the old ones, under the sanitised slug |
| `MergeTag.RegisteredTag` | src/MergeTag.php:87-101 | the constructed tag is registered under its own text in a labelled group (`Custom` by default) |
| `MergeTag.RegisteredAsWrittenUnlabelled` | src/MergeTag.php:90-101 | as written, a group whose name differs from its slug leaves the tag in an unlabelled group of the raw name |
| `MergeTag.TagReplaced` | src/MergeTag.php:149-151 | text without the tag is unchanged |
| `MergeTag.TagReplacedEvery` | src/MergeTag.php:149-159 | every occurrence is replaced: the text splits at each occurrence of the tag into pieces free of it, and the result joins them with the value |
| `MergeTag.TagAloneIsValue` | src/MergeTag.php:159 | text that is just the tag becomes the value |
| `MergeTag.SanitizedOneBrace` | src/MergeTag.php:87 | a sanitised tag holds exactly one `{` |
| `MergeTag.TagReplacedConsumesTag` | src/MergeTag.php:149-159 | with a value free of `{`, text holding a sanitised tag loses at least one `{`, and no text gains one |
| `MergeTag.GetEntryId` | src/MergeTag.php:193-206 | `eid` as given first, then the post meta, else none; any result is truthy |
| `MergeTag.MergeTag.constructor` | src/MergeTag.php:77-106 | the sanitised tag is stored, callback or value as given, and the tag is registered |
| `MergeTag.MergeTag.GetMergeTag` | src/MergeTag.php:113-115 | the stored tag, wrapped in braces |
| `MergeTag.MergeTag.GformReplaceMergeTags` | src/MergeTag.php:147-160 | text without the tag is unchanged; otherwise the text splits at every occurrence of the tag into pieces free of it, joined by the callback's result, or else the value |
| `MergeTag.MergeTag.GetEntry` | src/MergeTag.php:167-186 | a cached entry is returned without lookup; otherwise the entry found is cached |
| `MergeTag.MergeTag.ReplaceMergeTags` | src/MergeTag.php:124-136 | without an entry the content is unchanged; otherwise Gravity Forms variables are replaced |

## Left out

- `AdvancedMergeTags.ReplaceMergeTags`: the re-scan loop is cut after `fuel` scans. The code has no bound, and a resolver that returns another tag can make it loop for ever. `EnoughFuel` shows that a fuel of the number of `{` suffices when no value holds a `{`.
- Hook registration (`add_filter`, `add_action`) in every constructor is left out: it is host event plumbing. The same goes for the `class_exists('GFForms')` early returns.
- The emitted JavaScript is left out: `subtotal_script`, `add_merge_tags` of `SubtotalQuantity` and of `MergeTagFactory`.
- The fee and total arithmetic is left out: `get_fee`, `calc_fee`, `gform_calculation_result`. It is floating-point and reads the host's totals.
- `append_eid_parameter` is left out: it rewrites URLs with `add_query_arg`.
- Also left out: `support_dynamic_population_merge_tags`, `support_default_value_and_html_content_merge_tags`, `save_source_post_id` and `support_html_field_merge_tags`.
- `replace_get_variables` keeps only its match-and-replace steps. `stripslashes_deep`, array values joined with a glue, `urlencode`, `esc_html` and the `gpamt_*` filters are left out.
- Foreign calls are fields of `Host.Env` or parameters. This covers:
  - encryption and decryption, with `rawurlencode` folded into `encrypt`;
  - the `gw_post_content_merge_tags` decryption hook;
  - `GFAPI::get_entry`, `GFFormsModel::get_lead`, `get_post`, `get_post_meta`, `gform_get_meta`;
  - `GFCommon::get_field_merge_tags`, `GFFormsModel::get_label`, `GFFormsModel::get_form_meta`, `GFCommon::replace_variables`;
  - `sanitize_title_with_dashes` and `sanitize_html_class`.

  Which values are callable is also given by the caller, not decided by the model.
- The decryption hook `AdvancedMergeTags` calls is an `Env` field. It is not tied to `PostContentMergeTags.PostContentMergeTags.MaybeDecryptEntryId` of a particular instance.
- `GFCommon::get_product_fields_by_type` and `GFCommon::get_fields_by_type` are not part of this model. Their documented selection (fields of a type, belonging to a product) is written out in `FieldsOfProduct` and `FieldsOfType`.
- PHP's loose `==` is modelled as equality of strings or of natural numbers. Field ids are natural numbers and input ids strings.
- `is_numeric` follows PHP 8 for strings. Leading white space is allowed, and trailing white space is not modelled.
- `Php.IntVal` reads the digits, fraction and exponent in exact decimal arithmetic and cuts toward zero. It does not round through a double, and it is not clamped to the platform's integer range, so very long numbers or large exponents give values PHP would not.
- `Php.FloatPositive`: an exponent that underflows a double, such as `1e-999`, still counts as positive, where PHP's `floatval` gives 0.
- Resolver results that are arrays or objects are one value `Composite`. A post-meta array used as an entry id counts as no id.
- `extract()` is modelled by looking each variable up in the argument array. A truthy string passed as `entry` is treated as no entry; the code would index the string.
- The check `is_array($new_options_tags)` cannot fail in the model: merge-tag lists are always lists.
- Numeric callback keys are not modelled; `array_shift(array_keys(...))` gives the first key as a string.
- `SubtotalQuantity.FieldHasSubtotalMergeTag`: does not set `hasSubtotal`. Fields are objects in the code, so the write at src/SubtotalQuantity.php:391 reaches the form's field. The model loses that a field found this way keeps the flag for later calls (`get_subtotal_fields`, the script and the calculation hooks) after its formula no longer holds the tag.
- The renumbering of option inputs through `&$input` (src/SubtotalQuantity.php:207-215) is computed but not written back to the form. Whether the code's write reaches the form depends on how `GF_Field` hands out its `inputs`, which is not part of this model; the model's form keeps its original input ids.
- `MergeTag.MergeTag.GetMergeTag`: states that the tag is wrapped in braces. That it is the sanitised text is stated by the constructor.
- `MergeTag.MergeTag.constructor`, `MergeTag.Registered` and `MergeTag.RegisteredTag` register the tag under the group's slug, the corrected behaviour of the first finding below. The code hands the raw group to `add_merge_tag`; `MergeTag.RegisteredAsWritten` models that.
- `MergeTag.ValueOrCallback` keeps string values only. Another non-callable value, such as `null` or a number, is taken as its string form.

## Findings

| source | as written | input that shows it | evidently intended | confidence | as-written member | corrected member |
|---|---|---|---|---|---|---|
| src/MergeTagFactory.php:155-168 | `add_merge_tag` tests for and files the tag under the raw `$group`, while `create_merge_group` stores the group under `sanitize_title_with_dashes($group)` | `add_merge_tag('{t}', 'T', 'My Group')` on an empty registry creates the labelled group `my-group` with no tags, and files `{t}` under `My Group`, which has no label | file the tag under the sanitised slug, the group `create_merge_group` made | high, not executed | `MergeTagFactory.AddTagAsWrittenUnlabelled` | `MergeTagFactory.MergeTagFactory.AddMergeTag` |
| src/MergeTag.php:90-101 | the constructor creates the group under its slug, then hands the raw `$merge_group` to `add_merge_tag`, so it inherits the first row's bug | `new MergeTag('{t}', 'T', 'v', 'My Group')` on an empty registry leaves `my-group` empty and files `{t}` under the unlabelled `My Group` | the tag lands in the labelled group `my-group` | high, not executed | `MergeTag.RegisteredAsWrittenUnlabelled` | `MergeTag.RegisteredTag` |
| src/MergeTagFactory.php:195-208 | `remove_merge_tag` looks the group up by the raw `$group`, while `remove_merge_group` sanitises it | with `{t}` stored in `my-group`, `remove_merge_tag('{t}', 'My Group')` returns false and keeps the tag, though `remove_merge_group('My Group')` removes that group | look the group up by its sanitised slug | high, not executed | `MergeTagFactory.RemoveTagAsWrittenMisses` | `MergeTagFactory.MergeTagFactory.RemoveMergeTag` |
