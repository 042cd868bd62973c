# vCard editor: a verified model of its data pipeline

The application is a single-page vCard editor (`script.js`). It takes the text
of a `.vcf` file and splits it into entities at every `\n\n`, cutting at the
leftmost occurrence first, so a run of three line feeds leaves one at the start
of the next entity and four give an empty entity in between. Each entity is
parsed line by line into an ordered key/value table, `vCardDataModel[i].data`.
Keys are checked against the `VALID_KEYS` grammar and values against the
per-property `VALUE_PATTERNS`. The user edits values in place. On download,
every entity is *prepared* for the chosen target version (2.1, 3.0 or 4.0):
version 2.1 repairs a missing `N` from `FN`, and each version deletes the
keys it does not allow. The prepared entities are then written back as
`BEGIN:VCARD` / `VERSION:` / `key:value` / `END:VCARD` blocks.

Modules, in pipeline order:

- `Wrappers`: `Option` and `Result`.
- `Text`: JavaScript's `split`, `join`, `startsWith` and `indexOf` on strings.
  Splitting cuts at the leftmost occurrences and always yields at least one piece.
- `Props`: a JavaScript object used as a dictionary. It is a sequence of
  `Prop(key, value)` in insertion order with distinct keys. Assignment
  overwrites in place or appends; `delete` filters the key out.
- `Grammar`: the `VALID_KEYS` regular expression. A key is valid when it is one
  of the listed property names, optionally followed by `;` and parameters.
  The parameter text is empty, or contains `=`, and has no line terminator.
- `Validation`: the `VALUE_PATTERNS` table and `validateInput`. Each regular
  expression is a predicate over characters. `\w` is `[A-Za-z0-9_]` and `\s`
  is ECMAScript's white-space and line-terminator set. Also the sweep
  `validateAllInputs`.
- `Parser`: `parseEntity` as a fold of `Step` over the lines of a block.
  `displayVCard` is the map of that fold over the blocks of a text, and
  `Session.Load` is its loop.
- `Versions`: `prepare`, both as a specification (`Prepared`) and as the
  method `Prepare`, which copies, repairs and deletes key by key.
- `Serializer`: the lines `downloadVCard` assembles and the text it joins.
  It also proves the round trip: exported text loads back as the prepared
  entities.
- `Editor`: the page state as a class. It holds the collection, the loader,
  the in-place edit of line 120 and the export.
- `Scenarios`: worked cases, including the start-up text of line 28.

In these details the model follows the code exactly:

- `validateInput` looks up the whole key. A key with parameters, such as
  `TEL;TYPE=WORK`, therefore has no pattern and accepts any value.
- An empty block (for example after a trailing blank line) still becomes an
  entity with no properties.
- A file with CRLF line ends has no `\n\n` and loads as a single entity: later
  cards overwrite the keys of earlier ones, values keep their trailing `\r`,
  and each `\r` separator line is alerted as an invalid key.
- The 2.1 repair tests `N` and `FN` for JavaScript truthiness, so an empty
  string counts as missing.
- Pruning deletes exact keys only; `GENDER;X=1` survives a 2.1 export.
- The exported text ends with `END:VCARD`, a line feed and the empty string
  of the last entity. It therefore ends in `"\n"`, not in a blank line. The
  entities are separated by `"\n\n"`.

Failures:

- An unknown version shows an alert, and then `keysToDelete[version].forEach`
  throws.
- A 2.1 export of an entity with neither `N` nor `FN` returns `undefined`, and
  `Object.entries(undefined)` then throws.

Both therefore abort the whole download. The model gives `Err(UnknownVersion)`
or `Err(MissingName)` from the first entity that fails. An empty collection
exports as the empty text.

## Model

| member | source | states |
|---|---|---|
| Text.IndexOf | script.js:84 | the result is the first occurrence of the separator at or after the start, or there is none |
| Text.JoinSplit | script.js:84-85 | joining the pieces of a split with the same separator gives back the original string |
| Text.SplitPiecesFree | script.js:48 | no piece of a split contains the separator |
| Text.SplitJoinLines | script.js:71 | lines free of the line feed, joined by a line feed and split again, give back the same lines |
| Props.GetPresent | script.js:201-203 | a lookup finds a value exactly when the key is present, and that pair is a member |
| Props.GetMember | script.js:201-203 | with distinct keys, a member pair is what the lookup of its key returns |
| Props.PutSemantics | script.js:100 | after an assignment the key reads the new value and every other key reads as before; the key order is unchanged when the key was present, else the key is appended |
| Props.PutInPlace | script.js:120 | assigning a present key replaces that one entry at its position |
| Props.PutAbsent | script.js:100 | assigning an absent key appends one entry |
| Props.PutMembers | script.js:100 | after an assignment every pair is the new pair or an old one |
| Props.PutDistinct | script.js:100 | assignment keeps the keys distinct |
| Props.DeleteSemantics | script.js:220 | after `delete` the key is absent, every other key reads as before, and the pairs are exactly the old pairs with other keys |
| Props.WithoutSemantics | script.js:219-221 | deleting a list of keys removes exactly the pairs with those keys and leaves every other lookup unchanged |
| Props.WithoutAppend | script.js:219-221 | deleting keys from a concatenation deletes them from each part |
| Props.WithoutAbsent | script.js:219-221 | deleting keys that are not present changes nothing |
| Props.DeleteIsWithout | script.js:220 | deleting one key is deleting the one-element list |
| Props.WithoutThenDelete | script.js:219-221 | deleting a list and then one more key is deleting the extended list |
| Props.WithoutDistinct | script.js:219-221 | deleting keys keeps the keys distinct |
| Grammar.ValidKeyGrammar | script.js:22 | the executable key test holds exactly when the key matches the regular expression read as a grammar: a property name, optionally `;` and repeated `.*=.*,?` groups |
| Grammar.KeyParts | script.js:22 | a bare name is valid iff it is listed; a name with `;` parameters is valid iff the name is listed and the parameters are valid |
| Grammar.MatchesValidKey | script.js:22 | a listed name, alone or followed by valid parameters, is a valid key |
| Grammar.ValidKeyNoNewline | script.js:22 | a valid key is non-empty and has no line feed |
| Grammar.NamesAreSimple | script.js:22 | no listed property name contains `;` |
| Validation.ParameterisedKeyAccepts | script.js:137-140 | a key with `;` parameters finds no pattern and accepts every value |
| Validation.DefaultAccept | script.js:137-140 | a key without a pattern accepts every value, the empty one included |
| Validation.ComponentsSplit | script.js:8 | a value matches a `;`-separated pattern iff it has exactly the required number of components, each made of text characters, with the required ones non-empty |
| Validation.NameShape | script.js:8 | `N` is valid iff it has five `;`-separated text components, the first two non-empty |
| Validation.AddressShape | script.js:11 | `ADR` is valid iff it has seven `;`-separated text components, the first two non-empty |
| Validation.EmailShape | script.js:9 | a valid `EMAIL` has exactly one `@` and ends in a dot followed by letters only |
| Validation.TelShape | script.js:10 | a valid `TEL` has `+` at most at the front and at least one other phone character |
| Validation.TelChars | script.js:10 | every character of a matching `TEL` after the first is a phone character, and a lone `+` does not match |
| Validation.GenderExact | script.js:17 | `GENDER` is valid iff it is `M`, `F` or `O` |
| Validation.DateShape | script.js:16 | a valid `BDAY` has the form digits `dddd-dd-dd` |
| Validation.NoteShape | script.js:15 | `NOTE` accepts the empty value and is valid iff every character is a text character |
| Validation.UrlShape | script.js:14 | a valid `URL` starts with `http://` or `https://`, is longer than seven characters, and contains no white space |
| Validation.ValidateAll | script.js:142-161 | the download button is enabled iff every property of the entity passes `validateInput` |
| Parser.LineFields | script.js:84-85 | the key is the text before the first colon and holds no colon; the line is key, colon and value when it has a colon, and otherwise the key is the whole line and the value is empty |
| Parser.FieldLine | script.js:84-85 | a colon-free key, a colon and any value split back into that key and that value |
| Parser.ClassifyField | script.js:87-100 | a `key:value` line whose key is not structural stores the pair when the key is valid and is otherwise reported under its key |
| Parser.StepVersion | script.js:89-92 | a `VERSION` line sets the version to its value and every other line leaves it |
| Parser.ParsedVersion | script.js:89-92 | an entity's version is the value of its last `VERSION` line, or null when there is none |
| Parser.RunAppend | script.js:83-125 | parsing the concatenation of two runs of lines is parsing the second from the state left by the first |
| Parser.ParsedData | script.js:94-100 | each key reads the value of its last storing line, and the keys appear in the order of their first storing line |
| Parser.RejectedLineIgnored | script.js:94-97 | a line with an invalid key changes neither the version nor the data, and adds its key to the alerts |
| Parser.StoreWellFormed | script.js:94-100 | a stored pair from a single line has a valid, non-structural key and a one-line value |
| Parser.RunWellFormed | script.js:83-125 | parsing single lines into well-formed data leaves the data well-formed |
| Parser.ParsedWellFormed | script.js:70-127 | every parsed entity has distinct, storable keys and one-line values |
| Parser.ParseEntity | script.js:70-127 | the loop over the lines produces the entity defined by the fold, with its index, and the keys alerted in order |
| Parser.EmptyBlock | script.js:87 | an empty block becomes an entity with no version and no properties, and alerts nothing |
| Parser.LoadedShape | script.js:48-50 | a text loads as one entity per `\n\n`-separated block, at least one, each whose index is its position |
| Versions.Prepare | script.js:190-224 | the copy, repair and key-by-key deletion compute the specification `Prepared` |
| Versions.DeleteAllIsWithout | script.js:219-221 | deleting the keys one by one is filtering out their pairs |
| Versions.PreparedIsFilter | script.js:196-223 | a successful preparation is the repaired properties without the version's denied keys |
| Versions.PreparedFailure | script.js:199-219 | it fails with an unknown version iff the version is not 2.1, 3.0 or 4.0; with a missing name iff the version is 2.1 and `N` and `FN` are both missing or empty; and otherwise succeeds |
| Versions.PreparedPrunes | script.js:218-221 | no denied key survives, and every other key except `N` keeps its value |
| Versions.PreparedName | script.js:200-208 | for 2.1 a missing or empty `N` takes the value of `FN` and the result always has a non-empty `N`; other versions keep `N` as it was |
| Versions.NamesNotDenied | script.js:191-195 | no version denies `N` or `FN` |
| Versions.PreparedOrder | script.js:196-223 | the surviving keys keep their order; a repaired `N` is appended when it was absent and stays in place when it was empty |
| Versions.PreparedIdempotent | script.js:190-224 | preparing prepared properties again gives the same result |
| Versions.PreparedUnchanged | script.js:190-224 | preparation returns the properties unchanged iff the version is known, no key is denied, and for 2.1 `N` is non-empty |
| Serializer.AllLinesAppend | script.js:169-177 | the lines for one more entity are appended after the lines so far |
| Serializer.PrepareAllPrefix | script.js:169-177 | once a prefix of the entities fails to prepare, the export fails the same way |
| Serializer.PrepareAllSemantics | script.js:169-177 | preparing all succeeds iff every entity prepares, giving each entity's prepared properties in order; otherwise it fails as the first failing entity |
| Serializer.ExportEmpty | script.js:166-180 | an empty collection exports as the empty text, for any version |
| Serializer.ParseFrame | script.js:170-176 | the lines written for an entity, with or without the trailing empty line, parse back into exactly its properties and the target version |
| Serializer.FrameLines | script.js:170-176 | each written line is non-empty and free of line feeds |
| Serializer.FrameSplit | script.js:170-176 | joining an entity's lines and splitting at line feeds gives those lines back |
| Serializer.JoinLinesNoBlank | script.js:180 | joined non-empty one-line lines never contain a blank line and never start or end with a line feed |
| Serializer.SplitAfterBlock | script.js:48 | a block free of blank lines, followed by `\n\n`, is the first piece of the split |
| Serializer.ExportBlocks | script.js:170-180 | the exported text splits at `\n\n` into one block per entity, the last ending in `\n` |
| Serializer.ParseBlock | script.js:70-127 | each exported block parses into its entity's prepared properties with the target version, and alerts nothing |
| Serializer.PreparedWellFormed | script.js:190-224 | preparing well-formed properties keeps them well-formed |
| Serializer.KnownVersionIsLine | script.js:191-195 | every version in the deletion table fits on one line |
| Serializer.RoundTrip | script.js:163-180 | a successful export of well-formed entities loads back as the same number of entities, numbered from 0, each with the target version and exactly its prepared properties, and alerts nothing |
| Serializer.RoundTripUnchanged | script.js:163-180 | when preparation repairs and removes nothing, export and reload give back every entity's properties unchanged |
| Editor.Session.constructor | script.js:24 | the page starts with an empty collection |
| Editor.Session.Load | script.js:42-50 | the collection is replaced by the entity of each block, in order, and the alerted keys are returned; every entity then sits at its index and holds only parsable data |
| Editor.Session.SetProperty | script.js:119-122 | the edited entity's key takes the new value, in place or appended; every other entity is unchanged; entities stay at their indices with distinct keys, and the data stays parsable when the key is storable and the value has no line feed |
| Editor.Session.Export | script.js:163-180 | the loop over the entities computes the exported text, or the failure of the first entity that fails |
| Editor.EditWellFormed | script.js:120 | editing a parsable entity with a storable key and a one-line value keeps it parsable |
| Scenarios.RepairFromFullName | script.js:200-204 | a 2.1 export of a card with only `FN` appends `N` copied from it |
| Scenarios.NoNameFails | script.js:201-206 | a 2.1 export fails when `N` and `FN` are missing or both empty |
| Scenarios.UnknownTarget | script.js:215-219 | an unknown target fails, yet an empty collection still exports as the empty text |
| Scenarios.ParameterisedKeyKept | script.js:219-221 | `GENDER` is removed for 2.1 while `GENDER;X=1` is kept |
| Scenarios.EmailExamples | script.js:9 | `bad@@x` is rejected and `a@b.co` accepted as an e-mail address |
| Scenarios.DefaultAcceptExamples | script.js:138 | a parameterised `TEL` key and `PHOTO` accept anything, while a bare `TEL` rejects text |
| Scenarios.SampleKeysValid | script.js:22 | the keys of the start-up cards, parameters included, are valid |
| Scenarios.TypedTelKey | script.js:22 | `TEL;TYPE=` followed by any one-line text is a valid key |
| Scenarios.UnknownKeyInvalid | script.js:22 | `X-CUSTOM` is not a valid key |
| Scenarios.ParametersNeedEquals | script.js:22 | `TEL;TYPE` without `=` is not a valid key |
| Scenarios.UnknownKeyLine | script.js:94-97 | the line `X-CUSTOM:1` is reported under `X-CUSTOM` |
| Scenarios.VersionLine | script.js:89-92 | the line `VERSION:3.0` only sets the version |
| Scenarios.ColonsInValue | script.js:84-85 | `URL:http://x.org` stores the whole URL, colon included |
| Scenarios.SingleBlock | script.js:48-50 | a text with no two line feeds in a row loads as exactly one entity, the parse of the whole text |
| Scenarios.CrlfCards | script.js:48-50 | two cards written with CRLF line ends load as a single entity |
| Scenarios.TrailingBlankLine | script.js:48-50 | `FN:A` followed by a blank line loads as two entities, the second empty |
| Scenarios.SampleCardWellFormed | script.js:28 | the start-up cards hold only what the parser produces |
| Scenarios.DebugLinesFrames | script.js:28 | the start-up text is two version 3.0 cards separated by a blank line |
| Scenarios.TwoCards | script.js:28 | two cards separated by a blank line, without a final line feed, load as those two cards numbered 0 and 1, and nothing is alerted |
| Scenarios.StartupText | script.js:28 | the text the page loads at start-up gives two version 3.0 entities numbered 0 and 1, John Doe and John Zwo, each with its five properties in order, and nothing is alerted |

## Left out

- The DOM is not modelled: tables, rows, inputs, CSS classes, pagination (`renderContent`, `renderNavigation`, `currentPage`) and the JSON debug display.
- File input is left out: `FileReader` and `onFileSelected`. The text they deliver is the parameter of `Session.Load`.
- The download mechanics are left out: `Blob`, the object URL, the anchor click and the file name. `Session.Export` returns the text that would be written.
- The version `<select>` is left out. Its value is the `version` parameter.
- Alerts are not modelled as side effects. An invalid key becomes an entry in the returned list of rejected keys. A failed `prepare` becomes an `Err` value.
- Validation.ValidateAll: models the sweep over the properties of one entity. The page sweeps its `<input>` elements instead. They hold the stored values, with one exception. When a block repeats a key, the entity stores the last value, but every occurrence gets an input that keeps its own value. The returned boolean is the negation of the download button's `disabled` flag.
- Validation.EmailShape, Validation.TelShape, Validation.DateShape, Validation.UrlShape: state necessary consequences of a match. The complete pattern is the predicate `ValidateInput` itself, and `NameShape`, `AddressShape`, `NoteShape` and `GenderExact` are exact.
- Strings are sequences of characters. JavaScript's UTF-16 code units and surrogate pairs are not distinguished.
- Keys inherited from `Object.prototype` are not modelled. No key accepted by `VALID_KEYS` is one of them.
- Integer-like keys are not modelled. JavaScript enumerates them first, but no valid key is one.
- Serializer.RoundTrip: requires every entity's data to be well formed. That means distinct keys (true of a JS object), keys the parser accepts, and values without a line feed. `Session` keeps this invariant for loaded data. Edits keep it for one-line values, which is all a text input can hold. It also requires a non-empty collection: an empty one exports as the empty text, which loads back as one empty entity. The page never exports an empty collection, because every load yields at least one entity.
- `displayNavigation` is not modelled. It has no effect.
- The `TODO` on `LABEL`/`SORT-STRING` for 4.0 is not modelled. The code does nothing there.
