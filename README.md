# Scriptable type-definition generator, modelled in Dafny

The repository generates `scriptable.d.ts`, a TypeScript declaration file for the Scriptable iOS app. It builds that file from the app's Tern definition file (`scriptable.json`). This project models the generator's logic and proves properties of it:

- **Symbol-table builder** (`TernSymbols`). It folds the parsed Tern object into a table of top-level symbols. Each symbol has a kind, its own definition and tables of properties and functions. The global index entries and the `!define` overlay are merged in afterwards.
- **`processDescription`** (`Descriptions`, with the regular expressions in `Rewrites`). It turns one documented member into its JSDoc comment and TypeScript signature:
  - it takes out the definition code block;
  - it inserts `: void`;
  - it substitutes enumeration unions;
  - it infers an interface from a JSON sample;
  - it rewrites map signatures, `[T]` and `bool`.
- **Per-structure emitter** (`Emitter`). It writes `declare class T {` or `declare var T: {` around the tab-indented members. A `declare namespace T { … }` block of collected interfaces goes in front.
- **Globals** (`Globals`, with the line-anchored patterns in `Patterns`). Alias globals copy and rename a member of an emitted declaration. Plain globals get a generated JSDoc block.
- **Helpers.** `String.prototype.count` and the other string/regex features live in `Text`. `convertURL` is in `DocUrls`.
- **The documentation-link collector of `getInvalidUrlsFromTern.js`.** The `ArrayMap` multimap is a class in `ArrayMaps`. The `getUrl` tree walk and the flatten, filter, sort, split and group step are in `UrlCheck`.

Shared types:

- The parsed JSON documents are the datatype `Js.Json`.
- `undefined` and thrown exceptions are `Results.Option` and `Results.Result`.
- A `Failure` says whether the run would stop on a property read of `null`/`undefined`, on a `JSON.parse` error, or on a value shape the model does not represent.

Loops of the source and objects it updates are modelled as such:

- `ArrayMaps.ArrayMap` is a class with a map field.
- `Descriptions.Doc` is a class whose description, parameters and interface list the methods update.
- The builder, emitter, globals and `convertURL` loops are methods. Each is proved equal to a specification function, and the properties are proved about that function.

The locale-free `toUpperCase`/`toLowerCase` of the source are restricted to ASCII.

## Model

| member | source | states |
|---|---|---|
| Text.LowerString | buildFromTernDefinition.js:88 | same length, each character lowered |
| Text.IndexFrom | buildFromTernDefinition.js:294 | the result is an occurrence at or after `from`, with no earlier one; `None` means there is no occurrence from `from` on |
| Text.IndexOf | buildFromTernDefinition.js:376 | `Some` exactly when the pattern occurs, and then it is the leftmost occurrence |
| Text.ReplaceFirst | buildFromTernDefinition.js:68 | without an occurrence the string is unchanged; otherwise only the leftmost occurrence is replaced |
| Text.ReplaceAll | buildFromTernDefinition.js:418 | without an occurrence the string is unchanged |
| Text.Count | buildFromTernDefinition.js:38-47 | for a non-empty pattern, the count is positive exactly when the pattern occurs, and count times pattern length is at most the string length; an empty pattern matches |s|+1 times |
| Text.Split | getInvalidUrlsFromTern.js:63 | at least one part; joining the parts with the separator gives the string back; no part contains the separator |
| Text.SplitJoin | buildFromTernDefinition.js:256-259 | splitting a `Join` on a one-character separator returns the parts when none contains that character |
| Text.JoinSnoc | buildFromTernDefinition.js:244 | joining one more part appends the separator and that part |
| Text.NoOccurrenceInPrefix | buildFromTernDefinition.js:293 | an occurrence in a prefix is an occurrence in the string |
| Text.NoCharNoOccurrence | buildFromTernDefinition.js:256 | a string without a character does not contain it as a pattern |
| Text.PrefixLinesRoundTrip | buildFromTernDefinition.js:182 | after `PrefixLines` (`replace(/^/gm, pre)`) every line starts with `pre`, and stripping it from every line gives the input back |
| Text.StripAfterRoundTrip | buildFromTernDefinition.js:367 | the same round trip for the text after the first line |
| Text.CharFrom | buildFromTernDefinition.js:208 | the first position of the character at or after `from`, or `None` when there is none |
| Js.TypeOf | getInvalidUrlsFromTern.js:47 | `typeof` is one of its five names here, and `"object"` exactly for null, arrays and objects |
| Js.Lookup | buildFromTernDefinition.js:65-67 | a found value is the value of a field with that key; `None` means no field has the key |
| Js.Field | buildFromTernDefinition.js:65 | a non-object has no fields |
| Js.Get | buildFromTernDefinition.js:86-92 | a property read fails exactly on `null`; on other non-objects it yields `undefined` |
| Js.GetOpt | buildFromTernDefinition.js:88 | reading from `undefined` fails |
| Js.DecimalString | buildFromTernDefinition.js:57 | an array index key is a non-empty string of decimal digits |
| Js.Entries | buildFromTernDefinition.js:73 | `Object.entries` fails exactly on null; an object gives its fields; arrays and strings give one entry per element |
| Js.Iterate | buildFromTernDefinition.js:85 | `for...of` succeeds exactly on arrays and strings |
| TernSymbols.TypeText | buildFromTernDefinition.js:68 | `!type || ""`: a missing or empty type is `""`, a string type is itself; reading from null fails; another truthy type fails, with a TypeError unless it is an array |
| TernSymbols.Kind | buildFromTernDefinition.js:64 | fails exactly on an empty name; otherwise "class" exactly when the first character equals its upper-case form, else "var" |
| TernSymbols.ReturnTailFrom | buildFromTernDefinition.js:68 | the leftmost position from `from` on where ` -> +` starts a tail with no line terminator; `None` when there is none |
| TernSymbols.StripReturnTail | buildFromTernDefinition.js:68 | the result is a prefix; it is the whole string exactly when no return tail exists, and otherwise it is cut at the leftmost one |
| TernSymbols.MemberOf | buildFromTernDefinition.js:75-80 | a member record exists exactly when the type can be read, and its definition is that type text |
| TernSymbols.SymbolOf | buildFromTernDefinition.js:62-82 | a symbol has a non-empty name; its kind follows the first character's case; its definition is the type with `fn` turned into `constructor` and the return tail cut; its members are the entry fold of its data |
| TernSymbols.FindDetail | buildFromTernDefinition.js:86 | `details.find(i => i.id === entry.pageEntryId)`: a found detail is one of the details and the first whose `id` is strictly equal; `None` exactly when none is and no `null` detail comes first; it fails exactly when a `null` detail comes before any match |
| TernSymbols.DetailFrom | buildFromTernDefinition.js:86 | the index of the first detail from `from` on whose `id` is strictly equal, `None` when there is none, and a failure exactly when a `null` detail is read first |
| TernSymbols.IndexSymbol | buildFromTernDefinition.js:86-93 | `details.find` on a non-array throws; a failed `LookupDetail` (the `find` of line 86, with the `pageEntryId` read) is the result, and `find` returning `undefined` is a TypeError at `details.headline`; a built global is stored under the entry's string title, carries its summary, has as kind the lower-cased headline of the found detail, its description and url, and the `decleration`, or `""` when it is falsy, as definition, and has no member tables; with a found detail, a string headline, a string title and a usable `decleration` it is built |
| TernSymbols.CollectErr | buildFromTernDefinition.js:73-81 | a failed member fold stays failed with the same error |
| TernSymbols.CollectOkFromOk | buildFromTernDefinition.js:73-81 | a successful member fold started from a success |
| TernSymbols.TopLevelErr | buildFromTernDefinition.js:62-82 | a failed table fold stays failed |
| TernSymbols.IndexErr | buildFromTernDefinition.js:85-94 | a failed index fold stays failed |
| TernSymbols.IndexPairs | buildFromTernDefinition.js:85-93 | one built global per index entry, each the entry's `IndexSymbol`; a failure is the error of some entry |
| TernSymbols.IndexFoldPairs | buildFromTernDefinition.js:85-94 | the index fold fails with the entries' error, or stores the built globals one after the other (`StorePairs`) |
| TernSymbols.StorePairsPlaces | buildFromTernDefinition.js:87 | after storing, the keys are the old keys and the titles; the last global of a title is the one kept; a key no title names keeps its old symbol |
| TernSymbols.OverlayErr | buildFromTernDefinition.js:97-107 | a failed overlay fold stays failed |
| TernSymbols.FillMembers | buildFromTernDefinition.js:73-81 | the member loop (also lines 99-106) computes the member fold of its entries |
| TernSymbols.FillTopLevel | buildFromTernDefinition.js:57-82 | the symbol loop computes the table fold of the filtered entries |
| TernSymbols.FillIndex | buildFromTernDefinition.js:85-94 | the index-entry loop computes the index fold |
| TernSymbols.FillOverlay | buildFromTernDefinition.js:97-107 | the `!define` loop computes `ApplyOverlay`, the overlay fold |
| TernSymbols.BuildSymbolTable | buildFromTernDefinition.js:57-107 | the three loops together compute `SymbolTable` of the document |
| TernSymbols.EntryStep | buildFromTernDefinition.js:75 | an entry is a function entry or a property entry of a key exactly when the first entry or the rest is |
| TernSymbols.CollectMembersPlaces | buildFromTernDefinition.js:73-81 | with distinct keys, a key is a function exactly when some taken entry has a type containing `fn`, and a property exactly when some taken entry has another or no type; each carries its entry's record; meta keys never become members; other keys keep their records |
| TernSymbols.TopLevelOkFromOk | buildFromTernDefinition.js:62-82 | a successful table fold started from a success |
| TernSymbols.TopLevelPlaces | buildFromTernDefinition.js:57-82 | with distinct keys, the symbols are exactly the keys other than `define`, `details` and `!`-keys, each bound to the symbol of its entry |
| Rewrites.IgnoreName | buildFromTernDefinition.js:300 | an entry without a dot is its own name; no name contains a dot |
| Rewrites.IgnoreList | buildFromTernDefinition.js:297-300 | a name is in the list exactly when some entry applies to the structure and yields it |
| Rewrites.ParenGroupAt | buildFromTernDefinition.js:302 | a match is a `(`, the first later `)`, and a line end right after it |
| Rewrites.VoidFrom | buildFromTernDefinition.js:302-303 | the leftmost unblocked `(…)` line end from `from` on, or none |
| Rewrites.InsertVoid | buildFromTernDefinition.js:301-304 | a `*` entry leaves the code unchanged; otherwise the code changes exactly when an unblocked match exists, and then `: void` follows the leftmost one |
| Rewrites.StarDisablesVoid | ignoreFunctionsWithoutType.js:1-11 | a `*` or `Title.*` entry disables the insertion for that structure |
| Rewrites.VoidSkipsConstructor | ignoreFunctionsWithoutType.js:12 | with the shipped list, `constructor()` stays bare |
| Rewrites.ExampleVoidMatch | buildFromTernDefinition.js:302 | with the shipped list, the group of `present()` is found at index 7 |
| Rewrites.VoidMarksMethod | buildFromTernDefinition.js:301-304 | with the shipped list, `present()` becomes `present(): void` |
| Rewrites.DeclareGlobal | buildFromTernDefinition.js:306-310 | a global becomes `declare function` exactly when it has a call signature of its title, else `declare var` |
| Rewrites.ApplyEnum | buildFromTernDefinition.js:312-322 | `EnumApplies` holds exactly with values and a `: string`; without it the code is unchanged; otherwise only the leftmost `: string` becomes the quoted union |
| Rewrites.CountAboveOne | buildFromTernDefinition.js:313 | the warning's count exceeds one exactly when the pattern occurs again after its first occurrence |
| Rewrites.WholeWordFrom | buildFromTernDefinition.js:414 | the leftmost whole-word occurrence from `from` on, or none |
| Rewrites.ReplaceWholeWord | buildFromTernDefinition.js:414 | without a whole-word occurrence the string is unchanged; otherwise only the leftmost one is replaced |
| Rewrites.LazyClose | buildFromTernDefinition.js:414 | the lazy `.*?\b\}` ends at the first `}` that follows a word character on the same line |
| Rewrites.MapSignatureAt | buildFromTernDefinition.js:414 | a match starts with `{string: ` then a word character, and ends at a `}` |
| Rewrites.MapSignatureFrom | buildFromTernDefinition.js:414 | the leftmost map-signature match from `from` on, or none |
| Rewrites.ReplaceMapSignatureNone | buildFromTernDefinition.js:414 | without a match `ReplaceMapSignature` leaves the signature unchanged |
| Rewrites.ReplaceMapSignatureFirst | buildFromTernDefinition.js:414 | with a match, `ReplaceMapSignature` replaces the leftmost one, up to its brace, and nothing else |
| Rewrites.NoOccurrenceConcat | buildFromTernDefinition.js:418 | joining two strings without the pattern creates none unless one straddles the seam |
| Rewrites.ReplacementFront | buildFromTernDefinition.js:418 | a safe replacement followed by pattern-free text holds no occurrence |
| Rewrites.SeamBeforeLead | buildFromTernDefinition.js:418 | no occurrence straddles a seam followed by the pattern's first character |
| Rewrites.ReplaceAllRemoves | buildFromTernDefinition.js:418 | a global replacement with a safe replacement leaves no occurrence |
| Rewrites.MapLiteralGone | buildFromTernDefinition.js:418 | after `FinalComment`'s rewrite no `{string: string}` remains |
| Rewrites.ReplaceEmail | buildFromTernDefinition.js:366 | text without the obfuscated address is unchanged |
| Rewrites.EmailReplaced | buildFromTernDefinition.js:366 | after the replacement no obfuscated address remains, the text is unchanged exactly when it held none, and it does not grow |
| Rewrites.BracketClose | buildFromTernDefinition.js:424 | a match `[T]` has non-empty `T` without `]`; no match means an empty pair or no closing bracket |
| Rewrites.FlatSuffix | buildFromTernDefinition.js:424 | a suffix of an unnested string is unnested |
| Rewrites.ArrayCopies | buildFromTernDefinition.js:424 | text without `[` is copied unchanged |
| Rewrites.ArrayNoClose | buildFromTernDefinition.js:424 | without `]`, `ArrayRewrite` rewrites nothing |
| Rewrites.MatchBodyFlat | buildFromTernDefinition.js:424 | the body of a match in an unnested string holds no `[` |
| Rewrites.EmptyPairStays | buildFromTernDefinition.js:424 | a produced `[]` is not matched again |
| Rewrites.ArrayMatchCase | buildFromTernDefinition.js:424 | a match `[T]` becomes `T[]`, and a second pass copies it |
| Rewrites.ArrayOtherCase | buildFromTernDefinition.js:424 | a copied first character keeps idempotence |
| Rewrites.ArrayRewriteIdempotent | buildFromTernDefinition.js:424 | on strings without nested brackets, a second `ArrayRewrite` (`[T]` to `T[]`) pass changes nothing |
| Rewrites.BoolKeepsPrefix | buildFromTernDefinition.js:425 | the first four characters survive the rewrite |
| Rewrites.BoolCopiesWord | buildFromTernDefinition.js:425 | word characters after a word character are copied |
| Rewrites.BoolMatchCase | buildFromTernDefinition.js:425 | a whole-word `bool` keeps idempotence |
| Rewrites.BoolOtherCase | buildFromTernDefinition.js:425 | a copied character keeps idempotence |
| Rewrites.BoolRewriteIdempotent | buildFromTernDefinition.js:425 | a second `BoolRewrite` (`bool` to `boolean`) pass changes nothing |
| Rewrites.BoolPlain | buildFromTernDefinition.js:425 | text without `b` or `B` is unchanged by the `bool` rewrite |
| Descriptions.Doc.constructor | buildFromTernDefinition.js:108-160 | the object holds the given title, description, parameters, result, enumeration and flags |
| Descriptions.CodeCount | buildFromTernDefinition.js:291-292 | at most as many code blocks as items |
| Descriptions.DefinitionFrom | buildFromTernDefinition.js:293 | the first defining code block from `from` on, or none |
| Descriptions.FirstDefinition | buildFromTernDefinition.js:290-293 | the leftmost code block with a line of optional `static `, the title, then `(…)` or `:`; `None` exactly when no block has one |
| Descriptions.FirstStringFrom | buildFromTernDefinition.js:326-332 | the first parameter typed `string` from `from` on, or none |
| Descriptions.Retyped | buildFromTernDefinition.js:325-333 | without a `string` parameter nothing changes; otherwise exactly the first one gets the union |
| Descriptions.ExtractDefinition | buildFromTernDefinition.js:288-335 | fails exactly when no code block defines the member; otherwise that block is removed from the description |
| Descriptions.Kept | buildFromTernDefinition.js:338-347 | at most one text per item; every non-deprecated item is rendered into the result and every result text renders a non-deprecated item; without deprecated items the result is every item rendered, in order |
| Descriptions.KeptConcat | buildFromTernDefinition.js:338-347 | the kept texts of two runs of items are the kept texts of each, in order |
| Descriptions.DeprecatedNotesFacts | buildFromTernDefinition.js:349-353 | there are notes exactly when an item is a deprecation note, and every note starts with `@deprecated ` |
| Descriptions.JoinStartsWith | buildFromTernDefinition.js:353 | a joined list starts like its first part |
| Descriptions.DeprecatedSectionFacts | buildFromTernDefinition.js:349-356 | `DeprecatedSection` is empty exactly without deprecation notes, and otherwise opens with a blank line and `@deprecated ` |
| Descriptions.ParamSection | buildFromTernDefinition.js:358-360 | empty exactly without parameters; otherwise it opens with a newline and `@param {` |
| Descriptions.ReturnsSection | buildFromTernDefinition.js:361-363 | empty exactly when the return type is empty; otherwise a newline and the `@returns` line |
| Descriptions.Comment | buildFromTernDefinition.js:365-367 | removing ` * ` from every line gives `CommentBody` with the address restored |
| Descriptions.PhraseFrom | buildFromTernDefinition.js:377 | the first item containing the phrase from `from` on, or none |
| Descriptions.SampleIndex | buildFromTernDefinition.js:377-398 | the sample is the item after the first one with the phrase; without one, `findIndex` gives -1 and the first item is read |
| Descriptions.TypeName | buildFromTernDefinition.js:401 | `null` and strings are "string", arrays and objects "object", numbers "number", booleans "boolean" |
| Descriptions.DedupFromFacts | buildFromTernDefinition.js:402 | the collected names are distinct, and are exactly the names seen |
| Descriptions.MixedIffTwoTypes | buildFromTernDefinition.js:406 | "mixed" holds exactly when two values have different type names |
| Descriptions.InterfaceContent | buildFromTernDefinition.js:398-404 | empty objects and arrays give `{}` and `[]`, null gives `null`; an object renders exactly when all its keys are plain, and otherwise it is unsupported; a number or string as the whole sample is unsupported |
| Descriptions.WithCommas | buildFromTernDefinition.js:398-404 | one line per field |
| Descriptions.JoinCommas | buildFromTernDefinition.js:398-404 | joining with `,\n` is joining the comma-terminated lines with newlines |
| Descriptions.JoinFramed | buildFromTernDefinition.js:398-404 | an opener, newline-joined parts and a closer form one newline-joined list |
| Descriptions.FieldLineNoNewline | buildFromTernDefinition.js:404 | a field line of a plain key has no newline |
| Descriptions.ObjectContent | buildFromTernDefinition.js:398-404 | an object sample renders as `{`, the comma-joined field lines, `}` |
| Descriptions.InterfaceLines | buildFromTernDefinition.js:398-404 | read line by line, the interface is `{`, one `"key": type` line per field with commas on all but the last, and `}` |
| Descriptions.Capitalize | buildFromTernDefinition.js:405 | fails exactly on an empty title; otherwise same length, first letter upper-cased and the rest kept |
| Descriptions.InferInterface | buildFromTernDefinition.js:376-411 | fails exactly when the sample is missing (a TypeError), does not parse (a ParseError), does not render (that error) or the title is empty; on success the name is the capitalised title, the content renders the parsed sample, and "mixed" means more than one distinct type |
| Descriptions.Assemble | buildFromTernDefinition.js:421-425 | the output opens the doc comment |
| Descriptions.AssemblePlain | buildFromTernDefinition.js:421-425 | without `b`, `B` in either part and `]` in the code, the text is `/**`, the comment, ` */`, then the code |
| Descriptions.Finish | buildFromTernDefinition.js:369-425 | keeps the description and parameters and opens with `/**`; an interface is inferred exactly when inference is asked for, there is more than one code block and the comment holds "on the following form:", and it is then `InferInterface` of the description under the capitalised title; it fails exactly when inference runs and `InferInterface` fails |
| Descriptions.Describe | buildFromTernDefinition.js:280-426 | output opens with `/**`; without extraction it always succeeds and changes nothing; with extraction, a failed definition is the result, a missing definition fails, and otherwise exactly the first defining block is removed; parameters are unchanged or retyped, and unchanged without enumeration values; an interface exactly when extraction and inference are on, there is more than one code block and the comment holds the phrase; with a definition, the call fails exactly when inference runs and the sample is missing, unparsable or unsupported |
| Descriptions.RetypeParameters | buildFromTernDefinition.js:325-333 | the loop leaves the retyped parameter list on the object |
| Descriptions.CollectTypes | buildFromTernDefinition.js:397-403 | the loop collects the distinct type names in order of appearance |
| Descriptions.TakeDefinition | buildFromTernDefinition.js:288-335 | computes the extracted definition and leaves its description and parameters on the object |
| Descriptions.InferOn | buildFromTernDefinition.js:376-411 | the procedure, which collects the type list as the replacer walks, computes `InferInterface`: the mixed flag from the collected list equals the one from the distinct type names |
| Descriptions.ProcessDescription | buildFromTernDefinition.js:280-426 | computes `Describe` of the objects' old state; on success the object carries the new description and parameters, and the structure's interface list gains exactly the inferred interface, if any |
| Descriptions.Conclude | buildFromTernDefinition.js:369-425 | computes `Finish`: the settled object keeps its state, and the interface list gains exactly the inferred interface |
| Emitter.DescribeMembersOk | buildFromTernDefinition.js:178-180 | a successful `DescribeMembers` run holds one described member per member, in order |
| Emitter.DescribeMembersFails | buildFromTernDefinition.js:178-180 | `DescribeMembers` succeeds when every member does; a failure is the error of the first failing member |
| Emitter.InterfacesSnoc | buildFromTernDefinition.js:185-187 | appending a member appends its interfaces |
| Emitter.Declaration | buildFromTernDefinition.js:177-183 | the declaration head, a body that is the blank-line-joined members with every line tab-indented, then `}` |
| Emitter.Namespace | buildFromTernDefinition.js:185-190 | `declare namespace T {`, the newline-joined interface declarations tab-indented, then `}` and a blank line |
| Emitter.Emit | buildFromTernDefinition.js:170-193 | a failed head fails; a global structure is its comment alone; otherwise it succeeds exactly when every member does, and the text is the head then the declaration, with the namespace block in front exactly when interfaces were collected |
| Emitter.DescribeStructure | buildFromTernDefinition.js:172-173 | the structure's comment pushes no interface; a non-global one keeps its description and parameters; a global one without a definition fails |
| Emitter.EmitDoc | buildFromTernDefinition.js:170-193 | the head infers nothing, and without interfaces the text opens with `/**` |
| Emitter.DescribeMembersStep | buildFromTernDefinition.js:178-180 | one step of the member run |
| Emitter.MemberDescriberDescribes | buildFromTernDefinition.js:179 | `DescribeMember` describes members as line 179 does |
| Emitter.DescribeAt | buildFromTernDefinition.js:179 | describes one member object and updates it and the interface list, leaving the other members alone |
| Emitter.DescribeAll | buildFromTernDefinition.js:178-180 | the loop computes the member run, and the interface list gains the members' interfaces in order |
| Emitter.EmitRest | buildFromTernDefinition.js:173-193 | the procedure's text and interface list are those of `Emit` |
| Emitter.DescribeMembersAgree | buildFromTernDefinition.js:178-180 | describers that agree on every member give the same run |
| Emitter.EmitDocAgrees | buildFromTernDefinition.js:170-193 | the procedure's describer gives the contents' emitter |
| Emitter.DescribeHead | buildFromTernDefinition.js:172-174 | describes the structure itself and pushes no interface |
| Emitter.EmitStructure | buildFromTernDefinition.js:170-193 | the emitter body computes `Emit` of the old state, and leaves each member with its processed description |
| Patterns.KeywordAt | buildFromTernDefinition.js:206 | a found keyword is in the list and `declare kw ` occurs; none means no keyword does |
| Patterns.LineEndFrom | buildFromTernDefinition.js:208 | the end of the current line |
| Patterns.MatchAt | buildFromTernDefinition.js:205-219 | a match starts at a line start and fits in the string |
| Patterns.FirstMatchFrom | buildFromTernDefinition.js:207 | the leftmost match from `from` on, or none; `FirstMatch` starts it at 0 |
| Patterns.MatchTests | buildFromTernDefinition.js:207 | a match somewhere makes `Test` succeed |
| Patterns.TestIff | buildFromTernDefinition.js:207 | `Test` succeeds exactly when the pattern matches at some position |
| Patterns.Splice | buildFromTernDefinition.js:216 | the text the match spans is replaced and the rest is kept |
| Patterns.DropSpaces | buildFromTernDefinition.js:211 | a suffix without leading whitespace |
| Patterns.StripIndent | buildFromTernDefinition.js:211 | no line of the result starts with whitespace |
| Globals.PlainDeclaration | buildFromTernDefinition.js:221-236 | `ProcessGlobal` of a plain global opens `/**`, ends with ` */` and `declare <definition>`, and between them removing ` * ` from every line gives the description, parameter lines and returns line |
| Globals.Owner | buildFromTernDefinition.js:206-207 | the first emitted definition that declares the owner, or none |
| Globals.MemberChunk | buildFromTernDefinition.js:212 | the first chunk with a line starting with the member: no earlier chunk has one; `None` when no chunk has one |
| Globals.DeclarationLineAt | buildFromTernDefinition.js:208 | a line declaring the owner also matches the declaration-line pattern |
| Globals.AliasFailsIffNoOwner | buildFromTernDefinition.js:205-208 | `AliasDefinition` throws exactly when no definition declares the first part of its target |
| Globals.KeywordOfDeclaration | buildFromTernDefinition.js:219 | text opening with `declare kw ` has keyword `kw` |
| Globals.SpliceDeclares | buildFromTernDefinition.js:216 | a spliced `declare kw name` matches at the same place |
| Globals.RenameDeclaresKey | buildFromTernDefinition.js:219 | `Rename`: a definition declaring the name then declares the key instead; without such a line it is unchanged |
| Globals.MemberDeclared | buildFromTernDefinition.js:215-216 | `DeclareMember`: the member line is declared as a function exactly when it has a parameter list, else as a variable |
| Globals.AliasDeclaresKey | buildFromTernDefinition.js:209-219 | `AliasDefinition` (through `MemberBlock`, `Unstatic`, `IsContainer`): an alias to a member found in a class, interface or object variable succeeds and declares the alias key |
| Globals.AllOkValues | buildFromTernDefinition.js:201-239 | when every global succeeds, the run holds all their texts |
| Globals.AllOkFirstError | buildFromTernDefinition.js:201-239 | the first failing global decides the error |
| Globals.AddGlobals | buildFromTernDefinition.js:199-239 | the loop appends the processed globals after the definitions, or fails with the first global's error |
| Globals.Contents | buildFromTernDefinition.js:244 | the output opens with the template and a newline |
| Globals.ContentsGrows | buildFromTernDefinition.js:244 | no definitions give the template and a newline, one gives it followed by the definition, and each further definition is appended after `\n\n\n` |
| DocUrls.Query | buildFromTernDefinition.js:256 | matches exactly links with the scheme and a single-line query, and then the link is scheme plus query |
| DocUrls.DocsUrl | buildFromTernDefinition.js:255-270 | fails exactly when the prefix does not match |
| DocUrls.ConvertUrl | buildFromTernDefinition.js:255-270 | the loop computes the conversion |
| DocUrls.UnknownKeyIgnored | buildFromTernDefinition.js:258-267 | a part naming another key leaves a `Setting` unchanged |
| DocUrls.LastDuplicateWins | buildFromTernDefinition.js:258-267 | `Setting`: the last assignment to a key wins |
| DocUrls.BareKeyResets | buildFromTernDefinition.js:259-265 | a part without `=` resets its key's `Setting` to `undefined` |
| DocUrls.SingleLineConcat | buildFromTernDefinition.js:256 | two single-line strings join into a single line |
| DocUrls.QueryOfLink | buildFromTernDefinition.js:256 | a scheme link with a single-line query matches with that query |
| DocUrls.TwoSettings | buildFromTernDefinition.js:258-267 | two parts for different keys set both |
| DocUrls.QueryOfParts | buildFromTernDefinition.js:256 | a two-part query splits into those parts |
| DocUrls.LinkQuery | buildFromTernDefinition.js:255-270 | a well-formed link converts by its two settings |
| DocUrls.LinkSettings | buildFromTernDefinition.js:258-267 | a well-formed link sets the bridge and the method |
| DocUrls.ConvertWellFormed | buildFromTernDefinition.js:255-270 | `scriptable://docs?bridgeName=B&methodName=M` becomes `https://docs.scriptable.app/B/#M` |
| ArrayMaps.Added | getInvalidUrlsFromTern.js:24-32 | `Normalize` an array key, then the value goes at the end of its key's list, a new key goes last with a one-value list, and no other key changes |
| ArrayMaps.AddedWellFormed | getInvalidUrlsFromTern.js:24-32 | adding keeps the keys distinct and in step with the lists |
| ArrayMaps.AddedAllLists | getInvalidUrlsFromTern.js:15-22 | `AddedAll` of an iterable: a key is present exactly when some element is stored under it, and holds `ValuesFor` it, those elements' values in order |
| ArrayMaps.StoredKeys | getInvalidUrlsFromTern.js:15-22 | a key holds values exactly when some element is stored under it |
| ArrayMaps.TotalAgree | getInvalidUrlsFromTern.js:15-22 | lists of equal lengths give equal totals |
| ArrayMaps.TotalBump | getInvalidUrlsFromTern.js:30 | one more value under a present key adds one |
| ArrayMaps.TotalAppend | getInvalidUrlsFromTern.js:31 | a key added last adds its values |
| ArrayMaps.TotalNew | getInvalidUrlsFromTern.js:31 | a new key with one value adds one |
| ArrayMaps.AddedTotal | getInvalidUrlsFromTern.js:24-32 | every addition stores exactly one more value |
| ArrayMaps.AddedAllTotal | getInvalidUrlsFromTern.js:15-22 | every element of the iterable is stored exactly once |
| ArrayMaps.PutNew | getInvalidUrlsFromTern.js:37 | a new property name goes last |
| ArrayMaps.ObjectOfStrings | getInvalidUrlsFromTern.js:34-40 | with string keys `ObjectOf` (through `PutAll`) has exactly the keys as property names, in order, each bound to its list |
| ArrayMaps.ArrayMap.constructor | getInvalidUrlsFromTern.js:15-22 | the map holds the elements of the iterable added one by one |
| ArrayMaps.ArrayMap.Add | getInvalidUrlsFromTern.js:24-32 | the new state is the added store |
| ArrayMaps.ArrayMap.ToObject | getInvalidUrlsFromTern.js:34-40 | the object of the current state |
| UrlCheck.GetUrl | getInvalidUrlsFromTern.js:43-51 | the only failure is a read of `!url` on null, which null causes; a node with a truthy link yields it; otherwise the result is an array |
| UrlCheck.GetUrlsFrom | getInvalidUrlsFromTern.js:45-49 | the only failure is the null read |
| UrlCheck.NullChildThrows | getInvalidUrlsFromTern.js:46-48 | a null value among the children throws |
| UrlCheck.NullFieldThrows | getInvalidUrlsFromTern.js:44-48 | a node without a link and a null child throws |
| UrlCheck.FlatCons | getInvalidUrlsFromTern.js:61 | `flat` distributes over concatenation |
| UrlCheck.FlatLevels | getInvalidUrlsFromTern.js:43-61 | flattening (`Flat`) the walk's result deep enough gives `TopUrls`, the topmost link of every branch, in order |
| UrlCheck.FlatLevelsFrom | getInvalidUrlsFromTern.js:45-61 | the same for the children from `i` on |
| UrlCheck.Truthies | getInvalidUrlsFromTern.js:61 | the filter keeps exactly the truthy values |
| UrlCheck.Strings | getInvalidUrlsFromTern.js:63 | succeeds exactly when every value is a string, and gives those strings |
| UrlCheck.UrlList | getInvalidUrlsFromTern.js:61-63 | a failed walk fails with the null read; a success comes from an array result |
| UrlCheck.UrlListTop | getInvalidUrlsFromTern.js:61-63 | on a file with shallow, non-array links, the list is the truthy topmost links in document order, and it fails exactly when one is not a string |
| UrlCheck.NotAfterTotal | getInvalidUrlsFromTern.js:62 | string order is total |
| UrlCheck.Insert | getInvalidUrlsFromTern.js:62 | inserting adds exactly that element |
| UrlCheck.InsertSorted | getInvalidUrlsFromTern.js:62 | inserting into a sorted list keeps it sorted |
| UrlCheck.SortSpec | getInvalidUrlsFromTern.js:62 | `Sort` is sorted and a permutation |
| UrlCheck.GroupUrls | getInvalidUrlsFromTern.js:64 | the class computes the grouped object |
| UrlCheck.CollectPages | getInvalidUrlsFromTern.js:61-64 | the procedure computes the page object |
| UrlCheck.SplitHash | getInvalidUrlsFromTern.js:63 | a link with `#` splits into at least two parts |
| UrlCheck.KeyOfLink | getInvalidUrlsFromTern.js:63-64 | a link with `#` is stored under its page |
| UrlCheck.ItemListsConcat | getInvalidUrlsFromTern.js:64 | item lists distribute over concatenation |
| UrlCheck.StoredLast | getInvalidUrlsFromTern.js:64 | the last link adds its anchors to its page |
| UrlCheck.StoredAnchors | getInvalidUrlsFromTern.js:63-64 | each page holds the anchors of its links in order |
| UrlCheck.GroupedByPage | getInvalidUrlsFromTern.js:63-64 | `Grouped`: pages are distinct, each holds the non-empty anchors of its links in order, and every link's page appears |
| UrlCheck.PagesSorted | getInvalidUrlsFromTern.js:61-64 | `Pages` of the sorted links: a permutation in order, and each page holds the anchors of its links in sorted order |

## Left out

- Network and file I/O. The `axios` downloads, the `cheerio` parsing and the checking of pages (getInvalidUrlsFromTern.js:66-95) are not modelled. Neither are the template read and the output write (buildFromTernDefinition.js:241-250).
- Progress output. `logStatus` and the console colours are left out. The enumeration warning is a boolean of the result.
- The turndown markdown renderer and `JSON.parse` are parameters of the model. It does not say what they compute.
- The `globals.js` and `ignoreFunctionsWithoutType.js` tables are parameters, not their shipped contents. The single exception is the example lemmas on the ignore list.
- Regular expressions built from titles, names and ignore entries are modelled with those strings taken literally. A name holding regular-expression syntax would behave differently in the source.
- `toUpperCase` / `toLowerCase` are modelled on ASCII letters only.
- `$` patterns in replacement strings are taken literally, except the `$&` and `$1` the source writes itself.
- Error messages. The wording of a thrown error is illustrative. The model represents the cause (null read, parse failure).
- The state left behind when a step throws is not modelled. The run stops there.
- Line 168 (`current && … push(current)`) is outside the model. The emitter is a procedure for one structure whose members are already collected.
- The option defaulting of lines 281-286 is left out. Every call site passes both options.
- `if (structure.description)` at line 172 is always taken. A description is an array, and arrays are truthy.
- TernSymbols.TypeText: a truthy number, boolean or object `!type` is a TypeError, as `.replace` (line 68) or `.includes` (lines 75 and 100) throws in JavaScript. An array `!type` is an `Unsupported` failure: at line 68 JavaScript throws on it too, but as a member type (lines 75 and 100) `Array.prototype.includes` lets it through, and the model does not represent an array definition.
- IndexSymbol: a `title` that is not a string is an `Unsupported` failure, where line 87 stores the symbol under `String(title)`.
- TernSymbols.TextOr: a truthy `decleration` that is not a string is an `Unsupported` failure, where line 92 keeps the value as the definition.
- Descriptions.InterfaceContent: keys that `JSON.stringify` would escape become an `Unsupported` failure. So does the empty key `""`: the replacer of lines 399-400 returns its value untouched, so JavaScript prints the raw value and never adds its type to `types`. A number or a string as the whole sample is `Unsupported` too, where JavaScript prints the literal.
- Assemble: the whole text is stated (by `AssemblePlain`) only for a comment and code without `b`, `B` and, in the code, `]`; otherwise the contract promises the `/**` opening, and the two rewrites are described by their own lemmas (`BoolRewriteIdempotent`, `ArrayRewriteIdempotent`, `ArrayNoClose`).
- Js.Lookup: of two fields with the same key the first is found, where `JSON.parse` keeps the last. The Tern file has no duplicate keys.
- Key order: parsed objects and the symbol and member tables keep the order of the document. JavaScript enumerates integer-like keys first, in ascending order; the model does not.
- UrlCheck.GetUrl: `Object.values` of a string yields one-character strings, which `typeof` skips. The model treats a string as having no values, which gives the same result.
- UrlCheck.UrlListTop: proved only for files whose links are no more deeply nested than `flat(10)` reaches and are not arrays themselves. Deeper nesting is modelled (`Flat` with depth 10), but no lemma states its result.
- UrlCheck.Sort: strings are compared character by character, not by UTF-16 code unit. Characters outside the Basic Multilingual Plane may sort differently.
- ArrayMaps.ObjectOfStrings: `toObject` is described for string keys only. The order JavaScript gives integer-like property names is not modelled.
- ArrayMaps.Value: `Map` identity of arrays is an explicit reference number. Lists are values, so sharing between arrays (the result of `slice`) is not modelled.
- Alias globals whose target has two dots: only `parts[0]` and `parts[1]` are used, as in the source.
