# konsave core, modelled in Dafny

konsave saves and restores KDE Plasma customisations. Profiles are described by a
YAML manifest (`conf.yaml`). The manifest has two sections, `save` and `export`.
Each section holds entries. An entry has:

- a `location`, which may hold keywords such as `$HOME` and functions such as
  `${ENDS_WITH='text'}`;
- the list of `entries` (file and folder names) to copy;
- an optional `strip` block, naming per-file INI groups and keys that must be
  removed from the copied file.

This project models three parts of the program.

- **The file stripper.** This is `strip_content` (`strip.dfy`, module `Strip`).
  - The group pass and the key pass overwrite lines of an array in place with a
    placeholder line. A filter then removes the placeholders.
  - The method `StripContent` is proved equal to the specification function
    `Stripped`.
  - `Stripped` is proved to:
    - keep a subsequence of the input;
    - never leave the placeholder, a `[group]` of a listed group or a `key=` of a
      listed key;
    - be idempotent;
    - fail (ValueError from `list.index`) exactly where the source fails.
- **The location parser.** The tokens table and the two resolvers `ends_with` and
  `begins_with` are in `parse.dfy` (module `Parse`). The two passes a
  `ConfEntry` runs over its location are in `location.dfy` (module `Location`).
  - The `re` patterns are written out by hand as a recogniser. Its leftmost and
    greedy results are proved against a declarative statement of the pattern.
  - `os.listdir` is a `Listing` map from directory text to entries.
- **The manifest model.**
  - `yaml.dfy` (module `Yaml`) holds:
    - the parsed document;
    - the null-to-empty-list normaliser;
    - Python's order-insensitive `==` on dicts.
  - `manifest.dfy` (module `Manifest`) gives value-level specifications of
    `StripEntry`, `ConfEntry`, `Section` and `Config`: reading them from the
    document and writing them back.
  - `config.dfy` (module `Config`) holds the classes:
    - `ConfEntry` rewrites its `location` in place.
    - `Section` and `Config` hold references to the entries.
    - Every method is proved equal to the value-level specification.
  - The round trip that `config.py`'s testing code prints is proved for every
    well-formed manifest that loads (`ConfigRoundTrip`, `CheckRoundTrip`): every
    location is a string and its function tokens resolve. A well-formed
    manifest has:
    - exactly the two sections;
    - distinct keys in every mapping it interprets;
    - no nulls;
    - entries in the shape `to_dict` writes: `location` and `entries`, plus a
      non-empty `strip` mapping, when there is one, of blocks holding exactly
      `groups` and `keys`.

`wrappers.dfy` holds `Option`, `Result` and the Python exceptions the model raises.
`text.dfy` holds the Python string operations used: `in`, `find`, `replace`,
`startswith` and `endswith`.

Where the code and its documentation disagree, the model follows the code:

- A null `strip` block becomes `[]`, and `[].keys()` then raises AttributeError.
  It is not treated as an empty strip list.
- The keyword pass replaces every occurrence of a marker, as `str.replace` does,
  not only the first.
- A function token that no directory entry matches resolves to the token text
  alone, not to the location with the token left in place (`parse.py:23`).

## Model

| member | source | states |
|---|---|---|
| Strip.StripContent | konsave/funcs.py:212-262 | the method running the group pass, the key pass and the filter over an array equals `Stripped` of the lines, the groups and the keys, failure included |
| Strip.StripGroupsInPlace | konsave/funcs.py:227-244 | the in-place group pass fails exactly when `StripGroups` does, always with ValueError, and otherwise leaves the array holding `StripGroups` of its old contents |
| Strip.StripGroupLinesInPlace | konsave/funcs.py:230-242 | the in-place loop over one group's lines fails exactly when `StripGroupLines` does, and otherwise leaves the array holding its result |
| Strip.ScanInPlace | konsave/funcs.py:238-242 | the in-place scan leaves the array equal to `ScanFrom` of its old contents |
| Strip.StripKeysInPlace | konsave/funcs.py:246-254 | the in-place key pass fails exactly when `StripKeys` does, and otherwise leaves the array holding `StripKeys` of its old contents |
| Strip.IsHeaderIff | konsave/funcs.py:240 | a line matches `^\[.*\].*` iff it starts with `[` and has a `]` after it with no newline in between |
| Strip.ClosesBeforeNewlineIff | konsave/funcs.py:240 | the scan for a closing `]` finds one iff one occurs before the first newline |
| Strip.LinesContaining | konsave/funcs.py:229 | the comprehension keeps only lines holding the pattern, is no longer than the file, and is empty iff no line holds the pattern |
| Strip.LinesContainingCounts | konsave/funcs.py:229 | the comprehension keeps every line holding the pattern, as often as the file holds it, and no other line |
| Strip.LinesContainingWithin | konsave/funcs.py:229 | the lines the comprehension collects are a sub-multiset of the file |
| Strip.IndexOf | konsave/funcs.py:232 | `list.index` gives the first position holding the line, and nothing iff the line is absent (the ValueError case) |
| Strip.NextHeader | konsave/funcs.py:238-242 | the scan stops at the first header line at or after its start, or at the end of the file |
| Strip.Placeholders | konsave/funcs.py:242 | a run of n placeholder lines |
| Strip.ScanFromShape | konsave/funcs.py:238-242 | the scan overwrites exactly the lines from its start up to the next header and keeps the rest |
| Strip.NextHeaderUpdate | konsave/funcs.py:235-242 | overwriting the header line before the scan start does not move the next header |
| Strip.GroupStepShape | konsave/funcs.py:232-242 | one group step overwrites the found line and every line up to the next header after it, and nothing else |
| Strip.GroupLinesFailWithValueError | konsave/funcs.py:232 | the only failure of the group pass is ValueError |
| Strip.RemovePlaceholdersCounts | konsave/funcs.py:260 | the filter keeps every other line with its multiplicity, drops every placeholder, and shortens the file by the number of placeholders |
| Strip.RemovePlaceholdersSnoc | konsave/funcs.py:260 | one more line at the end of the file is kept by the filter iff it is not the placeholder |
| Strip.RemovePlaceholdersAppend | konsave/funcs.py:260 | filtering two parts of a file one after the other is filtering the whole file |
| Strip.PlaceholderIsNoHeader | konsave/funcs.py:225 | the placeholder line is not a group header, so a later scan runs past it |
| Strip.PlaceholderLacksPatterns | konsave/funcs.py:225 | the placeholder holds no `[g]` and no `k=` pattern |
| Strip.ScanOverwrites | konsave/funcs.py:238-242 | the scan only ever replaces lines by the placeholder |
| Strip.StripGroupLinesOverwrites | konsave/funcs.py:230-242 | one group's loop only replaces lines by the placeholder |
| Strip.StripGroupsOverwrites | konsave/funcs.py:227-244 | the group pass only replaces lines by the placeholder |
| Strip.StripKeyLinesOverwrites | konsave/funcs.py:250-252 | one key's loop only replaces lines by the placeholder |
| Strip.StripKeysOverwrites | konsave/funcs.py:246-254 | the key pass only replaces lines by the placeholder |
| Strip.CountAfterOverwrite | konsave/funcs.py:229 | overwriting a line never adds a line holding a pattern the placeholder lacks |
| Strip.CountOverwrites | konsave/funcs.py:229 | after any overwriting, no more lines hold such a pattern than before |
| Strip.StripGroupLinesClears | konsave/funcs.py:229-242 | after one group's loop no line holds `[g]` |
| Strip.StripKeyLinesClears | konsave/funcs.py:247-252 | after one key's loop no line holds `k=` |
| Strip.StripGroupsClears | konsave/funcs.py:227-244 | after a successful group pass no line holds `[g]` for any listed group |
| Strip.StripKeysClears | konsave/funcs.py:246-254 | after a successful key pass no line holds `k=` for any listed key |
| Strip.StripKeyLinesSucceed | konsave/funcs.py:251 | `list.index` in the key loop always finds its line |
| Strip.StripKeysSucceed | konsave/funcs.py:246-254 | the key pass never raises |
| Strip.RemovePlaceholdersSubsequence | konsave/funcs.py:260 | after overwriting, the filtered lines are the original lines at increasing positions |
| Strip.KeptPositions | konsave/funcs.py:260 | the positions the filter keeps hold no placeholder |
| Strip.StripGuarantees | konsave/funcs.py:212-262 | the written lines are a subsequence of the input, no more of them, with no placeholder, no listed `[g]` and no listed `k=` |
| Strip.StripGroupsUnchanged | konsave/funcs.py:227-244 | a file holding no listed group pattern passes the group pass unchanged |
| Strip.StripKeysUnchanged | konsave/funcs.py:246-254 | a file holding no listed key pattern passes the key pass unchanged |
| Strip.RemovePlaceholdersUnchanged | konsave/funcs.py:260 | a file without placeholder lines passes the filter unchanged |
| Strip.StripWithoutLists | konsave/funcs.py:222-223 | with no groups and no keys only placeholder lines already in the file are dropped |
| Strip.StripIdempotent | konsave/funcs.py:256-260 | stripping a stripped file again changes nothing |
| Strip.GroupExampleSnapshot | konsave/funcs.py:229 | in the sample file only the `[General]` header holds `[General]` |
| Strip.GroupExampleScan | konsave/funcs.py:238-242 | the scan from the sample's first header stops at `[Other]` |
| Strip.GroupExampleLines | konsave/funcs.py:230-242 | the loop over the snapshot `[General]` overwrites the header and its two lines and keeps `[Other]` and its line |
| Strip.StripOneGroup | konsave/funcs.py:228-242 | one group step is the loop over the snapshot of the lines holding `[g]` |
| Strip.StripOneKey | konsave/funcs.py:247-252 | one key step is the loop over the snapshot of the lines holding `k=` |
| Strip.GroupExample | konsave/funcs.py:227-244 | stripping group `General` removes its header and lines and keeps `[Other]` |
| Strip.KeyExampleSnapshot | konsave/funcs.py:247 | the substring test for `Size=` also catches `FontSize=10` |
| Strip.KeyExampleLines | konsave/funcs.py:250-252 | both caught lines are overwritten |
| Strip.KeyExampleFilter | konsave/funcs.py:260 | the filter leaves the header and the untouched key |
| Strip.KeySubstringExample | konsave/funcs.py:246-254 | stripping key `Size` also removes `FontSize=10` |
| Strip.GroupValueErrorExample | konsave/funcs.py:229-232 | a second line holding `[G]`, overwritten by the first one's scan, makes `list.index` raise ValueError |
| Text.Find | konsave/parse.py:18 | `str.find` gives the first occurrence, or -1 when there is none |
| Text.ContainsIff | konsave/config.py:57 | `in` on strings holds iff the pattern occurs somewhere, and then at the position `find` gives |
| Text.ReplaceAllAbsent | konsave/config.py:57-58 | `replace` of an absent pattern leaves the string unchanged |
| Text.ReplaceAllAtFirst | konsave/parse.py:22 | `replace` keeps the text before the first occurrence, puts the replacement there, and goes on replacing after it |
| Text.ReplaceAllAtFind | konsave/parse.py:22 | the same, at the index `find` gives |
| Text.ReplaceAllSelf | konsave/parse.py:22 | replacing a pattern by itself changes nothing |
| Yaml.Keys | konsave/config.py:130 | the key list has one key per item, in document order |
| Yaml.Normalize | konsave/config.py:155-163 | the normaliser leaves no null, turns a null into `[]`, keeps strings and scalars, list lengths and mapping keys in order, and keeps keys distinct |
| Yaml.NormalizeKeepsNullFree | konsave/funcs.py:137-145 | a document without nulls is left as it is |
| Yaml.NormalizeIdempotent | konsave/config.py:155-161 | normalising twice is normalising once |
| Yaml.Get | konsave/config.py:88 | `data[key]` gives nothing iff the key is absent, and otherwise a value stored under the key |
| Yaml.PutKeys | konsave/config.py:104 | `dict.update` with one pair keeps the key order when the key is present, and appends the key otherwise |
| Yaml.PutGet | konsave/config.py:104 | after `dict.update` with one pair the key maps to the new value and every other key keeps its value |
| Yaml.UpdateOne | konsave/config.py:104 | updating with a one-item mapping is `Put` of that item |
| Yaml.PutFresh | konsave/config.py:110 | storing a new key appends it at the end |
| Yaml.GetAt | konsave/config.py:132 | with distinct keys, `data[sub_keys[i]]` is the i-th value |
| Yaml.PyEqByGet | konsave/config.py:191 | two mappings of the same size are `==` when each key of one maps to an equal value in the other |
| Yaml.PyEqReflexive | konsave/config.py:191 | every value is `==` to itself |
| Parse.TokenTableClosed | konsave/parse.py:42-57 | the token symbol is `$`, the keyword table has the four keywords in order, and exactly `ENDS_WITH` and `BEGINS_WITH` name functions |
| Parse.WordEndSpec | konsave/parse.py:54 | `\w+` runs to the first non-word character |
| Parse.NonSpaceEndSpec | konsave/parse.py:54 | `\S+` runs to the first whitespace character |
| Parse.LastCloser | konsave/parse.py:54 | backtracking gives a closing quote and brace that end before the run does |
| Parse.LastCloserSpec | konsave/parse.py:54 | no closing quote and brace start after the one backtracking gives, and none at all when it gives none |
| Parse.MatchAt | konsave/parse.py:53-54 | a match found at a position starts there, has a non-empty name and argument, and fits in the string |
| Parse.MatchAtSpec | konsave/parse.py:53-54 | the recogniser finds a match at a position iff the pattern matches there, and then the greedy (longest) one |
| Parse.MatchAtNoName | konsave/parse.py:53-54 | without `\w+=` and a quote after `${` there is no match |
| Parse.MatchAtComplete | konsave/parse.py:54 | every match has the full word as its name and a closer inside the non-space run, and every such closer makes a match |
| Parse.SearchFrom | konsave/config.py:69 | the scan `findall` resumes with gives a match that the recogniser finds at or after its start |
| Parse.SearchFromSpec | konsave/config.py:69 | that match is the leftmost one: no position between the start and it starts a match |
| Parse.Search | konsave/parse.py:17 | a match `re.search` gives is a match where it starts |
| Parse.SearchSpec | konsave/parse.py:17 | `re.search` finds the leftmost match, or none when no position matches |
| Parse.SearchSkip | konsave/parse.py:17 | a position that does not hold `$` starts no match, and the search moves past it |
| Parse.SearchHit | konsave/parse.py:17 | the search stops at the first position that starts a match |
| Parse.PatternShift | konsave/parse.py:19 | a match still matches when its text is copied elsewhere |
| Parse.SearchOwnText | konsave/parse.py:19 | searching the token text alone finds it at position 0 with the same name and argument |
| Parse.OwnArgument | konsave/parse.py:19 | `.group(2)` of the token text alone is the argument the token has in the path |
| Parse.NoEarlierCopy | konsave/parse.py:17-18 | no copy of the token text starts before the match `re.search` found |
| Parse.FindLocatesMatch | konsave/parse.py:17-18 | `path.find(occurence)` gives the start of the match `re.search` found |
| Parse.FirstAccepted | konsave/parse.py:20-22 | the loop over the listing picks the first entry the predicate accepts, or none |
| Parse.ResolveUnfold | konsave/parse.py:17-23 | a resolver lists the text before the token and uses the token's own argument |
| Parse.ResolveNoToken | konsave/parse.py:17 | without a token a resolver raises AttributeError |
| Parse.ResolveMissingDirectory | konsave/parse.py:18 | when the directory before the token does not exist a resolver fails with FileNotFound on it |
| Parse.ResolveFound | konsave/parse.py:20-22 | the prefix is kept, the token becomes the first accepted entry, and every later copy of the token text is replaced too |
| Parse.ReplaceAfterToken | konsave/parse.py:22 | `path.replace(occurence, directory)` keeps the text before the token, puts the entry in its place and goes on replacing after it |
| Parse.ResolveUnmatched | konsave/parse.py:23 | when no entry is accepted the result is the token text alone |
| Parse.AdjacentTokensReadAsOne | konsave/parse.py:53 | two tokens written back to back match as a single one, because `\S+` is greedy |
| Parse.ExamplePattern | konsave/parse.py:54 | the pattern matches `${ENDS_WITH='conf'}` in `/c/${ENDS_WITH='conf'}` |
| Parse.ExampleMatch | konsave/parse.py:54 | the recogniser returns that match |
| Parse.ExampleTokenPattern | konsave/parse.py:54 | the token text `${ENDS_WITH='conf'}` alone matches the pattern with name `ENDS_WITH` |
| Parse.ExampleToken | konsave/parse.py:17 | `re.search` finds the token at offset 3 with argument `conf` |
| Parse.EndsWithFoundShape | konsave/parse.py:10-23 | `ends_with` on the sample replaces the token by the first entry ending with `conf` |
| Parse.EndsWithFoundExample | konsave/parse.py:10-23 | `ends_with` on the sample gives `/c/app.conf` |
| Parse.EndsWithUnmatchedExample | konsave/parse.py:23 | `ends_with` with no matching entry gives the token text alone |
| Location.Marker | konsave/config.py:56 | a keyword's marker is `$` followed by its name |
| Location.ExpandKeywordsIsReplaceEach | konsave/config.py:55-58 | the `in` test before `replace` changes nothing: the pass is a chain of unconditional replacements |
| Location.ExpandKeywordsWithoutMarkers | konsave/config.py:57 | a location holding no marker is left as it is |
| Location.ExpandKeywordsSplit | konsave/config.py:55 | the pass over a table is the pass over its first part, then over the rest |
| Location.MarkerAtFront | konsave/config.py:56-58 | a leading marker that occurs nowhere else is replaced by its value |
| Location.KeywordsAreSequential | konsave/config.py:55-58 | for example, with `$BIN_DIR` as the home value, `$HOME/x` becomes the bin directory followed by `/x`: a value holding a later keyword's marker is expanded again by that later keyword |
| Location.FirstMarkerOnly | konsave/config.py:55-58 | a leading first-keyword marker becomes its value when nothing later applies |
| Location.AsWrittenNeverExpands | konsave/config.py:58 | as written, the pass raises TypeError iff some marker occurs, and otherwise returns the location unchanged |
| Location.HomeMarkerAsWritten | konsave/config.py:58 | as written, `$HOME/.bashrc` raises TypeError |
| Location.HomeMarkerExpanded | konsave/config.py:55-58 | with the directories as strings, `$HOME/.bashrc` becomes the home directory followed by `/.bashrc` |
| Location.FindAllAreTokens | konsave/config.py:69-71 | every text `findall` returns is a token whose name `.group(1)` can read |
| Location.ApplyUnknownNames | konsave/config.py:70-73 | tokens naming no resolver are skipped |
| Location.ResolveFunctionsUnknownNames | konsave/config.py:69-73 | a location whose tokens name no resolver is left as it is |
| Location.ResolveFunctionsNoToken | konsave/config.py:69 | a location without tokens is left as it is |
| Location.ExampleFindAll | konsave/config.py:69 | `findall` on the sample returns its one token |
| Location.ExampleTokenName | konsave/config.py:70-71 | `.group(1)` of the sample token is `ENDS_WITH` |
| Location.TokenNameOfMatch | konsave/config.py:70-71 | `.group(1)` of a token's own text is the name the token has in the location |
| Location.FunctionPassExample | konsave/config.py:60-73 | the function pass on the sample resolves to `/c/app.conf` |
| Manifest.StripEntry.ToDict | konsave/config.py:24-26 | `to_dict` is a one-key mapping from the file name to the groups and keys |
| Manifest.StripFromDict | konsave/config.py:20-22 | a strip entry takes the given name, reads `groups` before `keys` (KeyError naming the first one missing) and stores their values as they are; a non-mapping raises TypeError |
| Manifest.StripsFromItems | konsave/config.py:80-84 | the comprehension makes one strip entry per key, in order, or fails with the error of one of them |
| Manifest.StripsDictEmpty | konsave/config.py:102-108 | the `strip` block is written back iff there is a strip entry |
| Manifest.LocationError | konsave/config.py:57 | a location that is not a string fails with AttributeError or TypeError |
| Manifest.EntryFromDictReads | konsave/config.py:75-91 | an entry that reads keeps its name, the `location` as written and both passes over it, the `entries`, and the strips read from `strip`, or none without it |
| Manifest.EntryFromDictFails | konsave/config.py:75-88 | a non-mapping raises TypeError, and a mapping with neither `strip` nor `location` raises KeyError on `location` |
| Manifest.EntryBodyShape | konsave/config.py:93-112 | the written body holds the location as written and the entries, and holds `strip` iff there are strips |
| Manifest.EntryWriteBack | konsave/config.py:97-98 | the body writes back the location and entries exactly as they were read, and adds no `strip` the input lacked |
| Manifest.EntriesFromItems | konsave/config.py:130-134 | a section that reads makes as many entries as it has keys |
| Manifest.EntriesFromItemsEach | konsave/config.py:130-134 | the i-th entry is the one read from the value under the i-th key |
| Manifest.EntriesReadOneMore | konsave/config.py:131-134 | the comprehension read up to a key goes on with the entry read under that key |
| Manifest.EntriesReadFails | konsave/config.py:131-134 | the comprehension stops at the first key whose entry fails, with its error |
| Manifest.EntriesFromItemsStep | konsave/config.py:131-134 | the comprehension is the first entry followed by the rest, and stops at the first failure |
| Manifest.SectionFromDict | konsave/config.py:127-135 | a section takes the given name and its entries from the mapping; a non-mapping raises AttributeError |
| Manifest.SectionsFromItems | konsave/config.py:164-168 | the config makes one section per top-level key, in order |
| Manifest.SectionsFromItemsStep | konsave/config.py:165-168 | the comprehension is the first section followed by the rest, and stops at the first failure |
| Manifest.LoadConfig | konsave/config.py:163-168 | loading normalises the document first; a document that is not a mapping raises AttributeError |
| Manifest.FindSection | konsave/config.py:169-170 | `sections.get(name)` gives a section of that name, or none when no section has it |
| Manifest.ConfigToDict | konsave/config.py:178-183 | writing raises AttributeError iff `save` or `export` is missing |
| Manifest.ConfigToDictShape | konsave/config.py:180-183 | the written config is `save`'s mapping followed by `export`'s |
| Manifest.StripBlockRoundTrip | konsave/config.py:22-26 | a well-formed strip block is `==` to what its entry writes back |
| Manifest.StripsDictDistinct | konsave/config.py:102-104 | with distinct file names the written strips are the entries' bodies in order |
| Manifest.StripMapRoundTrip | konsave/config.py:79-84 | a well-formed strip mapping is `==` to what its entries write back |
| Manifest.EntryRoundTrip | konsave/config.py:75-112 | a well-formed entry is `==` to what it writes back |
| Manifest.EntryNames | konsave/config.py:131-134 | each entry is named after its key |
| Manifest.SectionNames | konsave/config.py:164-168 | each section is named after its key |
| Manifest.EntriesDictSnoc | konsave/config.py:139-141 | one more entry updates the written entries with its body |
| Manifest.EntriesDictDistinct | konsave/config.py:139-141 | with distinct names the written entries are the entries' bodies in order |
| Manifest.SectionRoundTrip | konsave/config.py:127-142 | a well-formed section is `==` to what it writes back |
| Manifest.FindSectionAt | konsave/config.py:169-170 | with distinct names, looking up a section's name finds that section |
| Manifest.ManifestSections | konsave/config.py:163-170 | a well-formed manifest yields `save` and `export` sections whose written mappings are `==` to the document |
| Manifest.TwoSections | konsave/config.py:180-183 | the two-key document is `==` to the `save`-then-`export` mapping whatever its key order |
| Manifest.ConfigRoundTrip | konsave/config.py:186-191 | for every well-formed manifest that loads, `to_dict` succeeds and its result is `==` to the document |
| Config.SetAttributesKeys | konsave/config.py:40-41 | the `setattr` loop leaves one attribute per name, each holding the value of one of the pairs |
| Config.LastAttributeWins | konsave/config.py:40-41 | the attribute under a name holds the value of the last pair with that name |
| Config.ConfEntry.constructor | konsave/config.py:38-44 | a new entry holds its fields, keeps a copy of the location as written, and sets one attribute per strip |
| Config.ConfEntry.ParseKeywords | konsave/config.py:49-58 | the loop leaves the location equal to the keyword pass over the old location |
| Config.ConfEntry.ParseFunctions | konsave/config.py:60-73 | the loop leaves the location equal to the function pass over the old one, or reports the error that pass raises |
| Config.ConfEntry.ToDict | konsave/config.py:93-112 | the method's dict is the specified one: the entry's name mapped to its body |
| Config.ConfEntry.FromDict | konsave/config.py:75-91 | the method fails exactly when `EntryFromDict` does, with the same error, and otherwise makes a fresh entry in that state |
| Config.Section.constructor | konsave/config.py:122-125 | a new section holds its name and entries and sets one attribute per entry |
| Config.ReadEntries | konsave/config.py:131-134 | the loop over the keys fails exactly when `EntriesFromItems` does, with its error, and otherwise gives entries in the specified states |
| Config.StatesOfSnoc | konsave/config.py:131-134 | appending an entry appends its state |
| Config.Section.FromDict | konsave/config.py:127-135 | the method fails exactly when `SectionFromDict` does, and otherwise makes a fresh section whose entries are in the specified states |
| Config.Section.ToDict | konsave/config.py:137-142 | the method's dict is the section's name mapped to its entries' written bodies |
| Config.SectionNamedState | konsave/config.py:169-170 | looking a section up among the objects agrees with looking it up among their states |
| Config.FoundState | konsave/config.py:169-170 | a found section object's state is the section found among the states |
| Config.Config.constructor | konsave/config.py:165-170 | a new config holds its sections and their states |
| Config.Config.LoadSections | konsave/config.py:164-168 | the loop over the top-level keys fails exactly when `SectionsFromItems` does, and otherwise gives sections in the specified states |
| Config.Config.Load | konsave/config.py:148-170 | loading fails exactly when `LoadConfig` does, with the same error, and otherwise makes a fresh config in that state |
| Config.BothFound | konsave/config.py:180-183 | with both sections present, the written config merges the dicts of the sections found by name |
| Config.Config.ToDict | konsave/config.py:178-183 | the method's result is the specified `ConfigToDict` of the config's state |
| Config.CheckRoundTrip | konsave/config.py:186-191 | the testing code's comparison propagates a load failure, and is true for every well-formed manifest that loads |

## Left out

- File I/O: reading the file, `splitlines` and writing back `"\n".join(...)` (`konsave/funcs.py:224`, `konsave/funcs.py:262`) are left out. `StripContent` takes and returns the list of lines.
- `strip_args.get(..., [])` defaulting (`konsave/funcs.py:222-223`) is left out. The caller passes the group and key lists, and an absent list is the empty list.
- YAML parsing and reading `conf.yaml` (`konsave/config.py:150`, `konsave/funcs.py:130`) are left out. The model starts from the parsed document.
  - Numbers and booleans are kept by their text (`Scalar`), and `==` on them compares that text. Python's cross-type equalities (`1 == 1.0`, `True == 1`) are not reproduced; a document is only compared with its own values.
  - Mapping keys are strings only.
- `os.listdir` is a `Listing` map from the directory text to its entries, in listing order. A directory missing from the map raises FileNotFound.
- `konsave/consts.py` and `konsave/vars.py` are not part of this model. The home, config, share and bin directories are the strings of a `Dirs` value.
- `\w` is ASCII letters, digits and `_`; Python's Unicode letters and digits are not modelled. `\s` is the `str.isspace` set, as in Python.
- Config.SetAttributes: `setattr` is modelled as a separate attribute map. An attribute whose name is also a field (a strip file named `location`, an entry named `name`) does not overwrite that field in the model.
- An exception aborts the Python call and leaves the object half built. The model returns a `Failure` instead. `Config.ConfEntry.ParseFunctions` reports the error as `Some(err)` and leaves the location as the last completed step made it.
- Config.ConfEntry.FromDict: for a location that is not a string, the error is `LocationError` (AttributeError or TypeError). The passes are not run over lists or mappings.
- The command functions of `konsave/funcs.py` (save, apply, export, import, list, remove) are left out. They are file-system work around the core.
- The `__repr__` and `__str__` methods (`konsave/config.py:172-176`) are left out.
- `read_konsave_config` (`konsave/funcs.py:122-145`) calls module-level `parse_keywords` and `parse_functions` imported from `konsave/parse.py`, which does not define them. Only its normaliser is modelled (`Yaml.Normalize`).

## Findings

| source | as written | input that shows it | evidently intended | confidence | as-written member | corrected member |
|---|---|---|---|---|---|---|
| konsave/config.py:58 | `self.location.replace(word, value)` receives the `pathlib.Path` values of the keyword table (`konsave/parse.py:46-49`), and `str.replace` accepts only strings, so it raises TypeError whenever a marker occurs | location `$HOME/.bashrc` | the marker is replaced by the directory's text, giving the file in the home directory | high; not executed | Location.HomeMarkerAsWritten | Location.HomeMarkerExpanded |
