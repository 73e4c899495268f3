# Rivals replay record: field codecs and UTF-8 cursor helpers

This project models the field layer of RivalsReplayManager, a reader and writer for *Rivals of
Aether* replay files. A replay is fixed-column text. The model covers:

- the value types the record is assembled from: Version, DateTime, Name, Description,
  GameLength and MatchType, with their constructors' checks and their wire text;
- the format constants, the MatchType, Stage and Character enumerations, and the stage
  lookup table;
- the `utf8help` helpers the layer is built on:
  - trailing-space trimming and ASCII upper-casing of a text;
  - reading through a codepoint cursor: a fixed number of codepoints, a fixed-width number,
    up to the next line, or up to a delimiter.

Modules, one per file:

- `Failures` (`failures.dfy`): every exception the code can throw is an `Error` value, and
  a member that throws returns `Err` or `Fail`.
- `Decimal` (`decimal.dfy`): the decimal text that `std::format` and `std::to_string`
  produce, including the `{:0>N}` zero fill, and `std::stoll`. `std::stoll` is modelled
  completely: leading whitespace, an optional sign, the longest digit run, "no conversion"
  and "out of range".
- `Utf8Help` (`utf8help.dfy`): text is a `string` of Unicode scalar values, so a codepoint
  count is a length.
  - The cursor is a class with an immutable buffer and a mutable position.
  - The reading helpers are methods with loops that advance it.
  - The source's iterators are utf8cpp's checked `utf8::iterator`. Reading or stepping past
    the end, or stepping back before the start, throws `utf8::not_enough_room`; this is the
    `NotEnoughRoom` error.
- `ReplayRecordDefs` (`replay_record_defs.dfy`): constants, enumerations and the stage table
  of `ReplayRecord.hpp`.
- `ReplayRecord` (`replay_record.dfy`):
  - Version holds its four components in an array, since `operator[]` hands out references
    into it.
  - Name and Description are classes whose `Set` updates their fields.
  - DateTime, GameLength and MatchType are values.

The trim that `Name::Set` and `Description::Set` call, `utf8help::RTrim`, is declared in
utf8help/utf8help/utf8help.hpp:8 but defined nowhere. The model gives it the behaviour of
the defined `RTrimSpace`.

## Model

| member | source | states |
|---|---|---|
| Utf8Help.RTrimmedShape | utf8help/utf8help/utf8help.cpp:13-34 | the trimmed text is a prefix of the input, empty or ending in a non-space, and everything removed is spaces |
| Utf8Help.RTrimmedUnique | utf8help/utf8help/utf8help.cpp:13-34 | any split into such a prefix and a suffix of spaces has the trimmed text as its prefix |
| Utf8Help.RTrimmedIdempotent | utf8help/utf8help/utf8help.cpp:18-33 | trimming a trimmed text changes nothing |
| Utf8Help.AllSpacesTrimToEmpty | utf8help/utf8help/utf8help.cpp:18-33 | a text trims to empty exactly when it is all spaces |
| Utf8Help.RTrimmedPadding | utf8help/utf8help/utf8help.cpp:13-34 | trailing space padding is removed again by trimming |
| Utf8Help.RTrimSpace | utf8help/utf8help/utf8help.cpp:13-34 | the backward walk throws on the empty text, and otherwise returns the input without its trailing spaces |
| Utf8Help.Transform | utf8help/utf8help/utf8help.cpp:36-49 | throws exactly on the empty text; otherwise keeps the codepoint count and applies the map to each codepoint in place |
| Utf8Help.UpperChar | utf8help/utf8help/utf8help.cpp:9-60 | maps exactly 'a'..'z' to the codepoint 32 lower, through the two letter tables, and leaves every other codepoint unchanged |
| Utf8Help.UpperStringIdempotent | utf8help/utf8help/utf8help.cpp:51-61 | upper-cased text holds no lower-case ASCII letter, and upper-casing it again changes nothing |
| Utf8Help.UpperCommutesWithTrim | utf8help/utf8help/utf8help.cpp:51-61 | upper-casing then trimming equals trimming then upper-casing |
| Utf8Help.Upper | utf8help/utf8help/utf8help.cpp:51-61 | throws on the empty text, otherwise maps every codepoint with the upper-casing map |
| Utf8Help.ReadString | utf8help/utf8help/utf8help.cpp:63-69 | with room for `count` codepoints, returns exactly `buf[pos..pos+count]` and advances by `count`; otherwise, and for a negative count, throws with the cursor at the end |
| Utf8Help.ReadNum | utf8help/utf8help/utf8help.cpp:71-74 | returns `std::stoll` of the next `digits` codepoints and advances by `digits`, or throws as ReadString does |
| Utf8Help.AdvanceToNextLine | utf8help/utf8help/utf8help.cpp:76-79 | leaves the cursor one past the first '\n' at or after it, or throws at the end when there is none |
| Utf8Help.ReadUntil | utf8help/utf8help/utf8help.cpp:81-93 | returns the codepoints before the first `endChar` and leaves the cursor on it; the result holds no `endChar`; without one, throws at the end |
| Decimal.StoLLDigits | utf8help/utf8help/utf8help.cpp:71-74 | `std::stoll` of 1 to 18 decimal digits is their base-10 value |
| Decimal.NatToTextWidth | RivalsReplayManager/src/ReplayRecord.cpp:45 | the "{}" text of `n` fits `w` columns exactly when `n < 10^w` |
| Decimal.ZeroPaddedReadBack | RivalsReplayManager/src/ReplayRecord.cpp:45 | a value of at most `w` digits, zero-filled to `w` columns, is `w` digits that `std::stoll` reads back as the value |
| Decimal.AlignRightShape | RivalsReplayManager/src/ReplayRecord.cpp:61 | right alignment keeps the text at the end and fills only before it |
| ReplayRecordDefs.MatchKindValues | RivalsReplayManager/src/ReplayRecord.hpp:130-134 | exactly the values 0..3 name a match kind, and kind and value determine each other |
| ReplayRecordDefs.StageKindValues | RivalsReplayManager/src/ReplayRecord.hpp:152-202 | the kinds' values are exactly 0..STAGE_TOTAL_COUNT-1, one kind per value, and the table has one entry per kind |
| ReplayRecordDefs.StageKindOfValue | RivalsReplayManager/src/ReplayRecord.hpp:152-199 | looking up a kind's value gives the kind back |
| ReplayRecordDefs.StageValueOfKind | RivalsReplayManager/src/ReplayRecord.hpp:152-199 | every value below 40 names a kind whose value it is |
| ReplayRecordDefs.StageUnusedValues | RivalsReplayManager/src/ReplayRecord.hpp:209-250 | the table marks an entry unused exactly at values 0, 6, 13, 16, 22, 28, 30-35 and 37-39 |
| ReplayRecordDefs.PlaceholderValues | RivalsReplayManager/src/ReplayRecord.hpp:178-196 | the UNUSED_* and UNAVAILABLE_* kinds are exactly the kinds with those values |
| ReplayRecordDefs.StageUsedUnlessPlaceholder | RivalsReplayManager/src/ReplayRecord.hpp:178-250 | a kind's entry is marked used exactly when the kind is not an UNUSED_* or UNAVAILABLE_* placeholder |
| ReplayRecordDefs.CharacterKindValues | RivalsReplayManager/src/ReplayRecord.hpp:265-286 | exactly the values 0..15 name a character kind, one kind per value |
| ReplayRecord.VersionCheck | RivalsReplayManager/src/ReplayRecord.cpp:18-29 | passes exactly when major and minor are below 10 and patch and rev below 100; otherwise reports the first offending component and its value |
| ReplayRecord.Version.New | RivalsReplayManager/src/ReplayRecord.cpp:18-29 | construction succeeds exactly when the components are in range, holding them; otherwise it fails with the first offending component |
| ReplayRecord.Version.Default | RivalsReplayManager/src/ReplayRecord.hpp:50 | the default version is 0.0.0.0, which is in range |
| ReplayRecord.Version.At | RivalsReplayManager/src/ReplayRecord.cpp:31-36 | reading index `idx` succeeds exactly for 0..3 and gives that component; otherwise it throws with the index |
| ReplayRecord.Version.Put | RivalsReplayManager/src/ReplayRecord.cpp:31-36 | writing through index `idx` succeeds exactly for 0..3 and changes that component only; otherwise nothing changes |
| ReplayRecord.VersionTextWidth | RivalsReplayManager/src/ReplayRecord.cpp:43-46 | the wire text is six columns exactly when every component fits its column |
| ReplayRecord.VersionRoundTrip | RivalsReplayManager/src/ReplayRecord.cpp:43-46 | for an in-range version, the text is six digits, and reading 1, 1, 2 and 2 of them with `std::stoll` gives back major, minor, patch and rev |
| ReplayRecord.Version.Serialize | RivalsReplayManager/src/ReplayRecord.cpp:43-46 | six columns exactly when the components are in range, and then all digits |
| ReplayRecord.DateTime.Serialize | RivalsReplayManager/src/ReplayRecord.cpp:59-62 | at least 14 columns; exactly 14 digits if and only if every field fits its column |
| ReplayRecord.DateTimeRoundTrip | RivalsReplayManager/src/ReplayRecord.cpp:59-62 | when every field fits its column, the text is 14 digits, and reading 2, 2, 2, 2, 2 and 4 of them gives hour, minute, second, day, month and year |
| ReplayRecord.NormalizedIsNormalized | RivalsReplayManager/src/ReplayRecord.cpp:85-96 | the stored form of a text is trimmed and upper-case, and no longer than the input |
| ReplayRecord.PaddedRoundTrip | RivalsReplayManager/src/ReplayRecord.cpp:85-107 | a stored text padded with spaces to its field width normalises back to itself |
| ReplayRecord.Normalize | RivalsReplayManager/src/ReplayRecord.cpp:87-89 | trimming then upper-casing, with the empty text left empty, gives the stored form |
| ReplayRecord.SetAsWritten | RivalsReplayManager/src/ReplayRecord.cpp:85-96 | the unguarded trim and upper-case throw exactly when the text is blank; otherwise the length check, then the stored form |
| ReplayRecord.DefaultNameAsWritten | RivalsReplayManager/src/ReplayRecord.hpp:81 | the default constructor Name(), which is Name(""), throws |
| ReplayRecord.DefaultDescriptionAsWritten | RivalsReplayManager/src/ReplayRecord.hpp:98 | the default constructor Description(), which is Description(""), throws |
| ReplayRecord.BlankNameFieldAsWritten | RivalsReplayManager/src/ReplayRecord.cpp:85-96 | Set on a blank 32-column name field, such as a replay with no name holds, throws |
| ReplayRecord.Name.Default | RivalsReplayManager/src/ReplayRecord.hpp:81 | the default name is empty, with length 0 |
| ReplayRecord.Name.New | RivalsReplayManager/src/ReplayRecord.cpp:80-83 | construction succeeds exactly when the stored form fits 32 codepoints, and then holds it; a blank text is stored empty, following the corrected Set |
| ReplayRecord.Name.Set | RivalsReplayManager/src/ReplayRecord.cpp:85-96 | stores the trimmed, upper-cased text and its codepoint count when it fits 32 codepoints; otherwise throws with the length and leaves the name and count unchanged |
| ReplayRecord.Name.ToString | RivalsReplayManager/src/ReplayRecord.cpp:98-101 | the stored name: trimmed, upper-case, `len` codepoints, and the start of the serialised field |
| ReplayRecord.Name.Serialize | RivalsReplayManager/src/ReplayRecord.cpp:103-107 | exactly 32 codepoints: the name, then spaces; setting it again gives the name back |
| ReplayRecord.Description.Default | RivalsReplayManager/src/ReplayRecord.hpp:98 | the default description is empty, with length 0 |
| ReplayRecord.Description.New | RivalsReplayManager/src/ReplayRecord.cpp:109-112 | construction succeeds exactly when the stored form fits 140 codepoints, and then holds it; a blank text is stored empty, following the corrected Set |
| ReplayRecord.Description.Set | RivalsReplayManager/src/ReplayRecord.cpp:114-125 | as the corrected Name.Set, with the limit 140: a blank text is stored empty |
| ReplayRecord.Description.ToString | RivalsReplayManager/src/ReplayRecord.cpp:127-130 | the stored description: trimmed, upper-case, `len` codepoints, and the start of the serialised field |
| ReplayRecord.Description.Serialize | RivalsReplayManager/src/ReplayRecord.cpp:132-136 | exactly 140 codepoints: the description, then spaces; setting it again gives the description back |
| ReplayRecord.NewGameLength | RivalsReplayManager/src/ReplayRecord.cpp:154-161 | accepts exactly 0..999999 frames; a negative count and a count above the maximum each throw their own error |
| ReplayRecord.GameLength.GetFrames | RivalsReplayManager/src/ReplayRecord.cpp:163-166 | a count in 0..999999, which is what `std::stoll` reads back from the serialised field |
| ReplayRecord.GameLength.ToString | RivalsReplayManager/src/ReplayRecord.cpp:168-174 | minutes, ':', then two digits of seconds below 60; reading both back brackets the frame count to within one second |
| ReplayRecord.GameLength.Serialize | RivalsReplayManager/src/ReplayRecord.cpp:176-179 | six digits that `std::stoll` reads back as the frame count |
| ReplayRecord.MatchType.ToString | RivalsReplayManager/src/ReplayRecord.cpp:181-199 | throws exactly for an unnamed kind value; "Local Team" exactly for a local team match |
| ReplayRecord.TeamFlagOnlyForLocal | RivalsReplayManager/src/ReplayRecord.cpp:181-199 | the team flag changes the display name of a local match only |
| ReplayRecord.MatchType.SerializeType | RivalsReplayManager/src/ReplayRecord.cpp:201-204 | for a named kind, one digit that reads back as the kind's value |
| ReplayRecord.MatchType.SerializeIsTeamMatch | RivalsReplayManager/src/ReplayRecord.cpp:206-209 | one digit, read back as 1 for a team match and 0 otherwise |
| ReplayRecord.DefaultsFitColumns | RivalsReplayManager/src/ReplayRecord.hpp:65-116 | the default date and time is in range and serialises to 14 zeros; the default game length serialises to six zeros |

## Left out

- RivalsReplayManager/src/main.cpp: file input and output on replay files. It is not part of this model.
- The record decoder `ReplayRecord(const SerializedString&)` is an empty stub in the source, so the whole-record layout is not modelled. The same goes for the empty `Workshop`, `KnockbackScale` and `Abyss` types and the record's own fields.
- `SerializedString` and `ElementSerializedString` only wrap a string. The model uses the string itself.
- UTF-8 encoding and decoding are left out. Text is a sequence of codepoints from the start, so malformed UTF-8 (`utf8::invalid_utf8`) cannot arise.
- Exception message texts are left out. Each error carries only the values that identify it.
- `Version::ToString` and `DateTime::ToString` are left out. They build display text only, and nothing in the codec reads that text.
- `utf8help::RTrim` (in-place) has a declaration and no definition. It is modelled as `RTrimSpace`, and there is no separate in-place member.
- The display-name column of the stage table is left out: no property is stated about the names. The `isUsed` and `isAetherAvailable` columns are modelled.
- `Stage::Type` and the `Stage` value are declared as data only. The source has no operations on them.
- ReplayRecord.MatchType.SerializeType: the read-back is stated for the four named kinds only. For any other value the text is the plain decimal text of that integer, possibly with a sign or several digits.
- ReplayRecord.DateTimeRoundTrip: the read-back is stated only when every field fits its column; the source does not check DateTime fields at all. A negative value that fits its column (down to -9 in a two-column field, -999 in the year) puts a '-' inside that column, and DateTime.Serialize then reports the text as not all digits. A value of -10 or less in a two-column field, -1000 or less in the year, or one too wide for its column shifts the later columns.
- ReplayRecord.Name.Default: models the evidently intended empty name. As written, `Name()` throws; see Findings.
- ReplayRecord.Name.New: follows the corrected Set, so a blank text is stored as the empty name. As written, `Name(s)` on a blank `s` throws `utf8::not_enough_room`; see Findings.
- ReplayRecord.Description.New: follows the corrected Set, so a blank text is stored as the empty description. As written, `Description(s)` on a blank `s` throws; see Findings.
- ReplayRecord.Description.Set: models the corrected Set, as Name.Set does: a blank text is stored empty. As written, it throws on a blank text exactly as `Name::Set` does; SetAsWritten with the limit 140 is the as-written member.
- ReplayRecord.Description.Default: models the evidently intended empty description. As written, `Description()` throws; see Findings.

## Findings

| source | as written | input that shows it | evidently intended | confidence | as-written member | corrected member |
|---|---|---|---|---|---|---|
| RivalsReplayManager/src/ReplayRecord.hpp:81 | `Name()` delegates to `Name("")`. `Set` then upper-cases the empty text, and Transform's do-while reads the empty text at its end, which throws `utf8::not_enough_room` | `Name()` | the default name is empty, with length 0 | not executed; follows from the checked iterator throwing at the end of its range | ReplayRecord.DefaultNameAsWritten | ReplayRecord.Name.Default |
| RivalsReplayManager/src/ReplayRecord.hpp:98 | `Description()` delegates to `Description("")`, which throws the same way | `Description()` | the default description is empty, with length 0 | not executed; follows from the checked iterator throwing at the end of its range | ReplayRecord.DefaultDescriptionAsWritten | ReplayRecord.Description.Default |
| RivalsReplayManager/src/ReplayRecord.cpp:85-96 | trimming and upper-casing are called on any text. A blank text trims to empty, or is empty already, and then throws | `Set` on any blank text, such as a 32-space name field read from a replay | a blank text is stored as the empty name, so `Set(Serialize())` reproduces every name | not executed; follows from the checked iterator throwing at the end of its range | ReplayRecord.BlankNameFieldAsWritten | ReplayRecord.Name.Set |
