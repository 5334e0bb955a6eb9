# Song formatter — a Dafny model

This project models `SongFormatter` from `song_formatter.py`. The class
turns a pasted list of `Title - Artist` lines into a sorted list of
`Artist - Title` records. Along the way it normalises artist names:

- A name listed in the built-in table becomes its English name.
- A mostly-ASCII name is kept as it is.
- A name that is not mostly ASCII and contains Chinese characters gets its
  pinyin reading appended in brackets.
- Any other name is kept.
- Co-credits (names joined by `/`, `&` or `,`) are split, each name is
  normalised, and the names are joined with `" & "`.

The modules follow the source:

| module | file | models |
|---|---|---|
| `Wrappers` | wrappers.dfy | `Option` and `Result`: a `None` return, and an exception that escapes |
| `Text` | text.dfy | `str.strip`, `str.replace`, `in`, `str.split`, `re.split`, `str.splitlines` and `str.join` |
| `Script` | script.dfy | `is_chinese` and `is_english` |
| `ArtistNames` | artist_names.dfy | `get_artist_name`, over any mapping and any romaniser |
| `ArtistTable` | artist_table.dfy | the mapping built by `__init__` |
| `SongLines` | song_lines.dfy | `parse_song_line` |
| `Ordering` | ordering.dfy | `list.sort` on strings (code-point order) |
| `Batch` | batch.dfy | `format_songs` up to the sorted list of records |

Two points of the code that the model keeps as written:

- **Empty artist name.** `is_english("")` divides by zero (song_formatter.py:41).
  The model has `IsEnglish("") == Failure(ZeroDivision)`. This case arises
  when a co-credit has a blank piece: for example, the artist `B/` becomes
  `B&` and splits into `B` and an empty piece. The `try` of
  `parse_song_line` (:79-95) covers parsing only. `get_artist_name` is
  called at :105 outside any `try`, so the `ZeroDivisionError` escapes
  `format_songs` and is reported by `main` at :132-133. `FormatSongs`
  returns that error as a `Failure`, and `BatchFailsOnArtist` states
  exactly when it happens.
- **Co-credits are looked up piece by piece.** The co-credit test (:54)
  comes before the table lookup (:59). A co-credit is never looked up
  whole: each piece is stripped and looked up in the recursive call at
  :56. A piece never contains a separator, so that call goes straight to
  the name-level rules and the recursion is one level deep
  (`PiecesAreSingle`, `SingleArtistIsToken`).

## Model

| member | source | states |
|---|---|---|
| `Script.IsChinese` | song_formatter.py:34-36 | true exactly when some character lies in U+4E00..U+9FFF |
| `Script.AsciiCount` | song_formatter.py:41 | the number of characters below 128 is at most the length; it equals the length iff the text is all ASCII, and is positive iff some character is ASCII |
| `Script.AsciiCountConcat` | song_formatter.py:41 | the ASCII count of a concatenation is the sum of the counts |
| `Script.IsEnglish` | song_formatter.py:38-41 | fails (division by zero) exactly on the empty text; all-ASCII non-empty text is English; English text holds some ASCII character; for texts of at most 10 characters, more than 90% means every character |
| `Text.Strip` | song_formatter.py:51 | the result is the unique sub-string framed by whitespace on both sides with no whitespace at either end |
| `Text.StripOfUnique` | song_formatter.py:51 | at most one string is the strip of a given string |
| `Text.StripEmpty` | song_formatter.py:81-82 | a line strips to the empty string iff it is all whitespace (the "skip empty lines" test) |
| `Text.StripTrimmed` | song_formatter.py:91 | stripping a string with no outer whitespace leaves it unchanged (strip is idempotent) |
| `Text.StripChars` | song_formatter.py:51 | stripping adds no character |
| `Text.StripPadding` | song_formatter.py:85 | adding whitespace on either side of a line does not change its strip |
| `Text.TrimStartSpec` | song_formatter.py:51 | the left trim is a suffix, what it drops is whitespace, and it starts with a non-space |
| `Text.TrimEndSpec` | song_formatter.py:51 | the right trim is a prefix, what it drops is whitespace, and it ends with a non-space |
| `Text.FindFirst` | song_formatter.py:85 | finds the first occurrence of a pattern, and `None` exactly when there is none |
| `Text.ReplaceChar` | song_formatter.py:51 | `replace('/', '&')`: same length, each target character replaced and all others kept |
| `Text.CountIn` | song_formatter.py:55 | the number of separator characters, which fixes the number of pieces `re.split` gives (`Text.SplitPieces`); it is zero exactly when no separator occurs |
| `Text.SplitPieces` | song_formatter.py:55 | `re.split('[&,]')` gives one more piece than there are separators, and no piece holds a separator or a new character |
| `Text.JoinSplit` | song_formatter.py:55-56 | joining the pieces with one separator character gives back the text with every separator replaced by that character |
| `Text.SplitJoin` | song_formatter.py:55-56 | splitting a join of separator-free pieces gives back the pieces |
| `Text.Split` | song_formatter.py:55 | `re.split('[&,]')` gives at least one piece, and a text with no separator is its own single piece; characterised by `Text.SplitPieces`, `Text.JoinSplit` and `Text.SplitJoin` |
| `Text.Join` | song_formatter.py:56 | `" & ".join`: no pieces give the empty string, and the first piece begins the result; the inverse of `Split` by `Text.SplitJoin` |
| `Text.JoinCons` | song_formatter.py:56 | the join of a list with a head is the head, the separator, then the join of the rest |
| `ArtistNames.Capitalize` | song_formatter.py:70 | `word.capitalize()`: same length, the first character upper-cased and every later one lower-cased |
| `ArtistNames.CapitalizeIdempotent` | song_formatter.py:70 | capitalising twice is capitalising once |
| `ArtistNames.CapitalizeAll` | song_formatter.py:69-72 | capitalises every pinyin syllable, one output word per input word |
| `ArtistNames.CapitalizedSplit` | song_formatter.py:69-72 | for a non-empty list of syllables none of which holds a space, splitting the space-joined capitalised syllables at the spaces gives them back |
| `ArtistNames.PinyinName` | song_formatter.py:69-72 | the pinyin name is empty for no syllables; otherwise, when no syllable holds a space, it splits at its spaces into exactly the capitalised syllables |
| `ArtistNames.NormalizeToken` | song_formatter.py:58-75 | the name-level rules: fail exactly on the empty name when it is not a key; a key gives its table entry; an unmapped name that succeeds begins with the name itself (kept or `name (Pinyin)`) |
| `ArtistNames.Normalize` | song_formatter.py:43-75 | `get_artist_name`: fails only on a blank name or a co-credit, and a blank name that is not a key fails with the division by zero; characterised branch by branch by the lemmas below (`NormalizeMapped`, `NormalizeKeepsEnglish`, `NormalizeRomanizes`, `NormalizeKeepsOtherScripts`, `NormalizeMultiArtist`) |
| `ArtistNames.NormalizeEach` | song_formatter.py:56 | the generator of the co-credit branch gives one name per piece when it succeeds; characterised by `NormalizeEachFails` and `NormalizeEachNames` |
| `ArtistNames.SingleArtistIsToken` | song_formatter.py:51-56 | a name without `/`, `&` or `,` skips the co-credit branch and goes to the name-level rules, stripped |
| `ArtistNames.TokenFailsOnlyWhenEmpty` | song_formatter.py:58-75 | the name-level rules raise only on the empty name, and then it is the division by zero |
| `ArtistNames.CanonicalIsFixed` | song_formatter.py:58-64 | a non-empty, trimmed, single-artist ASCII name that is not a key is returned unchanged (the empty name fails instead) |
| `ArtistNames.NormalizeMapped` | song_formatter.py:59-60 | a mapped name yields its table entry, and normalising that entry again changes nothing |
| `ArtistNames.NormalizeKeepsEnglish` | song_formatter.py:63-64 | an unmapped, mostly-ASCII name is returned stripped |
| `ArtistNames.MostlyAsciiNotRomanized` | song_formatter.py:63-67 | every unmapped single artist that holds a CJK ideograph but passes the 90% test is returned stripped, not romanised: the English test at :63 hides the Chinese test at :67 |
| `ArtistNames.MostlyAsciiChineseName` | song_formatter.py:38-41 | such names exist: ten or more ASCII characters with no `&`, `,` or `/`, the first not a space, followed by one CJK ideograph make a trimmed single artist that is both Chinese and English |
| `ArtistNames.NormalizeRomanizes` | song_formatter.py:67-73 | an unmapped, non-English Chinese name becomes `name (Pinyin Reading)`, laid out character by character |
| `ArtistNames.NormalizeKeepsOtherScripts` | song_formatter.py:75 | an unmapped name that is neither English nor Chinese is returned stripped |
| `ArtistNames.NormalizeSingleFails` | song_formatter.py:51-75 | a single artist fails iff it is blank, and then with the division by zero |
| `ArtistNames.PiecesAreSingle` | song_formatter.py:51-55 | every piece of a co-credit is a single artist, which bounds the recursion at one level |
| `ArtistNames.NormalizeEachFails` | song_formatter.py:56 | the generator over single artists fails iff some piece strips to empty |
| `ArtistNames.NormalizeEachNames` | song_formatter.py:56 | a successful generator gives one name per piece, each the name-level rules applied to the stripped piece |
| `ArtistNames.NormalizeMultiArtist` | song_formatter.py:53-56 | a co-credit splits into one more piece than it has separators, fails iff a piece is blank, and otherwise is the " & " join of each piece's name |
| `ArtistNames.TwoArtistsSplit` | song_formatter.py:51-55 | `x&y` for two trimmed single artists is unchanged by the `/` rewrite and splits into exactly `[x, y]` |
| `ArtistNames.NormalizeTwoArtists` | song_formatter.py:53-56 | `x&y` normalises to `name(x) & name(y)` for two non-blank single artists |
| `ArtistTable.NewFormatter` | song_formatter.py:5-32 | a new formatter holds the built-in table (song_formatter.py:7-32) and the given romaniser, and that table is well formed: the empty name is not a key, and every English name is one the normaliser leaves unchanged |
| `ArtistTable.KeyNonAscii` | song_formatter.py:7-32 | every key except `Kevin` has a non-ASCII character (at position 0, or at 6 for `G.E.M.邓紫棋`) |
| `ArtistTable.ValuePlain` | song_formatter.py:7-32 | every English name in the table is non-empty, ASCII, trimmed, a single artist and not `Kevin` |
| `ArtistTable.KeyPlain` | song_formatter.py:7-32 | every key is a single artist with no outer whitespace, so it reaches the table lookup unchanged |
| `ArtistTable.AsciiIsNotKey` | song_formatter.py:7-32 | no ASCII name other than `Kevin` is a key |
| `ArtistTable.MappingWellFormed` | song_formatter.py:7-32 | the table has no empty key and maps every key to a name the normaliser leaves alone |
| `ArtistTable.MappedKey` | song_formatter.py:59-60 | every key of the built-in table normalises to its English name |
| `ArtistTable.ExampleMappedName` | song_formatter.py:19 | `周杰伦`, mapped to `Jay Chou` in the table, normalises to `Jay Chou` through the lookup at :59-60 |
| `ArtistTable.ExampleCanonicalName` | song_formatter.py:63-64 | `Jay Chou` normalises to itself |
| `ArtistTable.ExampleEnglishName` | song_formatter.py:63-64 | an unmapped English name such as `Taylor Swift` is kept |
| `SongLines.ParseSongLine` | song_formatter.py:77-95 | a blank line gives `None`; `None` iff the stripped line lacks `" - "`; otherwise title and artist are non-empty and stripped |
| `SongLines.SplitHalvesNonBlank` | song_formatter.py:85-91 | both halves of a split stripped line are non-blank |
| `SongLines.ParseSplitsAtFirst` | song_formatter.py:85-91 | a parsed song comes from splitting the stripped line at the first `" - "`, with no separator in the title |
| `SongLines.ParseFromSplit` | song_formatter.py:85-91 | conversely, splitting the stripped line at its first `" - "` gives exactly the parsed song |
| `SongLines.ParseIgnoresPadding` | song_formatter.py:81-85 | leading and trailing whitespace does not change what a line parses to |
| `Ordering.LexLe` | song_formatter.py:109 | the code-point order Python compares strings by: a prefix comes first; made a total order by the three lemmas below |
| `Ordering.LexLeTotal` | song_formatter.py:109 | string order is total |
| `Ordering.LexLeAntisymmetric` | song_formatter.py:109 | string order is antisymmetric |
| `Ordering.LexLeTransitive` | song_formatter.py:109 | string order is transitive |
| `Ordering.Insert` | song_formatter.py:109 | inserting into a sorted list keeps it sorted and adds exactly that element |
| `Ordering.SortStrings` | song_formatter.py:109 | the result is sorted and a permutation of the input |
| `Ordering.SortedUnique` | song_formatter.py:109 | two sorted permutations of the same list are equal, so any correct sort (such as `list.sort`) gives this result |
| `Batch.Lines` | song_formatter.py:101 | `text_input.strip().splitlines()`: at least one line, and a blank input is the single empty line; characterised by `Batch.LinesOfText` |
| `Batch.RecordOf` | song_formatter.py:105-106 | the record `f"{formatted_artist} - {title}"`: fails exactly when the artist fails to normalise; otherwise exactly as long as the normalised name, `" - "` and the title together, with the name first, `" - "` right after it and the title last |
| `Batch.Collect` | song_formatter.py:99-106 | the loop's list before sorting: at most one record per line; characterised by `Batch.RecordsOfParsedSongs`, `Batch.OneRecordPerParsedLine` and `Batch.BatchFailsOnArtist` |
| `Batch.Kept` | song_formatter.py:101-104 | the songs of the lines that parse, at most one per line; characterised by `Batch.KeptFromLines`, `Batch.KeptCount` and `Batch.KeptLength` |
| `Batch.KeptCount` | song_formatter.py:101-104 | for any parser, each value occurs in the kept list exactly as often as there are lines that parse to it: nothing is merged or dropped |
| `Batch.KeptLength` | song_formatter.py:101-104 | for any parser, the kept list has exactly one value per line that parses |
| `Batch.OneRecordPerParsedLine` | song_formatter.py:101-106 | a batch that succeeds holds exactly as many records as there are lines that parse, duplicate lines included |
| `Batch.CollectSorted` | song_formatter.py:99-109 | folding the lines stops at the first error; otherwise the result is the sorted permutation of the records in input order |
| `Batch.FormatSongs` | song_formatter.py:97-109 | formats `text.strip().splitlines()`: fails with the first artist error, otherwise gives the sorted permutation of the records |
| `Batch.ParsedSongsFromLines` | song_formatter.py:101-104 | a song is among those kept iff some line parses to it |
| `Batch.RecordsOfParsedSongs` | song_formatter.py:101-106 | the batch succeeds iff every parsed song renders; then there is one record per parsed song, in order, each `artist - title` |
| `Batch.BatchFailsOnArtist` | song_formatter.py:101-106 | the batch fails iff the artist of some parsed song fails to normalise |
| `Batch.RecordsPrefixFails` | song_formatter.py:101-106 | once a prefix of the lines fails, later lines do not matter |
| `Batch.SkipUnparsed` | song_formatter.py:102-103 | deleting a line that does not parse changes nothing |
| `Batch.CollectSkip` | song_formatter.py:102-103 | for any per-line step, a line that adds nothing can be deleted |
| `Batch.KeptFromLines` | song_formatter.py:101-104 | for any parser, a value is kept iff some line parses to it |
| `Batch.LinesOfText` | song_formatter.py:101 | no line holds a line break; there is one more line than there are breaks; joining the lines with `\n` gives the stripped text with every break unified to `\n` |

## Left out

- Writing the output file (the records joined with `\n`), the console messages and `main` (song_formatter.py:111-136) are I/O and are not modelled. `FormatSongs` returns the sorted list that `format_songs` returns at line 116, with an escaping exception as a `Failure`.
- The warnings printed for malformed lines and the `except` clause of `parse_song_line` (lines 87 and 92-95) are left out. Nothing in the strip or the split can raise. Only the prints can raise, for example on a console that cannot encode the line, and that is I/O. The handler's `print` at :93 repeats the line, so such an error escapes `parse_song_line` and the batch and reaches `main` (:132); this is not modelled.
- `pypinyin.lazy_pinyin` is a third-party library. It is a parameter of the formatter (`Formatter.pinyin`, any function from a name to syllables), and the properties hold for every such function.
- `ArtistNames.Capitalize` (and `ArtistNames.CapitalizeAll`, which applies it to each syllable): `str.capitalize` is modelled for ASCII letters only. Other characters pass through unchanged, while Python also changes their case. pypinyin's `Style.NORMAL` syllables are ASCII, so this only matters for characters it returns untranslated.
- `Batch.Lines` (and `Batch.LinesOfText`, which characterises it): `str.splitlines` is modelled as a split on each line-boundary character. A `\r\n` pair therefore gives an extra empty line, which the parser skips (`Batch.SkipUnparsed`). An empty text gives one empty line rather than none, which is likewise skipped. The records are the same either way.
- `Script.IsEnglish`: the float test `ascii / len > 0.9` is modelled as the integer test `10 * ascii > 9 * len`. They can differ only when `ascii / len` exceeds `9/10` while its rounded value does not exceed `0.9` as a float, which needs a text of about 10^15 characters. So they agree on every text shorter than 10^15 characters; the difference beyond that is not modelled.
- `Text.Strip`: whitespace is the fixed set that `str.isspace` accepts. No other Unicode normalisation is modelled.
- `Ordering.SortStrings`: `list.sort` is Timsort. The model sorts by insertion, and `Ordering.SortedUnique` shows that every correct sort gives the same list.
