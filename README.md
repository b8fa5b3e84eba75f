# Game results and image drop window, modelled in Dafny

This models the logic of a small desktop tool made of two parts.

- **Results page** (`results_page.py`). Game records are loaded from a JSON document and shown one row per game; the score column reads `"name: result"` entries joined by `", "`. The CSV export writes two tables: one row per game, then, after an empty row, one row per player with their total and average. The chart draws each player's results in game order, and it is refused when no records are loaded.
- **Image window** (`main.py`). A drag-and-drop payload is split into file paths by the pattern `\{[^}]+\}|[^\s\{]+`, falling back to a whitespace split. Each path is stripped of surrounding braces and kept when its lower-cased name ends in `.png`, `.jpg`, `.jpeg`, `.bmp` or `.gif`. Each existing file is stored, and its thumbnail is placed at grid cell `(i // c, i % c)`, where `c` is the frame width divided by the 200-pixel thumbnail width.

Files:

- `strings.dfy` (module `Strings`): the text operations both parts use.
  - `sep.join(parts)`, with where each part and separator lands in the result.
  - `str(n)` for integers, with a parse that inverts it.
  - `str.lower()` and `str.endswith`.
- `results.dfy` (module `Results`): the results page, in two layers.
  - Specification functions over the flat list of all entries (`Entries`): `Names` (players in first-appearance order), `Total`, `Count`, `Scores`.
  - The imperative part: the two dictionary-building loops (`Aggregate`, `CollectSeries`), proved against those functions, and the class `ResultsPage`, whose fields are the loaded records and the on-screen table.
- `drag_drop.dfy` (module `DragDrop`): the image window.
  - The pattern scanner `FindAll`, `Split`, `Tokenize`, brace stripping and the extension filter.
  - The window state `AppState` with transition functions: `Display` (`display_image`), `DropTokens` / `Drop` (`on_drop`) and `DisplayAll` (`choose_files`).
  - The class `ImageApp`, whose methods are proved to produce exactly those transitions.

The environment is a parameter. For the results page, what the JSON reader returned is a `LoadResult`, with three cases. `Loaded` holds the parsed records. `LoadFailed` is a missing file or malformed JSON, which `load_json` catches and turns into an empty record list. `ReadRaised` is any other read error, such as permission denied, a directory, or bytes that are not UTF-8. `load_json` does not catch these, so `display_results` stops before it changes anything. For the image window, an `Env` gives which paths exist, which of them decode as images, and the current frame width.

## Model

| member | source | states |
|---|---|---|
| Strings.JoinPartAt | results_page.py:46 | in `sep.join(parts)` every part appears unchanged at its offset, and a separator follows every part except the last; for the score column the parts are the `"name: result"` texts and the separator is `", "` |
| Strings.JoinPartOnly | results_page.py:73-75 | each part of a join sits unchanged at its offset inside the joined text |
| Strings.JoinSeparatorAt | results_page.py:73-75 | between part i and part i+1 of a join stands exactly the separator, and part i+1 starts right after it |
| Strings.OffsetClosedForm | results_page.py:46 | part i of a join starts after the lengths of the earlier parts plus i separators |
| Strings.JoinLength | results_page.py:46 | a join is as long as its parts plus one separator between each pair of neighbours |
| Strings.JoinEmpty | results_page.py:46 | joining no parts gives the empty text; a join whose first part is non-empty is non-empty |
| Strings.NatToString | results_page.py:46 | `str(n)` of a non-negative integer is a non-empty run of decimal digits |
| Strings.ParseNatToString | results_page.py:46 | reading back the digits of `str(n)` gives n |
| Strings.IntToStringRoundTrip | results_page.py:46 | `str(n)` of any integer is a decimal numeral (optional minus, then digits) that reads back as n, so distinct results are shown as distinct texts |
| Strings.LowerIdempotent | main.py:59 | lower-casing an already lower-cased path changes nothing |
| Results.ScoreTexts | results_page.py:46 | one `"name: result"` text per entry |
| Results.FormatScoresEmpty | results_page.py:46 | a game's score column is empty exactly when the game has no entries |
| Results.NamesExact | results_page.py:88-95 | a name gets a dictionary key exactly when some entry of some game carries it |
| Results.NamesDistinct | results_page.py:93-95 | each player is listed once |
| Results.NamesFirstAppearance | results_page.py:93-95 | players are listed in the order of their first entry (dictionary insertion order) |
| Results.FirstAppearanceAt | results_page.py:93-95 | given an entry k carrying the j-th listed name and i before j, an entry before k that carries the i-th listed name |
| Results.CountPositive | results_page.py:101-103 | every listed player has a count of at least one, so the average never divides by zero; an unlisted name has count zero |
| Results.CountIsOccurrences | results_page.py:98 | a player's count is the number of entries that carry the name |
| Results.ScoresMatchTotals | results_page.py:120-127 | a player's chart series has one point per counted entry, and its points sum to the player's CSV total |
| Results.AppendEntries | results_page.py:88-98 | totals, counts and series over two runs of entries are the sums of those over each run |
| Results.TotalOverGames | results_page.py:88-98 | a player's total is the sum, game by game, of that player's results in each game |
| Results.SnocEntry | results_page.py:93-98 | one more entry adds its name at the end if new, adds its result to that name's total, adds one to its count and appends its result to its series; other names are unchanged |
| Results.EntriesPrefix | results_page.py:88-89 | the entries of the first g+1 games are those of the first g followed by game g's entries |
| Results.AbsentName | results_page.py:93-95 | a name that never appears has total 0, count 0 and no series points |
| Results.ExampleSummary | results_page.py:85-104 | for Ann (10, then 7) and Bob (5) the players are Ann then Bob, with totals 17 and 5 and counts 2 and 1 |
| Results.TallyStep | results_page.py:93-98 | the create-on-first-sight-then-increment step keeps the two dictionaries equal to the totals and counts of the entries seen so far |
| Results.Aggregate | results_page.py:85-98 | the totals and counts dictionaries: keys are exactly the players, in first-appearance order; values are each player's total and count, and every count is at least one |
| Results.CollectStep | results_page.py:125-127 | the create-then-append step keeps the series dictionary equal to the series of the entries seen so far |
| Results.CollectSeries | results_page.py:120-127 | the series dictionary: keys are exactly the players, in first-appearance order; each value is that player's results in entry order |
| Results.CsvRowsLayout | results_page.py:68-104 | the CSV has a game header, one row per game in order (number, score column), an empty row, a player header, and one row per player in first-appearance order (name, total, exact average), every player with a count of at least one |
| Results.ResultsPage.constructor | results_page.py:16-32 | a new page has no records and an empty table |
| Results.ResultsPage.DisplayResults | results_page.py:34-58 | the records become what was loaded, or nothing after a failure the reader catches (missing file, malformed JSON); the table is emptied and refilled with exactly one row per record, in order; a read error the reader does not catch leaves records and table as they were |
| Results.ResultsPage.SaveToCsv | results_page.py:60-104 | the rows written are exactly the CSV layout of the loaded records |
| Results.PlotLayout | results_page.py:115-132 | the chart is refused exactly when there are no records; otherwise there is one line per player in first-appearance order, labelled with the name, with y the player's results in entry order and x the positions 1, 2, and so on; no line is empty |
| Results.ResultsPage.PlotGraph | results_page.py:111-132 | the result is exactly the chart of the loaded records, computed by the loop over the series dictionary |
| DragDrop.RunLength | main.py:65 | the second alternative matches the longest prefix without whitespace or `{` |
| DragDrop.GroupShape | main.py:65 | a first-alternative match is `{`, at least one non-`}` character, then `}` |
| DragDrop.FindAll | main.py:65 | every match is a brace group or a run without whitespace and `{` |
| DragDrop.Split | main.py:67 | `str.split()` gives non-empty words without whitespace |
| DragDrop.Tokenize | main.py:64-68 | every extracted path is a brace group, a plain run, or (from the fallback) a run of `{` |
| DragDrop.FindAllEmpty | main.py:65-66 | the pattern finds nothing exactly when every character is whitespace or `{` |
| DragDrop.SplitOfOpenBraces | main.py:66-67 | when the pattern finds nothing, the fallback yields only runs of `{` |
| DragDrop.SplitEmpty | main.py:67 | the whitespace split is empty exactly when the payload is all whitespace |
| DragDrop.TokenizeEmpty | main.py:64-68 | no paths are extracted exactly when the payload is empty or all whitespace |
| DragDrop.FindAllGroup | main.py:65 | a brace group with something inside and no `}` inside is one match, whitespace included |
| DragDrop.FindAllRun | main.py:65 | a run of non-whitespace without `{` followed by whitespace or the end is one match |
| DragDrop.FindAllSpace | main.py:65 | whitespace between matches is skipped |
| DragDrop.TrimStart | main.py:58 | `lstrip('{}')` removes exactly the leading braces |
| DragDrop.TrimEnd | main.py:58 | `rstrip('{}')` removes exactly the trailing braces |
| DragDrop.StripBraces | main.py:58 | `strip('{}')` returns a slice of the token with braces only cut away on both sides, not starting or ending with a brace |
| DragDrop.StripUnbraced | main.py:58 | a path with no brace at either end is not changed by stripping |
| DragDrop.StripIdempotent | main.py:58 | stripping twice removes nothing more |
| DragDrop.StripGroup | main.py:58 | stripping a brace group `{p}` gives back `p` when `p` neither starts nor ends with a brace (for `{{a}` the strip gives `a`) |
| DragDrop.ImagePathIgnoresCase | main.py:59 | the extension filter gives the same answer for a path and its lower-cased form |
| Strings.EndsWithAnyAt | main.py:59 | `str.endswith` with a tuple holds exactly when one of the tuple's suffixes ends the string |
| DragDrop.ImagePathExtension | main.py:59 | an accepted path is at least four characters long, and the dot of its extension is the fourth or fifth character from the end of its lower-cased form |
| DragDrop.Accepted | main.py:57-60 | the paths passed on by the drop loop all pass the extension filter, and there are at most as many as tokens |
| DragDrop.Existing | main.py:72-76 | the paths stored by display are the ones that exist |
| DragDrop.GridCell | main.py:88-90 | the cell of image i in c columns has a column below c, and row times c plus column is i |
| DragDrop.GridCellInjective | main.py:88-90 | with the same column count, two different images never share a cell |
| DragDrop.ResizeOverlap | main.py:88-90 | the column count is recomputed from the frame width for each image, so images placed before and after a resize can share a cell: image c with c columns and image c + 1 with c + 1 columns both land at row 1, column 0 |
| DragDrop.DisplayFacts | main.py:70-96 | display stores the path exactly when it exists; it adds a thumbnail only when the file also decodes and the frame holds a column, and then places that one at the cell of the new index; thumbnails stay well placed |
| DragDrop.DisplayImages | main.py:72-76 | the stored images grow by the path exactly when it exists |
| DragDrop.DisplayExtends | main.py:70-96 | display only appends images and thumbnails, each new thumbnail at the cell of its image |
| DragDrop.DropTokenExtends | main.py:57-62 | one iteration of the drop loop only appends images and thumbnails |
| DragDrop.ExtendsTransitive | main.py:57-62 | these appends compose over successive iterations |
| DragDrop.DropTokensImages | main.py:57-62 | the images stored by the drop loop are the stripped, accepted and existing tokens, in token order, after the earlier ones |
| DragDrop.DropTokensThumbs | main.py:57-62 | the drop loop keeps thumbnails well placed; every new one shows an image of this drop at the cell of its index; none is added when the frame is narrower than one thumbnail |
| DragDrop.DropImages | main.py:51-62 | a whole drop stores the accepted existing paths of the payload and only appends thumbnails, at their cells |
| DragDrop.DropNothing | main.py:52-55 | an empty or all-whitespace payload only changes the label to the extraction error |
| DragDrop.DisplayAllImages | main.py:47-49 | choosing files stores the chosen paths that exist, in order, and only appends well-placed thumbnails |
| DragDrop.EncodePaths | main.py:64-68 | one encoded path per path |
| DragDrop.PayloadRoundTrip | main.py:58-68 | a payload listing brace-free paths (wrapped in braces when they contain whitespace, separated by spaces) is extracted as one token per path, and stripping each token gives back the path |
| DragDrop.ImageApp.constructor | main.py:28-40 | a new window has no images, the prompt label and no thumbnails |
| DragDrop.ImageApp.DisplayImage | main.py:70-96 | the new state is `Display` of the old one: a missing file only sets its error label; the path is stored before decoding, and a decoding failure or zero columns sets the load error without placing a thumbnail |
| DragDrop.ImageApp.ChooseFiles | main.py:42-49 | the new state is every chosen path displayed in turn |
| DragDrop.ImageApp.HandleToken | main.py:57-62 | one pass of the drop loop: the new state is `DropToken` of the old one, the token stripped and then displayed or reported as not an image |
| DragDrop.ImageApp.OnDrop | main.py:51-62 | the new state is `Drop` of the old one: the extraction error when no paths are found, otherwise each token stripped and then displayed or reported as not an image |

## Left out

- The GUI: windows, buttons, widget packing, `go_back`, `open_results_page` and the Treeview calls. The table is a sequence of rows.
- The JSON file read (`load_json`): its outcome is the `LoadResult` parameter. The dialog shown on a caught failure is left out. The empty record list after a missing file or malformed JSON is modelled, and so is an uncaught read error leaving the page unchanged.
- Results.ResultsPage.DisplayResults: a record without a `players` key or an entry without `player_name` or `result` cannot be represented, because records are typed. In the code such a record raises `KeyError` partway through the refill, which leaves a partly filled table. The same record makes `save_to_csv` leave a partly written file and report the error. The model has neither outcome. The error that escapes `display_results` is caught by the caller in `main.py` (line 155), which the model does not follow.
- File writes and CSV quoting: `SaveToCsv` returns the rows that `csv.writer` would receive. The success and error dialogs are left out.
- Results.ResultsPage.SaveToCsv: writes the exact average `total / count` as a `Mean` cell. `round(average, 2)` is not modelled, because floating point is out of scope.
- Results.PlayerScore: scores are integers. Float results are not modelled.
- Game records with no `game_number` key (`game.get` yielding `None`) are not modelled; a record always has a number.
- Drawing and saving the chart with matplotlib: `PlotGraph` returns the lines that would be drawn.
- `save_to_excel` is bound to a button but not defined in the code, so nothing models it.
- Results.ResultsPage.constructor: assumes the `save_to_excel` button binding is absent. As written, evaluating `self.save_to_excel` at results_page.py:25 raises `AttributeError`, so the page's constructor never finishes and never sets `json_data` (line 32).
- DragDrop.ImageApp.constructor: assumes the same. As written, `ImageApp` builds a `ResultsPage` at main.py:37, which raises that `AttributeError` before `self.images` is set at line 40, so the program stops at startup. The model starts from the state the constructor would reach without that binding.
- Image decoding, thumbnailing and `PhotoImage` (PIL): the `decodable` set of `Env` stands for all of them together.
- DragDrop.GridCellInjective: holds only within one column count. `display_image` recomputes `winfo_width() // 200` for every image (main.py:89), so thumbnails placed before and after a resize can overlap, as `ResizeOverlap` shows. The model places them as the code does and promises no overlap-freedom across resizes.
- `os.path.exists` and `winfo_width`: these are the `existing` set and the `frameWidth` of `Env`.
- The debugging `print` calls are left out: the image list (main.py:77), the results-page message (main.py:147), the file being loaded (results_page.py:36) and the parsed data (results_page.py:54). The click binding on thumbnails is left out too.
- `open_large_image` (aspect-ratio scaling with floats, new window) is not modelled.
- The text of the label messages, including `str(e)`: `Label` records which message is shown and the path it names, not the text.
- Strings.Lower: handles ASCII letters only. Full Unicode lower-casing turns only two other characters into ASCII letters: U+212A (Kelvin sign) becomes `k`, and U+0130 becomes `i` followed by a combining dot. Neither can complete one of the five extensions, so the extension filter accepts the same paths.
- The regular-expression engine: `FindAll` is a direct scanner of this one pattern, not a general matcher.
- The file dialog of `choose_files`: its result is the `paths` parameter of `ChooseFiles`.
