# road-results cleaning and scraping core, in Dafny

This project models two pieces of the road-results bicycle-race results site.

1. **The result-table cleaning pipeline** (`clean` in preprocess.py). It takes the
   rows of one race's result table and does six things:
   - marks DNF/DNP rows as unplaced;
   - fills in a missing DQ flag;
   - drops blacklisted racer IDs and rows with missing or unusable names;
   - joins first and last name into `Name` and merges the two age columns into `Age`;
   - blanks placeholder team names;
   - projects each row onto eleven columns in a fixed order.

   A frame is a `seq` of rows, and a missing cell (NaN) is `None`. Each stage changes
   the set of columns, so each stage has its own row type: `Row`, `MarkedRow`,
   `NamedRow`, `RiderRow` and `CleanRow`.
   - The whole-column writes of `handle_missing` and `process_team` are loops over an
     `array` of rows (`Frames.UpdateEach`). Each loop is proved equal to a per-row map.
   - `Clean` runs the stages in order. Its contract ties it to the composition `CleanRows`.
   - `CleanRows` is proved to be one selection by `Kept`, followed by the per-row
     function `Cleaned`. It keeps the surviving rows in their original order.

2. **Race-page metadata extraction** (`get_metadata` in scraping.py). The method takes
   three inputs: the page text, the JSON link and the results title. The last two are
   what the HTML parser selects. What remains is string work:
   - the `No data` early exit;
   - the split on the bullet separator (the three characters `â€¢`);
   - the date pattern `([A-Za-z]{3})\s+(\d{1,2})\s+(\d{4})`, read as `strptime('%b %d %Y')` reads it;
   - the location cut at the first line break;
   - the `GetMap("lat:lng")` coordinates.

   Each regular expression has a matcher that takes the longest runs, as the
   backtracking engine does here. Each matcher is proved to find exactly the substrings
   that a declarative match predicate describes. The search is proved to return the
   leftmost match.

Modules: `Wrappers` (Option, Result), `Frames` (map, filter, kept positions, in-place
row update), `Text` (Python whitespace, `strip`, `split`/`join`, `lower`, substring
test), `Preprocess`, `Scraping`.

The TrueSkill rating engine of this system is not part of this model. In ratings.py,
both `_get_ratings` and `get_ratings` return the input frame as their first statement
(ratings.py:11, ratings.py:21). Everything after those returns is unreachable.

## Model

| member | source | states |
|---|---|---|
| `Preprocess.HandleMissing` | preprocess.py:33-41 | writes the DNF place, DNP place and DQ-fill columns of the frame in place, in source order (`a[..] == Map(MarkRow, old(a[..]))`), and returns the frame without the two flag columns |
| `Preprocess.MissingHandledSpec` | preprocess.py:38-41 | row count and order kept; Place becomes missing iff IsDnf == 1 or IsDNP == 1 or it was missing, otherwise unchanged; missing IsDQ becomes 0 and a present one is kept; all other columns unchanged |
| `Preprocess.CombinedAge` | preprocess.py:61-63 | Age is one of the present ages and at least both ages (missing counts as 0); it is missing iff both are at most 0 and one of them is 0 |
| `Preprocess.ProcessRiderIsOneFilter` | preprocess.py:52-59 | the three mask selections of `process_rider` equal one selection by `KeepsRider` followed by the per-row name/age map |
| `Preprocess.ProcessRiderSpec` | preprocess.py:44-64 | output rows are the input rows `KeepsRider` accepts, in order (strictly increasing positions, every accepted position present); each has a non-blacklisted RacerID, both names, `Name == FirstName + " " + LastName` with no digit and not `Unknown Rider`, the consolidated Age and the other columns unchanged |
| `Preprocess.ProcessTeam` | preprocess.py:67-75 | blanks the placeholder team names of the frame in place (`a[..] == TeamsProcessed(old(a[..]))`) |
| `Preprocess.TeamsProcessedSpec` | preprocess.py:73-74 | row count and order kept; TeamName becomes missing iff it was missing or its lower-cased value is `""`, `"unattached"` or `"0"`; other names and all other columns unchanged |
| `Preprocess.TeamsProcessedIdempotent` | preprocess.py:73-74 | applying `process_team` twice equals applying it once |
| `Preprocess.PlaceholderSpellings` | preprocess.py:73-74 | a team name is a placeholder iff it is empty, is `0`, or lower-cases to `unattached` |
| `Preprocess.ProcessTime` | preprocess.py:78-82 | `process_time` returns its frame unchanged |
| `Preprocess.SortColumnsSpec` | preprocess.py:85-92 | each row keeps its values under the eleven output columns (order fixed by `CleanRow`); IsDQ cast to bool is true iff the flag is missing or non-zero |
| `Preprocess.Clean` | preprocess.py:5-30 | running the stages on arrays yields exactly `CleanRows(rows)`, the composition handle_missing, process_rider, process_team, process_time, sort_columns |
| `Preprocess.CleanIsFilterThenMap` | preprocess.py:24-28 | the whole pipeline equals one selection by `Kept` followed by the per-row map `Cleaned` |
| `Preprocess.KeptSpec` | preprocess.py:24-25 | `handle_missing` leaves the masked columns alone, so `clean` keeps a raw row iff its RacerID is not blacklisted, both names are present, and the full name has no digit and is not `Unknown Rider` (the masks at preprocess.py:52-59) |
| `Preprocess.CleanKeepsOrder` | preprocess.py:22-30 | the cleaned table is the rows `Kept` accepts, at strictly increasing input positions, each turned into `Cleaned` of its input row; a row is dropped iff `Kept` rejects it |
| `Preprocess.CleanedSpec` | preprocess.py:38-91 | for one kept row, end to end: Place missing iff DNF, DNP or unplaced; IsDQ true iff the flag was present and non-zero; Name joins the names; Age consolidated; TeamName missing iff missing or a placeholder; other columns carried over |
| `Frames.FilterKeepsOrder` | preprocess.py:52-59 | a boolean-mask selection keeps the rows satisfying the mask at strictly increasing positions and drops exactly the others |
| `Frames.UpdateEach` | preprocess.py:38-40 | a whole-column assignment, row by row, leaves `a[..] == Map(f, old(a[..]))` |
| `Text.Strip` | scraping.py:20 | `strip()` returns the slice after the leading whitespace run; everything removed is whitespace; the result neither starts nor ends with whitespace |
| `Text.Split` | scraping.py:20 | `split(sep)` yields at least one piece and no piece contains the separator |
| `Text.JoinSplit` | scraping.py:20 | joining the pieces of a split with the separator gives back the title |
| `Text.IndexOf` | scraping.py:20 | finds the first occurrence of the separator at or after a position, or reports that there is none |
| `Scraping.TitlePieces` | scraping.py:20 | the title yields at least one piece, as `str.split` always does |
| `Scraping.TitlePiecesSpec` | scraping.py:20 | the pieces are the stretches between bullets, stripped: the stretches hold no bullet and rejoin with the bullet to the title, and each piece is already stripped |
| `Scraping.TitlePiecesCount` | scraping.py:20 | the title has a date piece (no unpacking error) iff it contains the bullet separator |
| `Scraping.MatchDateAt` | scraping.py:24 | an attempt of the date pattern at one position yields only true matches starting there |
| `Scraping.MatchDateComplete` | scraping.py:24 | every match of the date pattern is found by the attempt at its start, so the match at a position is unique |
| `Scraping.SearchDate` | scraping.py:24-25 | `regex.search(date)` returns only true matches of the date pattern |
| `Scraping.SearchDateSpec` | scraping.py:24-25 | the match `regex.search(date)` returns starts no later than any other match, and there is none iff the pattern matches nowhere |
| `Scraping.MonthNumber` | scraping.py:25 | `%b` reads a month exactly when the lower-cased text is one of the twelve abbreviations, and reads that month's number |
| `Scraping.ParseDate` | scraping.py:25 | a date `strptime` yields is a valid calendar date spelled by the month, day and year groups |
| `Scraping.ParseDateComplete` | scraping.py:25 | `strptime` fails exactly when no valid calendar date is spelled by the three groups |
| `Scraping.DateRoundTrip` | scraping.py:24-25 | a valid date printed as `%b %d %Y` (such as `Oct 03 2020`) is found by the date pattern and read back by `strptime` as the same date |
| `Scraping.BeforeLineBreak` | scraping.py:30 | the location is the prefix before the first tab, newline or carriage return, and is the whole text when there is none |
| `Scraping.LocationOfPlainPiece` | scraping.py:20-30 | when the stripped third title piece has no tab, newline or carriage return, the location stored is that piece unchanged |
| `Scraping.MatchCoordinatesAt` | scraping.py:33 | an attempt of the `GetMap("…:…")` pattern at one position yields only true matches starting there |
| `Scraping.MatchCoordinatesComplete` | scraping.py:33 | every coordinates match is found by the attempt at its start |
| `Scraping.SearchCoordinates` | scraping.py:33-34 | `re.search` on the page returns only true matches of the coordinates pattern |
| `Scraping.SearchCoordinatesSpec` | scraping.py:33-34 | the coordinates match `re.search` returns is the leftmost one, and there is none iff the pattern matches nowhere in the page |
| `Scraping.FirstMatch` | scraping.py:24 | a scan over start positions returns the first position where the matcher succeeds, and none only when it succeeds nowhere |
| `Scraping.DateOf` | scraping.py:24-25 | a date read from the date piece is a valid calendar date |
| `Scraping.DateOfSpec` | scraping.py:24-25 | the date piece yields `d` iff `d` is a valid date and the leftmost match of the date pattern spells it |
| `Scraping.ReadDate` | scraping.py:24-25 | the date step fails with `NoDate` when the pattern matches nowhere and with `InvalidDate` when `strptime` rejects the match, and otherwise returns the date the piece spells |
| `Scraping.TitleRow` | scraping.py:16-30 | after the date is read, the row holds `json_url`, `name` and `date`, and `loc` exactly for a third title piece, cut at its first line break and stripped; it holds no coordinates yet |
| `Scraping.FloatTextForms` | scraping.py:35 | `float` accepts a coordinate group iff it is an optional minus, then digits, or digits, a point and digits, with at least one digit (`-71.05`, `42`, `5.`, `.5`) |
| `Scraping.ReadCoordinates` | scraping.py:33-35 | with no `GetMap` match the row is unchanged; with one, `lat` and `lng` come from its two groups and every other key is kept; a group `float` rejects raises |
| `Scraping.CombinedRow` | scraping.py:12-37 | a title row with the coordinates added is the row `get_metadata` returns |
| `Scraping.GetMetadata` | scraping.py:8-37 | `No data` gives the empty row; otherwise the first error the source raises (too few title pieces, no date match, invalid date, unparsable coordinate), or a row with `json_url`, `name`, `date` always, `loc` iff a third title piece exists, `lat` and `lng` together iff a `GetMap` match exists, from the same match |

## Left out

- ratings.py is not part of this model. Both functions return their input at once (ratings.py:11, ratings.py:21). The code after those returns is unreachable and calls the external `trueskill` library.
- `scrape_race_pages` is not modelled. It does HTTP fetches through a thread pool, console output and a database insert (scraping.py:40-56).
- The HTML selection in `get_metadata` (scraping.py:15-19) is an input: the JSON link and the title text are parameters. The `IndexError` raised when the page lacks those elements is not modelled.
- `Scraping.GetMetadata` stores `lat` and `lng` as the validated decimal text of the groups. It does not model their rounding to binary floating point by `float()`. It keeps `float()`'s rejection of texts such as `1.2.3` or `-`.
- `Scraping.GetMetadata` writes its keys as the closed type `Key` (`json_url`, `name`, `date`, `loc`, `lat`, `lng`) instead of strings. A row therefore has no other key by construction.
- `Scraping.ParseDate` models `strptime` in the C locale (English month abbreviations). It returns only the calendar date, because the parsed time of day is always midnight.
- `Preprocess.ContainsDigit` and the date pattern's `\d` accept ASCII digits only. Python also matches other Unicode decimal digits there.
- `Scraping.IsCoordinateChar` accepts ASCII digits only. The `\d` inside `[-\d\.]` of the coordinates pattern also matches other Unicode decimal digits, so a `GetMap` call written in, say, Arabic-Indic digits is a match for Python and not for the model, which then finds no match or a later ASCII one.
- `Scraping.IsFloatText` accepts ASCII digits only. Python's `float` also reads other Unicode decimal digits, so it would accept groups that the model's pattern cannot match in the first place.
- `Text.Lower` lower-cases ASCII letters only. No other character lower-cases to a letter of `unattached`, `0` or the empty string, so the placeholder test is unaffected.
- The 39 columns that `clean` drops (preprocess.py:10-22) are simply absent from `Row`. The `KeyError` that pandas raises when one of them is missing is not modelled.
- The dtype casts of `sort_columns` are not modelled as floating point. Place and Category stay `Option<int>`, and ages are integers. IsDQ is modelled as the boolean cast.
- The `.str` accessor raises `AttributeError` on a column that holds no strings at all, for example a TeamName column that is entirely NaN. This is not modelled: such a cell is simply missing.
- RacerID is assumed always present. First name, last name and team name are assumed to be strings when present, so concatenating or lower-casing a non-string cell is not modelled.
- `process_rider` assigns `Age` onto the filtered copy it made itself. That assignment is modelled as a per-row map, because the caller cannot observe it in place.
