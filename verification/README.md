# TuneCollector playlist scraper — a Dafny model of its data handling

TuneCollector's `scraper.py` collects a radio channel's play history from
myonlineradio.de. It walks the paginated playlist endpoint, keeps one record per
played song, removes repeated songs by their YouTube id, and writes CSV files.
This project models the data-handling core of that script:

- `records.dfy` (module `Records`): the raw playlist items the HTML extractor
  finds, and the keep rule of `scrape_playlist`. An item becomes a record when
  its artist or its song is non-empty, and all fields are copied unchanged.
- `harvest.dfy` (module `Harvest`): the page loop of `main`. The quiet branch and
  the progress-bar branch do the same thing with the data, so one method models
  both. The site is a function from `(page, cursor)` to raw items, and a
  transport error is an empty page. `IsHarvest` states the whole run
  declaratively:
  - the cursor chain: page 1 gets `start_id`, and page j+1 gets the `data_id` of
    page j's last record;
  - the stop rules: the page budget, the first empty page, and the song limit,
    which is checked before each request;
  - `pages_scraped`;
  - the final trim to `max_songs`.

  `Harvest` is proved to meet `IsHarvest`, and `IsHarvest` is proved to fix the
  run uniquely.
- `dedup.dfy` (module `Dedup`): `filter_unique_songs`. It is one forward pass
  with a set of seen ids, and the first occurrence of each id wins.
- `csv.dfy` (module `Csv`): the empty-data guard of `save_to_csv` and the table
  it writes, in the fixed column order. A reader is included as the table's
  partner, and the round trip is proved.
- `channels.dfy` (module `Channels`): `validate_channel`, and the numeric
  shortcut of the interactive channel prompt.
- `output.dfy` (module `Output`): the default output name, the two "save both"
  names (`str.replace` replaces every `.csv`), the choice of which records go to
  which file, and the interactive mode prompt (see Findings).
- `wrappers.dfy` (module `Wrappers`): `Option`, for `item.get(...)` results.

Behaviour of the code worth noting:

- The cursor for the next page is the last record's `data_id` (scraper.py:466,
  499), not its YouTube id.
- `max_songs` is tested for truthiness. Zero means no limit, and a negative
  value is an active limit.
- The result is cut only when it is longer than the limit, using Python slice
  semantics.
- A page whose markup yields no kept records ends the run, exactly like a
  transport error.

## Model

| member | source | states |
|---|---|---|
| Records.ToRecord | scraper.py:133-142 | the record keeps the item's timestamp, artist, song, youtube_id and data_id unchanged |
| Records.Extract | scraper.py:116-147 | a record is in the page's result iff some item with a non-empty artist or song produced it; the page is empty iff no item qualifies; never more records than items |
| Records.ExtractAppend | scraper.py:117-142 | extraction works item by item in page order: the records of a + b are those of a followed by those of b |
| Dedup.UniqueFrom | scraper.py:170-176 | the rest of the pass, given the ids already seen: an order-preserving subsequence of the input, with present, non-empty, pairwise distinct ids, none of them already seen |
| Dedup.FilterUniqueSongs | scraper.py:156-176 | the output is an order-preserving subsequence of the input, no longer than it, and every output id is present, non-empty and distinct from the others |
| Dedup.FilterUniqueSongsFirstWins | scraper.py:170-174 | for every present non-empty id, the first input record with that id is in the output, and every output record is such a first occurrence |
| Dedup.FilterUniqueSongsIsFirstOccurrences | scraper.py:167-176 | the output is, position by position, the input records at the indices holding the first occurrence of their id, in index order, so a record repeated verbatim keeps its first place |
| Dedup.FilterUniqueSongsIdempotent | scraper.py:167-176 | deduplicating twice equals deduplicating once |
| Dedup.FilterUniqueSongsIgnoresKeyless | scraper.py:171-172 | inserting a record with a missing or empty youtube_id anywhere, any number of times, leaves the output unchanged |
| Dedup.UniqueFromAppend | scraper.py:167-176 | the pass over a + b equals the pass over a followed by the pass over b with a's ids already seen |
| Harvest.Trim | scraper.py:507-509 | the songs are a prefix of the gathered records; without an active limit they are all of them; with a positive limit there are exactly min(gathered, max_songs) of them |
| Harvest.SliceTo | scraper.py:509 | Python's s[:n]: a prefix of s, of length min(n, len) for n >= 0 and of length max(0, len + n) for a negative n |
| Harvest.Harvest | scraper.py:451-509 | page 1 is requested with start_id and page j+1 with the data_id of page j's last record; requests are numbered 1, 2, ...; there are at most `pages` of them; each is made while the gathered count is below an active limit; only the last page may be empty and then it ends the run; otherwise the budget was used up or the limit reached; pages_scraped counts the non-empty pages; songs are the trimmed concatenation of those pages in fetch order |
| Harvest.HarvestDeterministic | scraper.py:454-466 | the site and the settings determine the requests, pages_scraped and the songs: any two runs meeting the stop rules are equal |
| Harvest.HarvestWithinLimit | scraper.py:455-456 | the songs are a prefix of the gathered pages; with a positive limit at most max_songs of them; without a limit all of them |
| Harvest.HarvestStopsAtEmptyPage | scraper.py:458-460 | with three pages allowed and page 2 empty, exactly two pages are requested, one is scraped, and only page 1's records are returned |
| Harvest.HarvestTrimsToLimit | scraper.py:482-509 | with max_songs 5 over pages of 4 and 4 records, page 3 is never requested, two pages are scraped, and the first 5 of the 8 records are returned |
| Harvest.ChainSnoc | scraper.py:497-499 | requesting the next page with the current cursor extends a valid cursor chain |
| Csv.SaveToCsv | scraper.py:179-196 | nothing is written exactly when the data is empty; the returned flag `Saved` is true exactly when the data is non-empty and the write succeeds; whatever is written is the header plus one row per record |
| Csv.Table | scraper.py:186-191 | the header comes first, then one row per record in record order, with columns timestamp, artist, song, youtube_id, data_id |
| Csv.TableRoundTrip | scraper.py:187-191 | reading a written table back yields every record with its text fields unchanged; only a missing id comes back as an empty string |
| Channels.ValidateChannelIgnoresCase | scraper.py:231-233 | lower-casing is idempotent, so a name and its lower-cased form are validated alike |
| Channels.PopularChannelsAreKnown | scraper.py:27-63 | every key of POPULAR_CHANNELS, and the fallback swr4, passes validate_channel |
| Channels.NumberChoice | scraper.py:301-307 | a number n selects a popular channel: the n-th key when 1 <= n <= 20, otherwise swr4; the channel always passes validate_channel |
| Channels.ChannelChoice | scraper.py:300-309 | an all-digit answer yields a channel that passes validate_channel; any other answer is lower-cased |
| Channels.ChoiceOfNumber | scraper.py:301-307 | typing the numeral of n picks the n-th popular channel for 1 <= n <= 20 and swr4 for 0 or anything larger |
| Channels.ChoiceIgnoresLeadingZero | scraper.py:301-302 | a leading zero does not change the chosen channel ("07" picks what "7" picks) |
| Output.ContainsAt | scraper.py:519 | Python's `'.csv' in output` holds exactly when `.csv` occurs at some position |
| Output.ReplaceCsv | scraper.py:519-520 | a name without `.csv` is returned unchanged |
| Output.ReplaceCsvSplit | scraper.py:519-520 | every `.csv` is replaced: with `a` free of `.csv`, `a.csv b` becomes `a`, the replacement, then `b` with its own occurrences replaced |
| Output.FirstCsv | scraper.py:519 | a name containing `.csv` splits at its first occurrence into a part free of `.csv`, the extension, and the rest |
| Output.SaveBothName | scraper.py:519-520 | a name without `.csv` gets the suffix and `.csv` appended |
| Output.SaveBothNameHasCsv | scraper.py:519-520 | both "save both" names always carry `.csv` |
| Output.SaveBothNameOfCsvFile | scraper.py:519-520 | a name `stem.csv` with no other `.csv` becomes `stem<suffix>.csv` |
| Output.SaveBothNamesDistinct | scraper.py:517-520 | the "all" and "unique" names always differ from each other and from the plain output name |
| Output.DefaultOutput | scraper.py:418-419 | a given name is kept; an empty one becomes `<channel>_playlist.csv`, which starts with the channel and contains `.csv` |
| Output.DefaultSaveBothNames | scraper.py:418-420 | for a channel whose `<channel>_playlist` contains no `.csv`, the two default files are `<channel>_playlist_all.csv` and `<channel>_playlist_unique.csv` |
| Output.SavePlan | scraper.py:511-540 | "save both" writes the songs and their deduplication to two distinct names, neither of them the output name; the other modes write one file under the output name, with all songs or only the unique ones |
| Output.InteractiveChoiceIgnored | scraper.py:329-337 | as written, every typed answer at the mode prompt yields "save all", so choosing 3 does not give "save both" |
| Output.InteractiveMode | scraper.py:324-337 | corrected: the chosen number 1..3 selects the mode listed under that number |
| Output.InteractiveModeRoundTrip | scraper.py:324-327 | the corrected mapping undoes the menu numbering for every mode |

## Findings

| source | as written | input that shows it | evidently intended | confidence | as-written member | corrected member |
|---|---|---|---|---|---|---|
| scraper.py:329-337 | `IntPrompt.ask` returns a typed answer as an `int`, and the result is compared with the strings `"2"` and `"3"`, which an `int` never equals | answering `3` ("Save both") at the mode prompt gives `unique_only = save_both = False`, so only the plain file is written | the number chosen selects the mode listed under it | not executed; high (rests on `rich`'s `IntPrompt` turning the answer into an `int`) | Output.InteractiveModeAsWritten, shown by Output.InteractiveChoiceIgnored | Output.InteractiveMode, proved by Output.InteractiveModeRoundTrip |

## Left out

- HTTP requests: the session warm-up and its 404 exit, headers, timeouts and `requests` exceptions (scraper.py:84-111, 425-448). Each page fetch is a function from the request to raw items, and a failure is an empty page.
- HTML parsing with BeautifulSoup (scraper.py:111-131). The site function yields already-extracted items, with their texts already stripped.
- `time.sleep` throttling, progress bars, console output, tables and prompt rendering (`list_channels`, `display_summary`, scraper.py:199-229, 283-384). These are side effects and do not affect the data.
- argparse parsing (scraper.py:236-280), and the CSV file writing itself: quoting, newline handling and UTF-8 encoding (scraper.py:185-196). `SaveToCsv` takes the write's success as a parameter.
- Media download, filename sanitisation and collision resolution. That code is not part of this model.
- Channels.ValidateChannelIgnoresCase: `str.lower()` is modelled for ASCII letters only. Python's full Unicode case mapping is left out. For example, the Kelvin sign lower-cases to `k` in Python.
- Channels.ChannelChoice: `str.isdigit()` is modelled as "non-empty, ASCII digits only". Other Unicode digits are left out, such as the superscript `²`, which Python's `int()` then rejects.
- Csv.TableRoundTrip: the reader is the table's partner and is not part of the script. It reads the cells back and does not model CSV text.
