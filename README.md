# ui-monitor: the decision layer of `compare_latest_pair`

This project is a Dafny model of `tools/compare_latest_pair.py`, the tool that
compares the two latest screenshots of every page and writes a summary of the
pages that changed. It models the following parts:

- **Collecting and ordering**: each page folder's screenshots are collected with one
  glob pattern per extension, then sorted with `natural_key`. That key is a
  timestamp parsed from the stem, else the file's modification time, else the stem.
  The last two captures form the pair.
- **Normalising**: `resize_to_min` and `to_gray` bring both images to a common
  single-channel shape.
- **Classifying**: a pair is flagged when its SSIM score is below the threshold or its
  pHash distance is above it. `guess_zone` then names the horizontal third of the
  difference map with the largest mean.
- **Running**: the pages are visited in name order, one summary row is produced per
  compared page, and the rows are ordered flagged first, then by page name.

The image libraries are opaque:

- Image contents are symbolic terms. `Images.Pixels` records which library call
  produced an image from what.
- The SSIM score, the pHash distance and the normalised difference map are inputs
  carried by each folder (`Report.Measure`).
- Decoding is an input: each file entry carries the decoded height and width, or
  nothing when `cv2.imread` fails.

The modules are:

- `Sorting`: one stable insertion sort that stands for Python's `sorted`,
  `list.sort(reverse=True)` and pandas' `sort_values`. It comes with its stability
  and order lemmas.
- `Basics`: Python's `str` order and decimal digit strings.
- `Timestamps`: `strptime` and `strftime` for the four formats, and `natural_key`.
- `Images`: shapes through `to_gray` and `resize_to_min`.
- `Zones`: `guess_zone`.
- `Classify`: lines 86-87.
- `Report`: the loops of `main` and the summary.

Two outcomes of the code are modelled as errors that end the run, because nothing
in `main` catches them:

- A page whose screenshots have sort keys of different kinds (a timestamp and an
  mtime, say) makes `sorted` raise `TypeError`. No order between kinds is invented.
- A pair whose common size is under 7 pixels in height or width makes
  `structural_similarity` raise `ValueError`, because of its 7x7 window.

Two details of `guess_zone` follow the code as written:

- `band` is never 0, so the `else 0` arms at lines 55-57 are dead.
- A map of one or two rows, or of no columns, has empty slices, and their numpy
  mean is `NaN`. The model keeps `NaN` (`Zones.Mean`) and proves which band
  `guess_zone` then returns (`Zones.OneRowIsTop`, `Zones.TwoRowsCompareRows`,
  `Zones.NoColumnsIsTop`). A difference map with the shape of the compared
  pair is at least 7 by 7 and never reaches these cases
  (`Report.FlaggedZoneIsFirstLoudest`).

## Model

| member | source | states |
|---|---|---|
| Images.Read | tools/compare_latest_pair.py:80 | The definition of what `cv2.imread` gives for a readable file: a 3-channel image of the size the entry records. Its use is stated by `Report.PageOutcomes`, where a file that does not decode makes the page unreadable. |
| Images.ToGray | tools/compare_latest_pair.py:22 | The result is 2-D with the input's height and width. A 2-D input is returned unchanged. Any other input becomes the luma of its pixels. |
| Images.ToGrayIdempotent | tools/compare_latest_pair.py:22 | Converting an already converted image changes nothing. |
| Images.Resize | tools/compare_latest_pair.py:25 | `cv2.resize(img, (w, h))` gives `h` rows of `w` columns, resampled from the input with the arguments in `(w, h)` order. |
| Images.ResizeToMin | tools/compare_latest_pair.py:23-25 | Both results have the smaller height and the smaller width of the two inputs. Each is its input resampled to that `(w, h)`. Gray-convertible inputs stay convertible. |
| Images.ResizeToMinSymmetric | tools/compare_latest_pair.py:23-25 | Swapping the two inputs swaps the two results. |
| Images.Normalize | tools/compare_latest_pair.py:37-38 | The pair SSIM compares is two 2-D images of one common shape: the minimum height and the minimum width. |
| Timestamps.Strptime | tools/compare_latest_pair.py:31 | The definition of `datetime.strptime(stem, fmt)` for the modelled directives. Its meaning is stated by `ParseThenFormat` and `FormatThenParse`. |
| Timestamps.ParseThenFormat | tools/compare_latest_pair.py:30-31 | A stem that a well-formed format accepts yields a valid `datetime`. Formatting that value back gives exactly the stem. |
| Timestamps.FormatThenParse | tools/compare_latest_pair.py:30-31 | Every valid `datetime`, rendered with a format naming all six fields, parses back to itself. |
| Timestamps.FormatsWellFormed | tools/compare_latest_pair.py:19 | Each of the four `TS_FORMATS` uses only supported directives, each once, and names year, month, day, hour, minute and second. |
| Timestamps.FirstParse | tools/compare_latest_pair.py:30-32 | The result is none exactly when no format parses. Otherwise it is the value of a format that parses, and every earlier format fails. |
| Timestamps.FirstParseAt | tools/compare_latest_pair.py:30-32 | When format `i` parses and all earlier ones fail, its value is the result. |
| Timestamps.LastDot | tools/compare_latest_pair.py:28 | Finds the index of the last `.` in a name, or none when the name has no `.`. |
| Timestamps.Stem | tools/compare_latest_pair.py:28 | The definition of `Path(name).stem`. Its meaning is stated by `StemDropsExtension`. |
| Timestamps.StemDropsExtension | tools/compare_latest_pair.py:28 | For a name ending in `.ext` (`ext` without dots) with at least one character before the dot, hidden names such as `.a.png` included, `Path(name).stem` is the name without `.ext`. |
| Timestamps.KeyLt | tools/compare_latest_pair.py:75 | The definition of Python's `<` between two `natural_key` results of one kind: datetimes by date and time, mtimes as numbers, stems as strings. Keys of different kinds are never compared by the model, since Python raises `TypeError` there. Its meaning is stated by `KeyLtAsymmetric`, `KeyLtNegTransitive` and `Report.PairIsLatestTwo`. |
| Timestamps.KeyLtAsymmetric | tools/compare_latest_pair.py:75 | Python's `<` between keys is asymmetric. |
| Timestamps.KeyLtNegTransitive | tools/compare_latest_pair.py:75 | Among keys of one kind, "not less than" is transitive, so `sorted` is well defined there. |
| Timestamps.CaptureKey | tools/compare_latest_pair.py:27-34 | The key is a `datetime` exactly when some format parses the stem; it is the value of the first format that does. Otherwise the key is the modification time exactly when `stat` succeeds. Otherwise it is the stem. |
| Timestamps.NaturalKey | tools/compare_latest_pair.py:27-34 | The loop over the formats, with its early return, computes `CaptureKey`. |
| Timestamps.MtimeKeyForShortStem | tools/compare_latest_pair.py:27-34 | A stem of fewer than four characters parses with no format, because each begins with `%Y`. A file that `stat` reports on then gets its modification time as key. |
| Basics.StrLt | tools/compare_latest_pair.py:67 | The definition of Python's `<` on `str`: code point by code point, a proper prefix first. It orders the folder names at line 67 and the pages at line 116. Its meaning is stated by `StrLtStrictWeak` and `StrLtTotal`. |
| Basics.StrLtStrictWeak | tools/compare_latest_pair.py:67 | Python's `str` order is a strict weak (in fact total) order, so name sorts are well defined. |
| Basics.StrLtTotal | tools/compare_latest_pair.py:67 | Any two strings are equal or ordered one way or the other. |
| Zones.ZoneName | tools/compare_latest_pair.py:55-57 | Zone labels are non-empty. |
| Zones.ZoneNameInjective | tools/compare_latest_pair.py:55-57 | Distinct zones have distinct labels. |
| Zones.BandHeight | tools/compare_latest_pair.py:53 | `band` is at least 1. For `h >= 3` it is `h // 3`, so `3*band <= h < 3*band + 3`. It is 1 below 3. |
| Zones.BandMean | tools/compare_latest_pair.py:55-57 | The mean of a slice is `NaN` exactly when the slice has no rows or no columns. Otherwise it lies in `[0, 255]`. |
| Zones.BandRows | tools/compare_latest_pair.py:55-57 | Each band's clamped row range lies within the map. |
| Zones.BandsPartition | tools/compare_latest_pair.py:52-57 | For `h >= 3` the bands are `[0, b)`, `[b, 2b)` and `[2b, h)` with `b >= 1`. Top and middle have height `b`; the bottom band has between `b` and `b + 2` rows. |
| Zones.Bands | tools/compare_latest_pair.py:54-58 | There are three `(zone, mean)` pairs in top, middle, bottom order, each with its band's mean. |
| Zones.GuessZone | tools/compare_latest_pair.py:51-60 | The definition of `guess_zone`. Its meaning is stated by `GuessZoneIsFirstLoudest`, `ConfinedChangeFound`, `OneRowIsTop`, `TwoRowsCompareRows` and `NoColumnsIsTop`. |
| Zones.GuessZoneName | tools/compare_latest_pair.py:60 | The label returned is one of `top`, `middle`, `bottom`. |
| Zones.GuessZoneIsFirstLoudest | tools/compare_latest_pair.py:59-60 | With at least three rows and one column, every band has a mean. The zone returned has the greatest mean, and every band listed before it has a strictly smaller one: the stable descending sort breaks ties in list order. |
| Zones.LoudestFirst | tools/compare_latest_pair.py:59 | Sorting three measured bands by descending mean puts first the first band of greatest mean. |
| Zones.ZoneMeanBounds | tools/compare_latest_pair.py:55-57 | A band's mean lies between the least and the greatest value admitted in its rows. |
| Zones.ConfinedChangeFound | tools/compare_latest_pair.py:51-60 | When exactly the values in zone `z` exceed `v`, `z` is the zone returned. |
| Zones.OneRowIsTop | tools/compare_latest_pair.py:53-60 | A one-row map gives `NaN` for middle and bottom, and `top` is returned. |
| Zones.TwoRowsCompareRows | tools/compare_latest_pair.py:53-60 | For a two-row map, `middle` is returned exactly when the second row's mean is strictly greater than the first's. Otherwise `top` is returned. |
| Zones.NoColumnsIsTop | tools/compare_latest_pair.py:53-60 | A map without columns has three `NaN` means, and `top` is returned. |
| Classify.Changed | tools/compare_latest_pair.py:86 | The definition of the `changed` flag. Its meaning is stated by `ChangedMonotone` and `ThresholdsAreStrict`. |
| Classify.ChangedMonotone | tools/compare_latest_pair.py:86 | A lower score or a larger hash distance never clears a flag. |
| Classify.ThresholdsAreStrict | tools/compare_latest_pair.py:86 | A pair exactly on both thresholds is not flagged. Neither is a pair of identical captures under the default thresholds 0.985 and 8. |
| Classify.ZoneLabel | tools/compare_latest_pair.py:86-87 | `likely_zone` is empty exactly when the pair is not flagged. Otherwise it is the `guess_zone` label of the map, one of `top`, `middle`, `bottom`. |
| Report.Glob | tools/compare_latest_pair.py:74 | The definition of one `*.ext` glob over the page's own folder, in listing order. Its meaning is stated by `GlobCounts` and `CollectedAreImages`. |
| Report.Collected | tools/compare_latest_pair.py:72-74 | The definition of `imgs` after the `+=` loop has run over the first `n` patterns, one pattern's matches after another. Its meaning is stated by `GlobCounts` and `CollectedAreImages`. |
| Report.CollectImages | tools/compare_latest_pair.py:72-74 | The `+=` loop over the four patterns returns the concatenated glob results of the page folder, pattern by pattern. |
| Report.GlobCounts | tools/compare_latest_pair.py:74 | A `*.ext` glob keeps each matching entry (non-hidden, case-sensitive suffix `.ext`) as often as it is listed, and nothing else. |
| Report.ExtsDisjoint | tools/compare_latest_pair.py:73 | No name matches two of the four patterns. |
| Report.CollectedAreImages | tools/compare_latest_pair.py:72-74 | The collected list holds exactly the page folder's own non-hidden entries with one of the four extensions, each once per listing. Lines 72-74 give this when the page's name has no glob wildcard (`LiteralPageGlobsItself`; see Findings). |
| Report.FnMatch | tools/compare_latest_pair.py:74 | `glob`'s test of a directory name against the page's name read as an `fnmatch` pattern. A match of a name with no `*`, `?` or `[` is the name itself. |
| Report.CollectedAsWritten | tools/compare_latest_pair.py:72-74 | The definition of `imgs` as the lines are written: the four patterns over every directory of the root that the page's name matches as a pattern. |
| Report.GlobDirs | tools/compare_latest_pair.py:74 | The definition of the directories `glob` visits for `folder / ext` as written: the page's name read as a pattern against every directory of the root. Its meaning is stated by `LiteralPageGlobsItself`, `StarPagePoolsSiblings` and `BracketPageMissesOwn`. |
| Report.LiteralPageGlobsItself | tools/compare_latest_pair.py:72-74 | For a page whose name has no `*`, `?` or `[` (directory names being unique), the code as written collects exactly the page's own screenshots, as `Collected` has it. |
| Report.StarPagePoolsSiblings | tools/compare_latest_pair.py:72-84 | Take a page `v*` with no screenshots beside a page `va` with two screenshots that decode. As written, `v*` collects `va`'s two screenshots and gets a `Compared` row built from them. Its own folder would give `TooFewImages`. |
| Report.BracketNameMissesItself | tools/compare_latest_pair.py:74 | The name `Home [mobile]`, read as a pattern, does not match itself. |
| Report.BracketPageMissesOwn | tools/compare_latest_pair.py:72-84 | Take a page `Home [mobile]` with two screenshots that decode. As written, it collects neither and is skipped with `TooFewImages`. Its own folder would give a `Compared` row. |
| Report.ShotsExist | tools/compare_latest_pair.py:72-84 | The two counterexamples hold for a concrete input: `1.png` with mtime 1 and `2.png` with mtime 2, both 7x7. |
| Report.ByKey | tools/compare_latest_pair.py:75 | The definition of the comparison `sorted(imgs, key=natural_key)` makes: `<` on the two captures' keys. Its meaning is stated by `ByKeyStrictWeak`, `Timestamps.KeyLtAsymmetric`, `Timestamps.KeyLtNegTransitive` and `PairIsLatestTwo`. |
| Report.ByKeyStrictWeak | tools/compare_latest_pair.py:75 | Sorting by `natural_key` uses a strict weak order on keys of one kind. |
| Report.Pair | tools/compare_latest_pair.py:75-79 | The definition of `a_path, b_path = imgs[-2], imgs[-1]` after the sort. Its meaning is stated by `PairIsLatestTwo` and `SortedCapturesLastTwo`. |
| Report.PairIsLatestTwo | tools/compare_latest_pair.py:75-79 | `imgs[-2], imgs[-1]` after the sort are two distinct captures. No capture has a later key than `curr`. Besides `curr`, none has a later key than `prev`. Every capture collected after `curr` has an earlier key. |
| Report.SortedCapturesLastTwo | tools/compare_latest_pair.py:75-79 | The last two sorted captures are the last latest capture, then the last latest of the rest. |
| Report.HeatmapPath | tools/compare_latest_pair.py:94 | The definition of `heat_path`, relative to the run folder: the page's folder, then `diff_<prev>_vs_<curr>.png`. |
| Report.ComparePair | tools/compare_latest_pair.py:75-110 | The definition of one page's turn once its screenshots are collected. Its meaning is stated by `ComparePairCases`, `PageOutcomes` and `FlaggedZoneIsFirstLoudest`. |
| Report.ComparePairCases | tools/compare_latest_pair.py:75-110 | A page raises `TypeError` exactly when it has two or more captures with keys of different kinds. It is skipped for want of images exactly when it has fewer than two. A compared page's row carries the page, `prev`, `curr`, the score, the distance, the flag and the zone label. |
| Report.PageOutcomes | tools/compare_latest_pair.py:79-84 | A page is skipped as unreadable exactly when one of its two latest captures does not decode. SSIM raises exactly when the smaller height or the smaller width is under 7. |
| Report.FittedZoneIsFirstLoudest | tools/compare_latest_pair.py:51-60 | For a flagged pair that SSIM accepts and whose difference map has the pair's shape, the zone label is the band with the greatest mean, the first among equals, and every band has a mean. |
| Report.FlaggedZoneIsFirstLoudest | tools/compare_latest_pair.py:86-87 | When the difference map has the compared pair's shape, as `full=True` returns it, a flagged row's zone is the band with the greatest mean, the first among equals, and every band has a mean. |
| Report.ComparePage | tools/compare_latest_pair.py:71-110 | The definition of one folder's turn of the loop: its screenshots collected, then `ComparePair`. Its meaning is stated by `VisitPage` and `PageOutcomes`. |
| Report.VisitPage | tools/compare_latest_pair.py:71-110 | One folder's turn of the loop computes `ComparePage`. |
| Report.VisitPages | tools/compare_latest_pair.py:70-110 | The loop over the folders computes `Gather`: the appended rows, or the page whose exception ends it. |
| Report.Step | tools/compare_latest_pair.py:70-110 | The definition of one turn of the page loop: a compared page appends its row, a skipped page adds nothing, a failing page ends the loop. Its meaning is stated by `GatherStep` and `GatherStaysStopped`. |
| Report.Gather | tools/compare_latest_pair.py:70-110 | The definition of the loop over all pages' results, in page order. Its meaning is stated by `GatherStep`, `GatherStaysStopped` and `GatherCharacterised`. |
| Report.GatherStep | tools/compare_latest_pair.py:70-110 | One turn appends a compared page's row. A failing page fixes the result of the whole loop. |
| Report.GatherStaysStopped | tools/compare_latest_pair.py:70-110 | Once a page has raised, later pages change nothing. |
| Report.GatherCharacterised | tools/compare_latest_pair.py:70-110 | The loop finishes exactly when no page fails, and its rows are then those of the compared pages, in page order. Otherwise it stops at a failing page with no failure before it. |
| Report.Outcome | tools/compare_latest_pair.py:70-116 | The definition of what the page loop and the summary give for a list of pages: an abort, "No pages", or the rows sorted by `changed` descending and then `page` ascending. Its meaning is stated by `RunSummary` and `RunAborts`. |
| Report.Run | tools/compare_latest_pair.py:62-116 | The definition of what `main` produces. Its meaning is stated by `RunReport`, `RunSummary` and `RunAborts`. |
| Report.RunReport | tools/compare_latest_pair.py:67-116 | `main` computes `Run`: an abort at a failing page, the "no pages" outcome, or the summary sorted flagged first and then by page. |
| Report.ByName | tools/compare_latest_pair.py:67 | The definition of the order `sorted(pages_root.glob("*"))` uses: paths under one root compare by name. Its meaning is stated by `ByNameStrictWeak`. |
| Report.Dirs | tools/compare_latest_pair.py:67 | The definition of the `if p.is_dir()` filter, keeping order. Its meaning is stated by `DirsCounts` and `DirsSorted`. |
| Report.DirsCounts | tools/compare_latest_pair.py:67 | The page list keeps every directory of the root as often as it is listed, and nothing else. |
| Report.DirsSorted | tools/compare_latest_pair.py:67 | Filtering directories keeps the name order. |
| Report.ByNameStrictWeak | tools/compare_latest_pair.py:67 | Path order under one root is a strict weak order. |
| Report.Pages | tools/compare_latest_pair.py:67 | The definition of `folders`. Its meaning is stated by `PagesInNameOrder`. |
| Report.PagesInNameOrder | tools/compare_latest_pair.py:67 | The pages are visited in ascending name order, and they are exactly the root's directories. |
| Report.RowBefore | tools/compare_latest_pair.py:116 | The definition of the `sort_values(["changed", "page"], ascending=[False, True])` order: flagged rows first, then page names ascending. Its meaning is stated by `RowBeforeStrictWeak` and `RunSummary`. |
| Report.RowBeforeStrictWeak | tools/compare_latest_pair.py:116 | The two-key order `changed` descending, `page` ascending is a strict weak order. |
| Report.RunSummary | tools/compare_latest_pair.py:112-116 | A summary is written exactly when no page fails and some page is compared. "No pages" is reported exactly when none fails and none is compared. The summary is a permutation of the compared rows, flagged rows first, pages ascending within each group. |
| Report.RunAborts | tools/compare_latest_pair.py:70-110 | The run aborts exactly when some page fails. It then aborts at the first failing page, with that page's exception. |
| Sorting.Sort | tools/compare_latest_pair.py:75 | The definition of a stable ascending sort, as `sorted(imgs, key=natural_key)` (line 75), `zones.sort(reverse=True)` (line 59) and `sort_values` (line 116) are. The result is a permutation of the input. Its further meaning is stated by `SortIsSorted`, `SortHead`, `SortSplitLast` and `SortLastTwo`. |
| Sorting.SortIsSorted | tools/compare_latest_pair.py:116 | Under a strict weak order the stable sort's output is ordered. |
| Sorting.SortHead | tools/compare_latest_pair.py:59-60 | The first sorted element is the first minimal element of the input. |
| Sorting.FirstMinIsFirstMinimal | tools/compare_latest_pair.py:59-60 | Nothing is less than that element, and everything before it is strictly greater. |
| Sorting.SortSplitLast | tools/compare_latest_pair.py:75-79 | Stability at the end: the last sorted element is the last maximal element of the input, after the sorted rest. |
| Sorting.SortLastTwo | tools/compare_latest_pair.py:75-79 | The last two sorted elements are the last maximal element, then the last maximal element of what remains. |
| Sorting.LastMaxIsLastMaximal | tools/compare_latest_pair.py:75-79 | Nothing is greater than that element, and everything after it is strictly less. |

## Left out

- Report.CollectImages: collects the page folder's own entries. Lines 72-74 do that only when the page's name has no `*`, `?` or `[` (`Report.LiteralPageGlobsItself`). Page folders are named after Drive folder titles, so names with these characters can occur (see Findings). The rest of the model assumes page names free of them. `Report.FnMatch` leaves out a root path that itself holds wildcards.
- SSIM, the diff map and its min-max normalisation to `uint8` (lines 39-42): these are floating-point internals of skimage and numpy. The score and `norm` are inputs of each folder. A folder's `norm` may have any shape. That it has the compared pair's shape is a hypothesis (`Report.NormFitsPair`) of the lemma about flagged rows' zones.
- The perceptual hash (lines 46-49) is a foreign `imagehash` call. The distance is an input integer.
- Pixel work is left out: the BT.601 luma weights of `cvtColor`, resize interpolation and the JET colour map. Only shapes and the provenance of pixels are modelled.
- Images.Read: `cv2.imread` is not modelled beyond "decodes to three channels with the size recorded in the entry, or fails".
- I/O is left out: the environment variables, `datetime.now()` and `RUN_STAMP`, directory creation, `imwrite`, `copy2`, the CSV and HTML output, and the printed messages. The directory listing and its order are inputs (`Folder`, `FileEntry`).
- `round(ssim_score, 5)` at line 105 is float rounding. Rows carry the score unrounded.
- Floats: `ssim_score`, `SSIM_THRESHOLD` and the modification times are Python floats. They are modelled as `real`, each at its exact value, which keeps `<`. The constant `0.985` in `Classify.DefaultThresholds` stands for the nearest double, not for the exact decimal.
- Report.HeatmapPath: the path is relative to the run folder, which lies under `REPORT_LOCAL_ROOT`. The environment prefix is left out with the rest of the I/O.
- Zones.BandMean: means are exact rationals. numpy sums a `uint8` slice exactly in `float64` and divides once, so equal exact means stay equal. Two different exact means can still round to the same `float64` on very large bands. The realistic case is the bottom band against a band of a different height; top and middle always hold the same number of pixels, so they can only tie that way on a single band of about 2^45 pixels. The code then ties them and keeps the earlier band, where `GuessZone` picks the strictly larger one.
- Timestamps.Strptime: only zero-padded numeric fields are modelled. The space of `"%Y-%m-%d %H.%M.%S"` matches exactly one space, where `strptime` accepts any run of whitespace. Non-ASCII digits are not accepted.
- Timestamps.CaptureKey: a failing `stat` is an input (`mtime` absent). Its cause is not modelled.
- Zones.GuessZone: `list.sort(reverse=True)` is taken to be the stable ascending sort on "has the greater mean". This holds for strict weak orders. It is argued, not proved, for the three `NaN` cases above against CPython's reverse, sort, reverse implementation.
- `tools/drive_sync.py` is not part of this model. It is a Google Drive client.
- Concurrency: the source is a sequential loop.

## Findings

| source | as written | input that shows it | evidently intended | confidence | as-written member | corrected member |
|---|---|---|---|---|---|---|
| tools/compare_latest_pair.py:74 | `glob.glob(str(folder / ext))` reads the page folder's name as a pattern, so `*`, `?` and `[` in it act as wildcards | a page `v*` with no screenshots beside a page `va` with `1.png` and `2.png` collects `va`'s two and gets a `Compared` row, where its own folder gives `TooFewImages`; a page `Home [mobile]` with the same two collects none and is skipped, where its own folder gives a `Compared` row | each page collects its own folder's screenshots (for example through `glob.escape(str(folder))`) | not executed | Report.CollectedAsWritten, with Report.StarPagePoolsSiblings, Report.BracketPageMissesOwn and Report.ShotsExist | Report.CollectImages, with Report.CollectedAreImages and Report.LiteralPageGlobsItself |
