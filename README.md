# CryoET caption corpus: a verified model

This project models the data-preparation, evaluation and serving scripts of the CryoET
captioning fork of LAVIS:

- **The SABER archive reader** (`SABER_reader2.py`) is read-only. It lists the runs of a zarr store
  (the top-level groups that hold a `masks` group), the masks of a run, and each mask's attributes.
  It also decodes the JSON-encoded `hashtags` attribute.
- **The extraction script** (`download_cryoet.py`) does four things:
  - For every run, it drops small masks and pads and clamps each kept box.
  - It draws the box and writes twelve augmented pictures: four rotations times {no flip, horizontal, vertical}.
  - It makes one label record `{image, image_id, caption}` per picture.
  - It pools the records of all runs, shuffles them, cuts them 80/10/10, and collapses each training caption list to its first caption.
- **The balancer** (`balance_json.py`) keeps at most `2 * (N // classes)` records per caption, in order.
  It writes them to `<stem>_balanced.json` beside the input.
- **The benchmark** (`benchmark.py`) does three things:
  - It cleans the model's captions: ASCII only, stripped, no empty ones, `["Unknown."]` as the fallback.
  - It skips images that do not exist.
  - It writes one TSV line per image to `<basename>_output_full.tsv`, with `.json` replaced.
- **The evaluation reader** (`visualize.py`) reads that TSV into rows, cleans the text, builds the sorted class list and counts the per-class agreements.
- **The web endpoint** (`gui/app.py`, `/caption`) validates the posted JSON and splits the data URL at its first comma.
  It answers 200 with the cleaned captions, or with 400/500 and the app's error messages.

Layout: one module per component, plus four shared modules:

- `Outcomes`: Python's errors as a `Result`.
- `Seqs`: count, filter, map, subsequence.
- `Text`: Python's `str.strip`, `str.replace`, `split(sep, 1)`, `os.path.basename`, `os.path.join` and `str` ordering.
- `Json`: the JSON value type and a string-array codec.

How the program's forms carry over:

- Loops that build lists or update counters are methods with loop invariants, proved equal to a reference function: `ReadTsv`, `KeepUnderCap`, `CountCaptions`, `PerClassCorrect`, `WriteResults`, `ProcessRun`, `CollectPool`.
- The in-place shuffle and the in-place caption collapse work on an `array`: `Shuffle`, `SplitCorpus`.
- Everything else is functions and lemmas.

## Model

| member | source | states |
|---|---|---|
| Text.Strip | benchmark.py:15 | The result has no leading or trailing whitespace and is the infix of the input left once all outer whitespace is removed |
| Text.SplitOnce | gui/app.py:47 | `split(",", 1)` gives two parts exactly when the separator occurs; the head holds no separator, and head + sep + rest rebuilds the input |
| Text.SplitOnceInverse | gui/app.py:47 | The split happens at the first separator: a head without separators is given back unchanged, and so is everything after it, later separators included |
| Text.Basename | benchmark.py:31 | The base name holds no `/`, is a suffix of the path, and is preceded by a `/` unless it is the whole path |
| Text.ReplaceAll | lavis/datasets/download_scripts/download_cryoet.py:101 | Python's `str.replace`: every non-overlapping occurrence, left to right. An absent pattern changes nothing (`ReplaceAbsent`), and a character in neither the text nor the replacement stays out (`ReplaceKeepsOut`) |
| Text.ReplaceDeletesChar | visualize.py:15 | `s.replace("#", "")` leaves no `#`, and keeps every other character in its order and as many times as it occurs in `s` |
| Text.ReplaceSingleChar | lavis/datasets/download_scripts/download_cryoet.py:101 | Replacing a one-character string by another is a per-character swap, and no occurrence of the old character survives |
| Text.Join | lavis/datasets/download_scripts/download_cryoet.py:97 | `os.path.join` of two POSIX components: an absolute second part replaces the first, and `/` is added only when the first does not already end in one. `JoinInjective` is proved about it |
| Text.JoinInjective | lavis/datasets/download_scripts/download_cryoet.py:97 | Joining different names that start with the same character onto one directory gives different paths |
| Text.Less | visualize.py:93 | Python's `<` on strings, by code point with a proper prefix first. It is irreflexive and total on distinct strings (`LessTotal`), the order `sorted` uses |
| Text.LessTotal | visualize.py:93 | Python's string order is total on distinct strings, so sorting a set of labels is well defined |
| Json.DecodeEncode | lavis/datasets/download_scripts/SABER_reader2.py:39 | Decoding the JSON text of any array of strings gives that array back |
| Json.DecodeStringArray | lavis/datasets/download_scripts/SABER_reader2.py:39 | `json.loads` of a JSON array of strings: whitespace, then `[`, the items and `]`, then only whitespace, otherwise `JSONDecodeError`. `DecodeEncode` proves it inverts the encoder |
| SaberReader.Runs | lavis/datasets/download_scripts/SABER_reader2.py:86-89 | A name is a run exactly when it is a top-level group with a `masks` sub-group; runs keep the store's key order |
| SaberReader.Masks | lavis/datasets/download_scripts/SABER_reader2.py:61-65 | One mask per key of `<run>/masks`, in order, each carrying the run's name; fails exactly when the run or its `masks` group is missing |
| SaberReader.Attr | lavis/datasets/download_scripts/SABER_reader2.py:20-21 | An attribute read succeeds exactly when the mask's group resolves and holds the key, and gives the stored value; otherwise `KeyError` |
| SaberReader.Area | lavis/datasets/download_scripts/SABER_reader2.py:18-21 | Gives `v` exactly when the mask's group stores `v` under `area` |
| SaberReader.BBox | lavis/datasets/download_scripts/SABER_reader2.py:23-27 | Gives `v` exactly when the mask's group stores `v` under `bbox` |
| SaberReader.Description | lavis/datasets/download_scripts/SABER_reader2.py:29-33 | Gives `v` exactly when the mask's group stores `v` under `description` |
| SaberReader.OriginalSegmentationId | lavis/datasets/download_scripts/SABER_reader2.py:41-45 | Gives `v` exactly when the mask's group stores `v` under `original_segmentation_id` |
| SaberReader.SegmentationId | lavis/datasets/download_scripts/SABER_reader2.py:47-51 | Gives `v` exactly when the mask's group stores `v` under `segmentation_id` |
| SaberReader.Hashtags | lavis/datasets/download_scripts/SABER_reader2.py:35-39 | A stored JSON array of strings decodes to exactly those strings; a missing attribute is `KeyError` |
| SaberReader.HashtagsRoundTrip | lavis/datasets/download_scripts/SABER_reader2.py:35-39 | Reading back the encoding of any tag list stored under `hashtags` gives that list |
| SaberReader.GetRun | lavis/datasets/download_scripts/SABER_reader2.py:91-95 | As written, every failure is the `ValueError` naming the run |
| SaberReader.GetRunAlwaysFails | lavis/datasets/download_scripts/SABER_reader2.py:93-94 | As written, `get_run` fails for every name, present or not |
| SaberReader.GetRunByName | lavis/datasets/download_scripts/SABER_reader2.py:91-95 | Corrected: succeeds exactly for run names and then gives that run; otherwise the script's `ValueError` |
| SaberReader.GetMask | lavis/datasets/download_scripts/SABER_reader2.py:67-71 | As written: a missing run is `KeyError`, and any `ValueError` is the message naming the mask and the run |
| SaberReader.GetMaskAlwaysFails | lavis/datasets/download_scripts/SABER_reader2.py:69-70 | As written, `get_mask` fails for every name |
| SaberReader.GetMaskByName | lavis/datasets/download_scripts/SABER_reader2.py:67-71 | Corrected: propagates the `masks` lookup error; otherwise succeeds exactly for the names listed under `<run>/masks`, giving that mask |
| CryoetGeometry.Rejected | lavis/datasets/download_scripts/download_cryoet.py:54 | The skip test: a box narrower or lower than 20 pixels, or an area under 400. A kept mask's box has positive width and height and a positive area |
| CryoetGeometry.PadAndClamp | lavis/datasets/download_scripts/download_cryoet.py:57-62 | Each side is padded by `padding` and clamped to `[0, w]` x `[0, h]`; the result lies in the picture |
| CryoetGeometry.PaddedBoxCoversKept | lavis/datasets/download_scripts/download_cryoet.py:54-62 | For a kept box inside the picture with padding of at least zero, the padded box stays inside the picture, contains the original box, and so is at least 20 pixels wide and high |
| CryoetGeometry.ClampKeepsInside | lavis/datasets/download_scripts/download_cryoet.py:58-62 | With no padding, a box already inside the picture is unchanged |
| CryoetGeometry.Rotate90 | lavis/datasets/download_scripts/download_cryoet.py:79 | Clockwise quarter turn: the dimensions swap and pixel (i, j) comes from (h-1-j, i) |
| CryoetGeometry.Rotate180 | lavis/datasets/download_scripts/download_cryoet.py:80 | Half turn: the same dimensions, and pixel (i, j) comes from (h-1-i, w-1-j) |
| CryoetGeometry.Rotate270 | lavis/datasets/download_scripts/download_cryoet.py:81 | Counter-clockwise quarter turn: the dimensions swap and pixel (i, j) comes from (j, w-1-i) |
| CryoetGeometry.MirrorRows | lavis/datasets/download_scripts/download_cryoet.py:85 | Flip code 1 (horizontal) mirrors every row: pixel (i, j) comes from (i, w-1-j) |
| CryoetGeometry.ReverseRows | lavis/datasets/download_scripts/download_cryoet.py:86 | Flip code 0 (vertical) reverses the row order: pixel (i, j) comes from (h-1-i, j) |
| CryoetGeometry.Augment | lavis/datasets/download_scripts/download_cryoet.py:89-95 | A variant of an h×w picture is w×h after a quarter turn and h×w otherwise. Its pixel (i, j) is the original pixel that `SourcePixel` gives for that rotation and flip: for example (h-1-j, i) for `r90` and (j, i) for `r90_fh` |
| CryoetGeometry.VariantsCoincide | lavis/datasets/download_scripts/download_cryoet.py:89-95 | Four of the twelve variants repeat others: `r0_fh` is `r180_fv`, `r0_fv` is `r180_fh`, `r90_fh` is `r270_fv` and `r90_fv` is `r270_fh` |
| CryoetGeometry.AugmentShape | lavis/datasets/download_scripts/download_cryoet.py:89-95 | Quarter turns swap the picture's dimensions, other rotations keep them, and flips never change them |
| CryoetGeometry.TwoQuarterTurns | lavis/datasets/download_scripts/download_cryoet.py:79-80 | Two clockwise quarter turns are the half turn |
| CryoetGeometry.QuarterTurnsCancel | lavis/datasets/download_scripts/download_cryoet.py:79-81 | The clockwise and counter-clockwise quarter turns undo each other |
| CryoetGeometry.MirrorTwice | lavis/datasets/download_scripts/download_cryoet.py:85 | A horizontal flip is its own inverse |
| CryoetGeometry.ReverseTwice | lavis/datasets/download_scripts/download_cryoet.py:86 | A vertical flip is its own inverse |
| CryoetGeometry.BothFlipsMakeHalfTurn | lavis/datasets/download_scripts/download_cryoet.py:80-86 | Both flips in either order are the half turn, so `r180_fh` and `r0_fv` show the same picture |
| CryoetRecords.AugName | lavis/datasets/download_scripts/download_cryoet.py:96 | The f-string file name. `AugNameShape` gives its shape and `AugNamesDistinct` shows the twelve names of a mask are distinct |
| CryoetRecords.AugNameShape | lavis/datasets/download_scripts/download_cryoet.py:96 | A picture's name is the mask name, then `_bounded_`, then the tags, and it ends in `.png` |
| CryoetRecords.SuffixInjective | lavis/datasets/download_scripts/download_cryoet.py:96 | The twelve rotation/flip tag suffixes are pairwise different |
| CryoetRecords.AugNamesDistinct | lavis/datasets/download_scripts/download_cryoet.py:96 | Different variants of one mask get different file names |
| CryoetRecords.ImageId | lavis/datasets/download_scripts/download_cryoet.py:101 | `replace("/", "_").replace(".png", "")` on the path. `ImageIdIsFlat` and `ImageIdOfPng` state its result |
| CryoetRecords.ImageIdIsFlat | lavis/datasets/download_scripts/download_cryoet.py:101 | An `image_id` holds no `/` |
| CryoetRecords.ImageIdOfPng | lavis/datasets/download_scripts/download_cryoet.py:101 | For a `.png` path with no other `.png` once flattened, the id is the path without `.png` and with every `/` made `_` |
| CryoetRecords.EntryFor | lavis/datasets/download_scripts/download_cryoet.py:99-103 | One record: the joined path, its image id and the one-element caption list `[description]`. `RunEntriesWellFormed` states this for every record of a run |
| CryoetRecords.EntriesOver | lavis/datasets/download_scripts/download_cryoet.py:89-103 | Three records per rotation |
| CryoetRecords.MaskEntries | lavis/datasets/download_scripts/download_cryoet.py:51-55 | A skipped mask gives no records and a kept one twelve |
| CryoetRecords.MaskEntriesOrder | lavis/datasets/download_scripts/download_cryoet.py:77-103 | Record `3*ri + fi` of a kept mask is the one for rotation `ri` and flip `fi`: rotation-major, unflipped then `fh` then `fv` |
| CryoetRecords.WritesOver | lavis/datasets/download_scripts/download_cryoet.py:95-98 | Three files written per rotation |
| CryoetRecords.MaskWrites | lavis/datasets/download_scripts/download_cryoet.py:89-98 | A skipped mask writes no files and a kept one twelve |
| CryoetRecords.ProcessRotation | lavis/datasets/download_scripts/download_cryoet.py:90-103 | The inner loop produces exactly the three records and files of one rotation |
| CryoetRecords.ProcessKeptMask | lavis/datasets/download_scripts/download_cryoet.py:89-103 | The rotation loop produces exactly the mask's twelve records and files |
| CryoetRecords.ProcessRun | lavis/datasets/download_scripts/download_cryoet.py:25-105 | `process_single_run` returns exactly the records of its masks, in mask order; it writes the base picture first, then every variant of every kept mask |
| CryoetRecords.RunEntries | lavis/datasets/download_scripts/download_cryoet.py:48-105 | The records of a run, mask by mask in mask order. `ProcessRun` is proved to return them, and `RunEntriesCount` shows there are twelve per kept mask |
| CryoetRecords.RunWrites | lavis/datasets/download_scripts/download_cryoet.py:51-98 | The variant files of a run, mask by mask. `ProcessRun` is proved to write them after the base picture, and `WritesMatchEntries` pairs them with the records |
| CryoetRecords.RunStep | lavis/datasets/download_scripts/download_cryoet.py:51-103 | One more mask appends its own records and files after those of the masks before it |
| CryoetRecords.RunEntriesCount | lavis/datasets/download_scripts/download_cryoet.py:51-55 | A run yields twelve records per kept mask |
| CryoetRecords.NoKeptMaskNoEntries | lavis/datasets/download_scripts/download_cryoet.py:54-55 | A run whose masks are all too small yields no records |
| CryoetRecords.MaskImagesDistinct | lavis/datasets/download_scripts/download_cryoet.py:96-100 | Different variants of a kept mask are recorded under different image paths |
| CryoetRecords.RunEntriesWellFormed | lavis/datasets/download_scripts/download_cryoet.py:99-103 | Every record's id is derived from its own path, and its caption is the one-element list holding the description of a kept mask of the run |
| CryoetRecords.WritesMatchEntries | lavis/datasets/download_scripts/download_cryoet.py:97-100 | The k-th file written is the k-th record's image, and the two lists have the same length |
| CryoetCorpus.ConcatPermutation | lavis/datasets/download_scripts/download_cryoet.py:181-187 | Runs completing in another order give a pool that is a permutation of the first one |
| CryoetCorpus.CollectPool | lavis/datasets/download_scripts/download_cryoet.py:181-183 | The pool is the runs' records concatenated in completion order |
| CryoetCorpus.TrainCut | lavis/datasets/download_scripts/download_cryoet.py:189 | The first cut is the floor of 8N/10 |
| CryoetCorpus.ValCut | lavis/datasets/download_scripts/download_cryoet.py:189 | The second cut is the floor of 9N/10 |
| CryoetCorpus.CutsOrdered | lavis/datasets/download_scripts/download_cryoet.py:189 | 0 <= first cut <= second cut <= N, so the three slices are well defined |
| CryoetCorpus.Shuffle | lavis/datasets/download_scripts/download_cryoet.py:186-187 | Shuffling keeps the array's multiset of records |
| CryoetCorpus.Collapse | lavis/datasets/download_scripts/download_cryoet.py:191-192 | Collapsing keeps the path and id and replaces the caption list by its first caption |
| CryoetCorpus.ExpandCollapse | lavis/datasets/download_scripts/download_cryoet.py:191-192 | On a one-caption record, collapsing loses nothing |
| CryoetCorpus.SplitCorpus | lavis/datasets/download_scripts/download_cryoet.py:189-192 | The three slices have the cut sizes; they concatenate to the array; training records are the collapsed originals; validation and test are untouched |
| CryoetCorpus.SplitRestores | lavis/datasets/download_scripts/download_cryoet.py:189-192 | Expanding the training slice and appending the rest gives back the shuffled pool |
| CryoetCorpus.SplitOfShuffledPool | lavis/datasets/download_scripts/download_cryoet.py:185-192 | After the shuffle and split, training captions are single strings and the rest keep their lists; with one caption per record, the three files together are a permutation of the pool |
| CryoetCorpus.BuildCorpus | lavis/datasets/download_scripts/download_cryoet.py:181-192 | The whole corpus step: split sizes as cut, training captions collapsed, and the corpus a permutation of every run's records |
| Balance.CounterKey | lavis/datasets/download_scripts/balance_json.py:11 | A Counter key: `True` is the key `1` and `False` the key `0`, every other value is its own key, and hashability is unchanged |
| Balance.CaptionKey | lavis/datasets/download_scripts/balance_json.py:11 | `obj['caption']` as a Counter key: succeeds exactly for an object with a hashable caption; a missing caption is `KeyError('caption')` |
| Balance.Keys | lavis/datasets/download_scripts/balance_json.py:10-11 | The counting loop succeeds exactly when every record's key does, giving the keys in order; otherwise it fails with a failing record's error |
| Balance.DistinctBound | lavis/datasets/download_scripts/balance_json.py:13 | There are at most N classes, and at least one when the list is not empty |
| Balance.Cap | lavis/datasets/download_scripts/balance_json.py:14 | With no more classes than records, the cap is at least 2 |
| Balance.Capped | lavis/datasets/download_scripts/balance_json.py:21-27 | The kept list is no longer than the input |
| Balance.CountCaptions | lavis/datasets/download_scripts/balance_json.py:9-11 | The Counter fails exactly when a key does, with its error; otherwise its keys are the distinct captions, each with its number of occurrences |
| Balance.KeepUnderCap | lavis/datasets/download_scripts/balance_json.py:21-27 | The recount loop keeps exactly the records whose caption had fewer than `cap` earlier keeps |
| Balance.Rebalance | lavis/datasets/download_scripts/balance_json.py:5-27 | A key failure is re-raised; an empty list is `ZeroDivisionError`; otherwise the result is the capped list for `2 * (N // classes)` |
| Balance.CappedIsSubsequence | lavis/datasets/download_scripts/balance_json.py:24-26 | The balanced list is a subsequence of the input: order kept, nothing invented |
| Balance.CappedCount | lavis/datasets/download_scripts/balance_json.py:21-27 | Each caption survives min(its count, cap) times |
| Balance.CappedKeys | lavis/datasets/download_scripts/balance_json.py:21-27 | The captions of the kept records are the capped caption list |
| Balance.EveryCaptionSurvives | lavis/datasets/download_scripts/balance_json.py:13-27 | On non-empty input, every caption keeps at least min(its count, 2) records |
| Balance.Suffix | lavis/datasets/download_scripts/balance_json.py:29 | `Path.suffix`: the name from its last inner `.` on, or empty. It holds no `/` when the name holds none, and `StemSuffix` shows stem plus suffix is the name |
| Balance.SuffixStart | lavis/datasets/download_scripts/balance_json.py:29 | The suffix starts at the last `.` strictly inside the name, and there is none when no such `.` exists |
| Balance.Stem | lavis/datasets/download_scripts/balance_json.py:29 | The stem is a prefix of the name |
| Balance.StemSuffix | lavis/datasets/download_scripts/balance_json.py:29 | Stem followed by suffix is the name |
| Balance.BalancedPath | lavis/datasets/download_scripts/balance_json.py:29 | `with_name` fails exactly on a path with no name; otherwise the result keeps the root and the parent and is named `<stem>_balanced.json` |
| Balance.BalancedNameSplits | lavis/datasets/download_scripts/balance_json.py:29 | The new name splits again into stem `<stem>_balanced` and suffix `.json` |
| Captions.DropNonAscii | benchmark.py:14 | The result is all ASCII, no longer than the input, and ASCII text is unchanged |
| Captions.DropNonAsciiKeepsAscii | benchmark.py:14 | Exactly the ASCII characters stay, in their order and as many times as they occur: `"héllo"` becomes `"hllo"` |
| Captions.CleanOne | benchmark.py:14-15 | A cleaned caption is all ASCII and stripped |
| Captions.CleanCaptions | benchmark.py:14-18 | The result is never empty and every caption in it is clean. When every caption cleans to empty, it is `["Unknown."]`. Otherwise it is a subsequence of the cleaned captions that keeps each non-empty caption as many times as it occurs there |
| Captions.UnknownIsClean | benchmark.py:17 | The fallback caption is itself clean |
| Captions.FallbackOnlyWhenAllEmpty | benchmark.py:15-17 | When no caption cleans to `Unknown.`, the fallback is returned exactly when every caption cleans to empty |
| Captions.CleanCaptionsOfClean | gui/app.py:27-31 | Non-empty lists of clean captions pass through unchanged |
| Captions.CleanTwice | gui/app.py:27-31 | Cleaning is idempotent |
| Benchmark.OutputFileName | benchmark.py:31 | The output name holds no `/`: it is written into the working directory |
| Benchmark.OutputFileNameOfJson | benchmark.py:31 | `<dir>/<stem>.json` becomes `<stem>_output_full.tsv` |
| Benchmark.ReplaceInBasename | benchmark.py:31 | Replacing a pattern that ends the base name, and does not otherwise occur in it, swaps only that ending |
| Benchmark.Display | benchmark.py:37 | What the f-string puts in place of a JSON value: a string as it is, anything else as `str()` of it |
| Benchmark.EntryPair | benchmark.py:37 | Succeeds exactly for an object with `image` and `caption`; `KeyError('image')` is raised before `KeyError('caption')`; a non-object is `TypeError` |
| Benchmark.ImageEntries | benchmark.py:37 | The comprehension succeeds exactly when every entry does, one pair per entry in order; otherwise it fails with a failing entry's error |
| Benchmark.ImagePathsArePrefixed | benchmark.py:37 | Each pair's path is `<prefix>/<image>` and its truth is the entry's caption |
| Benchmark.Lines | benchmark.py:40-46 | The reference lines, entry by entry, skipping entries whose image does not exist. `WriteResults` is proved to write them |
| Benchmark.WriteResults | benchmark.py:39-47 | The loop writes exactly the lines of the reference definition |
| Benchmark.LinesAreClean | benchmark.py:44-46 | Every line's caption list is non-empty and clean, and its top caption is the first one; there are never more lines than entries |
| Benchmark.LinesOfExisting | benchmark.py:41-46 | Only existing images get a line, and each line's path and truth come from one entry |
| Benchmark.LinesFollowExisting | benchmark.py:40-46 | There is one line per entry whose image exists, in entry order, with that entry's path and truth |
| Benchmark.AllExistingAllWritten | benchmark.py:40-46 | When every image exists, there is one line per entry |
| Visualize.CleanText | visualize.py:12-15 | The result has no `#`, is stripped, is empty for `None`, and draws its characters from the input |
| Visualize.CleanTextIdempotent | visualize.py:12-15 | Cleaning a cleaned text changes nothing |
| Visualize.RowOf | visualize.py:28-31 | The row keeps the first column as its path |
| Visualize.Rows | visualize.py:17-32 | There are never more rows than lines |
| Visualize.ReadTsv | visualize.py:17-32 | The reading loop gives exactly the rows of the reference definition |
| Visualize.RowsCount | visualize.py:21-31 | There is one row per line with at least three columns |
| Visualize.ExtraColumnsIgnored | visualize.py:24-31 | Columns after the third do not change the row |
| Visualize.SortedSet | visualize.py:93 | `sorted(set(gts))` is strictly increasing and holds exactly the labels |
| Visualize.FirstIndex | visualize.py:95 | The index of the first occurrence |
| Visualize.RemoveFirst | visualize.py:95 | `list.remove` removes one element |
| Visualize.Classes | visualize.py:93-95 | The class list is strictly sorted and holds exactly the non-empty labels |
| Visualize.ClassesHaveLabels | visualize.py:93-98 | Every class occurs among the labels, and the list is empty exactly when every label is empty |
| Visualize.MappedClasses | visualize.py:106 | One mapped class per prediction, each of them a class |
| Visualize.Agree | visualize.py:128-130 | A class's agreements never exceed its occurrences among the labels |
| Visualize.PerClassCorrect | visualize.py:127-130 | The Counter reads, for every class, the number of positions where label and mapped class are both that class, and it holds no zero entry |
| Visualize.TotalCorrect | visualize.py:127-131 | Summed over a sorted class list that covers the mapped classes, the per-class agreements give the total agreements |
| Visualize.AccuracyWellDefined | visualize.py:126-131 | For every class, the accuracy denominator is positive and the numerator does not exceed it |
| GuiApp.Truthy | gui/app.py:42 | Python's truth value of the parsed body: `null`, `false`, `0`, `""`, `[]` and `{}` are false. `MissingImageData` shows a false body is answered with 400 |
| GuiApp.Contains | gui/app.py:42 | `in` on an object tests its keys, and fails exactly on null, booleans and numbers |
| GuiApp.Payload | gui/app.py:45-49 | There is a payload exactly when the URL has a comma, and it is what follows the first comma |
| GuiApp.PayloadAfterFirstComma | gui/app.py:47 | Later commas stay in the payload |
| GuiApp.HandleCaption | gui/app.py:39-70 | The status is 200, 400 or 500, and 200 exactly with a caption list, whose captions are non-empty and clean. An unparsable body is 400, and a falsy body is 400 with the missing-data message |
| GuiApp.MissingImageData | gui/app.py:42-43 | An object without `image_data` is 400 with the missing-data message |
| GuiApp.UrlWithoutComma | gui/app.py:46-49 | A data URL without a comma is 400 with the malformed-URL message |
| GuiApp.UrlWithComma | gui/app.py:51-70 | A well-formed URL has its payload processed. Captions give 200 with the cleaned list; an exception gives 500 with the failure prefix and the exception's text |

## Left out

- The image pipeline's pixel work is given, not computed. Percentile normalisation (`normalize_to_uint8`) is the given picture `norm`. The rectangle drawing, with its grey-to-BGR conversion, is the parameter `drawRect`. Writing PNG files is a list of (path, picture) pairs.
- Concurrency: the worker pool's completion order is a parameter (`completed`). `CryoetCorpus.ConcatPermutation` shows that the order does not change the pool's contents. A worker exception aborts the whole script in the code (`fut.result()` re-raises), so no per-run failure isolation is modelled.
- The random generator: seed 42 and numpy's draws are the oracle `pick`. The model keeps the Fisher-Yates pass but not the exact stream of numbers.
- CryoetCorpus.TrainCut: `int(0.8 * N)` and `int(0.9 * N)` are taken as floor(8N/10) and floor(9N/10). The double products can differ from those for very large N, far beyond any corpus size.
- The masks' pixel arrays (`mask_array`, `image_array`) and zarr's storage format are not part of this model; the store is a map from group paths to keys and attributes.
- SaberReader.Hashtags: `json.loads` is modelled only for an array of strings without `\u` escapes of surrogate pairs. Other JSON texts give an error in the model.
- A non-list `bbox` attribute, and the `ValueError` its unpacking raises, are not modelled: a mask's box arrives as four integers.
- visualize.py: sentence embeddings, cosine similarities and the argmax are left out. The mapped class indices arrive as a parameter. Statistics, confusion matrices, plots, the CSV writers (lines 133-160) and the float division of the per-class accuracy are also left out.
- Visualize.RemoveFirst: states only that one element goes, not which one.
- Balance.Cap: does not state the upper bound `c <= 2 * n`.
- Reading and writing JSON files: a file's top level arrives as a sequence of values. `json.dump`, command-line parsing, logging and every `print` are left out.
- Benchmark: `str()` of a non-string image value is the parameter `show`, and `os.path.exists` is the parameter `exists_`. The model's `generate` stands for loading the picture and running the captioning model.
- Balance.BalancedPath: pathlib's string parsing is not modelled. The path arrives split into its parts.
- GuiApp: Flask's request parsing, base64 decoding, the image library, temporary files and the captioning model are the parameter `process`. Flask's own 400/500 pages are single constants, and `gui/static/app.js` is not part of this model.
- CryoetRecords.ProcessRun: receives the run's name and masks as values and does not read them from the store. So it leaves out the `IndexError` for a `run_idx` out of range (download_cryoet.py:32) and the `KeyError` for a mask without a `bbox`, `area` or `description` attribute. It also leaves out the order of those lazy reads. `area` is read only when the box passes the size test (line 54), and `description` only after the first variant file is written (lines 98-102). So when an attribute is missing, the files written before the error are a prefix of those the model lists.
- JSON numbers are integers (`Json.Value.Num`). Floats are not modelled, so the model cannot show that `1.0`, `1` and `True` share a Counter key, or that `0.0` is falsy.
- Benchmark.WriteResults: a line of the TSV file is the record `ResultLine` and not its tab-separated text (benchmark.py:46). The f-string formatting of the caption and the output list is not modelled. Nothing links these lines to the rows that `Visualize.ReadTsv` parses, and a tab inside a field would split the row there.
- A missing run or mask name gives `ValueError` and a missing group gives `KeyError`, exactly the exceptions the scripts raise; the model returns these as errors.

## Findings

| source | as written | input that shows it | evidently intended | confidence | as-written member | corrected member |
|---|---|---|---|---|---|---|
| lavis/datasets/download_scripts/SABER_reader2.py:93-94 | `run_name not in self.runs` compares a string with `SABERRun` objects, which define no equality with strings | any store with a run `"r1"` and `get_run("r1")`: raises `ValueError` | look the name up among the run names | not executed | SaberReader.GetRunAlwaysFails | SaberReader.GetRunByName |
| lavis/datasets/download_scripts/SABER_reader2.py:69-70 | `mask_name not in self.masks` compares a string with `SABERMask` objects | any run with a mask `"m1"` and `get_mask("m1")`: raises `ValueError` | look the name up among the mask names of the run | not executed | SaberReader.GetMaskAlwaysFails | SaberReader.GetMaskByName |
