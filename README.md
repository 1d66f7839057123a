# moonPy stimulus pipeline — a verified Dafny model

moonPy builds two-tone ("Mooney") and superimposed cyan/magenta stimuli
for a perception experiment, stage by stage, from two folders of
photographs: manufactured objects (`man`) and natural objects (`nat`).
This project models the core of five of its stages and proves properties
of that model.

- **Initialisation** (`init.py`, module `Init`). Asks for a crop size and,
  if `1_source_images` exists, whether to overwrite it. Empties or creates
  that folder. Checks the man folder, then the nat folder. Shuffles each
  folder's listing with `random.shuffle` and splits it at `len // 2` into
  halves `a` and `b`. Copies every photo as `a_<kind>_<name>` or
  `b_<kind>_<name>`, after dropping one leading `a_`/`b_` from its name.
  Crops each copy to a centred square, counts progress, and creates the
  stage folders `2_grey` … `8_experiment`.
- **Mooney thresholding** (`mooney.py`, module `Mooney`, class
  `MooneyApp`). An interactive session over the unprocessed greyscale
  `.jpg` files. A sigma slider (0–30, sigma = slider / 2) and a threshold
  slider (0–255) drive a blurred, binarised preview. Save writes the
  Mooney image and appends a row to `threshold_blur.csv`. Undo pops the
  history, deletes the row and the image, and goes back. The whole session
  is a `Session` value. Every class method is proved to move it by one
  step function. The invariant `Inv` says the files still to do are
  sorted and none of them is in the CSV. It is proved of the opening
  state, and to be kept by loading, saving, undoing and moving a slider.
  A reload is covered only when it finds files to do. A reload that
  finds none closes the window and keeps the old index with an empty
  file list, and `Inv` is not claimed there.
- **Pairing** (`pairs.py`, module `Pairing`, class `Pairs`). Sorts the
  `.jpg` files into four pools by prefix (`a_man_`, `b_man_`, `a_nat_`,
  `b_nat_`). Draws two crossings, `a_man × b_nat` and `b_man × a_nat`,
  each `min` of the two pool sizes long, with `random.sample` on each
  side. Numbers the pairs from 1 and writes them to `pairs.csv`.
  Re-randomising reseeds from `random.randint(0, 999999999)`.
- **Superimposition** (`superimpose.py`, module `Superimpose`, class
  `Superimposer`). Validates alpha and reads the pairings. For each pair:
  makes cyan and magenta RGBA layers of both images, saves the four
  layers, composites them over white, and routes the two composites to
  `CB1`/`CB2` by the parity of the pair number.
- **Experiment builder** (`rename.py`, module `Rename`). Copies the
  greyscale and Mooney `.jpg` files and the `CB1`/`CB2` `.png` composites
  into the experiment folder under `1_greyscale_…`, `2_mooney_…` and
  `3_super_<cb>_<n>.png`.

Three shared modules:
- Text: prefix and suffix tests, Python's `str` order and `sorted`, list
  filters, `split("_")[0]` and `str(n)`.
- Rng: Python's `random`, seen as a stream of draws. An oracle
  `(seed, position) -> nat` is reduced modulo the bound. `random.sample`
  is CPython's pool algorithm, and `random.shuffle` is Fisher–Yates in
  place on an `array`.
- Optional: the `Option` datatype.

File system state is modelled as values:
- Folder listings are `seq<string>`, with `None` for a folder that was not
  chosen or does not exist.
- Folders that are written are `map`s from file name to what was written
  there.
- Dialog answers are method parameters.

Two behaviours of the code as written are kept in the model:
- Undo sets the sliders back to the undone entry's values
  (`mooney.py:298-299`), but the `load_image` call that follows resets
  them to 4 and 127 (`mooney.py:237-238`). `Mooney.UndoneState` states the
  defaults.
- The initialisation stage empties `1_source_images` before it checks the
  two source folders (`init.py:144-160` before `init.py:165-181`). A run
  that stops on a missing or empty folder has already emptied it.
  `Init.Initialiser.InitialiseDirectories` states this.

## Model

| member | source | states |
|---|---|---|
| Text.Sort | mooney.py:167 | definition of `sorted` as insertion into a sorted list; its properties are stated by `Text.SortSpec` |
| Text.SortSpec | mooney.py:167 | `sorted` of a duplicate-free list is strictly ascending in Python's string order and a permutation of its input |
| Text.Less | mooney.py:167 | definition of Python's order on `str`, code point by code point with a proper prefix first; its properties are stated by `Text.LessIrreflexive`, `Text.LessTransitive`, `Text.LessTotal` and `Text.LessAsymmetric` |
| Text.LessIrreflexive | mooney.py:167 | no string is below itself in Python's string order |
| Text.LessTransitive | mooney.py:167 | Python's string order is transitive |
| Text.LessTotal | mooney.py:167 | of two distinct strings, one is below the other |
| Text.LessAsymmetric | mooney.py:167 | two strings are never each below the other |
| Text.StrictlySortedIsDistinct | mooney.py:167 | a strictly sorted list has no duplicates |
| Text.JpgNames | mooney.py:167 | a name is kept iff it is in the listing and ends in `.jpg` in any letter case; the listing order is kept and duplicates are not introduced |
| Text.WithPrefix | pairs.py:114-117 | a name is kept iff it is in the list and starts with the prefix; the order is kept and duplicates are not introduced |
| Text.NotIn | mooney.py:168-169 | a name is kept iff it is in the list and not among the processed names; the order is kept, so a strictly sorted list stays strictly sorted |
| Text.JpgSuffixCases | mooney.py:167 | names ending in `.jpg` or in `.JPG` both pass the case-insensitive `.jpg` test |
| Text.Before | rename.py:129 | `split("_")[0]` is a prefix of the name, contains no `_`, and is followed by `_` when shorter than the name |
| Text.BeforeJoin | rename.py:129 | for `p + "_" + q` with no `_` in `p`, `split("_")[0]` gives back `p` |
| Text.DecimalOf | superimpose.py:164-167 | `str(n)` is a non-empty string of digits, two or more of them exactly when `n >= 10` |
| Text.DecimalOfInjective | superimpose.py:164-167 | distinct pair numbers give distinct decimal strings |
| Rng.SampleSpec | pairs.py:155-156 | `random.sample(pool, k)` draws a sub-multiset of the pool, and the whole pool rearranged when `k == len(pool)` |
| Rng.Sample | pairs.py:155-156 | the sample has exactly `k` elements |
| Rng.Shuffled | init.py:193 | definition of the list `random.shuffle` leaves; its properties are stated by `Rng.ShuffledPermutes`, and `Rng.Shuffle` is proved to compute it |
| Rng.ShuffledPermutes | init.py:193 | `random.shuffle` keeps the length and every element with its multiplicity |
| Rng.Shuffle | init.py:193 | the in-place Fisher–Yates loop leaves the array equal to `Shuffled` of its old contents and advances the draw position by `len - 1` |
| Mooney.KernelSize | mooney.py:215-217 | the kernel size `2 * round(3 * sigma) + 1` is odd, at least 3 for a positive sigma, and within one of `6 * sigma + 1` |
| Mooney.HalfRoundEven | mooney.py:216 | `round(x / 2)` is the nearest integer, and on a tie it is the even one |
| Mooney.Threshold | mooney.py:221 | definition of `THRESH_BINARY` on a whole image; its properties are stated by `Mooney.ThresholdAt` |
| Mooney.ThresholdAt | mooney.py:221 | `THRESH_BINARY` makes a pixel 255 iff it is above the threshold and 0 otherwise, keeping the shape |
| Mooney.MooneyImageAt | mooney.py:215-221 | every Mooney pixel is 0 or 255; with sigma 0 the image is the unblurred image thresholded |
| Mooney.UniformSources | mooney.py:215-221 | with no blur (sigma slider 0) and at threshold 127, an all-black image stays black and an all-white one stays white; the slider's default of 4 is not covered |
| Mooney.Pending | mooney.py:167-169 | definition of the files still to do; its properties are stated by `Mooney.PendingSpec` |
| Mooney.PendingSpec | mooney.py:167-169 | the files to do are strictly sorted and are exactly the listed `.jpg` files whose names are not in the CSV |
| Mooney.Without | mooney.py:291 | definition of the CSV rows with a filename's rows dropped; its properties are stated by `Mooney.WithoutSpec` |
| Mooney.WithoutSpec | mooney.py:291 | dropping the rows of a filename removes exactly that name, keeps only rows that were there, and changes nothing when the name is absent |
| Mooney.UndoDropsOnlyLastRow | mooney.py:287-291 | removing the last saved file's rows leaves the earlier rows exactly |
| Mooney.Clamp | mooney.py:50-51 | a slider value lies within the slider's range and is unchanged when already inside it |
| Mooney.Started | mooney.py:145-179 | definition of the session a new window opens; its properties are stated by `Mooney.StartedState` and `Mooney.StartedInv` |
| Mooney.StartedState | mooney.py:145-179 | resuming keeps the CSV rows and starting over empties them; the files to do are the pending ones, from index 0 with no history; the window closes iff none is pending |
| Mooney.StartedInv | mooney.py:145-179 | a freshly started session satisfies the session invariant |
| Mooney.OpeningInv | mooney.py:167-178 | the opening state satisfies the invariant against the rows it started from |
| Mooney.Loaded | mooney.py:232-239 | definition of `load_image` as a step; its properties are stated by `Mooney.LoadedFrame` and `Mooney.LoadedInv` |
| Mooney.LoadedFrame | mooney.py:232-239 | loading an image resets the sliders to 4 and 127 while files remain, and otherwise finishes; nothing else changes |
| Mooney.LoadedInv | mooney.py:232-239 | loading keeps the invariant |
| Mooney.Saved | mooney.py:241-279 | definition of `save_and_next` as a step; its properties are stated by `Mooney.SavedState`, `Mooney.SavedInv` and `Mooney.SavedAsPreviewed` |
| Mooney.SavedState | mooney.py:241-279 | a save records `(filename, slider/2, threshold)` in the rows, the CSV and the history, writes the Mooney image of the current file, advances the index, and finishes at the end; it does nothing when saving is not possible |
| Mooney.SavedInv | mooney.py:241-279 | saving keeps the invariant |
| Mooney.Undone | mooney.py:281-304 | definition of `undo` as a step; its properties are stated by `Mooney.UndoneState`, `Mooney.UndoneInv` and `Mooney.UndoAfterSave` |
| Mooney.UndoneState | mooney.py:281-304 | undo pops the last entry, returns to its index, drops its rows and its Mooney image, and leaves the sliders at 4 and 127; with no history nothing changes |
| Mooney.UndoneInv | mooney.py:281-304 | undoing keeps the invariant |
| Mooney.CurrentUnrecorded | mooney.py:167-169 | the file being shown is never already in the CSV |
| Mooney.SigmaRoundTrip | mooney.py:245-298 | storing `slider / 2` and restoring `int(sigma * 2)` gives back the slider position |
| Mooney.PopAfterSave | mooney.py:241-299 | popping right after a save restores the session as it was, except that the output image is deleted and `finished`, `closed` and `preview` keep the values the save left |
| Mooney.UndoAfterSave | mooney.py:241-304 | undo right after a save restores rows, CSV, history and index; the output folder is restored when the file was not there before |
| Mooney.Previewed | mooney.py:201-230 | definition of `update_preview` as a step; its properties are stated by `Mooney.SavedAsPreviewed` and `Mooney.SlidersMovedInv` |
| Mooney.SavedAsPreviewed | mooney.py:201-261 | the saved Mooney image is computed from the same file and slider values as the preview |
| Mooney.Finished | mooney.py:306-315 | definition of `finish_processing` as a step; its properties are stated by `Mooney.FinishedIdempotent` |
| Mooney.FinishedIdempotent | mooney.py:306-315 | finishing twice is finishing once; the window closes on the first finish only |
| Mooney.SlidersMovedInv | mooney.py:53-60 | moving a slider re-previews and keeps the invariant |
| Mooney.Reloaded | mooney.py:181-199 | definition of `reload_images` as a step; its properties are stated by `Mooney.ReloadedState` and `Mooney.ReloadedInv` |
| Mooney.ReloadedState | mooney.py:181-199 | reload rereads the CSV rows and rescans; with files pending it restarts at index 0 with no history, otherwise it closes and keeps the position |
| Mooney.ReloadedInv | mooney.py:181-199 | a reload that finds files satisfies the invariant against the reread rows |
| Mooney.MooneyApp.constructor | mooney.py:145-179 | the window's state is `Started` of its inputs |
| Mooney.MooneyApp.Reload | mooney.py:181-199 | the new state is `Reloaded` of the old one |
| Mooney.MooneyApp.Rescan | mooney.py:186-189 | the listing, the rows and the files to do are replaced by a rescan |
| Mooney.MooneyApp.UpdatePreview | mooney.py:201-230 | the preview shows the current file at the current slider values, and nothing when finished or past the end |
| Mooney.MooneyApp.SetSliders | mooney.py:53-60 | the sliders take the new values and the preview follows |
| Mooney.MooneyApp.LoadImage | mooney.py:232-239 | the new state is `Loaded` of the old one |
| Mooney.MooneyApp.FinishProcessing | mooney.py:306-315 | the new state is `Finished` of the old one |
| Mooney.MooneyApp.Save | mooney.py:241-279 | the new state is `Saved` of the old one |
| Mooney.MooneyApp.Undo | mooney.py:281-304 | the new state is `Undone` of the old one |
| Mooney.MooneyApp.Pop | mooney.py:287-299 | the history, index, rows, CSV, output folder and sliders move as the pop of the last entry prescribes |
| Mooney.MooneyApp.Drop | mooney.py:287-296 | the last entry leaves the history, rows, CSV and output folder, and the index returns to it |
| Mooney.MooneyApp.RestoreSliders | mooney.py:298-299 | the sliders take the entry's clamped values |
| Pairing.PoolsOf | pairs.py:111-117 | each pool holds exactly the listed `.jpg` files (any case) with its prefix, in listing order and without duplicates |
| Pairing.PrefixesExclusive | pairs.py:114-117 | no name carries two of the four pool prefixes |
| Pairing.PoolsDisjoint | pairs.py:114-117 | no file is in two pools |
| Pairing.GenerateCheck | pairs.py:106-125 | each outcome holds exactly when its condition does: no folder, no `a_man`/`b_nat`, no `b_man`/`a_nat`, or all present |
| Pairing.ZipColumns | pairs.py:157 | the man and nat columns of `zip` are the two samples |
| Pairing.RandomPairs | pairs.py:153-157 | definition of `_random_pairs`; its properties are stated by `Pairing.RandomPairsSpec` and `Pairing.ZipColumns` |
| Pairing.RandomPairsSpec | pairs.py:153-157 | `min(len)` pairs; each column is duplicate-free and drawn from its list, and is all of it when the lists are the same length; two draws per pair |
| Pairing.Crossings | pairs.py:128-132 | definition of the two crossings drawn after seeding; its properties are stated by `Pairing.CrossingsSpec` |
| Pairing.CrossingsSpec | pairs.py:131-132 | the two crossings have the `min` sizes, draw from the right pools, and never use a man or a nat file twice across both |
| Pairing.Numbered | pairs.py:177 | definition of the `super_number` column; its properties are stated by `Pairing.NumberedSpec` |
| Pairing.NumberedSpec | pairs.py:177 | the saved table lists the first crossing, then the second, numbered consecutively from 1 |
| Pairing.Pairs.GeneratePairs | pairs.py:105-136 | the pools are regrouped, the check decides the outcome, and on success the pairs are the crossings seeded by the spin box, shown and saved with numbers 1..n |
| Pairing.Pairs.RerandomisePairs | pairs.py:138-151 | without a folder nothing changes; otherwise it reseeds below 1000000000 and redraws, shows and saves from the stored pools |
| Pairing.Pairs.Draw | pairs.py:128-132 | the pairs are the crossings drawn after seeding |
| Pairing.Pairs.ShowPairs | pairs.py:159-171 | the list shows `a_man × b_nat` then `b_man × a_nat`, numbered from 1 |
| Pairing.Pairs.SavePairs | pairs.py:173-183 | the CSV holds the same numbered rows as the list |
| Superimpose.GetAlpha | superimpose.py:106-113 | alpha is accepted iff it parsed and lies in [0, 1] |
| Superimpose.AlphaByte | superimpose.py:198 | `int(255 * alpha)` is the floor, between 0 and 255, and 0 and 255 at the ends |
| Superimpose.ForegroundIff | superimpose.py:193 | `intensity / 255 < 0.5` holds exactly for grey levels up to 127 |
| Superimpose.LayerOf | superimpose.py:189-217 | definition of `make_cyan` and `make_magenta` on a whole image; its properties are stated by `Superimpose.LayerPixel`, `Superimpose.TransparentAtZero` and `Superimpose.LayersShareMask`, and `Superimpose.MakeLayer` is proved to compute it |
| Superimpose.LayerPixel | superimpose.py:189-217 | foreground pixels are cyan `(0, 255, 255)` or magenta `(255, 0, 255)` at the alpha byte; background pixels are white and fully transparent |
| Superimpose.TransparentAtZero | superimpose.py:198-200 | with alpha 0 every layer pixel is transparent |
| Superimpose.LayersShareMask | superimpose.py:189-217 | a pixel's cyan and magenta layers are opaque together, and on the foreground they are complementary in red and green |
| Superimpose.MakeLayer | superimpose.py:189-217 | the filled array equals the layer of the image, pixel by pixel |
| Superimpose.NameInjective | superimpose.py:164-182 | two output names are equal only for the same pair number and the same suffix |
| Superimpose.RoutingBalanced | superimpose.py:177-182 | each pair sends its two composites to different folders, and the routing alternates with parity |
| Superimpose.RunFrom | superimpose.py:148-183 | definition of the pair loop of `run_all`; its properties are stated by `Superimpose.RunFromOutcomes`, `Superimpose.RunFromRouting`, `Superimpose.RunFromLayers` and `Superimpose.StopsAtLoadFailure` |
| Superimpose.RunFromOutcomes | superimpose.py:148-183 | the loop either processes every pair or fails at a pair number inside the list |
| Superimpose.RunAllSpec | superimpose.py:137-187 | definition of `run_all`; its properties are stated by `Superimpose.ChecksBeforeWrites`, and `Superimpose.Superimposer.RunAll` is proved to follow it |
| Superimpose.ChecksBeforeWrites | superimpose.py:137-146 | a missing selection, a bad alpha and a missing pairings file are reported in that order, and before any file is written |
| Superimpose.RunFromRouting | superimpose.py:148-182 | after a full run, each pair's two composites are in `CB1` and `CB2` under the parity routing |
| Superimpose.LaterPairsKeep | superimpose.py:148-182 | later pairs never overwrite an earlier pair's composites |
| Superimpose.RunFromLayers | superimpose.py:148-167 | after a full run, each pair's `_A_cyan` and `_B_cyan` files are in the cyan folder and its `_A_magenta` and `_B_magenta` files in the magenta folder, each the layer of the pair's man (A) or nat (B) image in that colour |
| Superimpose.LaterPairsKeepLayers | superimpose.py:148-167 | later pairs, however the run ends, never overwrite an earlier pair's layer files |
| Superimpose.StopsAtLoadFailure | superimpose.py:148-153 | a pair whose images cannot be read stops the run after all earlier pairs have been processed |
| Superimpose.Superimposer.RunAll | superimpose.py:137-187 | the output folders and the outcome are those of the run specification; the stored pairings are replaced by the CSV's only when the checks before reading it pass |
| Superimpose.Superimposer.SaveLayers | superimpose.py:164-167 | the four layers are saved under their names |
| Superimpose.Superimposer.SaveCombos | superimpose.py:169-182 | the two composites are saved in `CB1`/`CB2` by parity |
| Init.CropBox | init.py:117-122 | definition of the centred crop box; its properties are stated by `Init.CropBoxCentred` |
| Init.CropBoxCentred | init.py:117-122 | the crop box is a square with side `min(width, height)`, lies inside the image, touches two opposite edges, and is centred with at most one pixel more slack on the right and bottom |
| Init.Halves | init.py:194-196 | definition of the split at `len // 2`; its properties are stated by `Init.HalvesSplit` and `Init.HalvesOfShuffled` |
| Init.HalvesSplit | init.py:194-196 | the halves concatenate to the shuffled list; half `a` has `len // 2` files, and half `b` the same number or one more |
| Init.Clean | init.py:200-202 | definition of the name with one leading `a_` or `b_` dropped; its properties are stated by `Init.CleanStripsOnce` and `Init.CleaningCollides` |
| Init.CleanStripsOnce | init.py:200-202 | cleaning drops exactly two characters iff the name starts with `a_` or `b_`, and none otherwise; what is left is a suffix |
| Init.CleaningCollides | init.py:200-203 | `cat.jpg`, `a_cat.jpg` and `b_cat.jpg` in one half get the same destination, and `a_b_cat.jpg` keeps its `b_` |
| Init.Dest | init.py:203-215 | definition of a copy's destination name; its properties are stated by `Init.PrefixesArePools` and `Init.DestDecodes` |
| Init.PrefixesArePools | init.py:203-215 | the four destination prefixes are the pairing stage's pool prefixes |
| Init.Copied | init.py:198-208 | definition of one group's copy loop; its properties are stated by `Init.CopiedSpec` |
| Init.CopiedSpec | init.py:199-219 | a group copy keeps existing names and gives every photo its destination; under each destination it stores the crop of the last photo with that cleaned name; names no photo is copied to keep their content; it writes only entries of its kind at the chosen side |
| Init.DestDecodes | init.py:200-203 | two destinations of kinds of one length are equal only for the same half, the same kind and the same cleaned name |
| Init.HalvesOfShuffled | init.py:193-196 | a photo is in the folder iff it is in one of the two shuffled halves |
| Init.FolderCopiedCovers | init.py:192-219 | one folder's copy keeps every existing name; every photo of the first shuffled half gets its `a_` name and every photo of the second half its `b_` name; the halves hold exactly the folder's photos |
| Init.FolderCopiedContents | init.py:192-219 | per half, the last photo of each cleaned name is stored under that half's name as its own crop, and names the folder does not copy to keep their content |
| Init.FolderCopiedEntries | init.py:199-219 | one folder's copy writes only entries of the folder's kind at the chosen side |
| Init.Prepared | init.py:191-220 | definition of the copy phase over all folders; its properties are stated by `Init.PreparedCovers`, `Init.PreparedContents`, `Init.PreparedUntouched` and `Init.PreparedEntries` |
| Init.PreparedCovers | init.py:192-219 | every photo of every folder ends up under its `a_` or `b_` destination, and no name disappears; what each name holds is stated by `Init.PreparedContents` |
| Init.PreparedContents | init.py:191-220 | for folders of distinct kinds, each folder is split by `Halves` after a shuffle at the draw position the earlier folders leave; in each half, the last photo of each cleaned name is stored under that half's name as its own crop |
| Init.PreparedUntouched | init.py:191-220 | names no folder copies to keep their content through the whole copy phase |
| Init.PreparedEntries | init.py:192-219 | every entry the copy phase writes is resized to the chosen side and carries a half prefix of its own kind |
| Init.InitialisedCovers | init.py:192-219 | after a run, every man and every nat photo is in `1_source_images` under its `a_` or `b_` name. The man listing is shuffled first and split by `Halves`: the last photo of each cleaned name in the first half is stored under its `a_man_` name, and in the second half under its `b_man_` name, each as its own crop. The nat listing is shuffled with the draws that follow and stored the same way |
| Init.InitialisedInPools | init.py:192-219 | copying man and nat folders into a folder whose files are all in the pairing pools (the emptied `1_source_images`) leaves every file at the chosen side and in one of the four pools |
| Init.CheckFolders | init.py:165-184 | definition of the folder check; its properties are stated by `Init.ManCheckedFirst` and `Init.FailureSticks` |
| Init.ManCheckedFirst | init.py:165-184 | a missing or empty man folder is reported before the nat folder is looked at; otherwise the two folders go on in order |
| Init.FailureSticks | init.py:165-184 | once a folder fails the check, the later folders do not change the verdict |
| Init.CountFiles | init.py:163-184 | the loop's verdict is the folder check, and when both folders pass the total is the sum of their sizes |
| Init.Initialiser.InitialiseDirectories | init.py:127-239 | cancel and decline change nothing; otherwise the folder is emptied or created; a missing or empty folder stops the run there; a full run copies exactly `Prepared`, ends the progress bar at the number of files and creates the stage folders |
| Init.Initialiser.Populate | init.py:163-236 | the outcome is the folder check; on success the copies, the draw position, the progress and the new folders are as specified |
| Init.Initialiser.ClearSource | init.py:141-160 | an existing folder is emptied only on Yes; a missing one is created |
| Init.Initialiser.CopyFolders | init.py:191-220 | the copy loop produces `Prepared` of the folders and adds the number of files to the progress |
| Init.Initialiser.CopyFolder | init.py:192-220 | one folder is shuffled, split and copied in order, and progress rises by its size |
| Init.Initialiser.CopyGroup | init.py:198-208 | a group's files are copied in order, one progress step each |
| Init.Initialiser.CreateRequired | init.py:223-235 | afterwards all seven stage folders exist |
| Rename.Collect | rename.py:114-131 | definition of one folder's listing loop; its properties are stated by `Rename.CollectSpec` and `Rename.UpperCaseSkipped` |
| Rename.CollectSpec | rename.py:114-131 | a folder contributes one entry per listed file with its extension, named by its kind, and nothing else |
| Rename.UpperCaseSkipped | rename.py:115-128 | the extension test is case-sensitive, so `.JPG` and `.PNG` files are skipped |
| Rename.Applied | rename.py:136-139 | definition of the copy loop's effect on the experiment folder; its properties are stated by `Rename.AppliedSpec` |
| Rename.AppliedSpec | rename.py:136-139 | after the copies the folder has the old names plus every new name; with distinct new names each holds its own file, and untouched names keep their old content |
| Rename.NewName | rename.py:114-130 | definition of a copied file's experiment name; its properties are stated by `Rename.KindsNeverCollide`, `Rename.PrefixedNamesInjective` and `Rename.CompositeName` |
| Rename.KindsNeverCollide | rename.py:114-131 | greyscale, Mooney and composite names never coincide |
| Rename.PrefixedNamesInjective | rename.py:114-121 | distinct greyscale (or Mooney) files get distinct names |
| Rename.CompositeName | rename.py:129-130 | a composite `<n>_…png` becomes `3_super_<cb>_<n>.png` |
| Rename.CompositeNamesInjective | rename.py:129-130 | composites of distinct pair numbers get distinct names in one counterbalance folder |
| Rename.Jobs | rename.py:114-131 | definition of the full copy list, greyscale, Mooney, CB1 then CB2; its properties are stated by `Rename.CollectSpec` per folder, and `Rename.ExperimentBuilder.BuildExperiment` is proved to copy it |
| Rename.ExperimentBuilder.BuildExperiment | rename.py:106-141 | it runs iff all four folders are chosen; otherwise nothing changes; it copies greyscale, Mooney, then CB1, then CB2 entries, and the progress ends at the number of files |
| Rename.ExperimentBuilder.GatherComposites | rename.py:124-131 | CB1 entries come before CB2 entries, and a missing sub-folder contributes nothing |
| Rename.ExperimentBuilder.CopyAll | rename.py:136-139 | the folder ends as the entries copied in order, a later copy overwriting an earlier one of the same name, and the progress bar at the number of entries |
| Rename.Gather | rename.py:114-121 | the listing loop appends exactly the folder's entries, in listing order |

## Left out

- The Qt interface is not modelled: windows, labels, buttons, enabling and disabling, message boxes, and the relative-path labels (`os.path.relpath`). Dialog answers and folder choices are parameters.
- Gaussian blur (`cv2.GaussianBlur`) is a parameter `Blur` of the model. Its numerics are not modelled, only the kernel size and the sigma handed to it.
- PIL and NumPy image handling is not modelled: decoding, greyscale conversion, the `LANCZOS` resize, lossy JPEG saving and `Image.alpha_composite` blending. A composite is recorded as the pair of layers it is made from, and a cropped photo as its crop box and side.
- `float()` parsing of the alpha text is left to the caller, which passes `None` for text that does not parse.
- `str.lower()` is modelled on ASCII letters only, which is enough for the `.jpg` test.
- `random.sample` is modelled by CPython's pool algorithm only, not its set-based branch. The Mersenne Twister is an oracle. `random.seed` sets the oracle's seed and restarts its draw position.
- Reading and writing `threshold_blur.csv` and `pairs.csv` is modelled as sequences of rows. Reading a CSV without the expected columns (`KeyError`) is not modelled.
- The path of `pairs.csv` (`4_super_pairings` next to the chosen folder) is not modelled; the file is a field.
- The three superimposition output folders are separate maps. Choosing the same folder twice (aliasing) is not modelled.
- Init.Initialiser.ClearSource: only the files of `1_source_images` are modelled, so sub-folders that survive the emptying are not.
- Init.Initialiser.InitialiseDirectories: the dialog's size bounds (10 to 2000) are not checked in the model. Listings are taken to hold only photos; a sub-directory in a source folder, which `shutil.copy2` would reject, is not modelled.
- Superimpose.Superimposer.RunAll: requires every input image to be rectangular, as decoded images are. Images of unequal sizes fail the composite (`SizeMismatch`) after the four layers are saved, as `alpha_composite` raises there.
- Mooney.MooneyApp.UpdatePreview: the preview is recorded as the file and slider values it shows, not as pixels, and the 500×500 scaling is not modelled.
- Mooney.KernelSize: the `sigma > 0` test is made on the slider value, which is positive exactly when `slider / 2` is.
- The pairing and initialisation windows share Python's global `random` state when they run in one process. Each window's own oracle seed and draw position do not model that sharing.
- A run that raises anywhere else (an unreadable file, a full disk) is not modelled.
