# Image rater ranking engine, in Dafny

This project models the ranking engine of the image rater. The rater is a
small desktop program. It shows two images of a folder side by side, and the
user picks the better one or rejects one of them. Each image carries an
Elo-style rating. When the comparisons run out, the images are sorted by
rating and copied into five category folders, `rated_5` (best fifth) down to
`rated_1`.

The model is the class `ImageRater` with the window code removed. Its state
is the live image list, the ratings, the recorded comparisons, the pending
pair, the decision counter and `num_images`. The pure parts are separate
modules:

- `basics.dfy`: identifiers, pairs, `Option`, sides, and the re-pairing that
  keeps the survivor of a rejection on its side.
- `elo.dfy`: the rating update (K = 32). It uses an abstract expected-score
  function `e` with `0 < e(d) < 1`.
- `pairs.dfy`: the duplicate test, the ordered partner scan, the count of
  n·(n−1)/2 pairs, and the completion guard as written and corrected.
- `collection.dfy`: exclusion of images found in the rejected folder, and
  `list.remove`.
- `categories.dfy`: the stable descending sort, the percentile-to-category
  rule in exact integer arithmetic, and the placing loop of
  `copy_best_images`.
- `progress.dfy`: the saved record and the ratings merge of `load_progress`.
- `image_rater.dfy`: the class `ImageRater` and a save-then-resume client.

Randomness, the Tk event loop, the file system and JSON are outside the
model:

- The random retry of `get_next_comparison` is a nondeterministic choice.
- The listing of the rejected folder is a parameter.
- The expected-score formula is a parameter.
- The saved record is a value.

Two properties one might expect do not hold in the code, and the model
follows the code:

- One might expect ratings only for live images. The code keeps every loaded
  rating and does not drop ratings of images excluded from outside. So the
  invariant `Valid()` only says that every live image is rated.
- One might expect a restored session to be checked. `load_progress` does
  not check it, and a loaded record may repeat a pair. So the absence of
  duplicate pairs is not part of `Valid()`. Every operation except loading a
  saved record (`LoadProgress` and the constructor given a record) preserves
  it (`old(NoDuplicatePairs(comparisons)) ==> NoDuplicatePairs(comparisons)`)
  and never records a pair twice.
- The completion guard is the one place where the model departs from the
  code; see "## Findings".

## Model

| member | source | states |
|---|---|---|
| `Elo.Updated` | src/image_rater.py:126-137 | Only the entries of `image1` and `image2` change, and no key is added or lost. For two distinct images, the winner's rating strictly rises and the loser's strictly falls. `image2` is the winner whenever `winner` is not `image1`. |
| `Elo.UpdateAmounts` | src/image_rater.py:127-137 | Both expectations come from the pre-update ratings. The winner gains exactly K·(1 − e(rl − rw)), which lies strictly between 0 and 32. The loser changes by exactly −K·e(rw − rl), which lies strictly between −32 and 0. |
| `Elo.ZeroSum` | src/image_rater.py:130-137 | If the expectation is symmetric (e(d) + e(−d) = 1, as the logistic formula is in exact arithmetic), the sum of the two ratings is unchanged. |
| `Elo.EvenMatch` | src/image_rater.py:126-137 | Two images at 1500 end at 1516 for the winner and 1484 for the loser. |
| `Basics.RePaired` | src/image_rater.py:113 | After a rejection on `side`, the survivor keeps its own side and the new partner takes the rejected image's side. |
| `Pairs.AppendFreshPair` | src/image_rater.py:43-44 | Recording a pair of distinct images not yet compared in either order keeps the list free of self-pairs and of unordered duplicates. |
| `Pairs.FirstPartnerIndex` | src/image_rater.py:120-124 | The scan returns the first position in list order whose image is not the anchor and has not been compared with it in either order. It returns None exactly when no image qualifies. |
| `Pairs.AllPairsCount` | src/image_rater.py:31 | A set of n images has exactly n·(n−1)/2 unordered pairs, which is the total the guard uses. |
| `Pairs.GuardAgreesWithoutRejections` | src/image_rater.py:25-31 | Suppose all recorded pairs are between live images, none is duplicated, and `num_images` equals the number of live images. Then the source's count-based guard holds exactly when some pair of live images is still unrecorded. |
| `Pairs.SourceGuardStopsEarly` | src/image_rater.py:25-31 | A concrete state reached through a rejection where the guard as written ends the round although a pair of live images was never shown. |
| `Pairs.SourceGuardSpinsForever` | src/image_rater.py:24-45 | A concrete state after an outside rejection where the guard as written asks for a new pair although every pair of live images is recorded, so the retry loop never ends. |
| `Collection.ExcludeRejected` | src/image_rater.py:24 | The new list holds exactly the old list's images that are not in the rejected folder. It is no longer, and it has no repeats if the old list had none. |
| `Collection.ExcludeNothing` | src/image_rater.py:24 | If nothing in the list is in the rejected folder, the list is unchanged. |
| `Collection.IndexOf` | src/image_rater.py:100 | `list.remove` deletes the first occurrence: the position holds the image and no earlier position does. |
| `Collection.RemoveFirstDistinct` | src/image_rater.py:100 | On a list without repeats, removal drops exactly the rejected image. The list becomes one shorter and still has no repeats. |
| `Categories.SortIsSorted` | src/image_rater.py:150 | `SortByRatingDesc` orders ratings from highest to lowest and is a permutation of the dictionary's entries (same multiset). |
| `Categories.SortIsStable` | src/image_rater.py:150 | The sort is stable: for every rating value, the entries with that rating appear in the same order as in the dictionary. |
| `Categories.Category` | src/image_rater.py:158-169 | Every position gets a category from 1 to 5. |
| `Categories.CategoryShare` | src/image_rater.py:159-169 | Position i of n has category at least k exactly when 5·i < (6 − k)·n. Equivalently, i lies within the first ⌈(6 − k)·n / 5⌉ positions: category 5 is the top fifth, 5 or 4 the top two fifths, and so on. |
| `Categories.CategoryNonIncreasing` | src/image_rater.py:158-169 | Categories never increase down the sorted order. |
| `Categories.TopIsFive` | src/image_rater.py:159-161 | The top-rated image is in category 5, and so is a lone image. |
| `Categories.TenImages` | src/image_rater.py:158-169 | With ten images, position i gets category 5 − i div 2, so each category holds exactly two images. |
| `Categories.CopyBestImages` | src/image_rater.py:149-169 | The loop gives the j-th image of the sorted list the category of position j among all images, once per entry. The categories it produces are non-increasing and lie in 1..5, and the first is 5. |
| `Categories.HigherRatedNotLower` | src/image_rater.py:150-169 | An image rated strictly higher than another never gets a lower category. |
| `Progress.MergeRatings` | src/image_rater.py:204-209 | After the loop, every saved rating is kept and every live image without one is added at 1500. No other key is added, and every live image has a rating. |
| `Progress.MergeIsUnique` | src/image_rater.py:204-209 | The merge result is determined by the saved ratings and the live images. |
| `Progress.MergeOfCompleteIsIdentity` | src/image_rater.py:204-209 | Saved ratings that already cover every live image are restored unchanged. |
| `Rater.ImageRater.constructor` | src/image_rater.py:10-20 | Every listed image starts at 1500, and `num_images` is the number of listed images. Nothing is compared or pending and the counter is 0, unless a saved record is loaded on top. |
| `Rater.ImageRater.LoadProgress` | src/image_rater.py:194-209 | Comparisons and the pending pair come from the record. The counter is the saved number, or 0 when the record has none. Ratings are the merge, and the live list and `num_images` are unchanged. |
| `Rater.ImageRater.GetNextComparison` | src/image_rater.py:39-45 | Returns two distinct live images not compared in either order and appends exactly that pair. Nothing else changes. |
| `Rater.ImageRater.GetNextImage` | src/image_rater.py:119-124 | Returns the first live image in list order that is not `currentImage` and has not met it, and appends `(currentImage, image)`. Returns None, with comparisons unchanged, exactly when there is none. |
| `Rater.ImageRater.UpdateRatings` | src/image_rater.py:126-137 | The new ratings are `Elo.Updated` of the old ones, computed by the two in-place `+=` steps. |
| `Rater.ImageRater.RecordDecision` | src/image_rater.py:82-93 | If a pair is pending and both images are rated, the image on `side` wins, the counter rises by exactly 1 and nothing is pending. If no pair is pending, nothing changes. If a pending image has no rating, the lookup fails and nothing changes. |
| `Rater.ImageRater.CompareImages` | src/image_rater.py:22-37 | Drops images found in the rejected folder and ends the round when fewer than two remain. Otherwise, if nothing is pending, it shows a fresh pair of live images, or ends when none is left (corrected guard, see Findings). Ratings, counter and `num_images` are unchanged. |
| `Rater.ImageRater.Choose` | src/image_rater.py:82-94 | `choose_left`/`choose_right`. The counter goes up by exactly 1 and ratings follow the update rule, then the next fresh pair is scheduled or the round ends. It is a no-op without a pending pair, and leaves the state unchanged when a rating lookup fails. |
| `Rater.ImageRater.RejectImage` | src/image_rater.py:96-117 | Removes exactly the rejected image from the live list and the ratings, and lowers `num_images` by 1. The counter stays. The survivor is re-paired with its first unmet live image and keeps its side; if there is none, nothing is pending and the next pair is scheduled. It is a no-op without a pending pair, and leaves the state unchanged when the rejected image is not live. |
| `Rater.ImageRater.RemoveImage` | src/image_rater.py:100-102 | The rejected image leaves the live list (first occurrence) and the ratings, `num_images` drops by exactly 1, and the live images stay distinct and rated. |
| `Rater.ImageRater.PairSurvivor` | src/image_rater.py:107-117 | If the survivor has an unmet live image, the first one in list order joins it on the rejected image's side, and exactly that pair is recorded. Otherwise nothing is pending and `compare_images` runs: a fresh pair is shown, or the round ends when no pair of live images is unrecorded. |
| `Rater.ResumeFromSnapshot` | src/image_rater.py:183-209 | Saving, then starting a new session on the same images from the saved record, gives back the same ratings, comparisons, counter and pending pair. |

## Left out

- Window and event loop (`run`, `show_images` drawing, `update_progress_label`, `save_and_quit`, the `destroy` in `end_comparison`): toolkit code. The ending of a round is the `ended` result. The caller then saves (`Snapshot`) and exports (`CopyBestImages`).
- Image loading and thumbnailing in `show_images`: foreign library code and pixel layout. Its error path, which clears the pending pair and calls `compare_images` again, is not modelled; every shown pair is taken to display.
- File moves, folder creation, file copies and the per-file existence check in `copy_best_images`: file-system effects. `CopyBestImages` returns the category of every image instead of copying.
- The extension filter in `__init__` (`.png`, `.jpg`, `.jpeg`, `.gif`, ignoring case): the constructor receives the already-filtered listing. Case folding is not modelled.
- JSON reading and writing: the record is a value. A record missing `ratings` or `comparisons` raises in the source and has no counterpart in the model. Reloaded pairs come back from JSON as lists and no longer match the tuples the duplicate test looks for. The model treats pairs abstractly and does not reproduce this.
- The floating-point expected score `1 / (1 + 10 ** (d / 400))` and float ratings: the score is a parameter with 0 < e(d) < 1, and ratings are exact reals.
- Bucketing compares the percentile in exact integer arithmetic (`i * 100 < 20 * n`) where the source computes the float `i / n * 100`; floating-point rounding of a percentile next to a boundary is not modelled.
- Dictionary order: Dafny maps are unordered. `CopyBestImages` takes the entries in their dictionary order from the caller, and ties in rating keep that order.
- `random.choice` and the unbounded retry: a nondeterministic choice under the precondition that a fresh pair exists.
- `self.total_comparisons` in `reject_image`: stored at line 103 and never read; the progress label computes its own total from the live list.
- `if new_image:` treats an empty file name as "none found". The model returns an `Option`, because no image file has an empty name.
- The folder dialog at module level: user interaction.
- Collection.ExcludeRejected: states which images remain but not that their relative order is kept (the comprehension keeps it).

## Findings

| source | as written | input that shows it | evidently intended | confidence | as-written member | corrected member |
|---|---|---|---|---|---|---|
| src/image_rater.py:31 | The round continues while `len(comparisons) < num_images*(num_images-1)//2`. `comparisons` still holds the pairs of rejected images, so after a rejection the count reaches the total too soon. | Images a, b, c, d. Decide a/b, then reject c from a/c. The re-pairing shows a/d, which is decided. Now three pairs are recorded and `num_images` is 3, so the round ends, but b/d was never shown. | End the round when every pair of live images has been compared. | not executed; medium | `Pairs.SourceGuardStopsEarly` | `Rater.ImageRater.CompareImages` (guard `Pairs.HasUnrecordedPair`, equal to the source's guard without rejections by `Pairs.GuardAgreesWithoutRejections`) |
| src/image_rater.py:24-45 | An image moved into the rejected folder from outside the program leaves `image_files` (line 24), but `num_images` is not lowered. The guard can then ask `get_next_comparison` for a pair when none exists, and its `while True` loop never returns. | Images a, b, c, with c moved into `rejected/` while the session runs (after the folder is listed), before the first pair. Decide a/b. One of three pairs is recorded, and no unrecorded pair of a, b exists. | End the round instead of retrying forever. | not executed; high | `Pairs.SourceGuardSpinsForever` | `Rater.ImageRater.CompareImages` (shows a pair only when `Pairs.HasUnrecordedPair` holds, which is the precondition of `GetNextComparison`) |
