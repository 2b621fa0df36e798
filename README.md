# image_deduplio duplicate scan, modelled in Dafny

This project models the duplicate-detection core of `image_deduplio`. That core is
`DeduplioApp.find_duplicate` together with the two decision rules it calls,
`is_image_duplicate` and `is_image_cropped`.

`find_duplicate(path)` does four things:

- It lists the directory and keeps every path `path + name` that contains `.jpg` anywhere.
- It forms all pairs of those candidates with `itertools.combinations`.
- It walks that pair list with a `for` loop. Each pair is reported as a duplicate
  (perceptual-hash difference below 5) or, failing that, as a crop (shapes differ
  and the template-match score is at least 0.75).
- After each duplicate `(img_1, img_2)` it runs a second `for` loop over the same
  list, removing every pair it visits that contains `img_1`.

Both loops iterate a list that the inner loop shrinks. Python's list iterator
keeps an index and moves it forward by one per step. So after each `remove`, the
element that slides into the visited slot is skipped. Also, pairs that slide
behind the outer loop's index are never evaluated.

The model reproduces this exactly:

- `Elimination.RemovalPass` is the inner loop, with its index and `list.remove`.
- `Elimination.Sweep` is the declarative account of what that loop leaves.
- `Scanner.FindDuplicate` is the outer loop, with its index over the live list.
- `Scanner.ScanLoop` is the function that specifies the outer loop.

The image libraries are parameters (`Scanner.Oracles`):

- the hash difference, or None when PIL raises;
- the grayscale shape from `cv.imread`, or None when the file cannot be read;
- the outcome of `cv.matchTemplate`: a score, or an exception.

An exception raised outside the `try` of `is_image_cropped`, or anywhere in
`is_image_duplicate`, escapes `find_duplicate`. The model returns it as `Failure(ScanError)`.

Behaviour of the code that is easy to misread:

- The hash threshold is 5 (the default `hamming_distance`).
- The crop threshold is 0.75.
- Elimination is keyed on `img_1` only; pairs containing only `img_2` are never removed.
- Elimination does not remove every such pair: `Elimination.SweepSkipsSuccessor`
  and `Scanner.SkippedPairNeverEvaluated` show the skipped pairs.
- Three mutually identical images yield two duplicate pairs, not three
  (`Scanner.ThreeDuplicatesReportTwoPairs`).
- Evaluating a pair that contains an unreadable image aborts the whole scan.
  An image whose pairs are all removed or skipped first is never opened
  (`Scanner.UnreadableImageNeverOpened`).
- In the crop test `img_1` is always the image and `img_2` the template,
  whichever is larger.

## Model

| member | source | states |
|---|---|---|
| `Rules.IsImageDuplicate` | image_deduplio/deduplio.py:130-134 | the rule is truthy iff the hash difference is strictly below `hamming_distance`; it never returns False, only True or None |
| `Rules.IsImageCropped` | image_deduplio/deduplio.py:137-147 | equal shapes give False; otherwise True iff the score is at least 0.75, None for a lower score, False when matching raised |
| `Listing.Joined` | image_deduplio/deduplio.py:153 | one path per listed name, in listing order, each the directory string followed by that name |
| `Listing.HasSubstringIff` | image_deduplio/deduplio.py:154 | the search used for `'.jpg' in x` succeeds iff the marker occurs at some offset of the path |
| `Listing.Candidates` | image_deduplio/deduplio.py:153-154 | a path is a candidate iff it is the directory string followed by a listed name and contains `.jpg` |
| `Listing.CandidatesInListingOrder` | image_deduplio/deduplio.py:153-154 | candidates are a subsequence of the joined listing, so they keep listing order |
| `Listing.CandidatesDistinct` | image_deduplio/deduplio.py:153-154 | distinct listed names give distinct candidate paths |
| `Listing.IndexPairsFrom` | image_deduplio/deduplio.py:155 | every enumerated index pair (i, j) has i < j below the candidate count |
| `Listing.IndexPairsFromComplete` | image_deduplio/deduplio.py:155 | every (a, b) with a < b is enumerated |
| `Listing.IndexPairsFromSorted` | image_deduplio/deduplio.py:155 | the enumeration is strictly increasing in lexicographic order, which is the `itertools.combinations` order |
| `Listing.IndexPairsFromCount` | image_deduplio/deduplio.py:155 | there are (n-i)(n-i-1)/2 index pairs from row i on |
| `Listing.Combinations` | image_deduplio/deduplio.py:155 | the pairs are exactly the (f[a], f[b]) with a < b; the k-th pair is the k-th index pair of the enumeration applied to the candidates, so the pairs come in `itertools.combinations` order; with fewer than two candidates there are none |
| `Listing.CombinationsCount` | image_deduplio/deduplio.py:155 | n candidates give n(n-1)/2 pairs |
| `Listing.CombinationsDistinct` | image_deduplio/deduplio.py:155 | distinct candidates give distinct pairs, none pairing a path with itself |
| `Listing.CombinationsOfThree` | image_deduplio/deduplio.py:155 | the concrete combination order for three candidates |
| `Listing.CombinationsOfFour` | image_deduplio/deduplio.py:155 | the concrete combination order for four candidates |
| `Listing.CombinationsOfFive` | image_deduplio/deduplio.py:155 | the concrete combination order for five candidates |
| `Elimination.Mentions` | image_deduplio/deduplio.py:162 | `img_1 in pair` holds iff `img_1` is one of the tuple's two elements |
| `Elimination.IndexOf` | image_deduplio/deduplio.py:163 | the position `list.remove` deletes holds the value and no earlier position does |
| `Elimination.IndexOfAt` | image_deduplio/deduplio.py:163 | when a position holds the value and no earlier one does, `list.remove` finds that position |
| `Elimination.RemoveFirst` | image_deduplio/deduplio.py:163 | `list.remove` deletes exactly the first occurrence |
| `Elimination.RemoveFirstAt` | image_deduplio/deduplio.py:161-163 | in a list without repetitions, removing the pair just visited deletes the visited position |
| `Elimination.Sweep` | image_deduplio/deduplio.py:161-163 | the removal pass never lengthens the list and never adds a pair |
| `Elimination.SweepIsSubsequence` | image_deduplio/deduplio.py:161-163 | what the pass leaves is a subsequence of the list it started from |
| `Elimination.SweepDistinct` | image_deduplio/deduplio.py:161-163 | the pass keeps the list free of repetitions |
| `Elimination.SweepKeepsOthers` | image_deduplio/deduplio.py:161-163 | pairs not containing `img_1` all survive, in their relative order, so every removed pair contains `img_1` |
| `Elimination.SweepShrinksIff` | image_deduplio/deduplio.py:161-163 | the list strictly shrinks iff some pair contains `img_1` |
| `Elimination.SweepUntouched` | image_deduplio/deduplio.py:161-163 | a pass for an image that no pair contains leaves the list unchanged |
| `Elimination.SweepPast` | image_deduplio/deduplio.py:161-162 | one step over a pair without `img_1` keeps that pair and goes on with the rest |
| `Elimination.SweepDropsHead` | image_deduplio/deduplio.py:161-163 | one step over a pair with `img_1` deletes it and keeps the next pair without looking at it |
| `Elimination.SweepSkipsSuccessor` | image_deduplio/deduplio.py:161-163 | with (a,b),(a,c),(a,d),(b,c) and `img_1` = a, the pass leaves (a,c),(b,c): (a,c) is skipped, not removed |
| `Elimination.SweepKept` | image_deduplio/deduplio.py:161-162 | one iterator step over a pair without `img_1` moves the visited prefix forward by that pair |
| `Elimination.SweepDeleted` | image_deduplio/deduplio.py:161-163 | one iterator step that removes a pair leaves the next pair in the visited prefix |
| `Elimination.RemovalPass` | image_deduplio/deduplio.py:161-163 | the index-based loop with `list.remove` leaves exactly `Sweep` of the list |
| `Scanner.Classify` | image_deduplio/deduplio.py:130-147 | Duplicate iff the hash difference is below 5; Cropped iff it is not, both images read, shapes differ and the score is at least 0.75; the two ways an exception escapes |
| `Scanner.ScanLoop` | image_deduplio/deduplio.py:157-166 | on success, the result lists extend the lists so far, and at most one pair is added per live position still ahead of the iterator |
| `Scanner.ScanPairs` | image_deduplio/deduplio.py:157-167 | on success, there are at most as many reported pairs as combinations |
| `Scanner.FindDuplicateSpec` | image_deduplio/deduplio.py:150-167 | on success, n candidates give at most n(n-1)/2 reported pairs |
| `Scanner.ScanLoopOrder` | image_deduplio/deduplio.py:157-166 | loop invariant: both result lists are taken from disjoint, increasing positions of the original pair list, all before the pairs still ahead of the iterator |
| `Scanner.ScanPairsOrder` | image_deduplio/deduplio.py:155-166 | each result list is a subsequence of the combination order; with distinct pairs, no pair appears twice in or across the lists |
| `Scanner.Advance` | image_deduplio/deduplio.py:158-166 | the live list after an evaluation that did not raise is never longer than before |
| `Scanner.AdvanceIsSubsequence` | image_deduplio/deduplio.py:158-166 | the live list after an evaluation is a subsequence of the one before |
| `Scanner.Evaluated` | image_deduplio/deduplio.py:157-166 | the pairs handed to the rules number at most the live positions ahead of the iterator, and the first is the pair at the iterator |
| `Scanner.EvaluatedInOrder` | image_deduplio/deduplio.py:157-166 | the evaluated pairs are a subsequence of the live pairs at or after the iterator |
| `Scanner.EvaluatedAtMostOnce` | image_deduplio/deduplio.py:157-166 | with distinct pairs, the evaluated pairs are a subsequence of the combinations and repeat none: no pair is evaluated twice |
| `Scanner.ScanLoopReportsEvaluated` | image_deduplio/deduplio.py:157-166 | every reported pair was evaluated |
| `Scanner.ScanLoopRaisesAtLast` | image_deduplio/deduplio.py:157-166 | an escaping exception comes from the last pair evaluated |
| `Scanner.DupsIn` | image_deduplio/deduplio.py:158-160 | the pairs of a list that the duplicate rule accepts: a pair is in it exactly when it is in the list and classified as a duplicate |
| `Scanner.CroppedIn` | image_deduplio/deduplio.py:164-166 | the pairs of a list that the crop rule accepts: a pair is in it exactly when it is in the list and classified as a crop |
| `Scanner.CroppedInIsFilter` | image_deduplio/deduplio.py:164-166 | the crop list of a sequence is its order-preserving filter by the crop verdict |
| `Scanner.ScanLoopExact` | image_deduplio/deduplio.py:157-166 | when no exception escapes, the duplicate list gains exactly the evaluated pairs the duplicate rule accepts and the cropped list exactly those the crop rule accepts, in evaluation order |
| `Scanner.ScanPairsExact` | image_deduplio/deduplio.py:157-167 | a scan that returns reports exactly the evaluated duplicates and exactly the evaluated crops, each in evaluation order |
| `Scanner.ScanLoopSound` | image_deduplio/deduplio.py:158-166 | reported pairs keep their classification through the loop |
| `Scanner.ScanPairsSound` | image_deduplio/deduplio.py:158-166 | a reported duplicate passed the hash rule; a reported crop failed it, was readable, differs in shape and scored at least 0.75 |
| `Scanner.ScanLoopFailure` | image_deduplio/deduplio.py:157-166 | an escaping exception comes from evaluating a pair drawn from the original list |
| `Scanner.ScanPairsFailure` | image_deduplio/deduplio.py:130-166 | an escaping exception is the one raised by evaluating one of the original pairs |
| `Scanner.ScanLoopNoDuplicates` | image_deduplio/deduplio.py:157-166 | with nothing reported as a duplicate yet and no pair that is a duplicate or raises, the loop never removes anything and collects every accepted crop from the iterator on |
| `Scanner.EvaluatedWithoutDuplicates` | image_deduplio/deduplio.py:157-166 | without duplicates or exceptions, the iterator reaches every pair from its position on |
| `Scanner.ScanPairsNoDuplicates` | image_deduplio/deduplio.py:157-166 | without duplicates or exceptions, every pair is evaluated and the cropped list is exactly the accepted crops, in order |
| `Scanner.FindDuplicateTooFew` | image_deduplio/deduplio.py:155-167 | with fewer than two candidates both result lists are empty |
| `Scanner.FindDuplicateReport` | image_deduplio/deduplio.py:150-167 | for a listing of distinct names, the result lists are subsequences of the combinations, share no pair, repeat none, and pair two different candidates |
| `Scanner.ThreeDuplicatesReportTwoPairs` | image_deduplio/deduplio.py:157-163 | three mutually duplicate images report (a,b) and (b,c) only; (a,c) is never evaluated |
| `Scanner.SkippedPairNeverEvaluated` | image_deduplio/deduplio.py:157-166 | after (a,b) is a duplicate among four images, (a,c) is never evaluated, whatever the rules would say about it |
| `Scanner.UnreadableImageNeverOpened` | image_deduplio/deduplio.py:157-166 | among five images, after (z,a) is unrelated and (z,b), (a,b), (b,c) are duplicates, the scan succeeds with those three duplicates even though every pair with the fifth image would raise |
| `Scanner.FindDuplicate` | image_deduplio/deduplio.py:150-167 | the two nested loops over the mutated list compute exactly `FindDuplicateSpec` |

## Left out

- `parser_cli`, `select_folder`, `run` and the `__main__` block are left out: argument parsing, a Tk folder dialog, timing and console output.
- `DeduplioApp.__init__` is left out: it stores settings that only `run` reads. `find_duplicate` uses no field of the object, so it is modelled as a plain method.
- `download_image`, `generate_random_collection`, `generate_fake_duplicates` and `random_crop_images` are left out: network requests, file copying and random sampling.
- `delete_request` is left out: it only prints its argument once per pair and deletes nothing. There is no deletion or review state to model.
- `phash`, `Image.open`, `cv.imread` and `cv.matchTemplate` are not modelled as computations. They are the parameters in `Scanner.Oracles`.
- Floating point is not modelled. The match score is a `real`, so a NaN score cannot occur.
- `os.listdir` is the `names` input, a sequence of distinct names. `tqdm` is not modelled: it passes the live list through unchanged.
- `Rules.IsImageDuplicate`: takes `hamming_distance` as a parameter. `find_duplicate` only ever uses the default, 5 (`Rules.DefaultHammingDistance`).
