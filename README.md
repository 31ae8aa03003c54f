# nerf2deltae in Dafny

`nerf2deltae.py` scores a NeRF model's test renders against the ground-truth frames of a Blender-style dataset. It reads the test split from the dataset's `transforms_test.json`, keeping every `testskip`-th frame. It lists the `.png` files the renderer wrote and sorts them by name, checks that the counts agree, and pairs the two lists by position. Each pair may also get a mask image. For each pair it computes the mean CIE Delta-E between the two images in Lab space. If there is a mask, only the pixels it marks as bright are compared. Finally it reports the minimum, maximum and mean over all pairs.

This project models that bookkeeping and proves its properties:

- `Manifest`: Python's slice `[::testskip]` for every integer step, and `load_blender`. The file system is a map from manifest path to the list of `file_path` fields of its frames.
- `Paths`: POSIX `os.path.join`, `str.endswith`, Python's string order, the `.png` filter and `list.sort()`.
- `MaskFilter`: the `rgb2boolean` threshold, vectorised over a raster, and numpy boolean indexing in row-major order.
- `Stats`: sum, min, max and mean over the reals. It also models numpy's not-a-number for the mean of an empty array, and how a not-a-number carries through every reduction.
- `DeltaE`: `compare_pair` on decoded rasters. The per-pixel colour difference is a parameter.
- `Pipeline`: the `ImagePair` record of nerf2deltae.py:49-53, as a datatype with the same three fields, the mask optional; the dataset-type guard, the count checks, `zip` and `class_mapper` from `main`; the scoring loop; and the summary.

Three behaviours of the code that the model keeps as written:

- A mask that selects no pixel does not raise an error. `np.mean` of an empty array yields not-a-number, so `ComparePair` returns `NaN`.
- An empty list of results is not checked for up front. `.min()` on an empty array raises, which `Run` reports as `EmptyReduction`.
- `testskip` is not assumed to be at least 1. Zero is Python's `ValueError` (`ZeroStride`). A negative step walks the manifest from its last frame.

## Model

| member | source | states |
|---|---|---|
| `Paths.Join` | nerf2deltae.py:19 | `os.path.join(base, p)` ends with `p`. An absolute `p` replaces the base; otherwise the result starts with the base |
| `Paths.FilterPng` | nerf2deltae.py:76 | The listing filter keeps each name ending in ".png" exactly as often as it is listed, and keeps nothing else |
| `Paths.FilterPngKeepsOrder` | nerf2deltae.py:76 | `filter` keeps the surviving names in listing order: the result is a subsequence of the listing |
| `Paths.EndsWithSplit` | nerf2deltae.py:76 | A name for which `endswith(suffix)` (`Paths.EndsWith`, and `Paths.IsPng` for ".png") holds is its stem followed by that suffix |
| `Paths.EndsWithConcat` | nerf2deltae.py:88 | Appending a suffix, as `"%s.png" % x` does, always yields a name that `endswith` that suffix |
| `Paths.SortStrings` | nerf2deltae.py:77 | `list.sort()` yields an ascending permutation of its input under Python's code-point string order |
| `Paths.SortedUnique` | nerf2deltae.py:77 | Two ascending permutations of the same names are equal, so the sorted listing does not depend on the sorting algorithm |
| `Paths.LexLeTotal` | nerf2deltae.py:77 | Any two file names are comparable under Python's string order |
| `Paths.LexLeTransitive` | nerf2deltae.py:77 | Python's string order is transitive |
| `Paths.LexLeAntisymmetric` | nerf2deltae.py:77 | Two names each at most the other are equal |
| `Manifest.ManifestPath` | nerf2deltae.py:12 | The manifest path ends with "transforms_test.json" and starts with the dataset directory |
| `Manifest.Stride` | nerf2deltae.py:17 | `frames[::k]` for k >= 1 has ceil(M / k) entries, and entry i is frame i*k |
| `Manifest.Slice` | nerf2deltae.py:17 | Step 0 is an error. Any other step keeps ceil(M / \|step\|) frames: frame i*step for a positive step, frame M-1+i*step for a negative one |
| `Manifest.LoadBlender` | nerf2deltae.py:9-21 | A missing manifest is an error naming `dataset/transforms_test.json`. A present manifest with testskip 0 is `ZeroStride`. Otherwise there are ceil(M / \|testskip\|) entries. Entry i is manifest frame SliceIndex(M, testskip, i), joined onto `imgdir` if given, else onto `dataset`. SliceIndex is i*testskip for a positive step and M-1+i*testskip for a negative one |
| `Manifest.MaskListMatchesGroundTruth` | nerf2deltae.py:68-72 | Loading masks reads the dataset's manifest. It succeeds exactly when loading the ground truth does, yields as many entries, and entry i is the same frame under the mask directory |
| `MaskFilter.Rgb2Boolean` | nerf2deltae.py:23-24 | A pixel is selected iff its channel sum exceeds 255, that is, iff its channel mean exceeds 85 |
| `MaskFilter.ChannelOrderIrrelevant` | nerf2deltae.py:24 | The threshold is the same under any swap of channels, so reading the mask as BGR selects the same pixels |
| `MaskFilter.Rgb2BooleanMonotone` | nerf2deltae.py:24 | Raising any channel never deselects a pixel |
| `MaskFilter.MaskRaster` | nerf2deltae.py:26 | The vectorised rule gives a boolean raster of the image's shape. Each cell is true iff that pixel's channels sum to more than 255 |
| `MaskFilter.TrueIndices` | nerf2deltae.py:42-43 | The selected positions are in strictly ascending order. There is one per true cell, each is true, and every true cell is listed |
| `MaskFilter.Keep` | nerf2deltae.py:42-43 | Boolean indexing keeps one element per selected position, in order |
| `MaskFilter.Select` | nerf2deltae.py:42-43 | `image[mask]` holds one pixel per selected cell, and its k-th pixel is the image's pixel at the k-th selected row-major position, where the mask is true |
| `MaskFilter.MaskedPixelsAligned` | nerf2deltae.py:40-43 | After masking, both rasters hold as many pixels as the mask selects, and the k-th kept pixel of each comes from the same position |
| `MaskFilter.SelectedCell` | nerf2deltae.py:42-43 | In a raster of width w, the k-th kept pixel is the one at row p / w, column p % w, where p is the k-th selected position, and the mask is true there |
| `MaskFilter.FlattenAt` | nerf2deltae.py:42 | Row-major order puts cell (row, col) at position row*w + col |
| `Stats.Min` | nerf2deltae.py:104 | The minimum is one of the values and is at most each of them |
| `Stats.Max` | nerf2deltae.py:105 | The maximum is one of the values and is at least each of them |
| `Stats.MeanBetween` | nerf2deltae.py:106 | The mean of a non-empty list lies between its minimum and maximum |
| `Stats.MeanScore` | nerf2deltae.py:47 | `np.mean` is not-a-number exactly for no values. Otherwise it is the sum over the count and lies between the minimum and maximum |
| `Stats.Summarize` | nerf2deltae.py:98-106 | One not-a-number makes min, max and mean all not-a-number. Otherwise min and max are values of the list that bound all of it, and min <= mean <= max |
| `DeltaE.ComparedDistances` | nerf2deltae.py:36-45 | Without a mask there is one difference per pixel in row-major order. With one, there is one per selected pixel, between the rendered and ground-truth pixels at the same position |
| `DeltaE.ComparePair` | nerf2deltae.py:28-47 | Shapes numpy cannot line up are an error. Otherwise the score is not-a-number exactly when no pixel is compared (with a mask, when it selects none); otherwise it is the mean per-pixel difference, between their min and max |
| `Pipeline.Zip` | nerf2deltae.py:85 | `zip` of two or three lists is as long as the shortest list, and tuple i holds element i of each list |
| `Pipeline.ClassMapper` | nerf2deltae.py:87-88 | Building an `ImagePair`: the rendered path ends with the rendered name, the ground truth and the mask are their identifiers followed by ".png", and the pair has a mask exactly when the tuple has three parts. `Pipeline.Align` states the resulting pairs position by position |
| `Pipeline.Align` | nerf2deltae.py:79-90 | The rendered-versus-frames count check comes first, then the mask count check, each error carrying both counts. On success there are n pairs, and pair i is (join(testset, name i), frame i + ".png", mask i + ".png" or none) |
| `Pipeline.TestsetImages` | nerf2deltae.py:76-77 | The rendered list is sorted ascending and holds exactly the listed ".png" names |
| `Pipeline.AlignedPairs` | nerf2deltae.py:65-90 | The errors come in order: an unsupported dataset type, a missing manifest, a zero step, then a count mismatch between the ".png" count and ceil(M / \|testskip\|). The pairing succeeds exactly when none of these applies |
| `Pipeline.MaskCheckNeverFires` | nerf2deltae.py:82-83 | The mask-count error can never be raised |
| `Pipeline.PairsFollowManifest` | nerf2deltae.py:68-90 | On success, pair i takes sorted rendered name i plus the ground truth of manifest frame SliceIndex(M, testskip, i), which is i*testskip for a positive step and M-1+i*testskip for a negative one, and that frame's mask under the mask directory if masks are enabled, else none |
| `Pipeline.SixteenFramesTwoImages` | nerf2deltae.py:17-19 | 16 frames at stride 8 with two ".png" files give two pairs: frames 0 and 8, with the rendered names in ascending order |
| `Pipeline.SixteenFramesThreeImages` | nerf2deltae.py:79-80 | 16 frames at stride 8 with three ".png" files fail with a count mismatch of 3 against 2 |
| `Pipeline.CompareImagePair` | nerf2deltae.py:28-43 | Scoring one `ImagePair` decodes its files and succeeds exactly when the decoded rasters' shapes agree. If it fails, the error is `ShapeMismatch`. With a mask, the score is not-a-number exactly when the decoded mask selects no pixel |
| `Pipeline.ScorePairs` | nerf2deltae.py:92-95 | The loop appends one score per pair, in pair order, and stops at the first pair that cannot be scored, returning that pair's error |
| `Pipeline.Run` | nerf2deltae.py:65-106 | An alignment error ends the run with no scores. Otherwise the scores match the pairs position by position. A failing pair ends the run with its error, no pairs give `EmptyReduction`, and otherwise the result is the summary of all the scores |

## Left out

- Command-line parsing (`argparse`) is replaced by the `Args` record. The default `testskip` of 8 and the `choices=['blender']` restriction are not modelled; an unsupported type is modelled as the guarded error.
- File-system access (`os.path.exists`, `open`, `json.load`, `os.listdir`) is replaced by inputs. The manifests are a map from path to frame paths, and the listing is a sequence of names. A malformed manifest (bad JSON, a missing `frames` or `file_path` key) is not modelled.
- Image decoding (`cv2.imread`), the RGB-to-Lab conversion (`cv2.cvtColor`) and `colour.delta_E` are replaced by the parameters `lab`, `rgb` and `deltaE`. A missing or unreadable image file is not modelled.
- `MaskFilter.Rgb2Boolean` computes a/3 + b/3 + c/3 > 255/3 over the reals. Float rounding, which can matter only when the channel sum is exactly 255, is not modelled.
- `Stats.Summarize` and `Stats.MeanScore` compute over exact reals rather than float64, and ignore numpy's pairwise summation. Per-pixel infinities or not-a-numbers returned by `deltaE` are not modelled. The bound minimum <= mean <= maximum proved by `Stats.MeanBetween` and `Stats.Summarize` holds for exact reals only: under float64 rounding the computed average (before `%f` rounds it for printing) can fall just outside it (three scores of 0.1 average to 0.10000000000000002).
- `DeltaE.ComparePair` treats any pair of shapes other than exact matches as `ShapeMismatch`. numpy's broadcasting of compatible shapes is not modelled.
- `Paths.SortStrings` models only the result of `list.sort()`, through a functional insertion sort. The in-place Timsort is not modelled; `Paths.SortedUnique` shows that only the result matters.
- The standard deviation (`np.std`) is not modelled: square roots are outside the model.
- Console output (`print`) is not modelled.
