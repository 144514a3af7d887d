# PyCAMP colour quantization and text-region extraction, in Dafny

This project models three parts of PyCAMP, a Python pipeline that turns a
scanned page into segments and tells text from graphics.

- **Quantization.** The colour quantizer filter in `camp/filters/quantization.py`:
  - how its constructor picks the colour-space converters;
  - the guards of `process`;
  - the greedy `choose_clusters` heuristic. It picks a variable number of initial
    clusters from the image's colour histogram, nulling processed colours in place.
  - `__create_result_image`, which repaints every pixel with the decoded centroid
    of the cluster that owns its colour, memoised per source colour.
- **Text recognition.** The geometric core of the text recogniser in `camp/filters/textrecognition.py`:
  - the size filter `box_filter`;
  - `clear_letters`, which drops internal letter parts and also deletes them from
    the caller's collection;
  - `merge_segments`, which splits the candidates into connected groups;
  - the greedy chaining `group` of bounding boxes into words and sentences;
  - the horizontal/vertical split of `extract_text_regions`;
  - the partition of the segments by genre in `process`.
- **Utilities.** From `camp/util.py`: the `Vector` class, and the OCR-tolerant
  character substitution of `asfloat`.

The model takes the source's own form:
- The loops that null colours in a list, fill a cache and write pixels are
  methods over arrays. They are proved against recursive specification functions
  (`Seeding`, `FirstOwner`, `Palette.Resolve`).
- The caller's segment collection that `clear_letters` shrinks is the class
  `SegmentStore`.
- Pure computations are functions with lemmas.
- What `extract_text_regions` returns is stated by the predicate `Extracted`
  over a `Passes` record of its intermediate dictionaries and results: each
  call of `group` is a run of the chaining (`GroupedBy`) over the previous
  result keyed by bounds.

External code is passed in as parameters:
- the metric, the colour-space converters and the k-means refinement;
- the string-to-float parse of the runtime;
- the bounds, area and width of a region, which the segment-group container
  computes.

Python exceptions are modelled as `Result` values carrying the exception's name.

Modules:
- `Wrappers`: `Option` and `Result`.
- `Strings`: ASCII `upper`, `lower` and single-character `replace`.
- `Util`: vectors and `asfloat`.
- `Quantization`.
- `TextRecognition`.

## Model

| member | source | states |
|---|---|---|
| Strings.Upper | camp/filters/quantization.py:29 | `str.upper()` keeps the length and upper-cases each ASCII letter, leaving every other character as it is |
| Strings.Lower | camp/filters/quantization.py:39-42 | `str.lower()` keeps the length and lower-cases each ASCII letter, leaving every other character as it is |
| Strings.ReplaceChar | camp/util.py:116-121 | `s.replace(a, b)` for single characters: same length; each position holds `b` where `s` held `a`, else the original character |
| Util.MakeVector | camp/util.py:35-39 | a vector built from items has their number as length and returns item `i` at index `i` |
| Util.Vector.Len | camp/util.py:71-72 | `len(v)` is the number of items |
| Util.Vector.Get | camp/util.py:68-69 | `v[key]` fails exactly outside `-len..len-1`; non-negative keys index from the front, negative ones from the end |
| Util.Vector.Dot | camp/util.py:50-54 | `TypeError` exactly when the dimensions differ, otherwise the sum of the pairwise products |
| Util.Vector.Mul | camp/util.py:56-62 | `v * w` raises `TypeError` for a non-vector operand and is `v.dot(w)` for a vector |
| Util.NewVector | camp/util.py:79-85 | `Vector.new(a, b)` raises `TypeError` exactly on a dimension mismatch; otherwise `a[i] + r[i] == b[i]` for every `i` |
| Util.DotCommutes | camp/util.py:50-54 | the dot product is symmetric, its error case included |
| Util.MulSelfNonNegative | camp/util.py:56-62 | `v * v` succeeds and is never negative |
| Util.NewVectorDot | camp/util.py:79-85 | dotting `Vector.new(a, b)` with `w` gives `b·w - a·w` |
| Util.Substitute | camp/util.py:116-121 | the replace chain maps each character through O→0, l→1, S→5, I→1, `,`→`.` and leaves no such character behind |
| Util.SubstituteFixesClean | camp/util.py:116-121 | a string with none of the five characters is unchanged |
| Util.SubstituteIdempotent | camp/util.py:116-121 | substituting twice is substituting once |
| Util.AsFloat | camp/util.py:108-123 | floats pass through and ints convert; a string is parsed, and if that fails it is parsed again after the substitution; `ValueError` only when both fail |
| Util.AsFloatCleanString | camp/util.py:112-121 | on a string without misread characters `asfloat` succeeds exactly when the first parse does |
| Quantization.NewQuantizer | camp/filters/quantization.py:27-44 | the colour space is upper-cased; `RGB` gets identity converters; any other space succeeds exactly when both `rgb2<space>` and `<space>2rgb` exist, and its encoder and decoder are then exactly those two converters, else `AttributeError`; the metric and the thresholds are kept |
| Quantization.RgbRoundTrip | camp/filters/quantization.py:39-42 | in any spelling of `RGB`, decoding an encoded colour gives it back |
| Quantization.FrequentColors | camp/filters/quantization.py:89 | a colour is kept exactly when it is in the histogram and its share in percent reaches `t1`; no colour appears more often than in the histogram |
| Quantization.InsertByCount | camp/filters/quantization.py:89 | inserting into a count-descending list keeps it count-descending and adds exactly the one entry |
| Quantization.SortByCount | camp/filters/quantization.py:89 | `sorted(key=-count)` is count-descending and a permutation of its input |
| Quantization.SeedOrderProperties | camp/filters/quantization.py:89 | the seeding order is count-descending, holds exactly the frequent colours, and no more copies of any than the histogram |
| Quantization.NearFarMembers | camp/filters/quantization.py:95-102 | the candidates of a pivot are close to it, what is left is not, and both come from the list |
| Quantization.NearFarPartition | camp/filters/quantization.py:95-102 | candidates and left-overs together are a permutation of the scanned colours |
| Quantization.GroupOfPivot | camp/filters/quantization.py:95-100 | with a metric zero on equal colours and `t2 >= 0`, the pivot is its own first candidate |
| Quantization.ChannelSumBounds | camp/filters/quantization.py:107 | a channel sum over `n` colours lies between `n*lo` and `n*hi` |
| Quantization.CentroidWithin | camp/filters/quantization.py:104-107 | each centroid channel lies between the group's least and greatest value of that channel |
| Quantization.CentroidOfUniform | camp/filters/quantization.py:104-107 | a group of equal colours has that colour as its centroid |
| Quantization.Seeding | camp/filters/quantization.py:90-110 | a failure is only `ZeroDivisionError`; seeds number between one and the colour count; each pivot is a listed colour; each group is non-empty and from the list; each centroid is its group's mean |
| Quantization.SeedingSucceeds | camp/filters/quantization.py:98-107 | with a metric zero on equal colours and `t2 >= 0` seeding never divides by zero, and every group starts with its pivot |
| Quantization.SeedingFailsOnNegativeThreshold | camp/filters/quantization.py:98-107 | with a non-negative metric and `t2 < 0` the first group is empty and seeding raises `ZeroDivisionError` |
| Quantization.SeedingStep | camp/filters/quantization.py:90-110 | the first seed is the first colour with its candidates, followed by the seeding of the colours left unprocessed |
| Quantization.SeedingExactlyOnce | camp/filters/quantization.py:90-108 | every frequent colour is put in exactly one group (the groups' multiset union is the input) |
| Quantization.PivotsPrepend | camp/filters/quantization.py:89-110 | a seed whose pivot counts at least as much as all later ones keeps the pivots count-descending |
| Quantization.SeedingPivotsNonIncreasing | camp/filters/quantization.py:89-110 | pivots are taken most frequent first |
| Quantization.SeedClustersSound | camp/filters/quantization.py:73-111 | with a metric zero on equal colours, `t2 >= 0` and a range of non-zero extent, seeding succeeds; the groups partition the frequent colours; there is at least one seed when some colour is frequent and at most one per frequent colour; pivots come most frequent first |
| Quantization.ComputeCentroid | camp/filters/quantization.py:104-107 | the centroid loop computes each channel's mean over the candidates |
| Quantization.GatherCandidates | camp/filters/quantization.py:93-102 | the scan around slot `i` collects, in list order, the unprocessed colours close to the pivot, and nulls them all but the pivot |
| Quantization.NullOutFar | camp/filters/quantization.py:101-102 | nulling the close colours leaves exactly the far ones, in order |
| Quantization.ScanRound | camp/filters/quantization.py:90-108 | after a round the slots up to `i` are processed, and the unprocessed colours after `i` are those far from the pivot |
| Quantization.SeedRound | camp/filters/quantization.py:90-110 | one outer round emits the seed `Seeding` puts first, or fails as it does when the group is empty |
| Quantization.SeedLoop | camp/filters/quantization.py:90-111 | the in-place loops over the colour list compute exactly `Seeding` of the ordered colours |
| Quantization.ChooseClusters | camp/filters/quantization.py:73-111 | `choose_clusters`: `ValueError` for a colour space without a range; no seeds without frequent colours; `ZeroDivisionError` for a zero-extent range; otherwise the seeding |
| Quantization.FirstOwner | camp/filters/quantization.py:63-66 | the first cluster in list order whose samples hold the colour, or none exactly when no cluster holds it |
| Quantization.FindOwner | camp/filters/quantization.py:63-66 | the loop over the clusters finds `FirstOwner` |
| Quantization.CacheExtend | camp/filters/quantization.py:62-67 | recording a resolved colour, or for an unowned colour the last resolved value, keeps the cache sound |
| Quantization.LookupColor | camp/filters/quantization.py:61-70 | the lookup fails exactly when the colour is uncached and unowned and `val` is unset; a hit changes nothing; a miss records the colour with the new `val`, which the first owner resolves or which carries over |
| Quantization.MemoAdvance | camp/filters/quantization.py:59-70 | one lookup carries the cache invariant on to the next pixel |
| Quantization.LocatedAdvance | camp/filters/quantization.py:61-67 | every cached colour is the colour of a pixel already visited |
| Quantization.VisitPixel | camp/filters/quantization.py:61-70 | the lookup of pixel `(x, y)` fails only at the very first pixel when that pixel is unowned; the cache only gains entries |
| Quantization.PaintAt | camp/filters/quantization.py:68-70 | the pixel is written with the cached value of its source colour, so painting extends to the next pixel |
| Quantization.PaintPixel | camp/filters/quantization.py:60-70 | one pass of the pixel loop keeps the cache invariant and the painted prefix |
| Quantization.RemapRow | camp/filters/quantization.py:59-70 | one row keeps the cache invariant and paints the whole row; it fails only at row 0 with an unowned first pixel |
| Quantization.Image.Create | camp/filters/quantization.py:55 | a fresh image of the given mode and size |
| Quantization.CreateResultImage | camp/filters/quantization.py:50-71 | `UnboundLocalError` exactly when the first pixel's colour has no owner. Otherwise: a fresh image of the same mode and size; owned colours get their first owner's decoded centroid; equal source colours get equal results; the cache holds only colours of the image; the clusters are scanned once per distinct colour |
| Quantization.CheckInput | camp/filters/quantization.py:115-118 | `TypeError` for a non-image; `ValueError` when the upper-cased mode is not `RGB`; otherwise the image |
| Quantization.AnyCaseRgbAccepted | camp/filters/quantization.py:117-118 | every spelling of `rgb` passes the mode guard |
| Quantization.Samples | camp/filters/quantization.py:46-48 | the samples are the histogram's colours in order |
| Quantization.Quantize | camp/filters/quantization.py:124-133 | a seeding error propagates; otherwise the result fails, with `UnboundLocalError`, exactly when the first pixel has no owner among the k-means clusters; a success is a fresh image of the same mode and size in which every owned colour is repainted with its first owner's decoded centroid and equal source colours stay equal |
| Quantization.Process | camp/filters/quantization.py:114-133 | a failed guard is returned as is; once the guards pass, a seeding error propagates and otherwise the call fails, with `UnboundLocalError`, exactly when the first pixel is unowned; a success means the input was an RGB image and the result is a fresh image of its size, repainted through the k-means clusters of the seeds as in `quantize`, equal source colours staying equal |
| TextRecognition.KeyedBy | camp/filters/textrecognition.py:115-116 | a dictionary built from a set holds every item's key, and each key maps to an item with that key |
| TextRecognition.KeyedByList | camp/filters/textrecognition.py:174 | a dictionary built from a list holds every item's key, and each key maps to the last item with that key |
| TextRecognition.BoxFilter | camp/filters/textrecognition.py:79-88 | exactly the segments no wider than `max_width` and no taller than `max_height` are kept |
| TextRecognition.Indices | camp/filters/textrecognition.py:95 | the index set holds exactly the segments' indices |
| TextRecognition.FindOutsideNeighbour | camp/filters/textrecognition.py:98-101 | the neighbour loop answers whether some neighbour index is outside the candidates |
| TextRecognition.ClearLetters | camp/filters/textrecognition.py:90-108 | a candidate is kept exactly when one of its neighbours is not a candidate; the others are removed from the caller's collection and counted |
| TextRecognition.OutsideDone | camp/filters/textrecognition.py:123-130 | with symmetric neighbourhood, a segment outside a closed set has no neighbour inside it |
| TextRecognition.ReachSelf | camp/filters/textrecognition.py:121-122 | a segment reaches itself, so a fresh group holding only its seed is connected |
| TextRecognition.WalkAppend | camp/filters/textrecognition.py:123-130 | two neighbour walks, the second starting where the first ends, join into one walk |
| TextRecognition.ReachJoin | camp/filters/textrecognition.py:123-130 | reachability through neighbour indices is transitive |
| TextRecognition.ReachStep | camp/filters/textrecognition.py:126-130 | a neighbour of a reachable segment is reachable, as each pushed `segment_map[n]` is |
| TextRecognition.WalkBack | camp/filters/textrecognition.py:123-130 | with symmetric neighbourhood, the end of a walk reaches its start |
| TextRecognition.ReachBack | camp/filters/textrecognition.py:123-130 | with symmetric neighbourhood, reachability is symmetric |
| TextRecognition.WalkStays | camp/filters/textrecognition.py:123-130 | a walk from inside a group closed under neighbourhood never leaves it |
| TextRecognition.GrowingPush | camp/filters/textrecognition.py:127-130 | a neighbour pushed on the stack may join the group being grown |
| TextRecognition.Absorb | camp/filters/textrecognition.py:126-130 | a neighbour with a free index joins the group and the stack and leaves the pool, and its index is taken; every group member stays reachable from the seed |
| TextRecognition.VisitNeighbours | camp/filters/textrecognition.py:125-130 | after the neighbour loop the free indices only shrink, by as many as were pushed; the pool keeps every candidate accounted for; every group member stays reachable from the seed; with well-linked segments every grouped neighbour of the popped segment is in the group |
| TextRecognition.GrowGroup | camp/filters/textrecognition.py:119-130 | the stack loop ends with a group containing its seed, every member reachable from the seed through neighbour indices; with well-linked segments the group is closed under neighbourhood and apart from earlier groups |
| TextRecognition.Members | camp/filters/textrecognition.py:117-131 | a segment is a member exactly when some group holds it |
| TextRecognition.AppendGroup | camp/filters/textrecognition.py:121-131 | a new group numbered `len(groups)` keeps the numbering and adds its segments to the members |
| TextRecognition.AppendDisjoint | camp/filters/textrecognition.py:131 | a group apart from all members keeps the groups disjoint |
| TextRecognition.AppendComponents | camp/filters/textrecognition.py:131 | a closed group keeps every group closed |
| TextRecognition.PoolPick | camp/filters/textrecognition.py:119-122 | a segment popped from the pool is a candidate outside the finished groups |
| TextRecognition.PoolSettle | camp/filters/textrecognition.py:131 | a finished group joins the finished ones and the pool stays accounted for |
| TextRecognition.NextGroup | camp/filters/textrecognition.py:118-131 | one outer round keeps the merge invariant and strictly shrinks the pool |
| TextRecognition.MergeStart | camp/filters/textrecognition.py:114-117 | before the first round nothing is grouped and every index is free |
| TextRecognition.MergeEnd | camp/filters/textrecognition.py:118-132 | once the pool is empty the groups hold every candidate, and each group is connected |
| TextRecognition.ClosedMembers | camp/filters/textrecognition.py:123-131 | groups closed one by one make a closed union |
| TextRecognition.AppendConnected | camp/filters/textrecognition.py:131 | appending a connected group keeps every group connected |
| TextRecognition.MergeSegments | camp/filters/textrecognition.py:110-132 | groups are numbered in creation order and non-empty, together hold exactly the candidates, and each is connected (some member reaches all the others through neighbour indices); with unique indices and symmetric neighbourhood they are pairwise disjoint and no member neighbours a candidate outside its group |
| TextRecognition.MergedComponents | camp/filters/textrecognition.py:110-132 | for well-linked candidates, the groups `merge_segments` returns are exactly the connected components: from any member of a group, a candidate is reachable iff it is in that group |
| TextRecognition.LinksGrow | camp/filters/textrecognition.py:153-160 | appending a best follower keeps every link of the chain a best follower |
| TextRecognition.LowestExists | camp/filters/textrecognition.py:146 | a non-empty pool has a box of least `x1 + y1` |
| TextRecognition.HighestExists | camp/filters/textrecognition.py:153-154 | non-empty candidates have one reaching furthest across the axis |
| TextRecognition.Followers | camp/filters/textrecognition.py:153 | exactly the remaining boxes that start after the current box and within `delta` of its end, and overlap the first box across the axis |
| TextRecognition.ExtendChain | camp/filters/textrecognition.py:151-162 | the chain starts at the least corner; each next box is a follower reaching furthest across the axis among those left; no remaining box may follow the last; the chain is taken out of the pool |
| TextRecognition.ChainValues | camp/filters/textrecognition.py:149-158 | a group holds exactly the values of its chain's boxes |
| TextRecognition.Group | camp/filters/textrecognition.py:138-168 | round after round a chain is grown from the remaining box of least corner, its values form a group, and it leaves the pool until none remains |
| TextRecognition.ChainInPool | camp/filters/textrecognition.py:151-162 | a chain is drawn from its pool and never repeats a box |
| TextRecognition.PoolsShrink | camp/filters/textrecognition.py:145-148 | the remaining boxes only shrink from round to round |
| TextRecognition.ChainedLater | camp/filters/textrecognition.py:145-167 | a box still remaining before a round is chained in that round or a later one |
| TextRecognition.GroupPartition | camp/filters/textrecognition.py:138-168 | every box lies in exactly one chain, never twice in it, and every chained box is a key of the map |
| TextRecognition.ChainsInMap | camp/filters/textrecognition.py:138-168 | every chain takes distinct boxes, all keys of the map |
| TextRecognition.ChainsDisjoint | camp/filters/textrecognition.py:138-168 | no box is taken by two chains |
| TextRecognition.GroupValues | camp/filters/textrecognition.py:138-168 | the groups together hold exactly the values of the map |
| TextRecognition.GroupNonEmpty | camp/filters/textrecognition.py:145-150 | every group is non-empty |
| TextRecognition.Partition | camp/filters/textrecognition.py:181-185 | an item goes to the first set exactly when the test accepts it and to the second exactly when it does not |
| TextRecognition.Wrap | camp/filters/textrecognition.py:167 | the groups become exactly the regions grouping them |
| TextRecognition.GroupedRegions | camp/filters/textrecognition.py:174-191 | each region made is a non-empty group of the given regions, and every region of the dictionary is part of one |
| TextRecognition.GroupRegions | camp/filters/textrecognition.py:174-191 | the regions made are exactly the groups of a run of `group` over the dictionary; they are non-empty groups of its values, and every value is part of one |
| TextRecognition.GroupedByShape | camp/filters/textrecognition.py:138-168 | whatever run of `group` made a set of regions, they are non-empty groups of the dictionary's values and every value is part of one |
| TextRecognition.Letters | camp/filters/textrecognition.py:174 | the merged groups as regions, in list order |
| TextRecognition.RegionMap | camp/filters/textrecognition.py:177 | the dictionary keyed by bounds holds every region's bounds, each mapping to a region with those bounds |
| TextRecognition.LetterMap | camp/filters/textrecognition.py:174 | the letters' dictionary holds the bounds of every merged group, each mapped to the last group in list order with those bounds; its values are merged groups' regions |
| TextRecognition.HorizontalSentences | camp/filters/textrecognition.py:173-177 | the words are what `group` makes of the letters' dictionary (last group wins per bounds), the sentences what `group` makes of the words above `min_word_area` keyed by bounds; every kept letter is in a word and every kept word in a sentence; each sentence is a non-empty group of words above `min_word_area` |
| TextRecognition.VerticalSentences | camp/filters/textrecognition.py:187-191 | the narrow sentences keyed by bounds are chained with the axes swapped into vertical words, and those keyed by bounds into vertical sentences; every kept entry of each dictionary is part of a result of the next call; each vertical sentence is a non-empty group |
| TextRecognition.ExtractTextRegions | camp/filters/textrecognition.py:134-193 | the four calls of `group` are each exactly a run over the previous result keyed by bounds, the split is by `width <= max_vertical_height`, and the result is exactly the wide sentences together with the vertical sentences |
| TextRecognition.ExtractedShape | camp/filters/textrecognition.py:134-193 | every extracted region is a non-empty group; every wide sentence is returned, wider than `max_vertical_height` and made of words above `min_word_area`; every vertical sentence is made of vertical words made of narrow sentences |
| TextRecognition.TextCandidates | camp/filters/textrecognition.py:195-199 | the size filter, then letter clearing (which shrinks the caller's collection by exactly the internal parts), then merging into numbered connected groups covering the letters, then region extraction over exactly those groups; every candidate is a non-empty group |
| TextRecognition.SegmentsOf | camp/filters/textrecognition.py:228-231 | the segments are found exactly when both keys exist; otherwise the error names the first missing key |
| TextRecognition.Process | camp/filters/textrecognition.py:226-254 | a missing key is returned as `CampFilterError`; otherwise the call succeeds, the caller's collection loses exactly the fitting segments that are not letters, the candidates are the extraction result over connected groups covering the letters, and the segments left are split into those whose genre is text and the rest |

## Left out

- Floating point. Channels, thresholds and distances are `real`, so rounding, NaN and infinities are not modelled.
- The metric lookup by name through `__import__` and `getattr`, and its `CampFilterError`. The metric is a function parameter.
- The colour-space converters and the `Range` table. They are parameters: a map of named converters and a map of ranges.
- Python's `upper()` and `lower()` beyond ASCII. Only ASCII letters change case.
- `kmeans`, `Cluster` and the `dim` argument. The k-means step is a function parameter. A refined cluster is a centroid and a set of samples. A seed keeps its pivot, group and centroid instead of a `Cluster` object.
- `image.colors()`. The histogram is a parameter of `Quantize`, with at least one pixel per listed colour and three channels per colour.
- `Image.create`. The pixel grid is an `array2` allocated by `Image.Create`. Image modes other than the name are not modelled.
- Quantization.CreateResultImage: for a colour no cluster owns, the contract says only that it is painted with the cached value of some owned colour. It does not say that this is the value of the last owned colour resolved before it, though the body carries exactly that value over.
- The logging and the `@dump` decorator, with the dump functions, `timeit`, `Random`, `BaseDumper` and `asunicode`. They do I/O or wrap other code.
- The count of permanently removed segments is kept only as `ClearLetters`' out-parameter.
- `Vector.length`, `normalize` and `__repr__`. They need square roots and string formatting.
- Iterating a `Vector` is reading its `items`.
- Util.AsFloat: the runtime's float parse is a parameter. The conversion of non-string, non-number values is not modelled.
- Sort stability: `SortByCount` is a stable insertion sort. Which of two equally frequent colours comes first is not stated in any contract.
- Set iteration order. Python sets are walked in an order the model does not know. Every such loop picks an arbitrary element with `:|`. This covers:
  - `tmp.pop()`;
  - the ties of `min(bound_set, ...)`;
  - the order of `sorted(..., key=-Y2)` among equal keys.

  For the same reason `KeyedBy` promises only some item with the key, not which one.
- `group` scans its candidates in descending `Y2` order and takes the first that overlaps the head. The model asks for a follower of greatest `Y2` among those that follow and overlap. That is the same box whenever the `Y2` values differ.
- The `SegmentGroup` container. The model keeps a group's identifier and segment set. Its `bounds`, `area` and `width` are computed elsewhere and are given as the `Measures` parameter.
- Object identity. A group is a value, so groups with the same segments are equal; Python's groups are distinct objects. `group` therefore returns its groups as a sequence in creation order, not a set. Its groups all carry identifier 0 in Python, and the model drops the identifier there.
- A segment's neighbours are a sequence of indices.
- The OCR step of `extract_text`:
  - the loading of the OCR plugins;
  - `perform`;
  - the `vfactor` test;
  - the assignment of a `Text` genre.

  They call external programs. A segment's genre is taken as given, so `Process` splits segments by the genre they carry. The recognised-text set it would return is not modelled.
- The write of the results into `storage` at the end of `process`. `Process` returns them as a `Recognized` value instead.
- A `storage` of `None`, and its `TypeError`.
