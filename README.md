# Preloaded permutohedral lattice filter

This project models the preloaded permutohedral lattice used by probreg's
fast Gaussian filtering, as implemented in
`third_party/permutohedral/permutohedral_preload_filter.h` and `.cpp`. It
proves properties of that model in Dafny.

The engine has four parts:

- **`HashTable`** (module `Hashing`) is an open-addressing table with linear
  probing. It maps integer lattice keys of length d to dense vertex ids
  `0..filled-1`. It stores one key row and one value row per id, and it
  doubles its slot table when half full. The model is a class whose `keys`
  and `values` are 2-D arrays and whose `table` is an array of slots. A
  ghost `Contents` sequence gives the key of every id, and a placement
  invariant ties every id to the slot it occupies along its probe sequence.
- **Mapping a sample onto the lattice** (module `Simplex`) follows the steps
  of `init_with_val` and `apply`:
  - build the canonical simplex;
  - scale and elevate the feature onto the hyperplane where the coordinates
    sum to zero;
  - round to the nearest remainder-0 point, with ties to even;
  - rank the differences;
  - correct the ranks and remainder-0 point by the rounding sum;
  - compute the barycentric weights;
  - derive the d+1 vertex keys and a vertex's two neighbour keys along an
    axis.
  Every step that the source writes as a loop is a method. Each method is
  proved equal to a specification function, and lemmas prove what the
  mapping promises about those functions.
- **`seqCompute`** (module `LatticeFilter`) filters values over a stored
  lattice. It splats weighted samples into a buffer of M+2 rows. It runs
  d+1 blur passes between two buffers, in forward or reverse axis order. It
  slices every sample back out, scaled by alpha. Each phase works on
  `array2` buffers and is proved against a function on sequences.
- **`Permutohedral_preload`** (module `Preload`, class `PreloadFilter`) has
  two main operations:
  - `Build` (`init_with_val`) maps every sample and registers its vertices
    in a fresh table. It splats the sample's values into the table's value
    rows and, when blurring, mixes every vertex with its two neighbours
    along each axis.
  - `Apply` maps query points onto the built lattice and accumulates the
    stored rows of their vertices, weighted by the query's barycentric
    weights. It never adds vertices.

  `GetLatticeSize`, the constructor and `Compute` (which runs `seqCompute`
  over the stored lattice) complete the class.

The source fixes the lattice dimension at `DIMENSION = 3`. The model takes
d as a parameter, and every result holds for all d. Floating-point values
are exact reals, and lattice keys are unbounded integers. Where the code
evidently does not do what it was meant to do, the model follows the
intended behaviour. Three of these places, listed under "## Findings", are
also modelled as written. The rest are listed under "## Left out", where
only the intended behaviour is modelled.

## Model

Paths are relative to the repository root. `h` is
`third_party/permutohedral/permutohedral_preload_filter.h` and `cpp` is the
matching `.cpp`.

| member | source | states |
|---|---|---|
| Hashing.HashPrefix | third_party/permutohedral/permutohedral_preload_filter.h:74-81 | the hash of a key prefix is a 64-bit word (`size_t` arithmetic wraps modulo 2^64) |
| Hashing.HashTable.HashOf | third_party/permutohedral/permutohedral_preload_filter.h:74-81 | the hashing loop (add a component, multiply by 1664525, modulo 2^64) computes `Hash(k)` |
| Hashing.Home | third_party/permutohedral/permutohedral_preload_filter.h:105 | a key's home slot `hash % capacity` is a slot of the table |
| Hashing.Probe | third_party/permutohedral/permutohedral_preload_filter.h:123-124 | the j-th probe from a home slot is a slot of the table at wrap-around distance j from home |
| Hashing.ProbeOfDist | third_party/permutohedral/permutohedral_preload_filter.h:123-124 | probing the distance of a slot from home returns that slot, so linear probing visits every slot |
| Hashing.IndexOf | third_party/permutohedral/permutohedral_preload_filter.h:102-126 | the id of a key is -1 exactly when the key is absent, and otherwise an id whose stored key is that key |
| Hashing.IndexOfDistinct | third_party/permutohedral/permutohedral_preload_filter.h:113 | with distinct keys, every stored key's id is its insertion position |
| Hashing.IndexOfAppend | third_party/permutohedral/permutohedral_preload_filter.h:112-113 | appending an absent key keeps the keys distinct, gives it id `filled` and leaves every other id unchanged |
| Hashing.AbsentAtGap | third_party/permutohedral/permutohedral_preload_filter.h:107-116 | reaching an empty slot along a key's probe sequence without meeting the key proves the key is absent from the table |
| Hashing.PlaceId | third_party/permutohedral/permutohedral_preload_filter.h:69-71 | putting an id into the first empty slot after its home keeps every id reachable from its home without crossing an empty slot |
| Hashing.ProbeInsert | third_party/permutohedral/permutohedral_preload_filter.h:68-71 | reinsertion probes to an empty slot, writes the id there, changes no other slot and keeps the placement invariant |
| Hashing.EnlargedKeys | third_party/permutohedral/permutohedral_preload_filter.h:53-55 | growing copies every key row into fresh, larger storage |
| Hashing.EnlargedValues | third_party/permutohedral/permutohedral_preload_filter.h:54-56 | growing copies every value row into fresh, larger storage whose new rows are zero |
| Hashing.WriteRow | third_party/permutohedral/permutohedral_preload_filter.h:112 | storing a new key writes its row and leaves every other row unchanged |
| Hashing.HashTable.constructor | third_party/permutohedral/permutohedral_preload_filter.h:89-96 | a new table is valid and empty, has capacity 2·n, key size d, the given value size and zero value rows |
| Hashing.HashTable.Size | third_party/permutohedral/permutohedral_preload_filter.h:97 | `size()` is the number of stored keys |
| Hashing.HashTable.GetKey | third_party/permutohedral/permutohedral_preload_filter.h:127 | `getKey(e)` is the key stored for id e |
| Hashing.HashTable.Reset | third_party/permutohedral/permutohedral_preload_filter.h:98-101 | reset empties the table: no keys, every slot -1, capacity and storage unchanged |
| Hashing.HashTable.RowMatches | third_party/permutohedral/permutohedral_preload_filter.h:117-121 | the comparison loop answers true exactly when id e's stored key equals k |
| Hashing.HashTable.Rehash | third_party/permutohedral/permutohedral_preload_filter.h:57-72 | reinserting every id into a fresh slot table of the new capacity places each id on its probe sequence |
| Hashing.HashTable.Grow | third_party/permutohedral/permutohedral_preload_filter.h:49-73 | grow doubles the capacity, keeps the keys and ids, copies the value rows, zeroes the new rows, and leaves the table valid |
| Hashing.HashTable.Locate | third_party/permutohedral/permutohedral_preload_filter.h:105-125 | the probe loop returns the key's id, or -1 and the empty slot that ends the key's probe run |
| Hashing.HashTable.AppendRow | third_party/permutohedral/permutohedral_preload_filter.h:112-113 | storing a new key appends it to the keys and increments `filled`, changing nothing else |
| Hashing.HashTable.Insert | third_party/permutohedral/permutohedral_preload_filter.h:110-113 | inserting an absent key at its empty slot returns the old `filled` as its id, appends the key and keeps the table valid |
| Hashing.HashTable.Find | third_party/permutohedral/permutohedral_preload_filter.h:102-126 | `find` returns the key's id (-1 when absent and not creating) and appends the key when creating. It keeps the table valid and below half load after a grow. Capacity stays the same or doubles, and value rows are kept, with new rows zero |
| Simplex.BuildCanonical | third_party/permutohedral/permutohedral_preload_filter.cpp:226-233 | the canonical table holds r for the first d+1-r columns of row r and r-(d+1) for the rest |
| Simplex.CanonicalRowSumsToZero | third_party/permutohedral/permutohedral_preload_filter.cpp:226-233 | every canonical row sums to zero and row 0 is all zeros |
| Simplex.Elevate | third_party/permutohedral/permutohedral_preload_filter.cpp:256-262 | the elevation loop computes the elevated point E·(scaled feature) |
| Simplex.ElevationOnHyperplane | third_party/permutohedral/permutohedral_preload_filter.cpp:256-262 | an elevated point's d+1 coordinates sum to zero |
| Simplex.RoundHalfEven | third_party/permutohedral/permutohedral_preload_filter.cpp:267-271 | SSE rounding is within 1/2 of its argument, and ties go to the even integer |
| Simplex.RoundToLattice | third_party/permutohedral/permutohedral_preload_filter.cpp:265-275 | every coordinate rounds to a multiple of d+1 within (d+1)/2 of it, and `sum` is the sum of the rounded quotients |
| Simplex.RoundedSumBound | third_party/permutohedral/permutohedral_preload_filter.cpp:265-275 | for an elevated point, the rounding sum satisfies abs(2·sum) <= d+1, so the rank correction stays within one wrap |
| Simplex.ComputeRanks | third_party/permutohedral/permutohedral_preload_filter.cpp:279-288 | the pairwise comparison loops compute `Ranks(diff)`, each coordinate's rank being the number of coordinates it loses to |
| Simplex.CompareWithLater | third_party/permutohedral/permutohedral_preload_filter.cpp:281-287 | one outer step adds coordinate i's comparisons with every later coordinate to the counts |
| Simplex.RanksArePermutation | third_party/permutohedral/permutohedral_preload_filter.cpp:279-288 | the ranks are pairwise distinct values in 0..d |
| Simplex.CorrectRanks | third_party/permutohedral/permutohedral_preload_filter.cpp:291-297 | the correction loop adds `sum` to every rank and wraps it into 0..d, moving the remainder-0 point by the same multiple of d+1 |
| Simplex.CorrectInRange | third_party/permutohedral/permutohedral_preload_filter.cpp:291-297 | a corrected rank lies in 0..d and is (rank + sum) mod (d+1) |
| Simplex.CorrectedPermutation | third_party/permutohedral/permutohedral_preload_filter.cpp:291-297 | corrected ranks are still pairwise distinct values in 0..d |
| Simplex.CorrectedSumsToZero | third_party/permutohedral/permutohedral_preload_filter.cpp:290-297 | when the remainder-0 point totals (d+1)·sum and abs(sum) <= d+1, the correction brings it back to coordinates summing to zero |
| Simplex.CorrectedOnHyperplane | third_party/permutohedral/permutohedral_preload_filter.cpp:265-297 | for an elevated point, the rounded and corrected remainder-0 point lies on the hyperplane |
| Simplex.CorrectedStaysOnLattice | third_party/permutohedral/permutohedral_preload_filter.cpp:296 | the corrected remainder-0 coordinates stay multiples of d+1 |
| Simplex.Remainder0OnLattice | third_party/permutohedral/permutohedral_preload_filter.cpp:273 | every rounded coordinate is a multiple of d+1 |
| Simplex.ComputeBarycentric | third_party/permutohedral/permutohedral_preload_filter.cpp:300-317 | the scatter loop and the wrap-around compute `Barycentric(diff, rank, d)` |
| Simplex.Accumulate | third_party/permutohedral/permutohedral_preload_filter.cpp:301-312 | each coordinate adds its scaled difference at position d-rank and subtracts it at the next position |
| Simplex.Transfer | third_party/permutohedral/permutohedral_preload_filter.cpp:308-310 | one scatter step moves v from position p+1 to position p |
| Simplex.WeightsSumToOne | third_party/permutohedral/permutohedral_preload_filter.cpp:300-317 | the d+1 barycentric weights sum to 1 |
| Simplex.MapSample | third_party/permutohedral/permutohedral_preload_filter.cpp:247-317 | mapping a feature runs elevation, rounding, ranking, correction and weighting, and yields `MapPoint(f, scale)` |
| Simplex.MapPointProperties | third_party/permutohedral/permutohedral_preload_filter.cpp:247-317 | a mapped point's remainder-0 coordinates are multiples of d+1 that sum to zero, its ranks are distinct and its weights sum to 1 |
| Simplex.BarycentricReproduces | third_party/permutohedral/permutohedral_preload_filter.cpp:299-313 | for a point on the hyperplane and a remainder-0 point summing to zero, weighting coordinate i of the d+1 simplex vertices by the barycentric weights gives back coordinate i of the point |
| Simplex.MapPointEnclosesPoint | third_party/permutohedral/permutohedral_preload_filter.cpp:299-326 | the mapped point is the weighted sum of its d+1 vertices `rem0 + canonical[r][rank]`, weighted by the barycentric weights, in every coordinate 0..d |
| Simplex.ComputeKey | third_party/permutohedral/permutohedral_preload_filter.cpp:322-326 | the key loop computes `VertexKey`: the remainder-0 point plus the canonical row of the vertex at each rank |
| Simplex.VertexKeyProperties | third_party/permutohedral/permutohedral_preload_filter.cpp:322-326 | vertex 0's key is the remainder-0 point. Every component of vertex r's key is r mod (d+1), so the d+1 keys are distinct |
| Simplex.NeighbourKeys | third_party/permutohedral/permutohedral_preload_filter.cpp:361-366 | the neighbour loop computes the lower and the upper neighbour key along axis j |
| Simplex.NeighbourSymmetry | third_party/permutohedral/permutohedral_preload_filter.cpp:361-366 | the two neighbours are each other's inverse steps, and the key is their component-wise midpoint |
| Simplex.NeighbourRemainder | third_party/permutohedral/permutohedral_preload_filter.cpp:361-366 | neighbours of a remainder-r key have remainders r-1 and r+1 |
| LatticeFilter.Alpha | third_party/permutohedral/permutohedral_preload_filter.cpp:91 | alpha = 1/(1 + 2^-d), i.e. alpha·(2^d + 1) = 2^d |
| LatticeFilter.Splat | third_party/permutohedral/permutohedral_preload_filter.cpp:58-73 | after splatting samples start..N-1 into the zeroed buffer, row o+1 holds the weighted sum of every sample with a vertex at o |
| LatticeFilter.SplatPoint | third_party/permutohedral/permutohedral_preload_filter.cpp:66-72 | splatting one sample adds weight × value to the row of each of its d+1 vertices and changes nothing else |
| LatticeFilter.SplatBorderZero | third_party/permutohedral/permutohedral_preload_filter.cpp:64-73 | because vertex rows are shifted by one, splatting leaves border rows 0 and M+1 zero |
| LatticeFilter.BlurAxis | third_party/permutohedral/permutohedral_preload_filter.cpp:77-86 | one blur pass writes old + (n1 + n2)/2 into every vertex row of the other buffer |
| LatticeFilter.BlurStep | third_party/permutohedral/permutohedral_preload_filter.cpp:76-88 | pass p blurs along the p-th axis of the blur order and leaves the source buffer's border rows zero for the next pass |
| LatticeFilter.BlurAll | third_party/permutohedral/permutohedral_preload_filter.cpp:75-89 | after the d+1 passes with buffer swaps, the returned buffer holds the blurred rows |
| LatticeFilter.BlurredBorderZero | third_party/permutohedral/permutohedral_preload_filter.cpp:75-89 | blurring keeps border rows 0 and M+1 zero |
| LatticeFilter.MissingNeighbourContributesNothing | third_party/permutohedral/permutohedral_preload_filter.cpp:81-85 | a missing neighbour (id -1) reads the zero row 0 and adds nothing to the pass |
| LatticeFilter.AxisOrderVisitsEachAxisOnce | third_party/permutohedral/permutohedral_preload_filter.cpp:76 | both blur orders visit every axis 0..d exactly once, and the reverse order is the forward order mirrored |
| LatticeFilter.Slice | third_party/permutohedral/permutohedral_preload_filter.cpp:94-102 | every sample's output row is alpha times the weighted sum of its vertices' rows, and rows past N are unchanged |
| LatticeFilter.SliceRow | third_party/permutohedral/permutohedral_preload_filter.cpp:95-101 | slicing sample i zeroes its row, then accumulates its vertices' rows, and changes no other row |
| LatticeFilter.SliceOfConstant | third_party/permutohedral/permutohedral_preload_filter.cpp:94-102 | slicing a constant lattice yields the sum of the weights × the constant × alpha |
| LatticeFilter.Compute | third_party/permutohedral/permutohedral_preload_filter.cpp:55-106 | `seqCompute`'s output row i is the slice of sample i over the splatted rows, blurred when the filter blurs |
| Preload.RegisterProperties | third_party/permutohedral/permutohedral_preload_filter.cpp:327 | registering keys keeps every earlier id. The result contains exactly the old and the new keys, and they stay distinct |
| Preload.RegisterConcat | third_party/permutohedral/permutohedral_preload_filter.cpp:247-337 | registering keys in two batches equals registering them at once |
| Preload.IdsStable | third_party/permutohedral/permutohedral_preload_filter.cpp:327-328 | a key registered earlier keeps its id as later keys are added |
| Preload.BuiltSamplesAreFound | third_party/permutohedral/permutohedral_preload_filter.cpp:322-328 | every vertex key of every built sample is in the built table |
| Preload.AddWeighted | third_party/permutohedral/permutohedral_preload_filter.cpp:331-334 | a vertex's value row gains weight × the sample's values |
| Preload.RegisterVertex | third_party/permutohedral/permutohedral_preload_filter.cpp:327 | `find(key, true)` registers the key and returns its id, keeping the rows splatted so far across a grow |
| Preload.SplatVertex | third_party/permutohedral/permutohedral_preload_filter.cpp:322-334 | vertex r of a sample is registered, its id is recorded and the sample is splatted onto it |
| Preload.InsertSample | third_party/permutohedral/permutohedral_preload_filter.cpp:315-336 | a sample's d+1 vertices are registered in order, their ids, ranks and weights are recorded and its values are splatted onto them |
| Preload.SplatSample | third_party/permutohedral/permutohedral_preload_filter.cpp:247-336 | sample i is mapped and inserted. The table then holds the vertices of samples 0..i, and every recorded id is the id of its key |
| Preload.BuildLattice | third_party/permutohedral/permutohedral_preload_filter.cpp:195-337 | after the sample loop, the fresh table holds exactly the vertex keys of the N samples, and each sample's ids, ranks and weights are its mapped simplex. The value rows hold the splatted sums |
| Preload.LookupVertex | third_party/permutohedral/permutohedral_preload_filter.cpp:368 | `find(key, false)` returns the key's id or -1 and adds no vertex |
| Preload.LookupPair | third_party/permutohedral/permutohedral_preload_filter.cpp:360-369 | a vertex's neighbour pair along axis j is the ids of its lower and upper neighbour keys |
| Preload.LookupAxis | third_party/permutohedral/permutohedral_preload_filter.cpp:359-369 | the neighbour pairs of every vertex along axis j |
| Preload.LookupNeighbours | third_party/permutohedral/permutohedral_preload_filter.cpp:352-369 | the neighbour table of the whole lattice, leaving keys and value rows unchanged |
| Preload.UnfilledNeighbours | third_party/permutohedral/permutohedral_preload_filter.cpp:352 | the neighbour table as the build leaves it: d+1 axes of M pairs, every pair (0, 0) |
| Preload.UnfilledNeighboursBlurAsWritten | third_party/permutohedral/permutohedral_preload_filter.cpp:77-86 | a blur pass over the unfilled neighbour table adds vertex 0's row to every vertex row |
| Preload.UnfilledNeighboursCounterexample | third_party/permutohedral/permutohedral_preload_filter.cpp:352 | on two vertices, a blur pass over the lattice's neighbours leaves vertex 1's row 0, and over the unfilled table it gives 1 |
| Preload.NeighboursSymmetric | third_party/permutohedral/permutohedral_preload_filter.cpp:358-369 | if b is a's lower neighbour along axis j, then a is b's upper neighbour, and conversely |
| Preload.MixProperties | third_party/permutohedral/permutohedral_preload_filter.cpp:371-385 | the 1/4, 1/2, 1/4 mixing keeps a constant, and a missing neighbour's share is dropped |
| Preload.MixAsWrittenCounterexample | third_party/permutohedral/permutohedral_preload_filter.cpp:377-380 | with a missing upper neighbour, the mixing as written gives a vertex 1/4 of vertex 0's row instead of nothing |
| Preload.MixAxis | third_party/permutohedral/permutohedral_preload_filter.cpp:359-386 | one axis of mixing writes `MixPass` of the current rows into the other buffer |
| Preload.MixAxes | third_party/permutohedral/permutohedral_preload_filter.cpp:358-388 | mixing along the d+1 axes in turn yields `Mixed(S, ...)` in the returned buffer |
| Preload.MixLattice | third_party/permutohedral/permutohedral_preload_filter.cpp:350-389 | the blur step computes the lattice's neighbour table and replaces the table's value rows with the mixed rows |
| Preload.BuildFilter | third_party/permutohedral/permutohedral_preload_filter.cpp:193-390 | `init_with_val` builds the table of registered keys and each sample's ids, ranks and weights. Its value rows are the splatted rows, mixed when blurring |
| Preload.PreloadFilter.constructor | third_party/permutohedral/permutohedral_preload_filter.cpp:53 | a new filter has N, M and the blur flag as given, and an empty table with capacity 2·N and value size M |
| Preload.PreloadFilter.GetLatticeSize | third_party/permutohedral/permutohedral_preload_filter.cpp:190 | `getLatticeSize` returns M, also on a filter that was only constructed; once M matches the table, that is its number of vertices |
| Preload.PreloadFilter.Build | third_party/permutohedral/permutohedral_preload_filter.cpp:193-390 | the filter stores the built table with M equal to its size. N, the blur flag and the per-sample ids, ranks and weights are set. When blurring it stores the lattice's neighbour table, which the source leaves unfilled (see Findings). Its value rows are `BuiltValues` |
| Preload.PreloadFilter.Install | third_party/permutohedral/permutohedral_preload_filter.cpp:195-213 | the build's results replace the filter's table, N, M, flag and per-sample arrays, and the filter is ready to filter |
| Preload.PreloadFilter.Compute | third_party/permutohedral/permutohedral_preload_filter.cpp:55-106 | `seqCompute` over the stored lattice: every sample's output row is its slice of the splatted, optionally blurred rows |
| Preload.PreloadFilter.ResetSamples | third_party/permutohedral/permutohedral_preload_filter.cpp:557-561 | `apply` resizes the per-sample ids and weights to N zeros and the ranks to N rows, keeping old ranks |
| Preload.ZeroRows | third_party/permutohedral/permutohedral_preload_filter.cpp:547-549 | the first n output rows are zeroed and the rest unchanged |
| Preload.QueryAll | third_party/permutohedral/permutohedral_preload_filter.cpp:595-688 | every query's output row is `QueryOf` its mapped simplex over the stored rows. The table's keys and value rows are unchanged and later output rows are untouched |
| Preload.QuerySample | third_party/permutohedral/permutohedral_preload_filter.cpp:597-686 | one query point is mapped and its output row is `QueryOf` it |
| Preload.QueryRow | third_party/permutohedral/permutohedral_preload_filter.cpp:670-686 | a query's output row is the weighted sum of its vertices' stored rows, missing vertices adding nothing |
| Preload.QueryVertex | third_party/permutohedral/permutohedral_preload_filter.cpp:671-685 | vertex r of a query is looked up without creating it, and its weighted row is added |
| Preload.AddVertexRow | third_party/permutohedral/permutohedral_preload_filter.cpp:680-685 | a found vertex adds weight × its row to the query's row; a missing one adds nothing |
| Preload.AccumulateRow | third_party/permutohedral/permutohedral_preload_filter.cpp:681-683 | the inner loop adds w × the vertex's row to the query's row and changes no other row |
| Preload.QueryOfConstant | third_party/permutohedral/permutohedral_preload_filter.cpp:670-685 | when every stored row holds v and every vertex is present, the query sums to the sum of its weights × v |
| Preload.QueryOfBuiltSample | third_party/permutohedral/permutohedral_preload_filter.cpp:540-694 | querying one of the built samples over a constant lattice returns the constant, because all its vertices are present and its weights sum to 1 |
| Preload.PreloadFilter.Apply | third_party/permutohedral/permutohedral_preload_filter.cpp:540-694 | `apply` sets N, resets the per-sample arrays and writes every query's `QueryOf` value into its output row. It adds no vertex and leaves the table's keys and value rows unchanged |
| Preload.VertexZeroSkippedAsWritten | third_party/permutohedral/permutohedral_preload_filter.cpp:682 | the lookup as written differs from the intended one exactly on vertex id 0, which it skips |

## Left out

- SSE vectorisation: the four-sample blocks, the padding of the per-sample arrays by 16 samples, and saving and restoring the MXCSR rounding mode. The model maps one sample at a time with round-half-even.
- Preload.BuildLattice and Preload.PreloadFilter.Build: the model maps and registers exactly the N samples. In the source, the per-lane loop (cpp:318-334) has no `k + j < N_` guard. When N is not a multiple of 4, the zero-padded lanes of the last block are mapped and registered with `find(key, true)`. That adds the vertices of the origin's simplex to the table and to `M_`, and it reads `in(k1, k + j)` past the last sample.
- Preload.PreloadFilter.Build: the source only resizes `blur_neighbors_` (cpp:352), leaving every pair at its default (0, 0) (h:131-135); the model stores the lattice's neighbour table instead (see Findings).
- Simplex.MapPointEnclosesPoint: states that the weights reproduce the point, but not that they are nonnegative.
- Floating point: every value, weight and scale factor is an exact real. Single-precision rounding is not modelled.
- Scale factors: the `sqrt` inverse standard deviation and the per-axis factors of `E` (cpp:236-238, cpp:584-586) are passed to the filter as two given scale vectors, one for the blurring filter and one for the plain filter.
- Lattice keys are unbounded integers; the source stores them as `short`, and truncation of large keys is not modelled.
- The hash is the source's multiply-add polynomial modulo 2^64, but the hash table's slot capacity is an unbounded `nat`.
- The lattice dimension is a parameter d instead of the fixed `DIMENSION = 3`.
- `compute(MatrixXf...)` and the `sseCompute` fallback (cpp:173-188) only choose between `seqCompute` and its SSE copy. The model has `Compute` for `seqCompute`, and the SSE variant (cpp:108-171) is not part of this model.
- The scalar `init_with_val` and `apply` under `#else` (cpp:393-536, cpp:697 on) are commented out and not modelled, and neither is `init` (declared at h:150 with no definition in the file).
- Deviations in `init_with_val` and `apply` that the model replaces with the intended behaviour:
  - the loops `for (k1 = 0; k1 < M_; k++)` (cpp:332, cpp:681) advance the wrong counter; the model loops over every value column;
  - those loops address the value row of id `offset_tmp` as `offset_tmp + k1` instead of `offset_tmp * width + k1`; the model uses the row of that id;
  - the mixing (cpp:368-369) scales ids by `M_` instead of the value width; the model uses the row of the id;
  - the mixing's middle term reads `values[n1_val + k]` (cpp:384); the model uses the vertex's own row;
  - the mixing writes into `new_values` but never swaps it in before the next axis (cpp:358-388); the model mixes each axis from the previous axis's result;
  - the table built by `init_with_val` is a local (cpp:200), and `apply` reads `hash_table_`; the model stores the built table in the filter;
  - `apply` writes into `out` indexed by vertex id (cpp:683); the model writes each query's row.
- Preload.PreloadFilter.Apply: it zeroes the N full query rows of the output (via `ZeroRows`), while the source zeroes only `feature.cols()*(M_-1)` floats (cpp:547-549).
- Preload.PreloadFilter.Apply: the row width is the table's value size, where the source uses `vd_ = M_` (cpp:545).
- Preload.PreloadFilter.Apply: the `find(key, false)` lookups may grow the table (h:103), so the contract promises the same keys and the same value rows, but not the same arrays.
- LatticeFilter.Alpha: exact 1/(1 + 2^-d) over the reals, not the single-precision `powf` result.

## Findings

| source | as written | input that shows it | evidently intended | confidence | as-written member | corrected member |
|---|---|---|---|---|---|---|
| third_party/permutohedral/permutohedral_preload_filter.cpp:377-380 | a missing upper neighbour sets `n2_val = 0` twice and leaves `n2_idx` at 1, so the mixing adds a quarter of vertex 0's row | two vertices, vertex 0 holding 1 and vertex 1 holding 0, with no neighbours of vertex 1: with the other mixing slips corrected (cpp:384's middle term read from the vertex's own row), it mixes to 0.25 instead of 0 | `n2_idx = 0`, dropping the missing neighbour's share as is done for the lower one | high (not executed) | Preload.MixAsWrittenCounterexample | Preload.MixProperties |
| third_party/permutohedral/permutohedral_preload_filter.cpp:682 | the lookup tests `offset_tmp > 0`, so a query vertex with id 0 is skipped like a missing one | a lattice whose vertex 0 holds 1, queried with weight 1 on vertex 0: 0 instead of 1 | `offset_tmp >= 0`, skipping only missing vertices (-1) | high (not executed) | Preload.VertexZeroSkippedAsWritten | Preload.QueryOfBuiltSample |
| third_party/permutohedral/permutohedral_preload_filter.cpp:352 | the live `init_with_val` only resizes `blur_neighbors_`, so every vertex gets the default pair (0, 0), and each blur pass of `seqCompute` adds vertex 0's row to every vertex | two vertices with keys [0] and [5] (d = 1), vertex 0 holding 1 and vertex 1 holding 0: the pass gives vertex 1 the value 1 instead of 0 | the neighbour ids of every vertex along every axis, as the commented-out scalar path computes them (cpp:520-531) | high (not executed) | Preload.UnfilledNeighboursCounterexample | Preload.NeighboursSymmetric |
