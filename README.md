# Beam-Splitting: the RandomOrientation driver's beam filter, collector and parameter reader

The RandomOrientation program of Beam-Splitting computes light scattering on hexagonal ice
crystals in random orientation. A tracer splits the incident beam on the facets of the
particle and hands every outgoing beam to a callback, `Handler`. `Handler` keeps or drops the
beam according to an allow-list of facet trajectories (the *mask*). It then adds the beam's
weighted Mueller matrix to one of three accumulators:

- `back`, the exact-direction peak with r.z near +1;
- `forw`, the peak with r.z near -1;
- the zenith-angle histogram `mxd`.

After the orientation sweep, `main` computes the total intensity `D_tot`. Unless EDF is set,
it then folds the two peaks into the first and last zenith bins. The run is configured by
PARAMS.DAT, which `ReadFile` and `MaskAppend` read:

- 13 non-negative numbers;
- an optional count `Sorting`;
- `Sorting` trajectory lines of facet indices.

This project models those parts of `RandomOrientation/main.cpp` in Dafny:

- `trajectory_filter.dfy` (module `TrajectoryFilter`) is the mask test at the head of
  `Handler`. It is a loop over the mask, proved equal to "Sorting is 0 or the trajectory is
  listed".
- `collector.dfy` (module `Collector`) holds the accumulators as a class, with `back`, `forw`
  and the array `mxd` of ThetaNumber+1 bins. It has:
  - `Handle`, the beam collector;
  - `TotalScattering`, the `D_tot` loop;
  - `FoldPeaks`, the EDF == 0 folding;
  - the routing and zenith-bin functions, with their range and conservation lemmas.
- `mask_parser.dfy` (module `MaskParser`) models `MaskAppend`'s tokenising of one
  trajectory line by repeated `strtol` calls. It proves a write-then-read round trip. It also
  holds the as-written model of the `int` narrowing (see Findings).
- `params_file.dfy` (module `ParamsFile`) models `ReadFile`:
  - the file is the sequence of its newline-separated pieces;
  - the specification `ReadSpec` covers every way the reading ends;
  - the imperative reader (class `Settings`, holding the globals `_NoF`, `Itr`, `Sorting` and
    `mask`) is proved equal to `ReadSpec`;
  - the facet-count table and the particle switch of `main` are included.
- `matrices.dfy` (module `Matrices`) holds 4x4 real matrices as `seq<seq<real>>`;
  `outcomes.dfy` (module `Outcomes`) holds the Option/Result types and the three thrown errors.

Conventions of the model:

- `M_PI` is its exact double value and `DBL_EPSILON` is 2^-52. Both are exact reals, and
  arithmetic on doubles is exact real arithmetic.
- `acos(r.z)`, `CrossSection(bm)`, `Mueller(bm())` and the matrix rotated by
  `RightRotateMueller` are fields of the `Beam` record. Their only assumed properties are
  `acos`'s range [0, pi] and the 4x4 shape.
- `round` rounds halves away from zero.
- ThetaNumber 0 makes `SizeBin` an IEEE infinity, so every beam goes to bin 0.
- `strtol` is modelled for a 64-bit `long`, with clamping to LONG_MIN/LONG_MAX.
- Double-to-integer conversions follow gcc's code for x86-64. Converting to `unsigned int`
  (`KoP`, `Itr`, `Sorting`) truncates toward zero into a 64-bit register and keeps the low 32
  bits; a value a `long` cannot hold gives 0. `int(params[0])` truncates into a 32-bit
  register; a value an `int` cannot hold gives INT_MIN.
- A file line is its text together with the double that `strtod` reads from it.
  `getline`/`eof()` behave so that piece k of the file can be read iff k < |file|.

Which accumulator is which follows the code's routing. Line 326 of
RandomOrientation/main.cpp adds the beams with r.z ≥ 1−ε to `back`, and line 333 adds the
beams with r.z ≤ ε−1 to `forw`. The rest of the program agrees with this:
- the comments at lines 45-46 call `back` the backward direction and `forw` the forward one;
- the fold at lines 249-252 adds `b` (from `back`) to bin 0 and `f` (from `forw`) to bin
  ThetaNumber;
- line 262 prints bin j at 180·(ThetaNumber−j)/ThetaNumber degrees, so bin 0, where
  r.z ≈ +1 lands, is printed near 180°.
The model follows this routing: `Route` sends r.z = 1 to `Back` and r.z = −1 to `Forward`.

## Model

| member | source | states |
|---|---|---|
| TrajectoryFilter.Accepts | RandomOrientation/main.cpp:301-318 | the nested iterator loop sets the flag exactly when Sorting is 0 or some mask chain has the trajectory's length and equal elements in order |
| TrajectoryFilter.Passes | RandomOrientation/main.cpp:301-318 | the reference definition of the filter: a beam is kept iff Sorting is 0 or some mask chain has the trajectory's length and equal elements in order; `Accepts` is proved equal to it |
| TrajectoryFilter.PassesIffListed | RandomOrientation/main.cpp:301-318 | a beam passes iff Sorting is 0 or its trajectory is one of the mask's chains |
| TrajectoryFilter.OnlyExactTrajectoryPasses | RandomOrientation/main.cpp:305-313 | with mask [[2,5]] the trajectory [2,5] passes, while [2,5,1] (a longer sequence with the same prefix) and [0,3] are dropped |
| Collector.Round | RandomOrientation/main.cpp:337 | `round` returns an integer within one half of its argument, taking the upper one at a half for non-negative values |
| Collector.ZenithBin | RandomOrientation/main.cpp:337 | `ZenAng = round(acos(r.z)/SizeBin)` with SizeBin = pi/ThetaNumber (line 114), and bin 0 when ThetaNumber is 0; its range and nearness are the contracts of `ZenithBinInRange` and `ZenithBinIsNearest` |
| Collector.ZenithBinInRange | RandomOrientation/main.cpp:337 | for every acos value in [0, pi], `round(acos(z)/SizeBin)` with SizeBin = pi/ThetaNumber is in [0, ThetaNumber], inside the ThetaNumber+1 bins allocated at line 158 |
| Collector.ZenithBinIsNearest | RandomOrientation/main.cpp:337 | a beam goes to bin k iff its zenith angle lies within half a bin of k bin sizes |
| Collector.HalfwayRoundsUp | RandomOrientation/main.cpp:337 | an angle of 3.5 bin sizes lands in bin 4 |
| Collector.Route | RandomOrientation/main.cpp:299-348 | a beam is routed somewhere iff the filter passes it; a bin destination is at most ThetaNumber |
| Collector.AcceptedBeamDestination | RandomOrientation/main.cpp:326-347 | an accepted beam with r.z = 1 goes to `back`, one with r.z = -1 to `forw`, and one strictly between the thresholds to the bin of its zenith angle |
| Collector.Aligned | RandomOrientation/main.cpp:336-346 | the matrix added is 4x4: the rotated Mueller matrix for a zenith bin with r.y² > ε, the plain one otherwise |
| Collector.BackPeak | RandomOrientation/main.cpp:210 | `b[]` is three values: back(0,0), (back(1,1) - back(2,2))/2 and back(3,3) |
| Collector.ForwardPeak | RandomOrientation/main.cpp:211 | `f[]` is three values: forw(0,0), (forw(1,1) + forw(2,2))/2 and forw(3,3) |
| Collector.FoldedBins | RandomOrientation/main.cpp:249-252 | the bins after the folding keep their number and shape; what changes is the contract of `FoldChangesOnlyPeakDiagonals` and `FoldConservesTotal`; its helpers `FoldRows` (the four lines in order) and `FoldRow` (one line) are part of it |
| Collector.FoldChangesOnlyPeakDiagonals | RandomOrientation/main.cpp:249-252 | folding changes only the diagonal entries of bins 0 and ThetaNumber: f0, f1, f1, f2 go to the last bin and b0, b1, -b1, b2 to the first |
| Collector.FoldRowEntry | RandomOrientation/main.cpp:249-252 | one line of the folding adds its forward value to one diagonal entry of the last bin and its backward value to the same entry of bin 0, and changes nothing else |
| Collector.FoldRowsEntry | RandomOrientation/main.cpp:249-252 | the first n lines of the folding change exactly diagonal entries 0..n-1 of the last bin and of bin 0, by their forward and backward values |
| Collector.FoldConservesTotal | RandomOrientation/main.cpp:215-252 | after folding, the sum of the bins' (0,0) entries equals b0 + f0 plus the sum before folding |
| Collector.FoldRowTotal | RandomOrientation/main.cpp:249-252 | a line of the folding on diagonal entry r raises the summed intensity by its two values when r is 0 and leaves it unchanged otherwise |
| Collector.FoldRowsTotal | RandomOrientation/main.cpp:249-252 | of the lines of the folding, only the first (b0 and f0) changes the summed intensity |
| Collector.SumM11Update | RandomOrientation/main.cpp:216-217 | replacing one bin changes the summed intensity `SumM11` (the sum of the bins' (0,0) entries, a helper defined with it) by exactly the change in that bin's (0,0) entry |
| Collector.Accumulators.constructor | RandomOrientation/main.cpp:155-159 | `back`, `forw` and all ThetaNumber+1 bins of `mxd` start at zero |
| Collector.Accumulators.Handle | RandomOrientation/main.cpp:299-348 | a rejected beam changes nothing; an accepted one adds Area·bf to exactly the accumulator it is routed to (bf rotated only for a bin and r.y² > ε), leaves the others unchanged, and raises the total intensity by Area·bf(0,0) |
| Collector.Accumulators.AddToBack | RandomOrientation/main.cpp:326-329 | `back += Area*bf` adds the weighted matrix to `back`, leaves `forw` and the bins unchanged and raises the total intensity by its (0,0) entry |
| Collector.Accumulators.AddToForward | RandomOrientation/main.cpp:331-334 | `forw += Area*bf` adds the weighted matrix to `forw`, leaves `back` and the bins unchanged and raises the total intensity by its (0,0) entry |
| Collector.Accumulators.AddToZenithBin | RandomOrientation/main.cpp:347 | `mxd.insert` adds the weighted matrix to one bin, leaves every other bin unchanged and raises the total intensity by its (0,0) entry |
| Collector.Accumulators.TotalScattering | RandomOrientation/main.cpp:215-217 | `D_tot` is b0 + f0 plus the (0,0) entries of all ThetaNumber+1 bins |
| Collector.Accumulators.FoldPeaks | RandomOrientation/main.cpp:209-253 | `D_tot` is taken before folding; with EDF 0 the bins become the eight in-place additions and alone hold `D_tot`; with EDF set the bins are unchanged |
| Collector.Accumulators.FoldDiagonals | RandomOrientation/main.cpp:249-252 | the four lines of in-place additions leave the bins as the folding function describes |
| Collector.Accumulators.AddPeakRow | RandomOrientation/main.cpp:249-252 | one line adds `fw` to diagonal entry `row` of bin ThetaNumber and `bw` to that of bin 0 |
| Collector.Accumulators.AddToBin | RandomOrientation/main.cpp:249-252 | `mxd(0,j,row,col) += d` changes that one entry of that one bin |
| MaskParser.Strtol | RandomOrientation/main.cpp:404 | a conversion ends after position i and within the line, with a value in the range of a 64-bit long; its value is the contract of `StrtolOfRun` and its failure that of `StrtolNone`; its helpers `ScanDigits` (the digit loop) and `ClampToLong` (the LONG_MIN/LONG_MAX clamping) are part of it |
| MaskParser.StrtolOfRun | RandomOrientation/main.cpp:404 | after white space, an optional sign and a maximal run of digits, `strtol` returns the digits' value, negated after '-' and clamped to LONG_MIN/LONG_MAX, with `end` just after the digits |
| MaskParser.StrtolNone | RandomOrientation/main.cpp:404-405 | `strtol` converts nothing (so `strlen(buf) == strlen(end)`) exactly when, after the white space, there is neither a digit nor a sign followed by a digit |
| MaskParser.TokensFrom | RandomOrientation/main.cpp:400-412 | the values the do-while loop reads from a position on, up to the first failed conversion; `TokensFromInRange` bounds them |
| MaskParser.TokensFromInRange | RandomOrientation/main.cpp:400-412 | the loop reads at most one value per remaining character, each in the range of a 64-bit long |
| MaskParser.Tokens | RandomOrientation/main.cpp:400-412 | the values read from a whole line, starting at `end = s` |
| MaskParser.ScanDigitsOfRun | RandomOrientation/main.cpp:404 | `strtol`'s digit loop consumes exactly a maximal run of digits and accumulates its decimal value |
| MaskParser.AccumulateDecimal | RandomOrientation/main.cpp:404 | reading the decimal digits of a natural number gives that number back |
| MaskParser.StrtolOfNumeral | RandomOrientation/main.cpp:404 | after leading white space, `strtol` reads a numeral up to the space or line end behind it, returning its value and the position after it |
| MaskParser.TokensOfSeparated | RandomOrientation/main.cpp:400-404 | repeated `strtol` calls on numerals each preceded by one space return their values, in order, and then nothing more |
| MaskParser.TokensOfJoined | RandomOrientation/main.cpp:400-404 | repeated `strtol` calls on numerals separated by single spaces return their values, in order |
| MaskParser.SpelledValues | RandomOrientation/main.cpp:400-404 | facet indices in long range written in decimal are numerals whose values are those indices |
| MaskParser.TokensOfRender | RandomOrientation/main.cpp:400-404 | the values `strtol` reads from a line of indices written in decimal are exactly those indices |
| MaskParser.CheckChain | RandomOrientation/main.cpp:405-413 | the values are rejected as out of range iff one is below 0 or above _NoF (the bound itself is accepted), rejected as empty iff none was read, and otherwise kept unchanged |
| MaskParser.ParseChain | RandomOrientation/main.cpp:400-413 | the corrected reading of a line: the range and emptiness checks on the values `strtol` returned; its properties are the contract of `ParsedChainIsValid` |
| MaskParser.ParseChainAsWritten | RandomOrientation/main.cpp:400-413 | the line as written: each value narrowed to `int` before the checks; `WrappedIndexPassesCheck` shows where it differs |
| MaskParser.NegativeIndexRejected | RandomOrientation/main.cpp:404-407 | a line starting with a negative index ("-k" not followed by a digit) is rejected as out of range |
| MaskParser.HugeIndexClamped | RandomOrientation/main.cpp:404-407 | a line starting with an index beyond LONG_MAX reads LONG_MAX and so is rejected as out of range |
| MaskParser.TokensStopAtWord | RandomOrientation/main.cpp:400-412 | reading "3 x 99" stops at the word: only 3 is read and the chain [3] is kept |
| MaskParser.ReadChain | RandomOrientation/main.cpp:400-413 | the do-while loop of `MaskAppend` returns exactly the chain or error that the range and emptiness checks give on the values `strtol` reads, in order, up to the first position where nothing converts |
| MaskParser.ParsedChainIsValid | RandomOrientation/main.cpp:405-413 | a kept chain is the values read, is non-empty and names facets in [0, _NoF]; a line is rejected iff it holds no integer or one outside that range |
| MaskParser.RenderRoundTrip | RandomOrientation/main.cpp:400-414 | a non-empty chain of valid facet indices written in decimal, separated by spaces, is read back as exactly that chain |
| MaskParser.NarrowToInt | RandomOrientation/main.cpp:404 | `int facet_numb = strtol(...)` keeps a value in the 32-bit int range congruent to the long modulo 2^32 |
| MaskParser.WrappedIndexPassesCheck | RandomOrientation/main.cpp:404-407 | as written, the line "4294967297" passes the range check as facet 1; checked on the value strtol returned it is rejected |
| MaskParser.HugeIndexRejectedAsWritten | RandomOrientation/main.cpp:404-407 | as written, a line starting with an index beyond LONG_MAX is still rejected: the clamped LONG_MAX narrows to −1 |
| MaskParser.MostNegativeIndexPassesCheck | RandomOrientation/main.cpp:404-407 | as written, the line "-k" with k ≥ 2^63 is accepted as facet 0, since the clamped LONG_MIN narrows to 0; checked on the value strtol returned it is rejected |
| ParamsFile.KindOf | RandomOrientation/main.cpp:117-152 | `main` builds a particle iff the kind code `KoP` is 0..4; any other code leaves `Body` NULL |
| ParamsFile.FacetCount | RandomOrientation/main.cpp:367-373 | the switch sets `_NoF` iff the kind code is 0..4, to a count between 7 and 20 (the helper `FacetsOf` gives each particle's count); otherwise `_NoF` keeps its value |
| ParamsFile.FacetTableMatchesKinds | RandomOrientation/main.cpp:367-373 | for a kind value below 2^32, `ReadFile`'s switch on `int(params[0])` sets `_NoF` iff `main`'s switch on the unsigned `KoP = params[0]` (line 95) builds a particle, and then to that particle's facet count (prism 8, bullet 13, pyramid 7, tapered prism 20, cup 14); from 2^31 on, the facet table never sets `_NoF` |
| ParamsFile.KindSwitchesDisagreeBeyondUnsigned | RandomOrientation/main.cpp:367-373 | for params[0] = 2^32 + 1, `KoP` (line 95) is 1 and `main` builds a bullet, while `int(params[0])` is INT_MIN and `_NoF` is not set |
| ParamsFile.Truncate | RandomOrientation/main.cpp:367-378 | a double converted to an integer loses its fraction toward zero: the result is within one of the value, on the side of zero |
| ParamsFile.ToUnsigned | RandomOrientation/main.cpp:374-378 | a double stored in an unsigned int lies in [0, 2^32); it is the value's integer part whenever that fits, congruent to the truncated value modulo 2^32 when that fits a long, and 0 otherwise |
| ParamsFile.KindCode | RandomOrientation/main.cpp:367 | `int(params[0])` of a non-negative value is its integer part below 2^31 and INT_MIN from 2^31 on |
| ParamsFile.HeaderStop | RandomOrientation/main.cpp:359-364 | the parameter loop, started at line i, stops at a line between i and 13 |
| ParamsFile.HeaderStopStops | RandomOrientation/main.cpp:359-364 | every line the parameter loop passes is present and non-negative, and when it stops before 13 it is at a missing or negative line |
| ParamsFile.HeaderStopIsFirst | RandomOrientation/main.cpp:359-364 | any index before which every line is present and non-negative, and at which the loop stops, is where the parameter loop stops |
| ParamsFile.ReadSpec | RandomOrientation/main.cpp:354-391 | the reading writes at most 13 entries of `params`, and all 13 when it returns 0 |
| ParamsFile.LineChainsAt | RandomOrientation/main.cpp:384-385 | entry i of the per-line results is what `MaskAppend` makes of line i |
| ParamsFile.LineChains | RandomOrientation/main.cpp:384-385 | one result per line of the file (the chain, or the error `MaskAppend` throws) for the current `_NoF` |
| ParamsFile.MaskLines | RandomOrientation/main.cpp:380-386 | the reference definition of the trajectory loop over Sorting lines: accepted chains in order, stopping at the first throw or the end of the file; its properties are the contracts of `MaskLinesCount` and `MaskLinesDone` |
| ParamsFile.MaskLinesCount | RandomOrientation/main.cpp:380-386 | the trajectory loop appends at most Sorting chains, exactly Sorting iff it completes, and throws only an error some line raised |
| ParamsFile.NoLineIsNegative | RandomOrientation/main.cpp:395-415 | `MaskAppend` never throws the negative-parameter message |
| ParamsFile.TrajectoriesNeverNegative | RandomOrientation/main.cpp:380-386 | the trajectory section never ends by throwing the negative-parameter message |
| ParamsFile.MaskLinesDone | RandomOrientation/main.cpp:380-386 | when the trajectory loop completes, chain j is the one accepted from line j after the Sorting line |
| ParamsFile.FileTooShort | RandomOrientation/main.cpp:359-361 | a file of fewer than 13 non-negative lines makes `ReadFile` return 1 with the globals untouched |
| ParamsFile.NegativeParameterThrows | RandomOrientation/main.cpp:362-363 | a negative parameter after present non-negative ones throws, after writing it into `params`, with the globals untouched |
| ParamsFile.NegativeValueIff | RandomOrientation/main.cpp:359-364 | `ReadFile` throws "All values must be positive" iff some line among the first 13 is negative, and then sets no global |
| ParamsFile.DoneMeansAllRead | RandomOrientation/main.cpp:359-390 | a reading that returns 0 read 13 non-negative values, set `_NoF` from the table (or kept it for an unknown kind) and `Itr` from line 10; with a Sorting line, exactly Sorting chains are appended, each accepted from its line; without one, Sorting and `mask` keep their values |
| ParamsFile.MaskLinesOfRendered | RandomOrientation/main.cpp:380-386 | trajectory lines written from valid chains are read back as those chains, in order |
| ParamsFile.RenderedLineReads | RandomOrientation/main.cpp:384-385 | line n of a trajectory section written from valid chains exists and `MaskAppend` accepts it as chain n |
| ParamsFile.MaskLinesAllOk | RandomOrientation/main.cpp:380-386 | when every remaining trajectory line is accepted as the next chain, the loop appends all of them in order and completes |
| ParamsFile.WellFormedFileReads | RandomOrientation/main.cpp:354-391 | a file with 13 non-negative values, a known kind, and a Sorting line counting its trajectory lines (each written as its facet indices) returns 0, sets `_NoF` from the table and appends exactly those trajectories to `mask` |
| ParamsFile.Settings.constructor | RandomOrientation/main.cpp:32-47 | `_NoF`, `Itr` and `Sorting` start at 0 and `mask` starts empty |
| ParamsFile.Settings.MaskAppend | RandomOrientation/main.cpp:395-415 | an accepted line appends exactly one chain, the values read, to `mask`; a rejected line throws its error and leaves `mask` as it was; `_NoF`, `Itr` and `Sorting` are not touched |
| ParamsFile.Settings.ReadTrajectories | RandomOrientation/main.cpp:380-386 | the counted loop over the trajectory lines appends what the trajectory-section specification says and ends as it says; its helper `Settings.AppendLine` is one pass of lines 384-385, `MaskAppend` restated over the file's lines |
| ParamsFile.Settings.ReadFile | RandomOrientation/main.cpp:354-391 | `ReadFile` returns, throws and sets `_NoF`, `Itr`, `Sorting` and `mask` exactly as `ReadSpec` says; `params` holds the lines read, and its other entries are unchanged |
| ParamsFile.ReadParameters | RandomOrientation/main.cpp:359-364 | the for-loop stops where `HeaderStop` says and copies each line it read, including a negative one, into `params` |

## Left out

- The beam-splitting tracer, the particle geometry classes, Fresnel coefficients, `Mueller()`,
  `CrossSection()` and `RightRotateMueller`. They live in the library headers, which are not
  part of this model. Their results are fields of the `Beam` record.
- `acos`, `cos`, `sin` and `sqrt`, including the azimuth computation of
  RandomOrientation/main.cpp:339-346. The rotated matrix is a given field, and the model keeps
  only the condition r.y² > DBL_EPSILON that chooses it.
- Floating-point rounding. Doubles are exact reals, so `D_tot` conservation holds exactly in
  the model, while in the program it holds up to rounding. NaN and infinite values from
  `strtod` are not modelled.
- The orientation loops, the `P = sin(beta)` weights, random orientation with `rand()`, timing
  with `clock`, `NRM` and the solid-angle factor. `P` is a parameter of `Handle`.
- File and console I/O, Qt directory setup, `ShowTitle`, and the output files `back.dat`,
  `forward.dat`, `M.dat` and `out.dat`. `strtod` is not modelled: each line carries the value
  it reads.
- `getline`'s limit of 255 characters per line (a longer line sets failbit) and a
  PARAMS.DAT that cannot be opened.
- ReadFile's parameter `n`. `main` always passes NumberOfParameters (13), and the body uses
  `params[10]` regardless, so the model fixes n at 13.
- Double-to-integer conversions outside the target range are undefined behaviour in C++. The
  model gives them the results of gcc's code for x86-64, as described above; another compiler
  may give others.
- ParamsFile.KindCode: `int(params[0])` from 2^31 on is undefined behaviour; the model gives
  it gcc's INT_MIN, not a value the C++ standard promises.
- ParamsFile.FacetTableMatchesKinds: the two switches are proved to agree only for
  params[0] < 2^32. From 2^32 on, `KoP` keeps the low 32 bits while `int(params[0])` is
  INT_MIN, so `main` can build a particle whose `_NoF` the facet table never set
  (ParamsFile.KindSwitchesDisagreeBeyondUnsigned shows 2^32 + 1).
- The first axis of `mxd` has size 1 and is dropped.
- The particle constructors and the symmetry angles of `main`'s switch. `KindOf` keeps only
  which particle is chosen.
- MaskParser.ReadChain: makes the range check on the `long` that `strtol` returned, the
  corrected reading of the finding below. The code checks the value narrowed to `int`
  (MaskParser.ParseChainAsWritten). For an index within `long` range (|k| ≤ 2^63 − 1) it
  accepts any value congruent modulo 2^32 to one in [0, _NoF], such as "4294967297" as
  facet 1. An index above LONG_MAX is clamped to LONG_MAX, which narrows to −1, and is
  rejected (MaskParser.HugeIndexRejectedAsWritten). An index "-k" with k ≥ 2^63 is clamped
  to LONG_MIN, which narrows to 0, and is accepted as facet 0
  (MaskParser.MostNegativeIndexPassesCheck).
- ParamsFile.Settings.MaskAppend: uses MaskParser.ReadChain, so it applies the same corrected
  range check.
- ParamsFile.ReadSpec: reads each trajectory line with MaskParser.ParseChain, the same
  corrected range check.
- ParamsFile.Settings.ReadFile: proved equal to ParamsFile.ReadSpec, so it applies the same
  corrected range check.
- Collector.Accumulators.constructor: `thetaNumber` is an unbounded natural. In the code
  ThetaNumber is an `unsigned int`: at 4294967295, `ThetaNumber+1` (RandomOrientation/main.cpp:158) wraps to 0 and
  no bins are allocated, while the model allocates 2^32.
- Collector.Accumulators.TotalScattering: for the same ThetaNumber, the code's
  `j<=ThetaNumber` loop over an unsigned `j` (RandomOrientation/main.cpp:216) never ends, while the model's loop
  ends after 2^32 bins.

## Findings

| source | as written | input that shows it | evidently intended | confidence | as-written member | corrected member |
|---|---|---|---|---|---|---|
| RandomOrientation/main.cpp:404-407 | `int facet_numb = strtol(buf, &end, 10)` narrows the 64-bit long to int before the range check, so a huge index wraps into range | the trajectory line "4294967297" with `_NoF` = 8 is accepted as facet 1; "-9223372036854775809" is accepted as facet 0 (MaskParser.MostNegativeIndexPassesCheck) | the range check applies to the value `strtol` read, so that line is rejected as out of range | not executed; assumes a 64-bit long and gcc's modulo-2^32 conversion to int | MaskParser.WrappedIndexPassesCheck | MaskParser.ParsedChainIsValid |

`MaskParser.ParseChainAsWritten` models the line as written. `MaskParser.ParseChain` is the
corrected reading, which the rest of the model uses.
