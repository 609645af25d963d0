# rain-predictor core, modelled in Dafny

The rain predictor is a weather-radar pipeline. Radar GIF frames are cut
down to a window and converted into intermediate `.bin` files: a seven-line
text header followed by a gzip-compressed byte buffer. A generator groups
each pixel of the window into one of 34 spatial "modules" (8 sectors in each
of 4 rings, a bullseye and a tripwire). Further scripts:

- label sequences of frames with rain and heavy-rain flags;
- collect runs of 36 consecutive frames as training candidates;
- veto the quietest candidates;
- split what is left into a training set and a validation set;
- histogram a network's predictions.

This project models the deterministic part of that pipeline and proves what
each step promises. There is one module per script:

| module | file | what it models |
|---|---|---|
| `BinFile` | `binfile.dfy` | `rpreddtypes.py`: the `.bin` header reader (a class whose fields `readHeader` sets line by line), the writer, the 1-D/2-D buffer accessors and the `genhash` preimage |
| `Generator` | `generator.dfy` | `rpgenerator.py`: `buildModules`, which classifies one quadrant, rotates it into the other three, grows the bullseye and builds the tripwire ring; `loadFromFiles`, `__len__`, `getModuleSizes`, `normalize` |
| `TrueVals` | `truevals.dfy` | `prepare-true-vals.py`: `rotate_pixel_CCW` and the decision loop of `rainPresent` |
| `RainInputs` | `raininputs.dfy` | `make-rain-inputs.py`: the window crop and the colour-to-intensity conversion, one bin file per frame |
| `TrainingSet` | `trainingset.dfy` | `get-training-set.py`: record filtering, the run-of-36 scan and the OR binning of flags |
| `Vetoes` | `vetoes.dfy` | `make-vetoes.py`: candidate screening, intensity sums, the sort, veto selection with a keep-stride, and thinning |
| `Baseline` | `baseline.dfy` | `find-baseline.py`: block-layout checks, the three-way per-pixel vote, `find_index_of_tuple` |
| `Overlays` | `overlays.dfy` | `sum-overlays.py`: the AND of overlay transparency into one output block, which is an array updated in place |
| `PlotPre` | `plotpre.dfy` | `plotpreproc.py`: the pixel-to-module grid and the three output planes, all `array2`s filled cell by cell |
| `DataSplit` | `datasplit.dfy` | `datasplit.py`: the veto filter, the reservation count, and split-then-sort |
| `Predictor` | `predictor.dfy` | `predictor.py`: argument checks, `histBinNum`, confusion-matrix columns, and the histogram array |

Shared modules:

- `Util`: `Result`/`Option`, bytes, and Python's truncating and flooring arithmetic.
- `Text`: decimal and hex formatting and parsing, `split(" ")`, ASCII.
- `Sorting`: a reference insertion sort standing in for `list.sort()`.
- `GifData`: the decoded-GIF value the scripts read.

Every script's main program is a method. Its `ensures` ties its result to a
specification function. Lemmas then prove what the script promises about
that function.

Where a script's header comment and its code disagree, the model follows
the code. The header of `find-baseline.py` (lines 5-7) says the script
exits when the three frames have no majority colour at a pixel, but the
vote at lines 141-153 leaves such a pixel out of the output block and goes
on (`Baseline.PixelVote`, `Baseline.Winners_Exact`).

## Model

| member | source | states |
|---|---|---|
| `BinFile.BinReader.constructor` | rpreddtypes.py:39-47 | a new reader has version 0, an empty buffer, zero sizes and offsets, and total rain -1 |
| `BinFile.BinReader.ReadHeader` | rpreddtypes.py:53-120 | a rejected header leaves the reader's error equal to the header parser's; an accepted one sets every field to the parsed value; with data requested the buffer is the decompressed body and `blen` is width*height; the call succeeds exactly when `Read` of the same bytes does, and then returns the same header and buffer |
| `BinFile.BinReader.ReadHeaderLines` | rpreddtypes.py:60-76 | the reader's fields and error are those of the header parser; which lines that parser accepts is stated by `ParseHeader_Lines` and `ParseHeader_Preamble` |
| `BinFile.BinReader.ReadWidth` | rpreddtypes.py:78-83 | the fields and error are those of `ParseWidth`, whose WIDTH-keyword and sign requirement `ParseWidth_Lines` states |
| `BinFile.BinReader.ReadHeight` | rpreddtypes.py:85-90 | the fields and error are those of `ParseHeight`, which tests the width line's keyword again, so any key is accepted on the height line (`ParseHeader_HeightKeyIgnored`) |
| `BinFile.BinReader.ReadXOffset` | rpreddtypes.py:92-97 | the fields and error are those of `ParseXOffset`, whose XOFFSET requirement `ParseXOffset_Lines` states |
| `BinFile.BinReader.ReadYOffset` | rpreddtypes.py:99-104 | the fields and error are those of `ParseYOffset`, whose YOFFSET requirement and version-1 stop `ParseYOffset_Lines` states |
| `BinFile.BinReader.ReadTotalRain` | rpreddtypes.py:106-112 | the fields and error are those of `ParseTotalRain`, whose TOTALRAIN requirement `ParseTotalRain_Lines` states |
| `BinFile.ParseHeader_Valid` | rpreddtypes.py:60-112 | an accepted header has version 1 or 2, no negative size or offset, and a total rain exactly when the version is 2 |
| `BinFile.ParseHeader_Lines` | rpreddtypes.py:60-112 | readHeader accepts exactly the files whose line 0 is `RAIN PREDICTOR BIN FILE`, line 1 `VERSION 1` or `VERSION 2`, line 2 `WIDTH w`, line 3 any keyword with a value, lines 4-5 `XOFFSET x` and `YOFFSET y`, with w, the height, x and y non-negative, and for version 2 line 6 `TOTALRAIN t`; the header read is the one those lines give |
| `BinFile.ParseHeader_Preamble` | rpreddtypes.py:60-76 | a wrong magic line and a second line with another keyword are not valid files; `VERSION v` with v other than "1" or "2" is reported as unsupported version v |
| `BinFile.ParseHeader_HeightKeyIgnored` | rpreddtypes.py:85-90 | two files that differ only in the keyword of the height line read the same |
| `BinFile.ParseWidth_Lines` | rpreddtypes.py:78-112 | from the WIDTH line on, the rest of the header is accepted exactly when lines 2-5 (and 6 for version 2) carry their keywords and values |
| `BinFile.ParseHeight_Lines` | rpreddtypes.py:85-112 | from the height line on: a non-negative value with any keyword, then the offset and total-rain lines |
| `BinFile.ParseXOffset_Lines` | rpreddtypes.py:92-112 | from the XOFFSET line on: `XOFFSET x` and `YOFFSET y` with x, y >= 0, then the total-rain line for version 2 |
| `BinFile.ParseYOffset_Lines` | rpreddtypes.py:99-112 | from the YOFFSET line on: `YOFFSET y` with y >= 0; version 1 stops after it, version 2 needs the TOTALRAIN line |
| `BinFile.ParseTotalRain_Lines` | rpreddtypes.py:106-112 | a version 2 header ends with `TOTALRAIN t`, for any integer t, and stores t |
| `BinFile.BinReader.GetTotalRain` | rpreddtypes.py:138-142 | the total rain is returned exactly when the version is at least 2, and is an error otherwise |
| `BinFile.BinReader.Get1DBuffer` | rpreddtypes.py:145-149 | the buffer is returned exactly when it is non-empty |
| `BinFile.BinReader.GetNumpyArray` | rpreddtypes.py:151-160 | an empty buffer is an error, a too-short one an index error; otherwise a width x height array with cell [a, b] = buffer[a*height + b] |
| `BinFile.CopyRow` | rpreddtypes.py:156-160 | row a of the grid gets its buffer entries and every other row is unchanged |
| `BinFile.ParseHeader_Write` | rpreddtypes.py:168-185 | the seven lines `write` emits parse back as version 2 with the same width, height, offsets and total rain, and the body is the compressed values |
| `BinFile.Read_Write` | rpreddtypes.py:114-120 | when decompression undoes compression, reading a written file gives back header and values exactly when there are width*height values, and reports corruption otherwise |
| `BinFile.GenHash` | rpreddtypes.py:188-205 | the hash is the first eight (or fewer) hex characters of the digest of the preimage |
| `BinFile.HashPreimage_Length` | rpreddtypes.py:194-203 | for 32-bit values the preimage is 8 hex digits per field: seed, centre, each sensitive pair, threshold |
| `BinFile.HashPreimage_Injective` | rpreddtypes.py:194-203 | for 32-bit values equal preimages mean equal seed, centre, sensitive list (order included) and threshold |
| `BinFile.SenseHex_Injective` | rpreddtypes.py:198-201 | the hex of two equally long pixel lists followed by any text determines both lists and the rest |
| `Text.Hex8_Exact` | rpreddtypes.py:194 | `'{0:0>8x}'` of a 32-bit value is exactly eight hex digits that read back as the value |
| `Text.Hex8_Injective` | rpreddtypes.py:194 | distinct 32-bit values get distinct 8-digit hex strings |
| `Text.ParseInt_Decimal` | rpreddtypes.py:175-183 | `int()` of a written decimal field gives back the number |
| `Text.DecodeAscii_Ascii` | rpreddtypes.py:60 | decoding ASCII bytes undoes encoding an ASCII string |
| `Text.Split_Pair` | rpreddtypes.py:65-66 | `split(" ")` of a key, a space and a value without spaces gives exactly the pair |
| `Generator.Classify_Sector` | rpgenerator.py:101-129 | a pixel outside the bullseye gets a ring/sector module below 32 of sector 0 or 1, the even one exactly when dJ < dI |
| `Generator.Classify_Nested` | rpgenerator.py:16-21 | a pixel nearer the centre than a classified one is classified too, in the same or an inner ring |
| `Generator.Column_Shape` | rpgenerator.py:106-129 | a column scan visits rows j, j-1, ... in order, each classified, and stops early only at a pixel beyond the outer radius |
| `Generator.Scan_Shape` | rpgenerator.py:101-129 | the quadrant scan classifies every pixel it records and stays within the quadrant |
| `Generator.Quadrant_Classified` | rpgenerator.py:89-129 | every pixel in a module after the quadrant scan is the centre (in the bullseye) or a quadrant pixel classified into that module |
| `Generator.Quadrant_Complete` | rpgenerator.py:101-129 | every pixel of the scanned quadrant (c.0 <= i < 2*c.0, 1 <= j <= c.1) that is classified into m is in module m, so with `Quadrant_Classified` the modules split the classified quadrant pixels by their classification |
| `Generator.ScanQuadrant` | rpgenerator.py:101-129 | the imperative scan builds exactly the specified quadrant modules |
| `Generator.ClassifyPixel` | rpgenerator.py:110-127 | the if-chain returns the specified classification |
| `Generator.ScanColumn` | rpgenerator.py:106-129 | one column of the scan adds its classified pixels to their modules |
| `Generator.Rotated_Sizes` | rpgenerator.py:136-138 | after rotation every sector module has the length of the quadrant module of its parity in the same ring |
| `Generator.Rotated_Step` | rpgenerator.py:137-138 | module b+i+2 is module b+i with every [x, y] mapped to [y, -x] |
| `Generator.Rotated_Bullseye` | rpgenerator.py:141-143 | the bullseye ends with 7 chunks and chunk k+1 is the [y, -x] image of chunk k |
| `Generator.Bullseye_Length` | rpgenerator.py:141-143 | n growth rounds give n chunks of the starting length |
| `Generator.Bullseye_Chunk` | rpgenerator.py:141-143 | entry p of chunk k is the k-fold rotation of starting pixel p |
| `Generator.RotateQuadrants` | rpgenerator.py:136-143 | the in-place rotation and growth loops produce exactly the specified rotated modules |
| `Generator.TurnSectors` | rpgenerator.py:137-138 | one turn of the inner loop rotates sector i+2 of every ring and leaves the others as they were |
| `Generator.GrowBullseye` | rpgenerator.py:141-143 | one round of the growth loop appends the next rotated chunk |
| `Generator.Dedup_Props` | rpgenerator.py:147-165 | membership-checked appends never create a duplicate and keep exactly the pixels offered |
| `Generator.Tripwire_Reflections` | rpgenerator.py:147-165 | for every swept offset the sampled point at the integer radius and its reflection 2*sr - coord are in the tripwire |
| `Generator.TripwireRing` | rpgenerator.py:147-165 | the ring loop builds the deduplicated sweep |
| `Generator.AddArc` | rpgenerator.py:152-165 | one offset adds its four points, each only if not yet present |
| `Generator.AppendNew` | rpgenerator.py:153-165 | a pixel is appended exactly when it is not yet in the list |
| `Generator.RPDataGenerator.constructor` | rpgenerator.py:16-36 | the fields are the arguments, with the radii as given, the hash is `genhash` of centre, region and threshold, and the maps, list and modules are empty |
| `Generator.RPDataGenerator.BuildModules` | rpgenerator.py:89-165 | a scaling of 0 is a ZeroDivisionError and an empty sensitive region an IndexError (with the modules as far as they got); otherwise the modules become the layout around the scaled centre and the scaled first sensitive pixel |
| `Generator.RPDataGenerator.ModuleSizes_Layout` | rpgenerator.py:168-172 | a built generator reports 34 sizes; same-parity sectors of a ring have equal sizes and the bullseye is 7 times its first chunk |
| `Generator.RPDataGenerator.GetModuleSizes` | rpgenerator.py:168-172 | the module lengths when scaling is 1, twice them otherwise |
| `Generator.RPDataGenerator.Len` | rpgenerator.py:77-78 | a batch size of 0 is a ZeroDivisionError; a positive one gives 1 + len(seqlist) div batch size, so the batches cover the list |
| `Generator.RPDataGenerator.Normalize_Increasing` | rpgenerator.py:174-178 | `normalize` is strictly increasing |
| `Generator.RPDataGenerator.Normalize_Step` | rpgenerator.py:174-178 | the step into the heavy threshold is 6/20, every other step 1/20 |
| `Generator.Kept_Member` | rpgenerator.py:56-66 | a seqno is listed exactly when some record with the hash and an unvetoed seqno has it |
| `Generator.Sequences_Lookup` | rpgenerator.py:56-66 | a kept seqno maps to the values of its last kept record, and other keys keep their old values |
| `Generator.Paths_Last` | rpgenerator.py:42-46 | a named seqno maps to the path of its last record |
| `Generator.Paths_Unnamed` | rpgenerator.py:42-46 | a seqno named by no record keeps its old path |
| `Generator.RPDataGenerator.LoadFromFiles` | rpgenerator.py:41-69 | the path map, sequence map and list become the specified ones in file order; with shuffling on, the unqualified `shuffleSequence()` call is a NameError |
| `Generator.RPDataGenerator.ShuffleSequence` | rpgenerator.py:69-72 | the call as written raises NameError |
| `Generator.NewGenerator` | rpgenerator.py:13-69 | a scaling of 0 (ZeroDivisionError), an empty sensitive region (IndexError) or shuffling (NameError) yields no generator; otherwise a built generator with the specified hash, path map and kept sequences |
| `TrueVals.RotatePixelCCW` | prepare-true-vals.py:67-94 | nDiv 1 returns the pixel for any rotNum; bad arguments are an error; nDiv 2 and 4 are exact; any other nDiv fails; every result keeps its squared distance to the centre |
| `TrueVals.HalfTurn` | prepare-true-vals.py:81-84 | nDiv 2, and nDiv 4 with rotation 2, are both the point reflection through the centre |
| `TrueVals.QuarterTurn_Inverse` | prepare-true-vals.py:86-94 | quarter turns 1 and 3 undo each other |
| `TrueVals.QuarterTurn_Twice` | prepare-true-vals.py:86-94 | quarter turn 1 twice is the half turn, and the half turn twice is the identity |
| `TrueVals.Sweep_Readable` | prepare-true-vals.py:135-145 | over readable pixels the loop stops heavy exactly when the running maximum reaches the threshold, and otherwise reports whether any pixel rained and whether all were at most 1 |
| `TrueVals.Decide_Flags` | prepare-true-vals.py:147-169 | the answer is [0,0], [1,0] or [1,1], [1,1] exactly when heavy was reached, and rain above 1 gives [1,0] without the network |
| `TrueVals.RainPresent` | prepare-true-vals.py:115-169 | the loop with early returns gives the decision for the specified sweep |
| `TrueVals.Clip` | prepare-true-vals.py:155-163 | the clipped window has the window's shape and each cell from the frame; any row or column out of range is an error |
| `TrueVals.ClipWindow` | prepare-true-vals.py:155-163 | the copy loop builds exactly the clipped window |
| `RainInputs.Intensity` | make-rain-inputs.py:144-152 | the value is 1 + the index of the first matching code, or 0 when none matches |
| `RainInputs.IntensityOf` | make-rain-inputs.py:144-152 | the search loop returns that value |
| `RainInputs.WindowPixels_Exact` | make-rain-inputs.py:120-132 | the scanned pixels are exactly those in the window's rows and columns, in increasing order |
| `RainInputs.ValueOf` | make-rain-inputs.py:133-152 | a pixel beyond the buffer or matching the baseline colour gives 0, otherwise its intensity |
| `RainInputs.Scan_Values` | make-rain-inputs.py:118-153 | the pixel loop, with its `continue` and `break`, yields the values of the window pixels in order |
| `RainInputs.Values_Range` | make-rain-inputs.py:147-152 | there is one value per window pixel and each lies in [0, len(intensities)] |
| `RainInputs.Values_At` | make-rain-inputs.py:133-152 | each output value is the value of the window pixel at the same position |
| `RainInputs.ConvertPixels` | make-rain-inputs.py:118-153 | the loop returns the specified values, and its total rain is their sum |
| `RainInputs.MakeSettings` | make-rain-inputs.py:72-81 | a width or height of -1 means the baseline's, any other value is taken as given |
| `RainInputs.ConvertFile` | make-rain-inputs.py:84-159 | one frame's bin file, or the error that stops the script |
| `RainInputs.Run_Outcome` | make-rain-inputs.py:84-159 | frames are written in order until the first failure, which is the frame after the last one written or a write that failed |
| `RainInputs.MakeRainInputs` | make-rain-inputs.py:52-159 | the script's files and its stop are the specified ones |
| `TrainingSet.Matching_Member` | get-training-set.py:79-80 | a record is kept exactly when it has the wanted hash |
| `TrainingSet.Data_Lookup` | get-training-set.py:88-90 | a seqno is stored exactly when listed, holding [nRots] + flags of its last record |
| `TrainingSet.RotState_Props` | get-training-set.py:83-86 | the tracked count is the last record's, and the skip flag is set when two records disagree |
| `TrainingSet.NRots_Consistency` | get-training-set.py:93-94 | agreeing records keep their rotation count; disagreeing ones force it to 0 |
| `TrainingSet.LoadTrueVals` | get-training-set.py:76-90 | the loop builds the seqno list, data map and rotation state of the kept records |
| `Sorting.Sort` | get-training-set.py:92 | the result is sorted and a permutation of the input |
| `TrainingSet.CheckRun` | get-training-set.py:105-112 | a gap is reported exactly when one exists, and the scan then resumes at the gap; otherwise 36 consecutive seqnos start here |
| `TrainingSet.Starts_Exact` | get-training-set.py:101-133 | the scan emits, in increasing order, exactly the starts of runs of 36 below its bound |
| `TrainingSet.AllRuns` | get-training-set.py:102 | with the bound idx <= len - 36 every run is found |
| `TrainingSet.Starts_MissesLastRun` | get-training-set.py:102 | with the bound idx < len - 36 a list that is one run of 36 yields nothing |
| `TrainingSet.Run_Values` | get-training-set.py:105-112 | inside a run the k-th seqno is the first plus k |
| `TrainingSet.BinFlags` | get-training-set.py:122-129 | the binning loop returns the specified ten bins |
| `TrainingSet.CandidateRows_Shape` | get-training-set.py:117-131 | each candidate gives one row per rotation, with its seqno, hash, count, rotation index and bins |
| `TrainingSet.EmitCandidate` | get-training-set.py:117-131 | the rotation loop prints the specified rows |
| `TrainingSet.ScanFrom_Emit` | get-training-set.py:101-133 | the scan prints the rows of the run starts, in order |
| `TrainingSet.ScanStep` | get-training-set.py:103-133 | one pass prints the rows at idx and moves idx forward |
| `TrainingSet.FindCandidates` | get-training-set.py:101-133 | the while loop prints the rows of the scan from index 0 |
| `TrainingSet.GetTrainingSet` | get-training-set.py:76-133 | the script prints the specified rows or stops with the specified error |
| `Vetoes.ReadTotalRain` | make-vetoes.py:69-71 | each sequence file's total rain, or the read error |
| `Vetoes.LoadIntensities` | make-vetoes.py:62-71 | the loop maps each seqno to its file's total rain |
| `Vetoes.Screened_Exact` | make-vetoes.py:78-85 | a candidate is kept exactly when fields 4 to 13 all read "0", and skipped exactly when one read before the line ends does not |
| `Vetoes.Screen` | make-vetoes.py:78-85 | the field loop gives that verdict |
| `Vetoes.WindowTotal_Sum` | make-vetoes.py:87-89 | the sum exists exactly when all six seqnos are known, and is their total rain |
| `Vetoes.SumOf` | make-vetoes.py:87-89 | the summing loop returns the six-frame total |
| `Vetoes.CollectSums` | make-vetoes.py:73-91 | the candidate loop collects the specified (sum, start) pairs |
| `Vetoes.PlotRows` | make-vetoes.py:95-97 | the plot rows are (sum, rank) in sorted order |
| `Vetoes.Eligible_Member` | make-vetoes.py:100-108 | the candidates open to vetoing are exactly the sorted positions not divisible by the keep-stride |
| `Vetoes.Select_Eligible` | make-vetoes.py:100-108 | the vetoes are the first recordsToDiscard eligible candidates from the lowest sum |
| `Vetoes.Select_ZeroStride` | make-vetoes.py:102-106 | a keep-stride of 0 is a division by zero |
| `Vetoes.SelectVetoes` | make-vetoes.py:100-108 | the selection loop returns that list |
| `Vetoes.Thin` | make-vetoes.py:115-123 | the output is the candidate records, in their order, minus the vetoed ones |
| `Vetoes.MakeVetoes` | make-vetoes.py:62-123 | the script's plot rows, veto list and thinned candidates, or its error, are those of `MakeVetoesSpec` |
| `Vetoes.MakeVetoesSpec_Outputs` | make-vetoes.py:94-123 | once the sums exist the plot rows are (sum, rank) in sorted order with `--with-plotting-data` and none without, and are kept when a keep-stride of 0 then stops the script; otherwise the thinned file holds exactly the unvetoed candidates |
| `Baseline.FindIndexOfTuple` | find-baseline.py:33-39 | the hint is returned exactly when the table holds the needle there; otherwise the fallback loop fails |
| `Baseline.LayoutOffset` | find-baseline.py:85-102 | offset 0 for [Image, Trailer], 1 for [GCE, Image, Trailer], none for any other layout |
| `Baseline.Offsets_Err` | find-baseline.py:81-114 | the first input with another layout stops the script with its index |
| `Baseline.ImageOffsets` | find-baseline.py:81-114 | the loop returns the specified offsets |
| `Baseline.PixelVote` | find-baseline.py:136-153 | a pixel is written exactly when two colours agree, and then with a colour at least two inputs show |
| `Baseline.Votes_Majority` | find-baseline.py:133-153 | the vote succeeds exactly when every pixel's does, and writes one value per majority pixel, in order |
| `Baseline.Winners_Exact` | find-baseline.py:133-153 | the written positions are exactly the majority pixels |
| `Baseline.Vote` | find-baseline.py:133-153 | the vote loop returns the specified pixel block |
| `Baseline.FindBaseline_Ok` | find-baseline.py:49-160 | a baseline is produced only from three complete frames with equal sizes and supported layouts, with the first frame's size and colours |
| `Baseline.FindBaseline` | find-baseline.py:49-160 | the script returns the specified output or error |
| `Overlays.LastTransparent_Last` | sum-overlays.py:48-53 | the transparent colour comes from the last GCE block |
| `Overlays.LastPixels_Last` | sum-overlays.py:48-53 | the pixels come from the last Image block |
| `Overlays.ScanBlocks` | sum-overlays.py:48-53 | the block loop keeps the last of each |
| `Overlays.OverlayData` | sum-overlays.py:48-61 | an overlay is usable only with a non-zero transparent colour and non-empty pixels |
| `Overlays.ReadOverlay` | sum-overlays.py:48-61 | the method returns that data or the error that stops the script |
| `Overlays.ApplyOverlay` | sum-overlays.py:68-70 | the in-place loop clears every pixel that is not transparent in the overlay; it fails exactly when a non-transparent pixel lies beyond the block |
| `Overlays.ApplyStep` | sum-overlays.py:48-70 | one overlay's step, creating the all-ones block from the first overlay: its error or the masked block of `StepOf` |
| `Overlays.Combine_Mask` | sum-overlays.py:63-70 | the AND succeeds exactly when every overlay is usable and hides no pixel beyond the block, and a pixel stays 1 exactly when every overlay is transparent there or does not reach it |
| `Overlays.Combine_All` | sum-overlays.py:63-70 | the run succeeds exactly when every overlay is usable and hides no pixel beyond the first one's length; the result has that length and is 1 at i exactly when no overlay hides i |
| `Overlays.Combine_LongerTransparent` | sum-overlays.py:68-70 | a second overlay [1, 1] with transparent colour 1 after [1] gives the mask [1]; [1, 2] is an index error |
| `Overlays.Combine_OrderFree` | sum-overlays.py:63-70 | any reordering of the overlays with a first overlay of the same length also succeeds and gives the same mask |
| `Overlays.SumOverlays` | sum-overlays.py:28-78 | the script's output is the specified one, sized by the first overlay |
| `PlotPre.ClampSector` | plotpreproc.py:46-49 | the sector is clamped into [0, numRadialCuts - 1] |
| `PlotPre.ModuleAt` | plotpreproc.py:28-52 | a cell beyond the radius, or in a ring past the last, stays -1; any other cell is ring*numRadialCuts + clamped sector, below numModules |
| `PlotPre.ModuleCode` | plotpreproc.py:51-52 | the code is in range and its ring and sector read back |
| `PlotPre.ExactRing_Rim` | plotpreproc.py:35-37 | with the exact ring index, a rim cell gets ring numRings and stays -1 |
| `PlotPre.BuildModules` | plotpreproc.py:16-52 | the nested loops fill a fresh grid with the module of every cell |
| `PlotPre.FillColumn` | plotpreproc.py:28-52 | one column is filled and the others are unchanged |
| `PlotPre.FlattenGrid` | plotpreproc.py:96-100 | the flat block holds cell [row, col] at row*width + col |
| `PlotPre.Render` | plotpreproc.py:63-79 | the three planes are drawn exactly when every cell's prepared data exists, and each shows channel j of its module, 0 outside |
| `PlotPre.DrawRow` | plotpreproc.py:66-79 | one row is drawn and every other row is unchanged |
| `PlotPre.DrawCell` | plotpreproc.py:70-74 | the cell gets prepdata[3m], [3m+1], [3m+2], or stays 0 for -1 |
| `PlotPre.PlotPreproc` | plotpreproc.py:11-107 | every file before the first undrawable one is rendered |
| `DataSplit.VetoListNeverFilled` | datasplit.py:40-46 | as written, a veto file line "5" stops the script with a NameError; the intended list is [5] |
| `DataSplit.VetoesAsWritten` | datasplit.py:40-46 | as written the veto list is always empty: no veto file or an empty one is accepted, and any record, blank or not, is a NameError |
| `DataSplit.LoadVetoes` | datasplit.py:40-46 | the loop gives the first field of every veto line |
| `DataSplit.Keys` | datasplit.py:43-46 | the keys exist exactly when no line is blank, one per line |
| `DataSplit.Valid_Exact` | datasplit.py:52-57 | the valid candidates are exactly the lines whose seqno is not vetoed |
| `DataSplit.FilterCandidates` | datasplit.py:52-57 | the filter loop returns them |
| `DataSplit.NumReserved` | datasplit.py:60-66 | the count is validationCount when nonzero, else int(validationFrac * numValid), within [0, numValid] for a fraction in [0, 1] |
| `DataSplit.Split_Partition` | datasplit.py:59-78 | both sets are sorted, together a permutation of the valid candidates, and a count in range is the validation size |
| `DataSplit.Split_SkipsVetoed` | datasplit.py:40-78 | no vetoed seqno reaches either set, and every other candidate reaches one |
| `DataSplit.DataSplitScript` | datasplit.py:40-78 | the script returns the specified split or error |
| `Predictor.CheckArgs` | predictor.py:59-78 | the arguments pass exactly when a path file is given and one-shot mode is off; each conflict gives its error |
| `Predictor.HistBinNum` | predictor.py:13-18 | nBins-1 at or above 1, 0 at or below 0, and int(nBins*val) between, always within [0, nBins) |
| `Predictor.Column` | predictor.py:104-121 | column 2 or 3 exactly for a prediction of at least 0.5, and 1 or 3 exactly for a non-zero truth |
| `Predictor.Histogram_Total` | predictor.py:102-121 | every point adds exactly one count per bit |
| `Predictor.Histogram` | predictor.py:101-121 | every cell holds the number of points in its bit, column and bin |
| `Predictor.AddPoint` | predictor.py:104-121 | one point increments its own cell for its bit and nothing else |
| `Predictor.Predict` | predictor.py:59-132 | argument errors and a negative bin count stop the script; a histogram is returned exactly when one is asked for with test data, and then holds the specified counts (none with 0 bins and 0 points; 0 bins with points is an IndexError) |

## Left out

- gzip and MD5 are function parameters with no interpretation. `Read_Write` assumes only that decompression undoes compression.
- GIF decoding and encoding: frames are decoded `GifData.Gif` values (blocks, colour table, pixel indices, completeness). Writing the output GIFs is not modelled.
- File I/O is not modelled.
  - Files are byte sequences or parsed records.
  - argparse results are parameters.
  - Printed output is a returned value.
  - Warnings printed by `plotpreproc.py` (lines 76-79 and 98-99) are not modelled.
- `sys.exit` and uncaught exceptions become error results. Their messages are not modelled.
- `int()` on text is an optional sign followed by ASCII digits, with surrounding ASCII whitespace trimmed (`Text.ParseInt`). The `_` separators and non-ASCII whitespace Python also accepts are not modelled.
- Script records such as true-value and candidate lines are typed values. The ValueError of a malformed numeric field is not modelled, except where the model needs the field's presence (blank lines).
- Floating point:
  - `sqrt` and `atan2` in `plotpreproc.py` are the `ring` and `sector` parameters. An exact ring index is only used by `ExactRing_Rim`.
  - `int()` of a float truncates a Dafny `real` (`Util.TruncReal`).
  - `normalize`, `histBinNum` and the validation fraction are over `real`, not IEEE doubles.
  - The `uint8` store in `plotpreproc.py` is `% 256`.
- The phantom network's score and keras's predictions are inputs: the `phantom` predicate and `ypred`. The [-1, 1] scaling passed to the network is not modelled.
- The general-angle branch of `rotate_pixel_CCW` (prepare-true-vals.py:96-112) is modelled as the NameError it raises on the undefined `c` and `s`. Its trigonometry is not modelled.
- The main program of `prepare-true-vals.py` is not modelled: its rotation loop, and the call at line 235 that passes four arguments to `rainPresent`.
- `inputsFromOneFile`, `__getitem__` and `on_epoch_end` of `rpgenerator.py` are numpy batch assembly and are not modelled.
- `getScaledObject`, `getPreparedDataObject` and `getMaxRainval` are called but not defined in `rpreddtypes.py`. Their results are inputs: the scaled centre, the prepared data, the heavy value.
- `random.shuffle` is any permutation (`DataSplit.IsShuffle`).
- `Sorting.Sort`: `list.sort()` is modelled by a reference insertion sort on sequence values, not in place.
- `Predictor.Histogram`, `Predictor.AddPoint`, `Predictor.Predict`: same-length prediction and truth rows are required (`Shaped`). In the script a mismatch would be a numpy IndexError.
- The text layout of the histogram file (predictor.py:123-132) is not modelled. Its counts are.
- `DataSplit.DataSplitScript` uses the intended veto list, not the NameError of line 46 (see Findings).
- `DataSplit.LoadVetoes` and `DataSplit.Keys` model the intended loop of lines 42-46, which appends to `vetoes`, not line 46 as written. The as-written loop is `DataSplit.VetoesAsWritten`.
- `TrainingSet.GetTrainingSet` scans with the intended bound idx <= len - 36, not line 102's idx < len - 36 (see Findings).
- `TrainingSet.GetTrainingSet`, `TrainingSet.FindCandidates`, `TrainingSet.ScanStep`, `TrainingSet.EmitCandidate`: on an IndexError (lines 119 and 126) the result is the error alone. The rows line 131 printed for earlier candidates and rotations are not part of it.
- `Vetoes.Thin`: `Thinned`, its specification function, states which records remain. The order they keep is fixed by `Thin`'s loop, which is proved equal to `Thinned`.
- The rest of the repository is not part of this model:
  - the networks (`rptrainer.py`, `rptrainer2.py`, `phantom-network.py`, `keras-trial.py`);
  - the obsolete `rpgenerator2.py`;
  - the UI (`deskwidget.py`, `screen-phantoms.py`).

## Findings

| source | as written | input that shows it | evidently intended | confidence | as-written member | corrected member |
|---|---|---|---|---|---|---|
| get-training-set.py:102 | `while idx < len(seqnoList) - 36` never tries the last start whose 36 entries fit | the sorted list 0, 1, …, 35: one run of 36 at index 0, but 0 < 36 - 36 fails, so no candidate is printed | `idx <= len(seqnoList) - 36`; the body only reads up to `idx + 35` | not executed | `TrainingSet.Starts_MissesLastRun` | `TrainingSet.AllRuns` |
| datasplit.py:46 | `vetolist.append(...)` names a list that is never defined; the list read later is `vetoes` | a veto file holding the line "5" stops the script with a NameError | append the first field to `vetoes`, so vetoed seqnos are skipped at line 55 | not executed | `DataSplit.VetoListNeverFilled` | `DataSplit.Split_SkipsVetoed` |
