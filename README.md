# LC-MS desktop backend: a Dafny model

This project models the sequential, decidable logic of the Python backend of an LC-MS
(liquid chromatography / mass spectrometry) review application, and proves what that logic
promises. The modelled logic covers:

- how spectra and chromatograms are peak-picked and smoothed;
- how charge ladders are gated and components selected during deconvolution;
- how singly charged species are filtered;
- how request payloads are validated, and how the default deconvolution window and the
  default report are computed;
- how the sample cache behaves;
- how an Agilent `.D` folder's `acq.txt` is parsed and `.D` folders are listed;
- how UV and MS data are looked up by nearest wavelength or time;
- how the report page lays out colours and text.

Floating-point quantities are modelled as `real` and are only compared, added or scaled.
The numerical library calls stay abstract. They are given to the model as inputs or as
function parameters:

- Savitzky–Golay filtering;
- `scipy.signal.find_peaks`;
- the median;
- centroiding;
- the loader of a sample.

Modules, one per source file plus three shared ones:

| file | module | models |
|---|---|---|
| wrappers.dfy | `Wrappers` | Python's `None` (`Option`) and raised errors (`Result`) |
| sorting.dfy | `Sorting` | Python's stable `sort`/`sorted` with a key and `reverse=True`, as an insertion sort over a precedence relation |
| text.dfy | `Text` | `str.strip` (Python's Unicode whitespace set), ASCII `lower`/`upper`, `startswith`/`endswith` |
| analysis.py | `Analysis` | `_find_peaks_simple`, the `smooth_data` window logic, `calculate_peak_area`, `detect_singly_charged`, `get_theoretical_mz` |
| analysis.py | `Deconvolution` | the charge-contiguity gates, deferred exclusive selection, the residual pass, `_reject_mass_outliers` |
| data_reader.py | `DataReader` | `_parse_acq_method`, `is_c4_method`, `list_d_folders`, `get_uv_at_wavelength`, `get_ms_scan` |
| server.py | `Server` | `_coerce_bool`, `_sanitize_filename`, format/DPI validation, the export file name, `_detect_deconvolution_window_for_sample`, `_run_default_report_deconvolution`, `_get_sample` and `clear_cache` |
| plotting.py | `Plotting` | the colour list of `create_time_progression_figure`, the mass-axis default of `_plot_deconvoluted_masses_panel`, the text lines of `create_report_info_page` (title, acquisition block, method lines, window, parameters, results table) and how many of them are drawn |

The desktop interface's interactive peak-boundary editor, with valley splitting and overlap
enforcement, is not part of the backend, so it is not part of this model.

## Model

| member | source | states |
|---|---|---|
| Analysis.LocalMaxima | backend/lcms_app/analysis.py:648-651 | The candidates are exactly the local maxima of the signal (`y[i] >= y[i-1]` and `y[i] >= y[i+1]`, with `1 <= i <= n-2`), in ascending order |
| Analysis.Block | backend/lcms_app/analysis.py:666-667 | The blocked set grows by exactly the indices strictly within `min_distance_pts` of the kept index |
| Analysis.SuppressNonMaxima | backend/lcms_app/analysis.py:656-667 | Greedy suppression in descending-intensity order. The kept indices are distinct candidates and pairwise at least `d` apart. The highest candidate is kept. Every candidate is kept or lies within `d-1` of a kept one that is at least as high. With `d < 1`, all candidates are kept |
| Analysis.FindPeaksSimple | backend/lcms_app/analysis.py:645-669 | The result is a peak picking (`PeakPicking`): it returns `[]` for fewer than 3 samples. Every index returned is a local maximum. The list is strictly ascending, with spacing at least `min_distance_pts` when that is ≥ 1. Every local maximum is returned or suppressed by a higher kept one. A globally highest local maximum is always returned |
| Analysis.OddUp | backend/lcms_app/analysis.py:27-28 | An even window is raised by one; the result is odd |
| Analysis.SmoothWindow | backend/lcms_app/analysis.py:23-33 | The data is left unchanged exactly when `len < window_size`, or when the clamped window would be below 3. Whenever the filter runs, its window is odd and strictly less than `len(data)` |
| Analysis.SmoothData | backend/lcms_app/analysis.py:12-40 | `None` stays `None`. Short data is returned unchanged. Otherwise the Savitzky–Golay result with the normalised window is returned, or the moving average when the filter fails |
| Analysis.Windowed | backend/lcms_app/analysis.py:187-195 | Only samples with `start <= t <= end` survive. The two arrays keep equal lengths, and no window means no change |
| Analysis.PeakArea | backend/lcms_app/analysis.py:183-199 | The area is 0 when an array is missing, when the lengths differ, or when fewer than 2 samples fall in the window |
| Analysis.AreaIgnoresOutside | backend/lcms_app/analysis.py:187-199 | Intensities outside the window do not affect the area |
| Analysis.WindowedIdempotent | backend/lcms_app/analysis.py:187-195 | Windowing twice changes nothing |
| Analysis.AreaOfWindow | backend/lcms_app/analysis.py:187-199 | The windowed area equals the unwindowed area of the windowed samples |
| Analysis.AreaNonnegative | backend/lcms_app/analysis.py:183-199 | With nondecreasing times and nonnegative intensities, the area is nonnegative |
| Analysis.MinDistancePts | backend/lcms_app/analysis.py:1222-1223 | `max(2, int(pwhh / resolution))` when resolution > 0. It is exactly 2 when the resolution is not positive or the quotient is below 2, and always at least 2 |
| Analysis.AboveNoise | backend/lcms_app/analysis.py:1227-1236 | Only picked peaks at or above the noise cutoff are kept |
| Analysis.AboveNoiseComplete | backend/lcms_app/analysis.py:1227-1236 | Every picked peak at or above the noise cutoff is kept |
| Analysis.AboveNoiseCounts | backend/lcms_app/analysis.py:1227-1236 | Each picked peak at or above the noise cutoff is kept exactly as many times as it is picked, and no other peak is kept |
| Analysis.MaxIntensity | backend/lcms_app/analysis.py:1242 | The base-peak intensity is attained by some peak and bounds all of them |
| Analysis.CollectAboveNoise | backend/lcms_app/analysis.py:1227-1236 | The loop computes `AboveNoise` |
| Analysis.BaseIntensity | backend/lcms_app/analysis.py:1242 | The loop computes `MaxIntensity` |
| Analysis.InExcludedRange | backend/lcms_app/analysis.py:1258-1265 | The loop with `break` decides exactly whether some `mz_min <= mz <= mz_max` range holds |
| Analysis.CollectReported | backend/lcms_app/analysis.py:1245-1279 | The filter loop computes `ReportedSpecies` |
| Analysis.ReportedSpeciesBounds | backend/lcms_app/analysis.py:1245-1279 | Every reported species has charge states `[1]`, mass `mz - proton` in `[low_mw, high_mw]`, an m/z in no excluded range, and intensity at least the percentage cutoff and the noise cutoff |
| Analysis.ReportedSpeciesComplete | backend/lcms_app/analysis.py:1245-1279 | Every peak passing all filters is reported |
| Analysis.ReportedSpeciesCounts | backend/lcms_app/analysis.py:1245-1279 | A species is reported exactly as many times as its peak occurs when that peak passes every filter and the species is its z = 1 species (mass `mz - proton`, charges `[1]`), and never otherwise |
| Analysis.ReportPeaks | backend/lcms_app/analysis.py:1238-1283 | The results are valid species, sorted by intensity descending, and a permutation of the filtered peaks |
| Analysis.DetectSinglyCharged | backend/lcms_app/analysis.py:1202-1283 | Empty input gives `[]`. The picked peaks are a peak picking of the intensities with distance `MinDistancePts(pwhh, resolution)`: local maxima, ascending, spaced, covering every other maximum, and including the highest. The results are sorted by descending intensity. They are exactly (as a multiset) the picked peaks passing the noise, percentage, mass-range and exclusion filters, each with charge states `[1]` |
| Analysis.TheoreticalMz | backend/lcms_app/analysis.py:1299-1306 | One entry per charge, in order, each with `(m/z · z − z · proton) = mass` |
| Analysis.MzRoundTrip | backend/lcms_app/analysis.py:1299-1306 | The m/z of the mass computed back from an m/z at charge z is that m/z |
| Deconvolution.LongestRun | backend/lcms_app/analysis.py:940-947 | The result is the length of the longest run of consecutive charges: between 1 and the number of charges, attained, and bounding every run |
| Deconvolution.FirstPassGateMinRun | backend/lcms_app/analysis.py:948-963 | The two-tier gate as written is equivalent to a single minimum run length, `MinRun` |
| Deconvolution.RatioTest | backend/lcms_app/analysis.py:956-962 | `longest / count < 0.60` exactly when `5·longest < 3·count` |
| Deconvolution.ContiguityGate | backend/lcms_app/analysis.py:937-963 | A candidate passes exactly when its sorted distinct charges contain a consecutive run of at least `MinRun` charges. With no charges, it passes exactly when `contig_min <= 1` |
| Deconvolution.SecondPassGate | backend/lcms_app/analysis.py:1124-1135 | The relaxed gate passes exactly when there are fewer than 2 charges or two adjacent charges are consecutive |
| Deconvolution.QualityFirstTotal | backend/lcms_app/analysis.py:1009 | The `(num_charges, intensity)` descending order is a total preorder |
| Deconvolution.UnionMembers | backend/lcms_app/analysis.py:1070 | `used_ions` holds exactly the ions of the selected components |
| Deconvolution.HasDuplicate | backend/lcms_app/analysis.py:1029-1039 | The inner loop decides exactly whether some selected component makes the candidate a duplicate. `raises` holds exactly when there are selected components and the candidate mass is 0, where the first division raises `ZeroDivisionError`; then no duplicate is reported |
| Deconvolution.FirstPassSelection | backend/lcms_app/analysis.py:1014-1070 | The loop computes the deferred selection `Select`, and `used_ions` is the union of the selected ion sets |
| Deconvolution.ResidualSelection | backend/lcms_app/analysis.py:1158-1176 | The residual loop appends the second-pass selection; `used_residual` is the union of the residual ion sets |
| Deconvolution.SelectExtends | backend/lcms_app/analysis.py:1016-1070 | Selection only appends, and only candidates it was given |
| Deconvolution.SelectAdmissible | backend/lcms_app/analysis.py:1016-1070 | Every selected candidate was admissible against the components selected before it |
| Deconvolution.SelectMaximal | backend/lcms_app/analysis.py:1016-1070 | Every candidate not selected is inadmissible against the final selection |
| Deconvolution.ExclusiveFirstPass | backend/lcms_app/analysis.py:1014-1070 | First-pass components have nonempty ion sets and none duplicates another. With `max_overlap = 0`, their ion sets are pairwise disjoint |
| Deconvolution.SelectComponents | backend/lcms_app/analysis.py:1005-1180 | No candidates gives `[]`. The result is sorted by quality and is a permutation of the first-pass selection plus, when enough peaks remain unclaimed, the residual selection |
| Deconvolution.InliersWithin | backend/lcms_app/analysis.py:739-750 | Every mass the mask keeps lies closer than the limit to the median |
| Deconvolution.InliersSubset | backend/lcms_app/analysis.py:739-750 | The mask only drops ions: the kept masses and intensities are sub-multisets of the inputs |
| Deconvolution.InliersComplete | backend/lcms_app/analysis.py:739-750 | Every mass closer than the limit to the median is kept |
| Deconvolution.RejectMassOutliers | backend/lcms_app/analysis.py:723-752 | Fewer than 4 masses are returned unchanged. With at least 4 masses, the result is exactly the masked pair of arrays (`Inliers`) when the mask keeps at least 3 ions, and the unchanged input when it keeps fewer. Either everything is kept, or at least 3 inliers within the limit around the median are kept, and every inlier is among them |
| Deconvolution.KeptIndicesExact | backend/lcms_app/analysis.py:737-743 | The indices the mask keeps are strictly increasing and are exactly the positions whose mass lies closer than the limit to the median |
| Deconvolution.InliersIndexed | backend/lcms_app/analysis.py:739-750 | Masking keeps one mass and its own intensity per kept index, in index order: the k-th kept pair is `(masses[idx[k]], intensities[idx[k]])` |
| DataReader.FirstColon | backend/lcms_app/data_reader.py:132-133 | The index of the first `:`, or the length when there is none |
| DataReader.SkippedLinesIgnored | backend/lcms_app/data_reader.py:129-135 | Blank lines and lines without `:` do not affect the parse |
| DataReader.KeyValueLine | backend/lcms_app/data_reader.py:129-140 | A line `key: value`, with any whitespace around the line and on either side of the colon, stores the value under the key when the value is non-empty. It sets the method whenever the key names the acquisition method, even to an empty value. The line splits at the first `:`, so the value may contain `:` |
| DataReader.LastWins | backend/lcms_app/data_reader.py:136-137 | The last line storing a key decides its value |
| DataReader.ParseKeepsWellFormed | backend/lcms_app/data_reader.py:129-137 | Every stored key is free of colons and every stored value is non-empty |
| DataReader.IsC4Method | backend/lcms_app/data_reader.py:117-120 | True exactly when a method is set and its upper-case form starts with "C4" |
| DataReader.SampleData.ParseAcqMethod | backend/lcms_app/data_reader.py:122-142 | A missing or undecodable file changes nothing. Otherwise the fields become the line-by-line parse of the file, and the other fields are unchanged |
| DataReader.SampleData.ParseLineInPlace | backend/lcms_app/data_reader.py:129-140 | One iteration of the parsing loop updates `acq_info` and `acq_method` as `ParseLine` says |
| DataReader.FoundIn | backend/lcms_app/data_reader.py:39-64 | Folder entries reported from one listing are `.D` names matching the search, ignoring ASCII case |
| DataReader.PruneKeeps | backend/lcms_app/data_reader.py:65 | The directories descended into are among the listing's subdirectories, and none is a `.D` folder |
| DataReader.WalkReportsDFolders | backend/lcms_app/data_reader.py:39-65 | Every folder the walk reports ends in `.D`/`.d` and contains the search text, ignoring case |
| DataReader.WalkSkipsDContents | backend/lcms_app/data_reader.py:65 | What lies inside a `.D` folder never affects the result |
| DataReader.VisitFolder | backend/lcms_app/data_reader.py:36-65 | The recursive walk computes `Walk` |
| DataReader.VisitSubfolders | backend/lcms_app/data_reader.py:38-65 | Walking the non-`.D` subdirectories one after another, in listing order, gives their walks concatenated |
| DataReader.ListedDFolders | backend/lcms_app/data_reader.py:39-64 | The loop over one listing computes `FoundIn` |
| DataReader.ListDFolders | backend/lcms_app/data_reader.py:20-68 | A missing base gives `[]`. Otherwise the result is a permutation of the walk, sorted newest first, with only matching `.D` names |
| DataReader.FirstNearest | backend/lcms_app/data_reader.py:471 | `np.argmin` of the distance to the target: the first index of minimal distance |
| DataReader.FirstNearestUnique | backend/lcms_app/data_reader.py:493 | The first nearest index is unique |
| DataReader.UvAtWavelength | backend/lcms_app/data_reader.py:461-486 | Missing data gives None, and so does a nearest wavelength farther than the tolerance. Within the tolerance, 2-D data gives the column of the first nearest wavelength, 1-D data the whole trace, and data of more dimensions None. An empty wavelength list falls back to the first column of 2-D data and to the array itself otherwise |
| DataReader.MsScanAt | backend/lcms_app/data_reader.py:487-505 | Missing times or scans give None. Otherwise the scan at the first nearest time is returned as its m/z and intensity arrays, from either storage form, and an unreadable scan gives None |
| Server.CoerceBoolOtherTypes | backend/server.py:107-113 | `None` and values of other types give the default, whatever it is; integers and floats are true exactly when nonzero |
| Server.CoerceBoolNormalised | backend/server.py:114-119 | A string coerces as its stripped, lower-cased form |
| Server.CoerceBoolWords | backend/server.py:114-119 | `1/true/yes/on` in any case with surrounding whitespace gives True, and `0/false/no/off` gives False, whatever the default |
| Server.CoerceBoolDecided | backend/server.py:107-120 | A string's result depends on the default exactly when its normalised form is no recognised word |
| Server.CoerceBoolRoundTrip | backend/server.py:107-120 | A bool, its integer and its name all coerce back to it |
| Server.SafeChars | backend/server.py:124 | Every character that is not alphanumeric, `_`, `-` or `.` becomes `_` |
| Server.SanitizeFilename | backend/server.py:123-125 | The result contains only alphanumerics and `_ - .`, neither begins nor ends with `_`, and is no longer than the name. It is the fallback exactly when nothing else survives |
| Server.SanitizedSlice | backend/server.py:123-125 | The sanitized name is the replaced name cut from its first to its last character that is neither replaced nor `_`: only the outer underscores are stripped |
| Server.SanitizeKeepsSafe | backend/server.py:123-125 | A name that is already safe is returned unchanged |
| Server.SanitizeIdempotent | backend/server.py:123-125 | With a safe fallback, sanitising twice equals sanitising once |
| Server.SanitizeSafe | backend/server.py:123-125 | With a safe fallback every result is a safe name |
| Server.ParseFormat | backend/server.py:825-827 | A missing format means png. The format is lower-cased, accepted exactly when it is png/svg/pdf, and otherwise rejected with status 400 |
| Server.FormatRoundTrip | backend/server.py:825-827 | Every format is accepted under its name in lower or upper case |
| Server.ClampDpi | backend/server.py:829-833 | The DPI always lies in [72, 600]. A missing or unconvertible value gives 300, and an in-range value is kept |
| Server.ClampDpiStable | backend/server.py:833 | Clamping is idempotent and monotone |
| Server.ExportFilename | backend/server.py:853-856 | The name ends in `_batch_deconvoluted_masses.<format>`, and its stem is a safe name |
| Server.ExportStem | backend/server.py:853-855 | The stem is the sample name, less a trailing `.d` in any case, sanitized with the fallback "sample" |
| Server.ScanEdges | backend/server.py:297-303 | `0 <= left <= apex <= right <= n-1`. Every sample in `(left, apex]` and `[apex, right)` is above the threshold. `left` is 0 or at/below the threshold, and likewise `right` is `n-1` or at/below it |
| Server.EdgesAreReference | backend/server.py:297-303 | Any pair meeting the scan's outcome equals the step-by-step reference edges |
| Server.EdgesUnique | backend/server.py:297-303 | The scan's outcome determines the edges |
| Server.DominantPeak | backend/server.py:292 | The first peak of greatest intensity |
| Server.LatePeaks | backend/server.py:289 | Exactly the peaks at 1.8 min or later |
| Server.LatePeaksAscending | backend/server.py:289 | The late peaks keep the order of the peak list: ascending peaks give ascending late peaks |
| Server.CandidatePeaks | backend/server.py:287-291 | For a C4 method with a peak at 1.8 min or later, every such peak is a candidate; with none, all peaks are. A method that is not C4 uses all peaks. Ascending peaks give ascending candidates |
| Server.CapWindow | backend/server.py:308-313 | The window is at most 0.30 wide. A wider window is re-centred on the apex with half-width 0.15 and clamped into the time range; otherwise it is unchanged |
| Server.FallbackWindow | backend/server.py:278-286 | `(min_time, min(min_time + 1, max_time))` |
| Server.DetectDeconvolutionWindow | backend/server.py:272-315 | No times gives (0, 0). No TIC or no peaks gives the fallback window. Otherwise the result is the capped window between the scan edges around the dominant peak at 0.48 of its height, at most 0.30 wide. With nondecreasing times it lies within the acquisition |
| Server.ExcludeRanges | backend/server.py:350-354 | One range per component with ions, never more ranges than components |
| Server.IonsExcluded | backend/server.py:350-354 | Every m/z within 2 of any component ion lies in an excluded range |
| Server.InMassRange | backend/server.py:384 | Exactly the rows with `low_mw <= mass <= high_mw` |
| Server.InMassRangeCounts | backend/server.py:384 | Each row in the range is kept exactly as many times as it occurs, and no other row is kept |
| Server.RunDefaultReport | backend/server.py:318-386 | A missing or empty spectrum gives `[]`. The report is the rows of the components and singly charged species within [500, 50000] Da, sorted by descending intensity. The added singly charged species have charge 1, mass within [500, 2000] Da, and m/z outside every component's ion range. They are the singly charged report of a peak picking of the smoothed spectrum with the report's peak distance |
| Server.CollectExcludeRanges | backend/server.py:350-354 | The loop collects `(min - 2, max + 2)` of the ion m/z values for each component that has ions, in component order |
| Server.FailureDetail | backend/server.py:88 | The sample's error when non-empty, otherwise "Failed to load sample" |
| Server.SampleCache.GetSample | backend/server.py:82-90 | A cached sample is returned as it is, with no reload. A successful load is cached under its path and returned. A failed load raises a 400 and is not cached |
| Server.SampleCache.ClearCache | backend/server.py:810-814 | The cache is empty afterwards |
| Plotting.ExtendShape | backend/lcms_app/plotting.py:262-266 | The `EIC_COLORS` loop keeps the list, stops at the sample count, and appends only colours not already present |
| Plotting.FillShape | backend/lcms_app/plotting.py:267-268 | The padding loop reaches exactly the sample count, appending `EIC_COLORS[len % 8]` |
| Plotting.PaletteCases | backend/lcms_app/plotting.py:256-270 | 1 sample gives `[initial]` and 2 give `[initial, final]`. 3 or more give exactly one colour per sample, starting `[initial, mid, final]`, then new `EIC_COLORS` entries, then `EIC_COLORS` by position |
| Plotting.DefaultPaletteDistinct | backend/lcms_app/plotting.py:256-270 | With the default initial, mid and final colours, up to 9 samples get distinct colours |
| Plotting.TimeProgressionColors | backend/lcms_app/plotting.py:256-270 | The two loops compute `Palette` |
| Plotting.MassAxisRange | backend/lcms_app/plotting.py:798-802 | The range is nonempty. It is the configured range in kDa when that is nonempty, and 1–50 kDa otherwise |
| Plotting.Layout | backend/lcms_app/plotting.py:1401-1409 | A column lists each label at most once, never one already seen, and marks its labels seen |
| Plotting.LeftColumnByLabel | backend/lcms_app/plotting.py:1388-1405 | The left column shows the operator, instrument and injection date. Each comes from its "Acq." key when present, otherwise the short key |
| Plotting.RightColumnByLabel | backend/lcms_app/plotting.py:1395-1409 | The right column shows every present right-hand key, in mapping order |
| Plotting.ColumnsDisjoint | backend/lcms_app/plotting.py:1401-1409 | No label appears twice across the two columns |
| Plotting.LayoutColumn | backend/lcms_app/plotting.py:1401-1409 | One column loop computes `Layout`'s items, formatted `f"{label:<w}: {value}"` |
| Plotting.AcqInfoColumns | backend/lcms_app/plotting.py:1385-1409 | The left column uses width 18. The right column uses width 12 and starts from the left column's seen labels |
| Plotting.TwoColumnRows | backend/lcms_app/plotting.py:1411-1415 | `max(len(left), len(right))` rows, each the left item padded to 45 followed by the right item, with `""` for a missing side |
| Plotting.RowAlignment | backend/lcms_app/plotting.py:1415 | A row starts with its left item. A right item starts at column 45 when the left item fits, and a missing left item leaves 45 spaces |
| Plotting.HeaderLines | backend/lcms_app/plotting.py:1377-1382 | The title, the sample name, the method line only for a non-empty acquisition method, a blank line and the separator |
| Plotting.HeaderShowsMethod | backend/lcms_app/plotting.py:1379-1380 | The title block has a `Method:` line exactly when the acquisition method is present and non-empty |
| Plotting.MethodLines | backend/lcms_app/plotting.py:1418-1421 | A `Method` line when `acq.txt` has a `Method` that differs from the acquisition method, then a `Method Info` line when it has one |
| Plotting.MethodNotRepeated | backend/lcms_app/plotting.py:1418-1421 | The block repeats the method of `acq.txt` exactly when it differs from the acquisition method; the `Method Info` line never counts as it |
| Plotting.ParametersListed | backend/lcms_app/plotting.py:1434-1442 | After the three heading lines every parameter has its row `key:` padded to 24 then its value, in order; `(default parameters)` appears exactly when there are none |
| Plotting.WindowShown | backend/lcms_app/plotting.py:1427-1431 | The deconvolution window line appears on the page exactly for the given time range |
| Plotting.ReportInfoLines | backend/lcms_app/plotting.py:1376-1464 | The page is the title block, the acquisition rows, the method lines, a blank line and separator, the window, the parameters, then the results table, with `acq_info or {}` as the mapping; it fails exactly when the results table does |
| Plotting.LineFits | backend/lcms_app/plotting.py:1467-1471 | Line `i` sits at or above the bottom margin exactly for the first 54 lines |
| Plotting.DrawnLines | backend/lcms_app/plotting.py:1469-1473 | The drawing loop draws a prefix of the lines: all of them up to 54, and the first 54 otherwise |
| Plotting.ComponentLabel | backend/lcms_app/plotting.py:1456 | Below 26 the label is the single letter `'A' + i` |
| Plotting.ComponentLabelsDistinct | backend/lcms_app/plotting.py:1456 | Different positions get different letters |
| Plotting.ResultsTable | backend/lcms_app/plotting.py:1444-1464 | No results gives no lines, and an empty list gives `""` plus "No masses detected.". A first intensity of 0 raises. Otherwise the heading, then one row per component among the first 15 with its label, mass, intensity and percentage of the first, then `""` |
| Plotting.TableRows | backend/lcms_app/plotting.py:1454-1460 | At most 15 rows, labelled A, B, C… in order, the first at 100 %. With positive, descending intensities no row exceeds 100 % |

## Left out

- The numerics stay abstract:
  - Savitzky–Golay filtering, the moving-average fallback and `_smooth_spectrum`;
  - `scipy.signal.find_peaks` (its peak list is an input) and `integrate.trapezoid`, modelled as a plain trapezoid sum over reals;
  - `_parabolic_centroid` (a function parameter) and the median (`np.median`, a function parameter);
  - `_gaussian_fit_r2`, and the mass arithmetic of both deconvolution functions (`_estimate_component_mass`, the anchor/charge search).
  All are floating-point computations on library calls.
- Rendering is left out: all matplotlib drawing, `tight_layout`, PNG/SVG/PDF export, label placement, and the float formatting (`.2f`, `.0f`, `.3f`) of the report lines. The report lines `MassRow` and `WindowLine` carry the numbers unformatted. The footer (application version and the current time) is left out, as it depends on the clock.
- `Plotting.ReportInfoLines`: the parameter values arrive already converted to text, since `str()` of an arbitrary Python value is not modelled, and the parameters mapping is a list of pairs in insertion order. The time range is present or absent; an empty tuple is not modelled.
- Loading data is left out: reading files through `rainbow`, the fallback reader in `SampleData.load`, and the decoding of `acq.txt`. The parser receives the file's lines, or None when the file is missing or unreadable. `str.splitlines` is not modelled.
- Routing and plumbing are left out: FastAPI routing, `browse_folder`, `list_volumes`, `_get_folder_size` (so a reported folder has no `size_mb`), `_compute_smiles_properties` (a Node subprocess), and `config.get_default_path`. All are I/O or process plumbing.
- The filesystem walk of `list_d_folders` is modelled on an immutable folder tree. A reported folder (`FolderInfo`) keeps `path`, `name` and `date`; its `parent` (the walk root relative to the base) and `size_mb` are not modelled. Paths are joined with `/`, not through `pathlib`. Modification times are given, and None stands for a failed `stat`.
- Text case mapping is ASCII only. That is exact for every keyword compared here. The search filter of `list_d_folders` compares a user's text with folder names, so for non-ASCII letters ("É" against "é") the model is case-sensitive where Python's `str.lower` folds. `str.isalnum` is a parameter of the filename sanitiser. `ExportFilename` requires that it accept ASCII lower-case letters, as Python's does, so that the "sample" fallback is safe.
- `_coerce_bool`: `int`/`float` values are unbounded integers and reals, and `bool(x)` is modelled as `x != 0`.
- `Analysis.SmoothData`: requires a nonnegative window size. A negative size makes the source's fallback `np.ones(window_size)` raise, and that failure is not modelled.
- `Analysis.TheoreticalMz`: requires nonzero charges. A zero charge makes the source raise `ZeroDivisionError`, and that failure is not modelled.
- `Deconvolution.RejectMassOutliers` and `Analysis.Windowed`: require arrays of equal length, which is how the source always calls them.
- `DataReader.UvAtWavelength`: requires at least as many data columns as wavelengths. A mismatch would raise an `IndexError` in the source. With an empty wavelength list, the source's `argmin` raises `ValueError`; the model returns the first column, and does so only when one exists.
- `DataReader.MsScanAt`: requires non-empty times and at least as many scans as times when both are present. Otherwise the source raises `ValueError` or `IndexError`.
- `Server.DetectDeconvolutionWindow`: requires a smoothed TIC as long as the scan times, and peak indices inside it. These are the shapes the source's arrays always have.
- `Server.RunDefaultReport`: the multiply charged components are an input. Only the mass and intensity of each serialised row is modelled (`mass_std`, `r2` and the ion lists are not).
- `Server.SampleCache.GetSample`: the loader is a function of the path. What loading fills in beyond `loaded` and `error` is not modelled.
- `Plotting.ResultsTable`: the division by a first intensity of 0 is modelled as a failed outcome (None), which stands for the `ZeroDivisionError` Python raises.
- HasDuplicate: both selection loops divide by the candidate's mass, a Python `float` (lines 1032 and 1165 of analysis.py). With a zero mass and at least one selected result, the source raises `ZeroDivisionError`. `HasDuplicate` reports that case as `raises`, but `FirstPassSelection` and `ResidualSelection` ignore it and go on as if the candidate were no duplicate (`Duplicate` requires a nonzero mass). The model therefore does not capture that a zero-mass candidate aborts the deconvolution.
