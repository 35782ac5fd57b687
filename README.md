# Areal-weighting overlay of climate-risk data onto French statistical units

The repository turns climate-risk and rent-control data published on one set of polygons into
values for other polygons. The sources are Local Climate Zones, IMU heat-stress cells, flood
zones and rent-control zones. The targets are postal codes, Paris *conseils de quartier* and
SeLoger *quartiers*. Every script follows the same plan:

- intersect each target with each source polygon;
- turn the intersection areas into weights;
- average the source attributes with those weights;
- for the two `spatial_analysis.py` scripts, compute weighted order statistics of the result.

This project models that arithmetic and sequence logic in Dafny and proves what the scripts
promise about it.

**Geometry.** A polygon is a finite set of integer cells (`Geometry.Region`). Its area is the
number of cells. Intersection, difference and union are set operations. `Intersects` means
"shares a cell".

After the geometry, everything is exact `real` arithmetic:

- **NaN** is `Option.None`. pandas' `.sum()` skips NaN; `@` propagates it; `dropna` removes it.
- **Python exceptions** are `Result.Err(...)`: `ZeroDivisionError`, `IndexError`, `ValueError`, `KeyError`.
- **Sorting** is specified as "sorted and a permutation"; the model sorts by insertion.
- **Network downloads** become oracle parameters.

The modules follow the scripts:

- `Geometry`, `Overlay`, `Averages`: overlap areas, normalisation to weights, and weighted means with or without the zero-weight mask.
- `HeatStress`: the IMU heat-stress scripts. This includes the IRIS → commune → postal-code crosswalk of `code_postal_heatstress.py`.
- `HeatSensitivity`: the LCZ encodings (class, score, one-hot ×100) and the heat-sensitivity averaging scripts.
- `WeightedStats`: weighted median, percentiles, mode, the reliability-weighted variance and the delta series.
- `HeatSensitivityAnalysis` and `RentControlAnalysis`: the statistics rows of the two `spatial_analysis.py` scripts.
- `RentControl`: the rent-control bookkeeping. This covers the latest periods, the Paris duplication, the combination grid, `CP_PARIS` and the Paris 2024 filter.
- `RentControlOverlay`: best-zone argmax, zone de-duplication and dissolving, restricted weights, and the `@` weighted rents.
- `RentControlScripts`: each rent-control script end to end.
- `FloodRisk`: the flood proportions and the Bernoulli statistics of the Paris flood analysis.
- `Svg`: the SVG-to-Lambert-93 translation, ring closing and fill filter of `flood_risk_geoshapes.py`.
- `Tiles`: the quad-split worklist of `always_underwater_geoshapes.py`.
- `QuartierMatch`: `match_quartiers` and the export table of the SeLoger quartier shapes.
- `Tables`, `Sums`, `Rounding`, `Common`: shared helpers. These are sorting, selection, de-duplication, sums, numpy rounding and the `Result`/`Option` types.

### Where the code and its description differ

The script members model the code as written. Where the code departs from what it evidently
means, a separate corrected member states the intended behaviour:

- **Heat-sensitivity std with one zone.** `paris/heat_sensitivity/code/spatial_analysis.py` has no guard on the std denominator. With one positive-weight zone the denominator is a numpy `0/0`. That yields NaN, not an exception, so `HeatSensitivityAnalysis.UnguardedVariance` returns `None` there and needs no precondition on the number of zones.
- **Flood-risk cutoffs.** `paris/flood_risk/code/spatial_analysis.py` computes the cutoff deltas by comparing the weight of the value 0 with the cutoff (`(1 - p) <= c`). At a proportion of exactly `1 - c` this is not the weighted percentile the other cutoff columns stand for. `FloodRisk.Statistics` and `FloodRisk.ParisFloodStatistics` compute the deltas as written; `FloodRisk.CorrectedStatistics` is the row with the percentile rule. See "## Findings".

## Model

| member | source | states |
|---|---|---|
| Geometry.Area | heatstress/code/code_postal_heatstress.py:71-78 | an area is non-negative and zero exactly for the empty shape |
| Geometry.GeoWeightRelative | paris/heat_stress/code/conseils_de_quartier_heat_stress.py:26-33 | `geo_weight_relative` is the intersection area: at least 0, at most either polygon's area, and 0 exactly when the polygons do not intersect |
| Geometry.GeoWeightSymmetric | heatstress/code/code_postal_heatstress.py:71-78 | `geo_weight_relative` is symmetric in its two polygons |
| Overlay.OverlapAreas | paris/heat_stress/code/conseils_de_quartier_heat_stress.py:69 | one non-negative weight per source polygon, bounded by both areas, positive exactly for the polygons the target intersects |
| Overlay.Normalize | paris/heat_stress/code/conseils_de_quartier_heat_stress.py:70 | dividing by the total is NaN exactly when every area is 0; otherwise the weights are non-negative, sum to 1 and are positive where the areas are |
| Overlay.NormalizedColumn | paris/heat_stress/code/seloger_quartiers_heat_stress.py:70 | dividing by a positive total gives non-negative weights summing to 1 that scale back to the areas |
| Overlay.NormalizeShares | heatstress/code/code_postal_heatstress.py:115 | each normalised weight times the total overlap is that polygon's overlap area |
| Overlay.NormalizeScaleInvariant | paris/rent_control/code/spatial_analysis.py:108-112 | dividing the overlap areas by the target's area first does not change the normalised weights |
| Overlay.SkipNanAverage | paris/heat_stress/code/conseils_de_quartier_heat_stress.py:74 | a target with NaN weights gets 0, because `.sum()` skips NaN products |
| Overlay.MatMulAverage | paris/rent_control/code/spatial_analysis.py:155 | the `@` product is NaN exactly when the weights are NaN |
| Overlay.PositiveMaskDotIsDot | paris/heat_sensitivity/code/conseils_de_quartier_heat_sensitivity.py:72-76 | summing over the rows with weight > 0 only gives the full weighted sum when the weights are non-negative |
| Overlay.ConstantColumnMean | paris/heat_stress/code/codes_postaux_heat_stress.py:72 | normalised weights average a constant column to that constant |
| Overlay.MeanBetweenBounds | paris/heat_stress/code/seloger_quartiers_heat_stress.py:74 | a weighted mean lies between bounds that hold on every overlapping source polygon |
| Overlay.Fractions | paris/rent_control/code/spatial_analysis.py:108 | `intersection.area / target.area` raises ZeroDivisionError exactly for an empty target with zones present; otherwise every fraction lies in [0, 1] |
| Overlay.FractionWeights | paris/rent_control/code/spatial_analysis.py:108-112 | normalising the fractions gives the same weights as normalising the raw overlap areas |
| Averages.SkipNanMeans | paris/heat_stress/code/conseils_de_quartier_heat_stress.py:74 | one weighted average per attribute column |
| Averages.MaskedMeans | paris/heat_sensitivity/code/conseils_de_quartier_heat_sensitivity.py:72-76 | one average over the rows with weight > 0 per column |
| Averages.MaskedMeansAreMeans | paris/heat_sensitivity/code/conseils_de_quartier_heat_sensitivity.py:72-76 | the zero-weight mask changes no average; NaN weights give 0 in every column; otherwise each column is the weighted sum |
| Averages.MeansWithoutOverlap | paris/heat_stress/code/conseils_de_quartier_heat_stress.py:70-74 | a target overlapping no source gets 0 in every column, with or without the mask |
| Averages.MeanOfConstantColumn | paris/heat_sensitivity/code/codes_postaux_heat_sensitivity.py:76 | a column that is constant across the sources averages to that constant |
| Averages.MeanWithinColumnBounds | heatstress/code/code_postal_heatstress.py:119 | each average lies between that column's bounds over the overlapping cells |
| Averages.MeanAffine | paris/heat_stress/code/conseils_de_quartier_heat_stress.py:74 | averaging commutes with an affine rescaling of a column |
| Averages.MeansOfSharesSum | paris/heat_sensitivity/code/conseils_de_quartier_heat_sensitivity.py:76 | if every source row sums to a total, the averaged row sums to that total |
| Overlay.Weights | heatstress/code/code_postal_heatstress.py:114-115 | the areal weights of a target, shared by the heat-stress and heat-sensitivity scripts (`paris/heat_sensitivity/code/conseils_de_quartier_heat_sensitivity.py:70-71` is the same column): NaN exactly when the target overlaps no source polygon; otherwise non-negative, summing to 1, and positive exactly on the polygons it overlaps |
| HeatStress.Table | heatstress/code/code_postal_heatstress.py:80-103 | the `numeric_cols` table: one row of the 22 attribute values per IMU cell, holding that cell's values |
| HeatStress.TargetRow | heatstress/code/code_postal_heatstress.py:119 | one average per IMU attribute column |
| HeatStress.TargetRowWithoutOverlap | heatstress/code/code_postal_heatstress.py:115-119 | a postal code overlapping no IMU cell gets 0 in every column |
| HeatStress.TargetRowBounds | paris/heat_stress/code/seloger_quartiers_heat_stress.py:74 | each average lies between bounds that hold on every IMU cell the target intersects |
| HeatStress.TargetRowConstant | paris/heat_stress/code/codes_postaux_heat_stress.py:72 | a column constant across the IMU cells averages to that constant |
| HeatStress.AverageAll | paris/heat_stress/code/conseils_de_quartier_heat_stress.py:63-82 | the per-target loop yields one row per target, in target order, each the target's weighted row |
| HeatStress.FixCrosswalk | heatstress/code/code_postal_heatstress.py:58 | the crosswalk keeps its length |
| HeatStress.FixCrosswalkSpec | heatstress/code/code_postal_heatstress.py:58 | rows with CP 93380 get DEPCOM 93059; every other row is unchanged; postal codes never change; applying the fix twice equals applying it once |
| HeatStress.FixCrosswalkInPlace | heatstress/code/code_postal_heatstress.py:58 | the masked assignment in place: the array afterwards is the fixed crosswalk of its old contents |
| HeatStress.JoinCommunesSpec | heatstress/code/code_postal_heatstress.py:64 | a joined unit is exactly an IRIS row paired with an Île-de-France commune (REG 11) of the same IRIS code |
| HeatStress.JoinOneSpec | heatstress/code/code_postal_heatstress.py:41 | the commune join of one IRIS row keeps only the REG 11 communes of its code |
| HeatStress.MergeOneSpec | heatstress/code/code_postal_heatstress.py:65 | the left merge on DEPCOM gives a unit a postal code exactly when a crosswalk row of its DEPCOM carries that code |
| HeatStress.MergeOneMissing | heatstress/code/code_postal_heatstress.py:65 | a unit gets a missing postal code exactly when no crosswalk row has its DEPCOM |
| HeatStress.MergePostalSpec | heatstress/code/code_postal_heatstress.py:65 | merging all units is merging each unit |
| HeatStress.DropMissingSpec | heatstress/code/code_postal_heatstress.py:66 | `dropna` keeps exactly the merged rows that have a postal code |
| HeatStress.PostalUnitsSpec | heatstress/code/code_postal_heatstress.py:62-66 | membership in join → merge → dropna, stated through the three steps |
| HeatStress.PostalUnitSound | heatstress/code/code_postal_heatstress.py:62-66 | every postal unit comes from an IRIS row, a REG 11 commune of its code and a crosswalk row of that commune |
| HeatStress.PostalUnitComplete | heatstress/code/code_postal_heatstress.py:62-66 | every such IRIS/commune/crosswalk triple yields a postal unit |
| HeatStress.DissolvedCells | heatstress/code/code_postal_heatstress.py:67 | `dissolve(by = 'CP')` gives a postal code exactly the cells of its units |
| HeatStress.PostalCodes | heatstress/code/code_postal_heatstress.py:67 | the dissolved index: distinct codes, sorted, exactly the codes that occur |
| HeatStress.PostalShapes | heatstress/code/code_postal_heatstress.py:62-68 | one output row per distinct postal code, in sorted code order, each with its code's dissolved shape |
| HeatStress.PostalShapeCells | heatstress/code/code_postal_heatstress.py:62-68 | a cell lies in a postal code's shape exactly when it lies in an IRIS polygon joined to that code through the whole crosswalk |
| HeatStress.ScriptPostalShapes | heatstress/code/code_postal_heatstress.py:58-68 | the script end to end (crosswalk corrected, then joined, merged, filtered, dissolved): one row per distinct postal code of the corrected crosswalk, in sorted code order |
| HeatStress.ScriptPostalShapeCells | heatstress/code/code_postal_heatstress.py:58-68 | a cell lies in a row's shape exactly when it lies in an IRIS unit of an Île-de-France commune that the corrected crosswalk (93380 sent to 93059) gives that row's code |
| HeatSensitivity.FromLczOnto | paris/heat_sensitivity/code/spatial_analysis.py:13-28 | `map_lcz_to_sensibilite` reaches all six classes |
| HeatSensitivity.LabelToInt | paris/heat_sensitivity/code/spatial_analysis.py:30-46 | `map_sensibilte_to_int` lies in [0, 5] |
| HeatSensitivity.SnsInt | paris/heat_sensitivity/code/spatial_analysis.py:53-54 | the composed score `sns_int` of an LCZ code lies in [0, 5] |
| HeatSensitivity.ScoresDistinct | paris/heat_sensitivity/code/spatial_analysis.py:30-46 | the class labels and their scores are injective |
| HeatSensitivity.LabelScores | paris/heat_sensitivity/code/spatial_analysis.py:30-46 | Très Forte → 5, Forte → 4, Moyenne → 3, Faible → 2, Variable → 1, Faible à Nulle → 0 |
| HeatSensitivity.ScoreRange | paris/heat_sensitivity/code/spatial_analysis.py:30-46 | every score from 0 to 5 is attained by a class |
| HeatSensitivity.ClassColumnsDistinct | paris/heat_sensitivity/code/conseils_de_quartier_heat_sensitivity.py:50 | the six one-hot columns are distinct classes |
| HeatSensitivity.OneHot | paris/heat_sensitivity/code/conseils_de_quartier_heat_sensitivity.py:50 | one value per class column |
| HeatSensitivity.OneHotExactlyOne | paris/heat_sensitivity/code/conseils_de_quartier_heat_sensitivity.py:49-51 | exactly one class column is 100, the others are 0, and the row sums to 100 |
| HeatSensitivity.ClassTable | grenoble/heat_sensitivity/code/seloger_quartiers_heat_sensitivity.py:49-51 | one one-hot row per LCZ polygon, all of the same width |
| HeatSensitivity.ClassTableShares | paris/heat_sensitivity/code/codes_postaux_heat_sensitivity.py:49-51 | every row of the one-hot table has one 100 and sums to 100 |
| HeatSensitivity.TargetRow | paris/heat_sensitivity/code/conseils_de_quartier_heat_sensitivity.py:72-76 | one masked average per morphology and class column |
| HeatSensitivity.TargetRowUnmasked | paris/heat_sensitivity/code/conseils_de_quartier_heat_sensitivity.py:72-76 | each masked average equals the unmasked weighted sum |
| HeatSensitivity.TargetRowWithoutOverlap | paris/heat_sensitivity/code/codes_postaux_heat_sensitivity.py:71-76 | a target overlapping no LCZ gets 0 in every column, not NaN |
| HeatSensitivity.TargetRowConstant | paris/heat_sensitivity/code/codes_postaux_heat_sensitivity.py:76 | a column constant across the LCZs averages to that constant |
| HeatSensitivity.ClassColumnsOfRow | paris/heat_sensitivity/code/conseils_de_quartier_heat_sensitivity.py:76 | the class part of a target row is the weighted mean of the one-hot table |
| HeatSensitivity.ClassShares | grenoble/heat_sensitivity/code/seloger_quartiers_heat_sensitivity.py:76 | each class share lies in [0, 100] and the six shares sum to 100 |
| HeatSensitivity.AverageAll | paris/heat_sensitivity/code/conseils_de_quartier_heat_sensitivity.py:64-85 | KeyError exactly when there is a target and a class column is absent from the one-hot table (no target gives an empty table); otherwise one row per target, in order, each the target's masked row |
| HeatSensitivityAnalysis.UnguardedVariance | paris/heat_sensitivity/code/spatial_analysis.py:94-97 | the unguarded std radicand is NaN exactly with one positive-weight zone; otherwise it is non-negative and times the denominator gives the weighted squared deviation |
| HeatSensitivityAnalysis.Row | paris/heat_sensitivity/code/spatial_analysis.py:85-105 | one delta per cutoff, and a defined radicand is non-negative |
| HeatSensitivityAnalysis.Summarize | paris/heat_sensitivity/code/spatial_analysis.py:79-105 | IndexError (`.iloc[0]`) exactly when the weights are NaN or select no zone reaching the 1.0 cutoff; otherwise the statistics row |
| HeatSensitivityAnalysis.SnsColumn | paris/heat_sensitivity/code/spatial_analysis.py:53-54 | one score per LCZ, each in [0, 5] |
| HeatSensitivityAnalysis.SummarizeDefined | paris/heat_sensitivity/code/spatial_analysis.py:77-90 | the statistics are defined exactly when the target overlaps some LCZ |
| HeatSensitivityAnalysis.RowMeanBounds | paris/heat_sensitivity/code/spatial_analysis.py:85 | `mean` is Σ w·sns_int and lies between bounds holding on the positive-weight zones |
| HeatSensitivityAnalysis.RowMean | paris/heat_sensitivity/code/spatial_analysis.py:85 | `mean` is the weighted sum over the positive-weight subset |
| HeatSensitivityAnalysis.RowMeanScale | paris/heat_sensitivity/code/spatial_analysis.py:85 | a target's mean score lies in [0, 5] |
| HeatSensitivityAnalysis.RowMedianMode | paris/heat_sensitivity/code/spatial_analysis.py:88-91 | the median is the score of some positive-weight zone and the mode is a weighted mode of the sorted subset |
| HeatSensitivityAnalysis.RowDeltas | paris/heat_sensitivity/code/spatial_analysis.py:99-102 | deltas are taken from the mode: `mode_delta` = 0, `median_delta` = median − mode, `mean_delta` = mean − mode |
| HeatSensitivityAnalysis.RowCutoffDeltas | paris/heat_sensitivity/code/spatial_analysis.py:104-105 | every cutoff lookup succeeds and the cutoff deltas are the percentiles minus the mode |
| HeatSensitivityAnalysis.RowCutoffsMonotone | paris/heat_sensitivity/code/spatial_analysis.py:104-105 | the cutoff deltas are non-decreasing along the ascending cutoffs |
| HeatSensitivityAnalysis.RowCutoffsAreDeltas | paris/heat_sensitivity/code/spatial_analysis.py:104-105 | each cutoff delta is a value of the delta series of a positive-weight zone |
| HeatSensitivityAnalysis.RowVarianceUndefined | paris/heat_sensitivity/code/spatial_analysis.py:94-97 | the std is NaN exactly when one zone has positive weight |
| HeatSensitivityAnalysis.SummarizeAll | paris/heat_sensitivity/code/spatial_analysis.py:69-111 | the per-target loop fails (IndexError) exactly when some target's statistics fail; otherwise one row per target in order |
| WeightedStats.DotIsWeightedSum | paris/rent_control/code/spatial_analysis.py:155 | the `@` dot product equals the weighted sum of the (value, weight) items and the weights' sum is their total weight |
| WeightedStats.Shift | paris/rent_control/code/spatial_analysis.py:180 | the delta series: every value lowered by d, weights unchanged |
| WeightedStats.PositiveRowsKeepSums | paris/rent_control/code/spatial_analysis.py:162 | keeping the rows with weight > 0 changes neither the total weight nor the weighted sum |
| WeightedStats.WeightedSumShift | paris/rent_control/code/spatial_analysis.py:182 | shifting every value by d lowers the weighted sum by d times the total weight |
| WeightedStats.SortedPositive | paris/rent_control/code/spatial_analysis.py:159-166 | the positive-weight rows sorted by value: sorted, a permutation of those rows, every weight positive |
| WeightedStats.SortedPositiveFrom | paris/rent_control/code/spatial_analysis.py:159-166 | every sorted row is an input row |
| WeightedStats.SortedPositiveHas | paris/rent_control/code/spatial_analysis.py:159-166 | every positive-weight input row appears among the sorted rows |
| WeightedStats.SortedPositiveKeepsTotal | paris/rent_control/code/spatial_analysis.py:164 | the sorted subset keeps the total weight and the weighted sum |
| WeightedStats.ShiftedStatistics | paris/rent_control/code/spatial_analysis.py:180-184 | with weights summing to 1, the delta series' weighted sum is the mean minus m and its mode is the mode minus m |
| WeightedStats.FirstIndex | paris/rent_control/code/spatial_analysis.py:168 | the first position whose cumulative weight reaches the cutoff, or none if no position does |
| WeightedStats.FirstIndexMonotone | paris/rent_control/code/spatial_analysis.py:186-187 | a smaller cutoff is reached no later |
| WeightedStats.Percentile | paris/rent_control/code/spatial_analysis.py:168 | a percentile is the value of some positive-weight row, and no positive weight gives none |
| WeightedStats.PercentileMonotone | paris/rent_control/code/spatial_analysis.py:186-187 | percentiles are non-decreasing in the cutoff |
| WeightedStats.PercentileAtZero | paris/rent_control/code/spatial_analysis.py:187 | the 0.0 percentile exists and is the smallest positive-weight value |
| WeightedStats.PercentileDefined | paris/rent_control/code/spatial_analysis.py:168 | with weights summing to 1, every cutoff up to 1 is reached |
| WeightedStats.LastCumIsOne | paris/rent_control/code/spatial_analysis.py:165 | the rounded cumulative weight ends at 1 when the weights sum to 1 |
| WeightedStats.BestOf | paris/rent_control/code/spatial_analysis.py:169 | the candidate whose group weight is largest, the smallest such on ties |
| WeightedStats.Mode | paris/rent_control/code/spatial_analysis.py:169 | none exactly for no rows, otherwise a weighted mode (largest summed weight, smallest on ties) |
| WeightedStats.ModeUnique | paris/rent_control/code/spatial_analysis.py:169 | the weighted mode is unique |
| WeightedStats.ModeShift | paris/rent_control/code/spatial_analysis.py:184 | the mode of the delta series is the mode minus the shift |
| WeightedStats.SquaredDeviation | paris/rent_control/code/spatial_analysis.py:173 | the weighted squared deviation is non-negative |
| WeightedStats.SquaredDeviationZero | paris/rent_control/code/spatial_analysis.py:173 | values all equal to the centre have no deviation |
| WeightedStats.DenominatorOfPositive | paris/rent_control/code/spatial_analysis.py:174 | with positive weights the (N−1)·Σw/N denominator is non-negative and zero exactly for one row |
| WeightedStats.DenominatorOfNormalised | paris/rent_control/code/spatial_analysis.py:174 | with weights summing to 1 the denominator is 0 for one row and at least 1/2 otherwise |
| WeightedStats.PercentileDeltas | paris/rent_control/code/spatial_analysis.py:186-187 | defined exactly when every cutoff is reached; each delta plus the base is that cutoff's percentile |
| WeightedStats.Deltas | paris/rent_control/code/spatial_analysis.py:186-187 | defined exactly when every lookup is; each delta plus the base is its value |
| WeightedStats.LookupsSucceed | paris/rent_control/code/spatial_analysis.py:168-187 | all cutoff lookups succeed exactly when the 1.0 cutoff does, which needs a positive-weight row |
| WeightedStats.CutoffsUpToOne | paris/rent_control/code/spatial_analysis.py:186 | there are seven cutoffs, all at most 1, the last being 1 |
| WeightedStats.CutoffsAscending | paris/rent_control/code/spatial_analysis.py:186 | the cutoffs 0, 0.1, 0.25, 0.5, 0.75, 0.9, 1 ascend |
| WeightedStats.PercentileDeltasSorted | paris/rent_control/code/spatial_analysis.py:186-187 | deltas at ascending cutoffs are non-decreasing |
| WeightedStats.PercentileDeltaOfRow | paris/rent_control/code/spatial_analysis.py:186-187 | each cutoff delta is the value of a positive-weight row minus the base |
| WeightedStats.NormalisedItems | paris/rent_control/code/spatial_analysis.py:155-166 | normalised weights give items of total weight 1 whose weighted sum, before and after sorting, is the dot product |
| RentControlAnalysis.GuardedVariance | paris/rent_control/code/spatial_analysis.py:172-178 | the guarded std radicand is non-negative, 0 when the denominator is below 1e-8, otherwise times the denominator the weighted squared deviation |
| RentControlAnalysis.Row | paris/rent_control/code/spatial_analysis.py:158-187 | one delta per cutoff, and the std radicand is always defined and non-negative |
| RentControlAnalysis.Summarize | paris/rent_control/code/spatial_analysis.py:159-187 | for a weight row and rent column aligned zone by zone: IndexError exactly when the weights are NaN or a lookup selects no zone; otherwise the statistics row |
| RentControlAnalysis.SummarizeErrors | paris/rent_control/code/spatial_analysis.py:168-187 | a weight row fails exactly when no zone has positive weight or the last cumulative weight rounds below 1 |
| RentControlAnalysis.SummarizeDefined | paris/rent_control/code/spatial_analysis.py:159-168 | with normalised overlaps the statistics are defined exactly when the quartier overlaps some zone |
| RentControlAnalysis.RowMedianMode | paris/rent_control/code/spatial_analysis.py:168-169 | the median is the ref of a positive-weight zone and the mode a weighted mode |
| RentControlAnalysis.RowDeltas | paris/rent_control/code/spatial_analysis.py:180-184 | deltas are taken from the mean: `mean_delta` = 0, `median_delta` = median − mean, `mode_delta` = mode − mean |
| RentControlAnalysis.RowCutoffDeltas | paris/rent_control/code/spatial_analysis.py:186-187 | every cutoff lookup succeeds and the cutoff deltas are the percentiles minus the mean |
| RentControlAnalysis.RowCutoffsMonotone | paris/rent_control/code/spatial_analysis.py:186-187 | the cutoff deltas are non-decreasing along the cutoffs |
| RentControlAnalysis.RowCutoffZero | paris/rent_control/code/spatial_analysis.py:186-187 | the 0.0 cutoff delta is the smallest delta of any positive-weight zone |
| RentControlAnalysis.RowCutoffsAreDeltas | paris/rent_control/code/spatial_analysis.py:186-187 | each cutoff delta is the delta of some positive-weight zone |
| RentControlAnalysis.RowMeanBounds | paris/rent_control/code/spatial_analysis.py:155 | `mean` lies between bounds holding on the overlapping zones |
| RentControlAnalysis.RowVariance | paris/rent_control/code/spatial_analysis.py:172-178 | the std radicand is the guarded variance of the sorted positive-weight rows about the mean |
| RentControlAnalysis.RowSingleZone | paris/rent_control/code/spatial_analysis.py:172-178 | one overlapping zone gives std 0; more zones give a denominator of at least 1/2 |
| RentControlAnalysis.SummarizeAll | paris/rent_control/code/spatial_analysis.py:108-187 | one combination: ValueError when there is no quartier (the overlap concatenation) or when the table's zone labels do not match the weight columns (`df_ol @ df_tmp`), before any quartier; otherwise IndexError exactly when some quartier's lookups fail, else one row per quartier in order, each over the rents read by zone label |
| RentControlAnalysis.ZoneRefs | paris/rent_control/code/spatial_analysis.py:147-155 | the `ref` of every weight column's zone, read from the table row carrying that zone's label, in the order of the weight columns |
| RentControl.LatestPeriods | paris/rent_control/code/spatial_analysis.py:115 | IndexError when a city has no period; otherwise exactly the last period of each city |
| RentControl.MostRecentPeriods | paris/rent_control/code/spatial_analysis.py:36-40 | for the configured periods the latest set is {2024-07-01, 2024-06-01} |
| RentControl.LatestFromLasts | paris/rent_control/code/spatial_analysis.py:115 | the latest set is the set of the cities' last periods |
| RentControl.LatestOf | paris/rent_control/code/spatial_analysis.py:36-40 | a city's latest period exists exactly for a configured city with periods and is one of them |
| RentControl.FilterLatest | paris/rent_control/code/spatial_analysis.py:116 | keeps exactly the rows whose period is among the latest ones |
| RentControl.OnlyLatestPeriod | paris/rent_control/code/spatial_analysis.py:115-116 | published rows survive the filter exactly when their period is their city's last one |
| RentControl.FillHousing | paris/rent_control/code/spatial_analysis.py:122-131 | `.fillna(v)` on the housing-type column: filled cells become v, present ones stay, nothing else changes |
| RentControl.DuplicateParis | paris/rent_control/code/spatial_analysis.py:120-138 | the result has the non-Paris rows plus twice the Paris rows |
| RentControl.DuplicateParisPrefix | paris/rent_control/code/spatial_analysis.py:133-138 | the non-Paris rows come first, in order |
| RentControl.DuplicateParisCopies | paris/rent_control/code/spatial_analysis.py:122-138 | each Paris row reappears filled 'appartement' in the second block and 'maison' in the third |
| RentControl.DuplicateParisParts | paris/rent_control/code/seloger_quartiers_rent_control.py:132-150 | the rows are non-Paris, then Paris filled 'appartement', then Paris filled 'maison' |
| RentControl.DuplicateParisFilled | paris/rent_control/code/spatial_analysis.py:125 | if only Paris rows lack a housing type, none lacks one afterwards |
| RentControl.DuplicateParisRents | paris/rent_control/code/spatial_analysis.py:120-138 | every row's rents are those of an input row |
| RentControl.HousingTypes | paris/rent_control/code/seloger_quartiers_rent_control.py:156 | the housing-type set is exactly the non-empty types of any city |
| RentControl.HousingTypesOfRentControl | paris/rent_control/code/spatial_analysis.py:41-45 | for the configured types that set is {'_maison', '_appartement'} |
| RentControl.ForHousing | paris/rent_control/code/spatial_analysis.py:144 | the innermost loop yields one combination per housing type |
| RentControl.ForFurnished | paris/rent_control/code/spatial_analysis.py:143-144 | the two inner loops yield every furnished × housing pair |
| RentControl.ForEpoque | paris/rent_control/code/spatial_analysis.py:142-144 | three nested loops yield every epoque × furnished × housing triple |
| RentControl.Combinations | paris/rent_control/code/spatial_analysis.py:141-144 | the four nested loops enumerate the product, of size the product of the sizes |
| RentControl.Grid | paris/rent_control/code/spatial_analysis.py:141-144 | 4 rooms × 4 epoques × 2 furnishings = 32 combinations per housing type, exactly the grid |
| RentControl.SixtyFourBlocks | paris/rent_control/code/seloger_quartiers_rent_control.py:153-156 | with two housing types there are 64 combinations |
| RentControl.TwoDigits | rent_control/code/code_postal_rent_control.py:45 | `str(i).zfill(2)` is two decimal digits spelling i |
| RentControl.CpParisSpec | rent_control/code/code_postal_rent_control.py:45 | `CP_PARIS` has 21 distinct five-character codes 75001 … 75020 and then 75116 |
| RentControl.ParisPostalCodes | rent_control/code/code_postal_rent_control.py:94 | keeps exactly the postal codes in `CP_PARIS` |
| RentControl.Paris2024 | rent_control/code/seloger_quartiers_rent_control.py:122 | keeps exactly the Paris rows of period 2024-07-01 |
| RentControl.Paris2024IsLatest | rent_control/code/code_postal_rent_control.py:126 | for published rows, "Paris in 2024-07" is "Paris and latest period" |
| RentControlOverlay.ArgMax | rent_control/code/code_postal_rent_control.py:110-111 | `idxmax` raises ValueError on no zones; otherwise the index of a maximum, the first on ties |
| RentControlOverlay.BestZone | paris/rent_control/code/seloger_quartiers_rent_control.py:109-111 | ValueError with no zones, ZeroDivisionError for an empty target; otherwise the first zone of maximal fraction and that fraction |
| RentControlOverlay.BestZones | rent_control/code/code_postal_rent_control.py:104-114 | the loop succeeds exactly when every target's best zone does, with one zone and fraction per target, or fails with the first failing target's error |
| RentControlOverlay.OverlapExport | rent_control/code/code_postal_rent_control.py:143-149 | the overlap table sorted by `frac_in_zn`, a permutation of the target rows |
| RentControlOverlay.FirstZones | rent_control/code/code_postal_rent_control.py:96-101 | `drop_duplicates('idZone')`: one zone per id, every id kept, each with the geometry of its first row |
| RentControlOverlay.FirstZonesSpec | rent_control/code/conseils_de_quartier_rent_control.py:93-98 | the de-duplicated rows give distinct ids, all ids and first geometries |
| RentControlOverlay.ZoneUnionCells | paris/rent_control/code/spatial_analysis.py:98-102 | a dissolved zone's cells are exactly the cells of its rows |
| RentControlOverlay.SortedIds | paris/rent_control/code/spatial_analysis.py:98-102 | the dissolve index: ascending distinct ids, exactly the ids present |
| RentControlOverlay.DissolvedIds | paris/rent_control/code/seloger_quartiers_rent_control.py:97-101 | sorting the de-duplicated ids gives the ascending id set |
| RentControlOverlay.DissolvedZones | paris/rent_control/code/seloger_quartiers_rent_control.py:97-101 | `dissolve(by = 'idZone')`: ascending ids, all present ids, each the union of its rows |
| RentControlOverlay.UniqueGeometry | grenoble/rent_control/code/seloger_quartiers_rent_control.py:30-34 | `drop_duplicates('geometry')`: distinct geometries, every geometry kept, each tagged with its first row's zone |
| RentControlOverlay.UniqueGeometrySpec | grenoble/rent_control/code/codes_postaux_rent_control.py:30-34 | the de-duplicated rows give distinct geometries, all geometries and first zones |
| RentControlOverlay.Unique | grenoble/rent_control/code/seloger_quartiers_rent_control.py:57-59 | `.unique()`: no repetitions, the same values, and values in the order of their first appearance |
| RentControlOverlay.Column | grenoble/rent_control/code/seloger_quartiers_rent_control.py:57-59 | a column of the zone table, row by row |
| RentControlOverlay.GrenobleCombos | grenoble/rent_control/code/seloger_quartiers_rent_control.py:57-59 | the loops enumerate exactly the rooms × epoque × furnished values that occur |
| RentControlOverlay.TargetWeights | grenoble/rent_control/code/seloger_quartiers_rent_control.py:48-54 | ZeroDivisionError for an empty target with zones; otherwise the normalised overlaps, NaN exactly without overlap |
| RentControlOverlay.KeptShares | rent_control/code/code_postal_rent_control.py:125 | one fraction per zone with id below 15 |
| RentControlOverlay.KeptSharesAreShares | rent_control/code/code_postal_rent_control.py:125 | selecting the zones with id < 15 after computing fractions is computing them on those zones |
| RentControlOverlay.RestrictedWeights | rent_control/code/conseils_de_quartier_rent_control.py:130 | ZeroDivisionError exactly for an empty target with zones; no zone of id < 15 gives an empty weight row; otherwise the overlaps with the zones of id < 15, normalised, one per such zone |
| RentControlOverlay.RestrictedWeightsOverlap | rent_control/code/seloger_quartiers_rent_control.py:121 | the restricted weights are defined exactly when the target overlaps a zone of id < 15 or there is no such zone |
| RentControlOverlay.IndexOf | paris/rent_control/code/seloger_quartiers_rent_control.py:167 | the first table row with a given id |
| RentControlOverlay.Realigned | paris/rent_control/code/seloger_quartiers_rent_control.py:167 | the rents are aligned to the weight columns by zone id, one per id |
| RentControlOverlay.WeightedRents | rent_control/code/code_postal_rent_control.py:134 | `@` raises ValueError exactly when the zone ids do not align; otherwise NaN exactly for NaN weights |
| RentControlOverlay.WeightedRentsOrdered | paris/rent_control/code/seloger_quartiers_rent_control.py:159-167 | refmin ≤ ref ≤ refmaj in every zone carries over to the weighted rents |
| RentControlOverlay.WeightedRentsConstant | paris/rent_control/code/conseils_de_quartier_rent_control.py:157-165 | a zone table with one constant rent averages to it |
| RentControlOverlay.WeightedRentsBounds | rent_control/code/code_postal_rent_control.py:134 | the weighted ref lies between bounds holding on the weighted zones |
| RentControlOverlay.WeightedRentsReorder | paris/rent_control/code/seloger_quartiers_rent_control.py:164-167 | reordering the zone table changes nothing, since `@` aligns by id |
| RentControlOverlay.QueryTable | rent_control/code/code_postal_rent_control.py:134 | `query(...)` keeps exactly the zone rents of the rows matching the combination |
| RentControlOverlay.DedupRows | paris/rent_control/code/seloger_quartiers_rent_control.py:163 | `drop_duplicates()` on whole rows leaves distinct rows, the same set |
| RentControlOverlay.SortedTable | paris/rent_control/code/seloger_quartiers_rent_control.py:159-166 | `df_tmp`: sorted by zone id, without repetitions, exactly the matching rows, a permutation of the de-duplicated query |
| RentControlOverlay.MaskTable | grenoble/rent_control/code/seloger_quartiers_rent_control.py:60-65 | the boolean mask keeps exactly the zone rents of the matching rows |
| RentControlOverlay.Block | paris/rent_control/code/seloger_quartiers_rent_control.py:167-172 | one combination's block: ValueError exactly when the ids do not align; otherwise one row per target with the combination's category columns and the weighted rents |
| RentControlOverlay.BlockNaN | rent_control/code/code_postal_rent_control.py:156 | a block row lacks rents exactly when its target's weights are NaN |
| RentControlOverlay.AllBlocks | paris/rent_control/code/seloger_quartiers_rent_control.py:152-174 | the combination loop fails exactly when some table does not align, otherwise one block per combination |
| RentControlOverlay.ConcatLength | paris/rent_control/code/seloger_quartiers_rent_control.py:186 | concatenating equal blocks of n rows gives n rows per block |
| RentControlOverlay.ConcatHas | paris/rent_control/code/seloger_quartiers_rent_control.py:186 | a row of any block is a row of the concatenation |
| RentControlOverlay.ConcatLine | paris/rent_control/code/seloger_quartiers_rent_control.py:186 | every concatenated row comes from a block |
| RentControlOverlay.DropNa | rent_control/code/code_postal_rent_control.py:156 | keeps exactly the rows with rents |
| RentControlOverlay.DropNaKeeps | rent_control/code/code_postal_rent_control.py:156 | a property of every row survives `dropna` |
| RentControlOverlay.DropNaConcat | grenoble/rent_control/code/seloger_quartiers_rent_control.py:67 | dropping NaN per block and then concatenating is dropping NaN from the concatenation |
| RentControlScripts.ZoneOverlap | rent_control/code/conseils_de_quartier_rent_control.py:103-119 | the overlap table succeeds exactly when every best zone does; one row per target, sorted by fraction, each with its best zone and maximal fraction |
| RentControlScripts.OverlapExportLine | rent_control/code/conseils_de_quartier_rent_control.py:113-119 | each exported overlap row is its target's zone and fraction |
| RentControlScripts.ExportLine | paris/rent_control/code/seloger_quartiers_rent_control.py:184-189 | each exported rent row is some target's weighted rent for some combination |
| RentControlScripts.ExportOrdered | paris/rent_control/code/seloger_quartiers_rent_control.py:184-189 | refmin ≤ ref ≤ refmaj in every zone holds in every exported row |
| RentControlScripts.ExportSize | paris/rent_control/code/seloger_quartiers_rent_control.py:184-189 | the export has one row per combination and target |
| RentControlScripts.ExportHas | paris/rent_control/code/seloger_quartiers_rent_control.py:167-174 | the row of every combination and target is in the concatenated export, with the weighted rents of its table |
| RentControlScripts.RestrictedLines | rent_control/code/seloger_quartiers_rent_control.py:125-151 | every exported row is `df_ol_pr @ table` of its target and combination, defined only when the target overlaps a zone of id < 15 (or there is none), and every combination and target has its row |
| RentControlScripts.TargetLines | paris/rent_control/code/seloger_quartiers_rent_control.py:152-189 | every exported row is `df_ol @ table` of its target and combination, defined only when the target overlaps a zone, and every combination and target has its row |
| RentControlScripts.SortedTablesOrdered | paris/rent_control/code/seloger_quartiers_rent_control.py:159-166 | ordered rents stay ordered in every `df_tmp` |
| RentControlScripts.DuplicateParisOrdered | paris/rent_control/code/seloger_quartiers_rent_control.py:132-150 | the Paris duplication keeps ordered rents ordered |
| RentControlScripts.AllTargetWeights | paris/rent_control/code/seloger_quartiers_rent_control.py:117-124 | ValueError with no target (nothing to concatenate); otherwise weights for every target, failing with ZeroDivisionError exactly when some target's do |
| RentControlScripts.AllRestrictedWeights | rent_control/code/code_postal_rent_control.py:117-125 | ValueError with no target (nothing to concatenate); otherwise restricted weights for every target, failing with ZeroDivisionError exactly when some target's do |
| RentControlScripts.ParisRegionScript | paris/rent_control/code/seloger_quartiers_rent_control.py:95-189 | the whole script: succeeds exactly when there is a quartier and a zone row, no quartier has area 0 and every combination's deduplicated, sorted table of the latest (Paris-doubled) rows carries each zone once; then a sorted overlap table with each quartier's best zone, 64 rent rows per quartier, each row `df_ol @ df_tmp` of its quartier and combination (defined only when the quartier overlaps a zone), every combination and quartier present, ordered rents kept; otherwise ValueError (always for no quartier) or ZeroDivisionError; the councils script `paris/rent_control/code/conseils_de_quartier_rent_control.py` is the same pipeline |
| RentControlScripts.DissolvedZonesEmpty | paris/rent_control/code/seloger_quartiers_rent_control.py:97-101 | the dissolve by `idZone` has a zone exactly when there is a row |
| RentControlScripts.LatestRowsOrdered | paris/rent_control/code/seloger_quartiers_rent_control.py:126-150 | the latest-period filter and the Paris doubling keep ordered rents ordered |
| RentControlScripts.RegionExport | paris/rent_control/code/seloger_quartiers_rent_control.py:104-189 | given the zones, the rows averaged and the combinations: succeeds exactly when there is a target and a zone, no target has area 0 and every table is aligned; then the best-zone overlap table and the rent rows of RegionRents |
| RentControlScripts.RegionRents | paris/rent_control/code/seloger_quartiers_rent_control.py:117-174 | succeeds exactly when there is a target, every target's weights are defined and every combination's table is aligned (ValueError with no target); then one row per combination and target, each `df_ol @ df_tmp` of its combination, defined only when the target overlaps a zone, every combination and target present, ordered rents kept |
| RentControlScripts.ParisScript | rent_control/code/seloger_quartiers_rent_control.py:90-151 | the whole script: succeeds exactly when there is a quartier and a zone row, no quartier has area 0 and every combination's July 2024 Paris table carries each zone of id < 15 once; then a sorted best-zone overlap table, 32 rent rows per quartier, each `df_ol_pr @ query(…)` of its quartier and combination, every combination and quartier present, ordered rents kept; otherwise ValueError (always for no quartier) or ZeroDivisionError |
| RentControlScripts.FirstZonesEmpty | rent_control/code/seloger_quartiers_rent_control.py:91-96 | the de-duplication by `idZone` has a zone exactly when there is a row |
| RentControlScripts.FlatCombos | rent_control/code/seloger_quartiers_rent_control.py:125-128 | the room × period × furnishing loops: 32 combinations, exactly those with no housing type |
| RentControlScripts.ParisExport | rent_control/code/seloger_quartiers_rent_control.py:100-151 | given the zones and the 32 combinations: succeeds exactly when there is a target and a zone, no target has area 0 and every table is aligned; then the best-zone overlap table and the rent rows of ParisRents |
| RentControlScripts.ParisRents | rent_control/code/seloger_quartiers_rent_control.py:113-136 | succeeds exactly when there is a target, every target's restricted weights are defined and every combination's July 2024 Paris table is aligned (ValueError with no target); then one row per combination and target, each `df_ol_pr @ query(…)`, every combination and target present, ordered rents kept |
| RentControlScripts.PostalCodeScript | rent_control/code/code_postal_rent_control.py:93-157 | the whole script: succeeds exactly when some code is a `CP_PARIS` code, there is a zone row, no Paris code has area 0 and every July 2024 Paris table is aligned; then a sorted best-zone overlap table and rent rows that are all defined, each `df_ol_pr @ query(…)` of its code and combination, every defined row of every combination and code kept by `dropna`, ordered rents kept |
| RentControlScripts.CodeShapes | rent_control/code/code_postal_rent_control.py:118-121 | the shapes of the postal codes, code by code |
| RentControlScripts.PostalCodeExport | rent_control/code/code_postal_rent_control.py:104-157 | given the zones, the Paris codes and the combinations: succeeds exactly when there is a code and a zone, no code has area 0 and every table is aligned; then the best-zone overlap table and the rows of PostalCodeRents |
| RentControlScripts.PostalCodeRents | rent_control/code/code_postal_rent_control.py:127-157 | succeeds exactly as ParisRents does; then only defined rows, each `df_ol_pr @ query(…)`, and every defined row of every combination and target kept by `dropna` |
| RentControlScripts.GrenobleScript | grenoble/rent_control/code/seloger_quartiers_rent_control.py:25-77 | the whole script: succeeds exactly when there is a quartier and a zone row, no quartier has area 0 and every combination's masked table carries each unique-geometry zone once (ValueError with no quartier or no row); then only defined rows, each `df_ol @ gdf_zn.loc[mask]` of its quartier and combination, every defined row of every combination and quartier kept by `dropna`, ordered rents kept; the postal-code script `grenoble/rent_control/code/codes_postaux_rent_control.py` is the same pipeline |
| RentControlScripts.GrenobleRents | grenoble/rent_control/code/seloger_quartiers_rent_control.py:42-76 | succeeds exactly when there is a target and a combination, every target's weights are defined and every masked table is aligned (ValueError with no target; an error, ValueError when there is also no zone, with no combination); then the rows of GrenobleKept |
| RentControlScripts.GrenobleKept | grenoble/rent_control/code/seloger_quartiers_rent_control.py:65-67 | `dropna` keeps exactly the defined rows: each kept row is `df_ol @ gdf_zn.loc[mask]` of its target and combination, and every defined row of every combination and target is kept |
| Tables.SortBy | paris/rent_control/code/spatial_analysis.py:164 | `sort_values`: same length, a permutation, sorted |
| Tables.Insert | paris/rent_control/code/spatial_analysis.py:164 | inserting into a sorted list keeps it sorted and adds exactly that element |
| Tables.SumOfSortBy | paris/rent_control/code/spatial_analysis.py:164-165 | sorting keeps every sum over the rows |
| Tables.Select | paris/rent_control/code/spatial_analysis.py:162 | a boolean filter keeps exactly the rows satisfying it |
| Tables.SelectAppend | paris/rent_control/code/spatial_analysis.py:133-138 | filtering a concatenation filters each part |
| Tables.FirstWithKey | rent_control/code/seloger_quartiers_rent_control.py:92-97 | the first row with a key, or none exactly when no row has it |
| Tables.DedupBy | rent_control/code/seloger_quartiers_rent_control.py:92-97 | `drop_duplicates(key)`: distinct keys, the same key set, each kept row the first of its key |
| Tables.LexLeqTotalPreorder | paris/geographic_units/code/seloger_quartiers_geoshapes.py:41 | string order is a total preorder, as `sort_values` on a label needs |
| Rounding.RoundHalfEven | paris/flood_risk/code/spatial_analysis.py:24 | `round()` is within 1/2 and goes to the even integer on a tie |
| Rounding.RoundHalfEvenMonotone | paris/flood_risk/code/spatial_analysis.py:29 | rounding is monotone |
| Rounding.RoundHalfEvenOfInt | paris/flood_risk/code/spatial_analysis.py:24 | `round()` keeps an integer |
| Rounding.RoundUnitInterval | paris/flood_risk/code/spatial_analysis.py:24 | a proportion rounds to 0 up to and including 1/2 and to 1 above |
| Rounding.Round5 | paris/rent_control/code/spatial_analysis.py:165 | `.round(5)` is within 5e-6 |
| Rounding.Round5Monotone | paris/rent_control/code/spatial_analysis.py:165 | `.round(5)` is monotone, so the rounded cumulative weights stay non-decreasing |
| Rounding.Round5One | paris/rent_control/code/spatial_analysis.py:165 | `.round(5)` keeps 1 |
| Rounding.Round5NonNegative | paris/rent_control/code/spatial_analysis.py:165 | `.round(5)` keeps a cumulative weight non-negative |
| FloodRisk.FloodProportion | flood_risk/code/conseils_de_quartier_flood_risk.py:16 | ZeroDivisionError exactly for an empty shape; otherwise a proportion in [0, 1] |
| FloodRisk.DryFloodProportion | flood_risk/code/codes_postaux_flood_risk.py:17-19 | ZeroDivisionError exactly when the shape is always under water; otherwise a proportion in [0, 1] |
| FloodRisk.ProportionInside | flood_risk/code/conseils_de_quartier_flood_risk.py:16 | a shape inside the flood zone has proportion 1 |
| FloodRisk.ProportionDisjoint | flood_risk/code/conseils_de_quartier_flood_risk.py:16 | a shape disjoint from the flood zone has proportion 0 |
| FloodRisk.ProportionMonotone | flood_risk/code/conseils_de_quartier_flood_risk.py:16 | a larger flood zone never lowers the proportion |
| FloodRisk.ProportionAdditive | flood_risk/code/conseils_de_quartier_flood_risk.py:16 | proportions of disjoint flood zones add up |
| FloodRisk.ProportionComplement | flood_risk/code/conseils_de_quartier_flood_risk.py:16 | the parts at risk and not at risk add up to 1 |
| FloodRisk.DryPartEmpty | paris/flood_risk/code/spatial_analysis.py:18 | the dry part is empty exactly when the shape is always under water |
| FloodRisk.UnderwaterFloodIgnored | paris/flood_risk/code/spatial_analysis.py:17-19 | flood zone under permanent water counts for nothing: it is removed from numerator and denominator alike |
| FloodRisk.DryWithoutUnderwater | paris/flood_risk/code/spatial_analysis.py:17-19 | a shape away from permanent water gets the plain proportion |
| FloodRisk.DryInsideOrDisjoint | flood_risk/code/codes_postaux_flood_risk.py:17-19 | a dry part inside the flood zone gives 1, a dry part missing it gives 0 |
| FloodRisk.DryMonotone | paris/flood_risk/code/spatial_analysis.py:17-19 | a larger flood zone never lowers the dry proportion |
| FloodRisk.DryFloodColumn | paris/flood_risk/code/spatial_analysis.py:17-19 | the `.apply` succeeds exactly when no shape is always under water, with each row's dry proportion |
| FloodRisk.FloodColumn | flood_risk/code/seloger_quartiers_flood_risk.py:16 | the `.apply` succeeds exactly when no shape is empty, with each row's proportion |
| FloodRisk.CodesPostauxFloodRisk | flood_risk/code/codes_postaux_flood_risk.py:17-19 | each postal code's dry proportion, in [0, 1], 1 when inside the flood zone and 0 when disjoint |
| FloodRisk.ConseilsFloodRisk | flood_risk/code/conseils_de_quartier_flood_risk.py:16 | each council's proportion, in [0, 1], 1 when inside and 0 when disjoint |
| FloodRisk.ConseilsMonotone | flood_risk/code/conseils_de_quartier_flood_risk.py:16 | a larger flood zone lowers no council's proportion |
| FloodRisk.Overridden | flood_risk/code/seloger_quartiers_flood_risk.py:17 | the 'Seine et Berges' rows become 1.0 and the others are unchanged |
| FloodRisk.OverriddenIdempotent | flood_risk/code/seloger_quartiers_flood_risk.py:17 | applying the override twice is applying it once |
| FloodRisk.OverriddenInUnit | flood_risk/code/seloger_quartiers_flood_risk.py:16-17 | the override keeps every proportion in [0, 1] |
| FloodRisk.OverrideSeineEtBerges | flood_risk/code/seloger_quartiers_flood_risk.py:17 | the masked assignment in place: the column afterwards is the overridden old column |
| FloodRisk.Names | flood_risk/code/seloger_quartiers_flood_risk.py:17 | the quartier-name column |
| FloodRisk.Shapes | flood_risk/code/seloger_quartiers_flood_risk.py:16 | the geometry column |
| FloodRisk.SelogerQuartiersFloodRisk | flood_risk/code/seloger_quartiers_flood_risk.py:16-17 | the script: fails exactly for an empty quartier; 'Seine et Berges' gets 1; the others get their proportion; all in [0, 1] |
| FloodRisk.Median | paris/flood_risk/code/spatial_analysis.py:24 | the rounded proportion is 0 up to 1/2 and 1 above |
| FloodRisk.Statistics | paris/flood_risk/code/spatial_analysis.py:23-33 | the row as the script computes it: one cutoff delta per cutoff, each `((1 - p) <= c) - mode` |
| FloodRisk.CorrectedStatistics | paris/flood_risk/code/spatial_analysis.py:23-33 | the script's row with only the cutoff deltas replaced, each the corrected percentile minus the mode |
| FloodRisk.StatisticsVersusCorrected | paris/flood_risk/code/spatial_analysis.py:32-33 | the script's and the corrected cutoff deltas differ exactly at the positive cutoffs equal to 1 − p |
| FloodRisk.MedianOfProportion | paris/flood_risk/code/spatial_analysis.py:24-25 | median and mode are 0 for a proportion up to 1/2 and 1 above |
| FloodRisk.VarianceBounds | paris/flood_risk/code/spatial_analysis.py:26 | the std radicand p(1 − p) lies in [0, 1/4] |
| FloodRisk.BernoulliVariance | paris/flood_risk/code/spatial_analysis.py:26 | p(1 − p) lies in [0, 1/4] for p in [0, 1] |
| FloodRisk.StdBounds | paris/flood_risk/code/spatial_analysis.py:26 | the std lies in [0, 1/2] |
| FloodRisk.DeltasOfProportion | paris/flood_risk/code/spatial_analysis.py:28-30 | `mean_delta` lies in (−1/2, 1/2], so `median_delta` = `mode_delta` = 0 |
| FloodRisk.AsWrittenRange | paris/flood_risk/code/spatial_analysis.py:32-33 | the as-written cutoff delta is −1, 0 or 1, and at cutoff 1 it is 1 − median |
| FloodRisk.AsWrittenMonotone | paris/flood_risk/code/spatial_analysis.py:32-33 | the as-written deltas are monotone in the cutoff |
| FloodRisk.AsWrittenDisagreesWithMedian | paris/flood_risk/code/spatial_analysis.py:28-33 | in the script's row, at p = 1/2 the 0.5 delta is 1 while `median_delta` is 0, and at p = 0 the 1.0 delta is 1 while the mode is 0 |
| FloodRisk.AsWrittenDeltasOfProportion | paris/flood_risk/code/spatial_analysis.py:32-33 | the script's cutoff deltas are −1, 0 or 1, non-decreasing along the cutoffs, the last being 1 − mode |
| FloodRisk.AsWrittenVersusCorrected | paris/flood_risk/code/spatial_analysis.py:32-33 | the two rules differ exactly when the cutoff is positive and equals 1 − p |
| FloodRisk.QuantileIsPercentile | paris/flood_risk/code/spatial_analysis.py:32-33 | the corrected lookup is the weighted percentile of the two-point distribution: 0 exactly when 0 has positive weight reaching the cutoff |
| FloodRisk.CutoffAtHalfIsMedian | paris/flood_risk/code/spatial_analysis.py:29-33 | in the corrected row the 0.5 cutoff is the median and its delta is `median_delta` |
| FloodRisk.CutoffDeltasOfProportion | paris/flood_risk/code/spatial_analysis.py:32-33 | corrected cutoff deltas are −1, 0 or 1 and non-decreasing along the cutoffs |
| FloodRisk.QuantileMonotone | paris/flood_risk/code/spatial_analysis.py:32-33 | the corrected lookup is monotone in the cutoff |
| FloodRisk.ParisFloodStatistics | paris/flood_risk/code/spatial_analysis.py:17-33 | the script: fails exactly for a council always under water; otherwise one statistics row per council, as the script computes it, from its dry proportion |
| Svg.Segments | flood_risk/code/flood_risk_geoshapes.py:24-25 | every segment of every path, and nothing else |
| Svg.Max | flood_risk/code/flood_risk_geoshapes.py:26-27 | `max` of a non-empty list is an element bounding all |
| Svg.Min | flood_risk/code/flood_risk_geoshapes.py:26-27 | `min` of a non-empty list is an element bounded by all |
| Svg.Xs | flood_risk/code/flood_risk_geoshapes.py:24 | the x of every segment start, then of every segment end |
| Svg.Ys | flood_risk/code/flood_risk_geoshapes.py:25 | the y of every segment start, then of every segment end |
| Svg.Bounds | flood_risk/code/flood_risk_geoshapes.py:24-27 | ValueError (`max` of an empty list) exactly without segments; otherwise a box holding every end point whose four sides are attained |
| Svg.BoundsOfSegments | flood_risk/code/flood_risk_geoshapes.py:26-27 | the min/max box holds every segment and its sides are attained |
| Svg.MakeFrame | flood_risk/code/flood_risk_geoshapes.py:34-35 | ZeroDivisionError exactly for a flat drawing; otherwise scale factors mapping the drawing's extent onto the map's, positive for proper boxes |
| Svg.TranslateCorners | flood_risk/code/flood_risk_geoshapes.py:41-45 | `translate` maps the drawing's corners onto the map's corners |
| Svg.TranslateIncreasing | flood_risk/code/flood_risk_geoshapes.py:41-45 | `translate` is strictly increasing in each coordinate |
| Svg.TranslateInto | flood_risk/code/flood_risk_geoshapes.py:41-45 | a point of the drawing's box lands in the map's box |
| Svg.AlmostEqualReflexive | flood_risk/code/flood_risk_geoshapes.py:38-39 | a point is almost equal to itself |
| Svg.AlmostEqualSymmetric | flood_risk/code/flood_risk_geoshapes.py:38-39 | `almost_equal` is symmetric |
| Svg.AlmostEqualClose | flood_risk/code/flood_risk_geoshapes.py:38-39 | almost equal points are within 1e-8 in each coordinate |
| Svg.Ring | flood_risk/code/flood_risk_geoshapes.py:47-53 | IndexError for an empty path; otherwise the translated starts, plus the translated last end exactly when the ring is not already closed |
| Svg.Polygonize | flood_risk/code/flood_risk_geoshapes.py:47-53 | the comprehension-then-append builds the ring |
| Svg.RingFollowsSegments | flood_risk/code/flood_risk_geoshapes.py:47-53 | on a continuous path consecutive vertices are the ends of one segment |
| Svg.RingInMap | flood_risk/code/flood_risk_geoshapes.py:47-53 | a ring of a path inside the drawing lies inside the map's box |
| Svg.DrawingFrame | flood_risk/code/flood_risk_geoshapes.py:24-35 | the script's frame fails exactly for no segments or a flat drawing; otherwise it is proper and targets the fixed map box |
| Svg.DrawingRingsInMap | flood_risk/code/flood_risk_geoshapes.py:24-58 | every vertex of every ring of the drawing lies in the map box |
| Svg.Label | flood_risk/code/flood_risk_geoshapes.py:62-66 | `fill_to_label[attribute['fill']]` raises KeyError exactly for a missing fill or an unknown colour |
| Svg.Labels | flood_risk/code/flood_risk_geoshapes.py:68 | every label in order, failing exactly when one lookup does |
| Svg.Positions | flood_risk/code/flood_risk_geoshapes.py:68 | the ascending positions at which the flag holds, and only those |
| Svg.Shifted | flood_risk/code/flood_risk_geoshapes.py:68 | every position plus one |
| Svg.IsFort | flood_risk/code/flood_risk_geoshapes.py:68 | flags the labels that are 'Impact fort' |
| Svg.FortPositions | flood_risk/code/flood_risk_geoshapes.py:68-69 | KeyError exactly when a lookup fails; otherwise the ascending positions labelled 'Impact fort' |
| Svg.Pick | flood_risk/code/flood_risk_geoshapes.py:68 | the elements at the given positions |
| Svg.FilteredPaths | flood_risk/code/flood_risk_geoshapes.py:68 | the `zip` comprehension fails exactly when a lookup within the shorter length fails |
| Svg.FilteredAttributes | flood_risk/code/flood_risk_geoshapes.py:69 | fails exactly when a lookup fails; otherwise only 'Impact fort' attributes |
| Svg.FiltersAligned | flood_risk/code/flood_risk_geoshapes.py:68-69 | for paths and attributes of equal length the two filters fail together and keep the same positions |
| Tiles.Split | paris/flood_risk/code/always_underwater_geoshapes.py:48-59 | a failed tile splits into four sub-tiles |
| Tiles.SplitIs | paris/flood_risk/code/always_underwater_geoshapes.py:50-59 | the sub-tiles come in loop order, `yi` fastest |
| Tiles.SubTileFacts | paris/flood_risk/code/always_underwater_geoshapes.py:52-58 | each sub-tile `(xmin + xi·x_step, ymin + yi·y_step, …)` is proper, inside the tile and a quarter of its area |
| Tiles.SplitPartitions | paris/flood_risk/code/always_underwater_geoshapes.py:47-59 | the four sub-tiles are proper, inside the tile, pairwise non-overlapping and cover its area |
| Tiles.Underwater | paris/flood_risk/code/always_underwater_geoshapes.py:41-42 | the fetched features kept are exactly those with `niv == 99` |
| Tiles.StepBalanced | paris/flood_risk/code/always_underwater_geoshapes.py:34-61 | one loop step keeps "covered + pending + dropped = bounding-box area" and never lowers the covered area |
| Tiles.RunBalanced | paris/flood_risk/code/always_underwater_geoshapes.py:34-61 | the area balance holds after any number of steps |
| Tiles.CoveredBound | paris/flood_risk/code/always_underwater_geoshapes.py:45 | the covered area never exceeds the total, and equals it when nothing is pending or lost |
| Tiles.FetchLayer | paris/flood_risk/code/always_underwater_geoshapes.py:30-61 | the LIFO worklist loop ends in the state of the specification run, keeping the area balance: covered is in [0, total], and equals total when no tile is pending and none was lost to an unexpected error |
| Tiles.PushSplit | paris/flood_risk/code/always_underwater_geoshapes.py:50-59 | the nested loops append the split of the tile to the worklist |
| Tiles.FetchLayers | paris/flood_risk/code/always_underwater_geoshapes.py:29-61 | one run per layer, each with a covered area in [0, total] |
| QuartierMatch.MatchQuartiers | paris/geographic_units/code/seloger_quartiers_geoshapes.py:29-33 | `match_quartiers` returns True exactly when some low-quality entry has the name and intersects the shape |
| QuartierMatch.NothingMatchesEmpty | paris/geographic_units/code/seloger_quartiers_geoshapes.py:30-33 | an empty table matches nothing |
| QuartierMatch.OtherNameIrrelevant | paris/geographic_units/code/seloger_quartiers_geoshapes.py:31 | an entry of another name never decides a match |
| QuartierMatch.MatchesMonotone | paris/geographic_units/code/seloger_quartiers_geoshapes.py:31 | growing a matching shape keeps it matching |
| QuartierMatch.MatchMask | paris/geographic_units/code/seloger_quartiers_geoshapes.py:38 | the row-wise `apply` gives one flag per row, true exactly for the matching rows |
| QuartierMatch.LabelLeqTotalPreorder | paris/geographic_units/code/seloger_quartiers_geoshapes.py:41 | ordering by label is a total preorder |
| QuartierMatch.Masked | paris/geographic_units/code/seloger_quartiers_geoshapes.py:37-39 | `.loc[mask]` keeps exactly the rows whose flag is set |
| QuartierMatch.MatchedQuartiers | paris/geographic_units/code/seloger_quartiers_geoshapes.py:24-43 | de-duplicate, filter, sort: sorted by label, without repetitions, exactly the response rows that match |
| QuartierMatch.DedupResponses | paris/geographic_units/code/seloger_quartiers_geoshapes.py:24 | `drop_duplicates()` on whole rows keeps exactly the rows there are |
| QuartierMatch.MaskedDistinct | paris/geographic_units/code/seloger_quartiers_geoshapes.py:35-40 | masking rows without repetitions keeps them without repetitions |
| QuartierMatch.FillNa | paris/geographic_units/code/seloger_quartiers_geoshapes.py:109 | `.fillna('75012')`: a missing postal code becomes 75012, the others and the names and shapes stay |
| QuartierMatch.CodeThenNameTotalPreorder | paris/geographic_units/code/seloger_quartiers_geoshapes.py:110 | ordering by (code_postal, seloger_quartier) is a total preorder |
| QuartierMatch.ExportTable | paris/geographic_units/code/seloger_quartiers_geoshapes.py:109-110 | the export is sorted by (code_postal, seloger_quartier) and a permutation of the filled rows |
| QuartierMatch.ExportedCodes | paris/geographic_units/code/seloger_quartiers_geoshapes.py:109-110 | every exported row is an input row with its postal code filled |

## Left out

- Shapely and GeoPandas geometry: `intersection`, `difference`, `union_all`, `dissolve` of real polygons, `to_crs`, `sjoin`/`sjoin_nearest`, centroids, `buffer` and `representative_point`. Polygons are cell sets, so the model proves the arithmetic on top of exact areas, not the accuracy of floating-point polygon clipping.
- Floating point: all arithmetic is exact `real`. Rounding only appears where the scripts round explicitly, in `Rounding`.
- `sqrt`: Dafny has no square root on `real`. The statistics rows carry the std radicand (the variance), and `FloodRisk.StdBounds` states the bound on any non-negative root of it.
- File I/O, CSV/GeoJSON export, HTML maps, plots, `print` and `tqdm`. An export is modelled as the table it writes.
- Network downloads: `urllib.request.urlretrieve` and the ArcGIS query in `always_underwater_geoshapes.py` are oracle parameters. `fetch_rent_control.py`, `join_rent_control.py` and `fetch_heatstress_data.py` are not part of this model.
- Tiles.FetchLayer: Python's `while tiles:` needs no bound. The model runs the loop for at most `fuel` steps and reports any tiles still pending, so a fetch oracle that fails forever is a run with tiles pending, not a non-terminating loop.
- `svgpathtools.svg2paths` and `continuous_subpaths`: a path is given as its list of line segments and a subpath as a path. `path_to_shapely`'s `union_all` of the rings is left to the geometry abstraction.
- The SeLoger quartier surgery in `paris/geographic_units/code/seloger_quartiers_geoshapes.py` lines 45-100: buffers, manual splits and the unique/non-unique join by name or nearest centroid. These are geometric operations on specific polygons; the model takes the joined table as input to `.fillna` and the sort.
- The sanity-check prints comparing polygons across periods in the rent-control scripts.
- The seven-key `dissolve` that builds `gdf_rc` (`paris/rent_control/code/seloger_quartiers_rent_control.py:86`, `rent_control/code/seloger_quartiers_rent_control.py:81`, `rent_control/code/code_postal_rent_control.py:84`, `paris/rent_control/code/spatial_analysis.py:87`). The rent-control script members take `rows` as `gdf_rc` after it: at most one row per city, period, housing type, rooms, period of construction, furnishing and zone, carrying the first row's rents and the union of the group's shapes, sorted by those keys. The model does not compute that grouping; it accepts any rows, and where two rows of one zone and combination disagree the `@` alignment rule (`RentControlOverlay.Aligned`) reports ValueError.
- RentControlScripts.ParisRegionScript: the contract says which rent rows the export holds, with their values, but not their order. The body builds one block per combination, each in target order, and concatenates them (`RentControlOverlay.Block`, `RentControlOverlay.Concat`).
- RentControlScripts.ParisScript: the contract says which rent rows the export holds, with their values, but not their order. The body builds one block per combination, each in target order, and concatenates them (`RentControlOverlay.Block`, `RentControlOverlay.Concat`).
- RentControlScripts.PostalCodeScript: the contract says which rent rows the export holds, with their values, but not their order. The body builds one block per combination, each in target order, and concatenates them (`RentControlOverlay.Block`, `RentControlOverlay.Concat`).
- RentControlScripts.GrenobleScript: the contract says which rent rows the export holds, with their values, but not their order. The body builds one block per combination, each in target order, and concatenates them (`RentControlOverlay.Block`, `RentControlOverlay.Concat`).
- Python set iteration order: the housing-type loop over a set comprehension is modelled over a sequence `hs` whose elements are that set. `RentControl.SixtyFourBlocks` states the count for any order.
- Overlay.SkipNanAverage: its own contract covers only the NaN-weight case. The value for defined weights is stated by `Overlay.ConstantColumnMean` and `Overlay.MeanBetweenBounds`, and through `Averages.MaskedMeansAreMeans`.
- Averages.SkipNanMeans: its own contract states only the width. The values are stated by `Averages.MaskedMeansAreMeans`, `Averages.MeanOfConstantColumn`, `Averages.MeanWithinColumnBounds`, `Averages.MeanAffine` and `Averages.MeansOfSharesSum`.
- Averages.MaskedMeans: its own contract states only the width. `Averages.MaskedMeansAreMeans` states that it equals the unmasked means.
- HeatStress.TargetRow: its own contract states only the width. The values are stated by `HeatStress.TargetRowWithoutOverlap`, `HeatStress.TargetRowBounds` and `HeatStress.TargetRowConstant`.
- HeatSensitivity.TargetRow: its own contract states only the width. The values are stated by `HeatSensitivity.TargetRowUnmasked`, `HeatSensitivity.ClassColumnsOfRow`, `HeatSensitivity.ClassShares` and the other `TargetRow…` lemmas.
- HeatSensitivity.OneHot: its own contract states only the width. `HeatSensitivity.OneHotExactlyOne` states the encoding.
- HeatStress.FixCrosswalk: its own contract states only the length. `HeatStress.FixCrosswalkSpec` states the fix.
- Tiles.FetchLayers: the per-layer `pd.concat(gdfs).dissolve(by = 'objectid')` (`paris/flood_risk/code/always_underwater_geoshapes.py:63`) is not modelled. That includes its ValueError when no tile of a layer was ever fetched, for example when every request lands in the generic `except Exception`.
- Tiles.Split: its own contract states only the count. `Tiles.SplitIs` and `Tiles.SplitPartitions` state the sub-tiles.
- RentControlOverlay.KeptShares: its own contract states only the length. Its meaning is stated by `RentControlOverlay.KeptSharesAreShares`.
- The other geoshape preparation scripts are not part of this model. These are the conseils de quartier, postal codes, low-quality quartiers, heat-stress, heat-sensitivity and Grenoble rent-control geoshapes. They only read, reproject and dissolve files.

## Findings

| source | as written | input that shows it | evidently intended | confidence | as-written member | corrected member |
|---|---|---|---|---|---|---|
| paris/flood_risk/code/spatial_analysis.py:32-33 | the c-cutoff value is `(1 - p) <= c`, so 0 is chosen only when its weight 1 − p is strictly greater than c | p = 0.5, c = 0.5: the 0.5_delta is 1 while `median_delta` (the same cutoff) is 0; p = 0, c = 1: the 1.0_delta is 1 though the value 1 has no weight | the weighted c-percentile of the two-point distribution: 0 exactly when 1 − p > 0 and 1 − p ≥ c, so the 0.5 cutoff agrees with the median | not executed | FloodRisk.AsWrittenDisagreesWithMedian | FloodRisk.CutoffAtHalfIsMedian |
