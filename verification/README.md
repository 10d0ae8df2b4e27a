# Amazon sediment production: a verified model of the RUSLE engine

This project models the monthly soil-loss and sediment-delivery engine of
the Amazon sediment production model. The engine applies the Revised
Universal Soil Loss Equation (RUSLE) cell by cell over raster maps.

- A `RUSLE` dynamic model reads static maps and coefficient tables once.
- It computes the yearly factors once: slope LS, erodibility K and its
  seasonality, yearly erosivity R, conservation P, interception and two
  Manning terms.
- Then, for each monthly time step, it computes the monthly erosivity, the
  erodibility, the cover factor C, the soil loss, Manning's n, the
  hydrologic coefficient, the delivery ratio and the sediment delivered.
- After each phase an extent check stops the run when any map attribute has
  a missing value inside the clone mask.

Around the engine sit three small preprocessing routines, also modelled:

- the text parser that reads grid attributes from `gdalinfo` output, and the
  fine (5 arc-minute) grid derived from the coarse one;
- the min/max rescaling of an NDVI record into a ground-cover fraction;
- the nearest-grid-coordinate search used for stations.

How the model is built:

- A map is a `Field`, a sequence of `Cell`s, one per cell of the clone.
- A cell is `Missing` (PCRaster's missing value) or `Val(x)` with an exact
  real `x`.
- Every PCRaster operator propagates missing values. A division by zero, the
  square root of a negative number and a power outside its domain give a
  missing value (module `FieldAlgebra`).
- `exp`, `pow`, `sqrt`, `sin` and `atan` are fields of an `Ops` record. The
  subset type `Math` carries the only facts the proofs use about them:
  `exp` is positive and below 1 for negative arguments, `pow` is positive
  for a positive base, and `sqrt` is non-negative.
- Reading files, running `gdalinfo` and number parsing (`float`, `int`) are
  parameters: rows of a table, a `readMap` function, the tool's output text,
  and `toFloat` / `toInt`.

Modules, following the source files:

| module | file | models |
|---|---|---|
| `FieldAlgebra` | field_algebra.dfy | cells, PCRaster's cell-wise operators, sums over cover classes |
| `Factors` | factors.dfy | every cell-level factor formula of `amazon_factors.py` |
| `LandCoverTables` | tables.dfy | the coefficient dictionaries and the cover-fraction dictionary |
| `ClassWeighting` | class_weighting.dfy | the loops over cover classes: P factor, interception, Manning's n4 |
| `LandCoverInput` | land_cover_input.dfy | `load_landcoverdata`, `load_landcovermaps` |
| `ModelClock` | clock.dfy | `calc_currentdate` |
| `ExtentCheck` | extent_check.dfy | `check_extent` |
| `ModelPipeline` | pipeline.dfy | unit conversions, yearly and monthly factors, the attribute list, report names |
| `SedimentProduction` | rusle.dfy | the `RUSLE` object: `setup_model`, `dynamic`, loading, the date |
| `TextOps` | text_ops.dfy | the byte-string operations the attribute parser uses |
| `SpatialAttributes` | spatial_attributes.dfy | `read_spatialattributes_from_map` and the fine grid |
| `GroundCover` | ground_cover.dfy | `compute_minmax_ndvi` and the in-place rescale loop |
| `Stations` | stations.dfy | `find_nearest` |

Where a comment in the source and its code disagree, the model follows the
code. For example, the slope steepness factor is computed from `atan` of
the gradient in m/m. The rescaling to percent on the following line is
never used.

## Model

| member | source | states |
|---|---|---|
| Factors.SlopeLengthExponent | amazon_factors.py:34 | gamma is capped at 1. It lies in (0, 1] for a positive gradient and is 0 on flat ground. |
| Factors.SlopeLengthFactor | amazon_factors.py:13-39 | (L / 22.13)^gamma is positive for positive length and gradient, and 0 for zero length on a slope. |
| Factors.SlopeSteepnessFactor | amazon_factors.py:43-69 | The steepness factor is defined exactly where the gradient is. |
| Factors.SteepnessBounds | amazon_factors.py:65-66 | -1.5 + 17 / (1 + exp(...)) lies strictly between -1.5 and 15.5. |
| Factors.SteepnessDependsOnAngleOnly | amazon_factors.py:62-66 | The factor depends only on atan of the gradient. The rescale to percent at line 63 plays no part. |
| Factors.SlopeFactor | amazon_factors.py:73-97 | LS is defined exactly where the length factor and the gradient are. |
| Factors.SlopeFactorBounds | amazon_factors.py:96-97 | For positive length and gradient, LS lies strictly between -1.5 and 15.5 times the positive length factor. |
| Factors.AnnualErosivity | amazon_factors.py:151-169 | Missing rain gives missing erosivity. No rain gives 0. Rain in (0, 850] gives a positive value. Rain above 850 mm gives a defined value. |
| Factors.ErosivityAbove850 | amazon_factors.py:167-169 | Above 850 mm the quadratic branch 587.8 - 1.219 P + 0.00415 P^2 is taken, and it is positive. |
| Factors.ErosivityUpTo850 | amazon_factors.py:167-168 | Up to 850 mm the power branch 0.0483 P^1.61 is taken. |
| Factors.PartitionErosivity | amazon_factors.py:173-196 | Zero or negative annual rain gives 0 monthly erosivity. Missing annual erosivity gives missing. |
| Factors.PartitionBounded | amazon_factors.py:195-196 | With positive annual rain, the monthly erosivity lies between 0 and the annual erosivity. |
| Factors.VegCoverFactor | amazon_factors.py:217-231 | C is always defined. It is the fill value where R_month / R_year is missing, and the fill times the index where only the ground cover is missing. |
| Factors.VegCoverBounded | amazon_factors.py:218-228 | For ground cover in [0, 1] and 0 <= R_month <= R_year with R_year > 0, C lies in [0, 1). |
| Factors.MeltTimeFraction | amazon_factors.py:252-257 | Defined exactly where both temperatures are, at most 1, and 0 when tmax does not exceed the melt temperature. |
| Factors.MeltFractionInUnit | amazon_factors.py:254-255 | The melt time fraction always lies in [0, 1]. |
| Factors.MonthlyErodibility | amazon_factors.py:260-267 | With no melt time K_month is K_year. With full melt time it is the seasonal ratio times K_year. |
| Factors.MonthlyErodibilityBetween | amazon_factors.py:267 | For a melt fraction in [0, 1], K_month lies between K_year and ratio times K_year. |
| Factors.OrganicClayRatio | amazon_factors.py:299-300 | omc is 0 for clay at most 0.001, and om / clay above that. It is defined exactly then. |
| Factors.MeanParticleSize | amazon_factors.py:296-297 | Dg is defined where the texture is, and is at most 0 for non-negative fractions. |
| Factors.GrainSizeTerm | amazon_factors.py:306 | 0.65 - Dg + 0.24 Dg^2 is defined exactly where Dg is. |
| Factors.OrganicClayExponent | amazon_factors.py:302-303 | The exponent is defined exactly where omc and clay are. |
| Factors.DefaultSoilErodibility | amazon_factors.py:270-309 | K = 0.0293 (0.65 - Dg + 0.24 Dg^2) exp(E). No contract of its own: ErodibilityDefined and ErodibilityPositive below state where it is defined and that it is positive there. |
| Factors.ErodibilityDefined | amazon_factors.py:270-309 | K is defined exactly where the texture is defined and either clay is at most 0.001 or the organic matter is defined. |
| Factors.ErodibilityPositive | amazon_factors.py:295-306 | For non-negative texture fractions the default erodibility is positive. |
| Factors.SeasonalClass | amazon_factors.py:332-346 | 1.17 exactly for clay > 0.35; 4.50 exactly for clay < 0.18 with sand > 0.65; 1.44 exactly otherwise. |
| Factors.SeasonalityRatio | amazon_factors.py:333-343 | The three overwrite passes over a map of 1.44 give SeasonalClass in every cell. |
| Factors.SoilLoss | amazon_factors.py:350-379 | The soil loss is defined exactly where all six inputs are. |
| Factors.SoilLossWithoutErosivity | amazon_factors.py:377-379 | Zero erosivity gives zero soil loss. |
| Factors.SoilLossNonNegative | amazon_factors.py:377-379 | Non-negative factors give a non-negative soil loss. |
| Factors.ManningN1 | amazon_factors.py:425-455 | n1 is the table lookup at the gradient in percent, and is missing where the gradient is. |
| Factors.ManningV3 | amazon_factors.py:458-459 | The NDVI clipped at 0: non-negative, at least the NDVI, and equal to it when it is non-negative. |
| Factors.Manning | amazon_factors.py:497-501 | Manning's n is defined exactly where n1, n4 and the NDVI are. |
| Factors.ManningAtLeastBase | amazon_factors.py:498-501 | With non-negative n1 and n4, n is at least the base value 0.049. |
| Factors.HydroCoeff | amazon_factors.py:416-421 | Always defined and in [0, 1]. It is 0.0001 where Q / P is missing, and Q / P where that already lies in [0, 1]. |
| Factors.DeliveryRatio | amazon_factors.py:382-413 | Wherever defined, the delivery ratio lies in [0, 1]. |
| Factors.DeliveryRatioDefined | amazon_factors.py:405-413 | Non-negative H and gradient with positive n and length give a defined ratio. |
| Factors.Erosion | amazon_factors.py:520-522 | The sediment is defined exactly where the soil loss and the ratio are. |
| Factors.ErosionAtMostSoilLoss | amazon_factors.py:520-522 | With a ratio in [0, 1] the sediment lies between 0 and the soil loss. |
| FieldAlgebra.TotalDefined | amazon_sediment_production.py:270-281 | The total cover is defined in a cell exactly where every class's fraction is. |
| FieldAlgebra.TotalOfQuotients | amazon_sediment_production.py:286-288 | Dividing every fraction by t divides their total by t. |
| FieldAlgebra.WeightedSumBetween | amazon_factors.py:122-135 | With non-negative fractions and coefficients in [lo, hi], the weighted sum lies between lo and hi times the total fraction. |
| LandCoverTables.Lookup | amazon_factors.py:128 | `info[key]` is absent exactly for an unlisted class, and otherwise gives the class's value. |
| LandCoverTables.Put | amazon_sediment_production.py:244 | Assignment keeps keys distinct, sets the key, leaves every other key alone, and appends a new key at the end. |
| ClassWeighting.Coefficient | amazon_factors.py:125-128 | A class has a coefficient exactly when it is croplands under the slope rule or is listed in the table. |
| ClassWeighting.FirstUnlisted | amazon_factors.py:124-131 | The position of the first class with no coefficient: every earlier class has one, and the position is the number of classes when all have one. |
| ClassWeighting.ClassWeighted | amazon_factors.py:122-135 | A successful sum lies on the clone. Its partners: ClassWeightedFailure (when it fails), AccumulateClasses (the loop computes it), ClassWeightedBetween and ClassWeightedConvex (its bounds). |
| ClassWeighting.ClassWeightedFailure | amazon_factors.py:124-131 | The sum fails exactly when some class has no coefficient, and it names such a class (the first). |
| ClassWeighting.AccumulateClasses | amazon_factors.py:122-135 | The loop over the classes returns the weighted sum, or the KeyError of the first unlisted class. |
| ClassWeighting.ConservationFactor | amazon_factors.py:101-135 | P is the cover-weighted sum with croplands taking 0.2 + 0.3 times the selected slope. |
| ClassWeighting.Interception | amazon_factors.py:138-148 | Fails exactly when the weighted sum does. Otherwise every defined cell lies in [0, 1]. |
| ClassWeighting.InterceptionFraction | amazon_factors.py:138-148 | The loop and the two clamps compute Interception. |
| ClassWeighting.ManningN4 | amazon_factors.py:463-494 | The loop computes the cover-weighted Manning's n, or the KeyError of the first unlisted class. |
| ClassWeighting.ListedClassesSucceed | amazon_factors.py:488-491 | When the table lists every class, the weighted sum succeeds. |
| ClassWeighting.ClassWeightedBetween | amazon_factors.py:122-135 | With non-negative fractions and coefficients in [lo, hi], the result lies between lo and hi times the total cover. |
| ClassWeighting.ClassWeightedConvex | amazon_factors.py:122-135 | Where the fractions sum to 1, the result lies between the smallest and largest coefficient bounds. |
| ClassWeighting.CroplandsEntryIgnored | amazon_factors.py:125-128 | The P table's own croplands entry never affects the conservation factor. |
| LandCoverInput.RowEntry | amazon_sediment_production.py:244 | A record gives an entry exactly when it has two columns and a numeric second column. That entry is (first column, its number). |
| LandCoverInput.LoadLandCoverData | amazon_sediment_production.py:237-250 | The reading loop builds TableOf(rows). |
| LandCoverInput.FailurePersists | amazon_sediment_production.py:242-247 | Once a record fails, the rest of the file does not change the outcome. |
| LandCoverInput.TableOf | amazon_sediment_production.py:239-250 | Reading the records in order gives a dictionary with each name once. TableOfSucceeds, TableOfFailure and LastRecordWins state when it fails and which value a name keeps. |
| LandCoverInput.TableOfSucceeds | amazon_sediment_production.py:243-244 | Reading succeeds exactly when every record is well formed. |
| LandCoverInput.TableOfFailure | amazon_sediment_production.py:242-247 | A failed reading reports the error of the first bad record. |
| LandCoverInput.LastRecordWins | amazon_sediment_production.py:243-244 | The table gives every class the value of its last record. |
| LandCoverInput.RawCovers | amazon_sediment_production.py:274-276 | One cover map per class name, read under that name, in order. |
| LandCoverInput.Normalise | amazon_sediment_production.py:286-288 | Normalisation keeps the classes, their order and the clone. |
| LandCoverInput.LoadLandCoverMaps | amazon_sediment_production.py:263-291 | The two loops (read and total, then divide) give Normalise of the raw maps. |
| LandCoverInput.ReadCoverMaps | amazon_sediment_production.py:274-281 | The first loop reads every class's map on the clone, in listing order, and leaves the running sum equal to the total of all of them. |
| LandCoverInput.DivideByTotal | amazon_sediment_production.py:286-289 | The second loop, which replaces one class per step, ends with every class divided by the total where the total exceeds 1e-12 and missing elsewhere (Normalise). |
| LandCoverInput.NormalisedNames | amazon_sediment_production.py:274-291 | The cover dictionary has exactly the requested class names, in order, on the clone. |
| LandCoverInput.PartitionOfUnity | amazon_sediment_production.py:283-288 | Where the total exceeds 1e-12, every fraction is divided by it and the new fractions sum to exactly 1. |
| LandCoverInput.NormaliseCell | amazon_sediment_production.py:287-288 | A fraction is defined after division exactly when it and the total are defined and the total exceeds 1e-12. |
| LandCoverInput.NoDataBelowThreshold | amazon_sediment_production.py:284-288 | Where the total is missing or at most 1e-12, every class's fraction becomes missing. |
| ModelClock.CurrentDate | amazon_sediment_production.py:295-302 | The date is the 1st of a valid month, `step - 1` months after the start. It fails with the year error exactly when the year would pass 9999, and with the month error exactly when one wrap of 12 is not enough and the year stays in range. |
| ModelClock.DriverRunWithinYear | amazon_sediment_production.py:467-470 | The driver's 12 steps from January 1990 are the 1st of months 1 to 12 of 1990. |
| ExtentCheck.FirstMissing | amazon_sediment_production.py:419-420 | A cell's id is 0 when every attribute is defined there, and otherwise the 1-based number of the first undefined attribute. |
| ExtentCheck.MissingIds | amazon_sediment_production.py:403-420 | Inside the mask every cell holds its FirstMissing id. Outside the mask nothing is held. |
| ExtentCheck.Offenders | amazon_sediment_production.py:422-426 | Warned attributes are exactly those missing somewhere inside the mask, in increasing order. |
| ExtentCheck.CheckExtent | amazon_sediment_production.py:401-437 | With tests off nothing happens. Otherwise the id map and the warnings are as above, and the run stops exactly when some attribute is missing inside the mask. |
| ExtentCheck.NeverOverwritten | amazon_sediment_production.py:419-420 | An id once written in a cell is never replaced by later attributes. |
| ModelPipeline.Filled | amazon_sediment_production.py:159-164 | `cover(x, -999.9)` is always defined. It keeps defined values and fills missing ones. |
| ModelPipeline.Percent | amazon_sediment_production.py:187-189 | Division by 100 is defined where the input is, and 100 times the result gives the input back. |
| ModelPipeline.ConvertStatic | amazon_sediment_production.py:152-190 | The converted static maps stay on the clone. |
| ModelPipeline.CoverWith | amazon_sediment_production.py:216-217 | The NDVI is kept where defined and replaced by the gap-fill map elsewhere. |
| ModelPipeline.Millimetres | amazon_sediment_production.py:219-220 | Runoff in mm is 1000 times runoff in m, and defined where that is. |
| ModelPipeline.ConvertMonthly | amazon_sediment_production.py:193-222 | The converted monthly inputs stay on the clone. |
| ModelPipeline.HalfRange | amazon_sediment_production.py:210 | Defined exactly where both extremes are. The value is half the stored range turned from tenths of a degree into degrees: (tmax - tmin) / 20. |
| ModelPipeline.MaxTemperature | amazon_sediment_production.py:212 | The rebuilt maximum is defined exactly where the mean and both stored extremes are. |
| ModelPipeline.MinTemperature | amazon_sediment_production.py:213 | The rebuilt minimum is defined exactly where the mean and both stored extremes are. |
| ModelPipeline.TemperatureReconstruction | amazon_sediment_production.py:208-213 | The rebuilt tmax and tmin differ by the stored range / 10, and their midpoint is tavg. |
| ModelPipeline.YearErosivity | amazon_sediment_production.py:112-114 | The yearly erosivity after `cover(..., -999.9)` is defined everywhere. |
| ModelPipeline.StaticFactorsOf | amazon_sediment_production.py:98-117 | On success, all nine yearly factors lie on the clone. |
| ModelPipeline.StaticFactorsFailure | amazon_sediment_production.py:100-117 | With classes from the Manning table, setup fails exactly when the interception table lacks a class or the P table lacks a class other than croplands. |
| ModelPipeline.YearErosivityEverywhere | amazon_sediment_production.py:112-114 | R_year is the computed erosivity where that exists, and -999.9 elsewhere. |
| ModelPipeline.StaticInterceptionInUnit | amazon_factors.py:145-146 | The interception fraction lies in [0, 1] wherever it is defined. |
| ModelPipeline.CoverFactor | amazon_factors.py:217-231 | The corrected cover factor: always defined, and -999.9 where R_month / R_year is missing. |
| ModelPipeline.ResolveFill | amazon_factors.py:226 | Looking up a free name succeeds exactly when the module binds it, and gives its value. Otherwise it raises NameError naming it. |
| ModelPipeline.VegCoverAsWritten | amazon_factors.py:217-231 | `compute_vegcover_factor2` as written, with `mv` looked up among the module's names. No contract of its own: VegCoverAsWrittenFails states its outcome. |
| ModelPipeline.VegCoverAsWrittenFails | amazon_factors.py:226 | As written, every call stops with NameError for `mv`. |
| ModelPipeline.MonthlyFactorsOf | amazon_sediment_production.py:134-143 | All nine monthly factors lie on the clone. Their meaning is stated by the three lemmas below and the Factors rows. |
| ModelPipeline.SedimentAtMostSoilLoss | amazon_sediment_production.py:138-143 | Where the soil loss is defined and non-negative and the ratio is defined, the sediment lies between 0 and the soil loss. |
| ModelPipeline.MonthlyDefinedEverywhere | amazon_sediment_production.py:137-140 | The hydrologic coefficient is defined everywhere and lies in [0, 1]. The cover factor is defined everywhere. |
| ModelPipeline.NoAnnualRainNoSoilLoss | amazon_sediment_production.py:134-138 | Without annual rain the monthly erosivity is 0, and so is the soil loss where the other factors are defined. |
| ModelPipeline.StaticRegistry | amazon_sediment_production.py:407-409 | After setup the object holds 19 map attributes, in alphabetical order. |
| ModelPipeline.FullRegistry | amazon_sediment_production.py:407-409 | After a monthly step it holds 34, in alphabetical order. |
| ModelPipeline.StaticCheckAborts | amazon_sediment_production.py:401-435 | The check after `setup_model` stops the run when tests are on and one of its 19 map attributes has a missing cell inside the mask. No contract of its own: StaticCheckCatchesGap and SedimentProduction.StaticExtentCheck state it. |
| ModelPipeline.StaticCheckCatchesGap | amazon_sediment_production.py:401-435 | With tests on, a K_year cell missing inside the mask stops the run after `setup_model`. With tests off nothing stops it. |
| ModelPipeline.FullCheckAborts | amazon_sediment_production.py:401-435 | The same test over the 34 map attributes after a monthly step. No contract of its own: FullCheckCatchesGap and SedimentProduction.FullExtentCheck state it. |
| ModelPipeline.FullCheckCatchesGap | amazon_sediment_production.py:401-435 | With tests on, a soil-loss cell missing inside the mask stops the run after a monthly step. With tests off nothing stops it. |
| ModelPipeline.WriteOutcomeOf | amazon_sediment_production.py:332-345 | A factor is written exactly when reports are on and its name has at most 8 characters. A longer name only warns. |
| ModelPipeline.WriteOutcomes | amazon_sediment_production.py:121 | Each name in the list gets its own outcome, in order. |
| ModelPipeline.DriverNamesFit | amazon_sediment_production.py:147 | Every yearly and monthly factor name the driver reports fits, so all are written. |
| SedimentProduction.TablesOf | amazon_sediment_production.py:170-176 | The three tables are read in order. On success the Manning table's class names are distinct. |
| SedimentProduction.YearlyFactors | amazon_sediment_production.py:98-117 | The step-by-step yearly computation equals StaticFactorsOf. |
| SedimentProduction.MonthlyStep | amazon_sediment_production.py:134-143 | The step-by-step monthly computation equals MonthlyFactorsOf. |
| SedimentProduction.StaticExtentCheck | amazon_sediment_production.py:122 | The check after setup stops exactly when some static attribute is missing inside the mask. |
| SedimentProduction.FullExtentCheck | amazon_sediment_production.py:149 | The check after a month stops exactly when some attribute is missing inside the mask. |
| SedimentProduction.Rusle.constructor | amazon_sediment_production.py:55-69 | Tests and both report kinds are on, and nothing is loaded yet. |
| SedimentProduction.Rusle.LoadInputInitial | amazon_sediment_production.py:152-191 | A table error leaves the object unchanged. Otherwise the object holds the converted maps, the tables, and the normalised covers of the Manning table's classes, and is Loaded. |
| SedimentProduction.Rusle.SetupModel | amazon_sediment_production.py:98-123 | A missing class gives KeyError and leaves the statics unchanged. Otherwise the statics are StaticFactorsOf, and the yearly report outcomes are returned. When the extent check stops the run, the error MissingValues carries those outcomes, since the reports are written before the check. |
| SedimentProduction.Rusle.CalcCurrentDate | amazon_sediment_production.py:295-303 | The result is CurrentDate: the year error is raised before the month error. The stored date changes only on success. |
| SedimentProduction.Rusle.LoadInputDynamic | amazon_sediment_production.py:193-223 | The month's inputs become ConvertMonthly of the maps read. |
| SedimentProduction.Rusle.Dynamic | amazon_sediment_production.py:125-149 | A bad date changes nothing. Otherwise the date, inputs and nine factors are set from this month alone, and the monthly report outcomes are returned. When the extent check stops the run, the error MissingValues carries those outcomes, since the reports are written before the check. |
| TextOps.Split | mapprocessing/increase_resolution_to_5arcmin.py:37 | `split` always gives at least one piece. |
| TextOps.JoinSplit | mapprocessing/increase_resolution_to_5arcmin.py:37 | Joining the pieces of a split with the separator gives the text back. |
| TextOps.SplitJoin | mapprocessing/increase_resolution_to_5arcmin.py:50 | Splitting a join of separator-free pieces gives the pieces back. |
| TextOps.Strip | mapprocessing/increase_resolution_to_5arcmin.py:42 | `strip`: `rstrip` after `lstrip`. No contract of its own: StripKeepsMiddle and StripIdempotent state what it keeps. |
| TextOps.StripKeepsMiddle | mapprocessing/increase_resolution_to_5arcmin.py:42 | `strip` keeps a contiguous slice whose ends are outside the set, and everything cut off is in the set. |
| TextOps.StripIdempotent | mapprocessing/increase_resolution_to_5arcmin.py:51-55 | Stripping again (line 55 after line 51) changes nothing. |
| TextOps.FirstToken | mapprocessing/increase_resolution_to_5arcmin.py:53 | `split()[0]`, None when there is no token. No contract of its own: FirstTokenIsToken states what it returns. |
| TextOps.FirstTokenIsToken | mapprocessing/increase_resolution_to_5arcmin.py:53 | `split()[0]` fails exactly on all-white-space text. Otherwise it is a non-empty run free of white space, preceded only by white space. |
| TextOps.Find | mapprocessing/increase_resolution_to_5arcmin.py:46 | `find` gives -1 or a position where the key fits. |
| TextOps.FindFirst | mapprocessing/increase_resolution_to_5arcmin.py:44-46 | `find` gives the first occurrence, and -1 only when there is none, so `posCnt >= 0` always holds after `key in entry`. |
| TextOps.Contains | mapprocessing/increase_resolution_to_5arcmin.py:44 | `key in entry`, as `find` not giving -1. No contract of its own: ContainsOccurs states it. |
| TextOps.ContainsOccurs | mapprocessing/increase_resolution_to_5arcmin.py:44 | The text contains the key exactly when the key occurs at some position. |
| TextOps.SliceTo | mapprocessing/increase_resolution_to_5arcmin.py:37 | `[:n]` keeps the first n items, or all but the last -n for negative n. |
| TextOps.Lower | mapprocessing/increase_resolution_to_5arcmin.py:32 | `lower()` maps each character to its ASCII lower case. |
| SpatialAttributes.Fatal | mapprocessing/increase_resolution_to_5arcmin.py:32-33 | Error output stops the reading unless it is empty or begins with "warning" in any case. No contract of its own: WarningsNotFatal states it. |
| SpatialAttributes.WarningsNotFatal | mapprocessing/increase_resolution_to_5arcmin.py:32-33 | Empty output and output beginning with "warning" in any case are not fatal. Output whose first letter is not a w is. |
| SpatialAttributes.FirstMatch | mapprocessing/increase_resolution_to_5arcmin.py:39-45 | The line matched is the first whose stripped text contains the key. None means no line does. |
| SpatialAttributes.ValueOf | mapprocessing/increase_resolution_to_5arcmin.py:46-67 | The value has the attribute's kind (text, int, float). Failures are IndexError or a conversion failure. |
| SpatialAttributes.Magnitude | mapprocessing/increase_resolution_to_5arcmin.py:69-70 | `abs` applies exactly to numbers and gives a non-negative float. |
| SpatialAttributes.Absolute | mapprocessing/increase_resolution_to_5arcmin.py:69-70 | Other attributes pass unchanged. A resolution fails with KeyError when absent and TypeError when text. Otherwise only that entry changes, to its magnitude. |
| SpatialAttributes.Step | mapprocessing/increase_resolution_to_5arcmin.py:35-71 | One attribute is recorded as found, and other keys are kept. A resolution whose key never occurs raises KeyError. |
| SpatialAttributes.ParsedWith | mapprocessing/increase_resolution_to_5arcmin.py:35-72 | Only listed attributes are stored, and a failure is never the tool-error case. |
| SpatialAttributes.ReadAttributes | mapprocessing/increase_resolution_to_5arcmin.py:8-73 | The "no information" exit happens exactly when stderr is non-empty and does not start with "warning" in any case. |
| SpatialAttributes.FailurePersists | mapprocessing/increase_resolution_to_5arcmin.py:57-65 | The first failing attribute ends the reading, whatever follows. |
| SpatialAttributes.RecordedAt | mapprocessing/increase_resolution_to_5arcmin.py:35-72 | After a successful reading every uniquely named attribute holds the value of its first matching line, or is absent when no line matches. |
| SpatialAttributes.KindRecorded | mapprocessing/increase_resolution_to_5arcmin.py:52-70 | Stored values have their attribute's kind, and resolutions are present and non-negative. |
| SpatialAttributes.SpecsUnique | mapprocessing/increase_resolution_to_5arcmin.py:15-18 | The grid size and resolution attributes sit at positions 1 to 4 of the list, each under a name no other attribute has. |
| SpatialAttributes.ReadKinds | mapprocessing/increase_resolution_to_5arcmin.py:56-70 | A successful reading holds both resolutions as non-negative floats, and a grid size as integers when present. |
| SpatialAttributes.DefaultCut | mapprocessing/increase_resolution_to_5arcmin.py:37 | With the default maxLength of -1, only the empty piece after the final newline is dropped. |
| SpatialAttributes.ReadSpatialAttributes | mapprocessing/increase_resolution_to_5arcmin.py:8-73 | The imperative reading equals ReadAttributes. |
| SpatialAttributes.ReadEach | mapprocessing/increase_resolution_to_5arcmin.py:35-72 | The loop over the attributes equals ParsedWith. |
| SpatialAttributes.ScanLines | mapprocessing/increase_resolution_to_5arcmin.py:36-68 | Popping lines until the key matches gives Found. |
| SpatialAttributes.ExtractValue | mapprocessing/increase_resolution_to_5arcmin.py:46-67 | The statement-by-statement extraction equals ValueOf. |
| SpatialAttributes.Times | mapprocessing/increase_resolution_to_5arcmin.py:101-102 | `v * 6` keeps the kind: text stays text, an int stays an int, a float stays a float. |
| SpatialAttributes.Over | mapprocessing/increase_resolution_to_5arcmin.py:103-104 | `v / 6.0` rejects text. A number gives a float that, multiplied by 6, is the number again. |
| SpatialAttributes.OverUndoesTimes | mapprocessing/increase_resolution_to_5arcmin.py:101-104 | Dividing a multiplied number by the same factor gives the number back, as a float. |
| SpatialAttributes.FineGrid | mapprocessing/increase_resolution_to_5arcmin.py:100-104 | The copy has the same keys, and every entry except the four grid entries is unchanged. |
| SpatialAttributes.RefineGrid | mapprocessing/increase_resolution_to_5arcmin.py:100-104 | The copy and the four assignments equal FineGrid. |
| SpatialAttributes.FineGridExtent | mapprocessing/increase_resolution_to_5arcmin.py:100-104 | Six times the columns and rows at a sixth of the resolution: the same extent on both axes. |
| SpatialAttributes.FineGridOfReadAttributes | mapprocessing/increase_resolution_to_5arcmin.py:98-104 | Attributes read with a grid size always give a fine grid. |
| GroundCover.Minimum | mapprocessing/compute_ground_cover_from_NDVI.py:24 | `min()` is an element no larger than any other, and fails exactly on an empty record. |
| GroundCover.Maximum | mapprocessing/compute_ground_cover_from_NDVI.py:25 | `max()` is an element no smaller than any other, and fails exactly on an empty record. |
| GroundCover.ComputeMinMax | mapprocessing/compute_ground_cover_from_NDVI.py:21-27 | The pair is (Min, Max) of the record. |
| GroundCover.RescaleInPlace | mapprocessing/compute_ground_cover_from_NDVI.py:89-94 | The read-write loop leaves each cell rescaled. |
| GroundCover.Rescale | mapprocessing/compute_ground_cover_from_NDVI.py:91 | The result is a number exactly when the input is and the bounds differ. Then undoing the rescale, lo + r (hi - lo), gives the input back. |
| GroundCover.CoverOf | mapprocessing/compute_ground_cover_from_NDVI.py:86-92 | There is a cover exactly when the record is not empty, and it has one value per NDVI value. |
| GroundCover.GroundCoverFromNdvi | mapprocessing/compute_ground_cover_from_NDVI.py:83-92 | A fresh copy holds CoverOf the NDVI record. The NDVI record is not written. |
| GroundCover.CoverInUnit | mapprocessing/compute_ground_cover_from_NDVI.py:91 | With distinct extremes every cover value is a number in [0, 1]. |
| GroundCover.ExtremesMapToEnds | mapprocessing/compute_ground_cover_from_NDVI.py:91 | The minimum becomes 0 and the maximum 1. |
| GroundCover.CoverMonotone | mapprocessing/compute_ground_cover_from_NDVI.py:91 | Rescaling keeps the order of the values. |
| GroundCover.FlatRecordNotFinite | mapprocessing/compute_ground_cover_from_NDVI.py:91 | When all values are equal, every cell is a division by zero. |
| Stations.NearestIndex | extract_estimations_for_stations.py:18 | `argmin`: an index of minimal distance, strictly closer than every earlier element. |
| Stations.FindNearest | extract_estimations_for_stations.py:16-19 | Fails exactly on an empty array. Otherwise gives the index and that element. |
| Stations.NearestIsFirstClosest | extract_estimations_for_stations.py:18 | The answer is the unique first closest element. |

## Left out

- Raster and netCDF input and output (`readmap`, `report`, `pcr2numpy`, netCDF creation, and `netcdf_writedata`, which `dynamic` calls between the reports and the extent check) are left out. The maps read are parameters. Which factors are written is recorded as a `WriteOutcome` per name.
- The driver is taken to run under Python 2, as the scripts beside it are written for (`iteritems`, `types.IntType`). There `map(self.report_yearly_result, ...)` and `map(self.report_monthly_result, ...)` are eager, so the reports are written before the extent check. Under Python 3 `map` is lazy and nothing would be reported.
- The date constructor's error text follows Python 2, which checks the year before the month and says `year is out of range`. Python 3 says `year 10000 is out of range` instead.
- Missing directories and files, and the `sys.exit` calls of `check_dir`, `rd_map` and `check_txtfile`, are left out. A map read is a total function `readMap`.
- `print` messages and warnings are left out, except where they decide control flow.
- The settings of `config_model` that no modelled computation reads are left out: routing choice, P-factor switch and netCDF products.
- Floating-point rounding, NaN and infinity are left out; reals are exact. The one NaN/infinity the NDVI rescale produces (max == min) is modelled as `NonFinite`.
- Transcendental functions are uninterpreted operators with only the facts listed above.
- String-to-number conversion (`float`, `int`, including "inf" and "nan") is a parameter.
- CSV quoting, multi-line records and `csv.Error` are not modelled. A malformed record is a `Malformed` row.
- The NDVI gap fill (`areamaximum` over `spreadzone`) is a parameter `ndviFill`. The `lookupscalar` table behind Manning's n1 is a parameter `n1Table`.
- Python dictionary iteration order is modelled as listing (insertion) order. It only decides which missing class or attribute is reported first.
- Partial object state after a KeyError halfway through `setup_model` is not modelled. The failed method leaves the yearly factors unchanged.
- The `type(...) is pcraster.Field` test of the report functions always passes for the factor names used. The model does not represent attributes of other types.
- The organic matter content is the constant map 1, as `setup_model` sets it.
- In `check_extent`, the object's map attributes are hard-coded in `dir()` order. An empty clone mask is not treated specially.
- `gdalinfo` is not run: its standard output and error text are parameters.
- The `mapattr` and `gdal_translate` commands and the per-map conversion loop of the resolution script are left out.
- Masked arrays and the multi-dimensional shape of the NDVI record are left out. The record is one flat array in storage order.
- amazon_sediment_transport.py is not part of this model.
- ModelPipeline.StaticFactorsOf, ModelPipeline.MonthlyFactorsOf, ModelPipeline.ConvertStatic, ModelPipeline.ConvertMonthly: their own ensures state only that the maps stay on the clone. What they compute is stated by the Factors and ClassWeighting members they apply cell by cell, and by the lemmas beside them.

## Findings

| source | as written | input that shows it | evidently intended | confidence | as-written member | corrected member |
|---|---|---|---|---|---|---|
| amazon_factors.py:226 | `pcr.cover(c_ex_tmp, mv)` uses `mv`, which is bound only as a local in the driver's methods. It is not bound in the factors module. | any call, e.g. the first monthly step of `dynamic`, assuming the earlier `pcr.report` calls into the hard-coded `outdname` (amazon_factors.py:220-224) succeed | fill missing cells with the driver's -999.9, as every other `cover` in the driver does | high; not executed | ModelPipeline.VegCoverAsWrittenFails | ModelPipeline.CoverFactor |
