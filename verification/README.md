# VEnv data collectors — a Dafny model

VEnv collects environmental readings for Venice into Firestore through HTTP cloud functions,
and seeds a day of temperature data with a one-off script. This project models the logic
inside two of those pieces:

- `fetch_tide_levels`:
  - the sanitisation of the city's tide-station feed into a list of stations;
  - the Inverse Distance Weighting (IDW, power 2) estimate of the tide height at each of the
    24 zones of Venice;
  - the loop that stores one record per zone and counts them;
  - the handler's outcome for every shape of the feed.
- `fetch_venice_air_quality`: the choice of the Universal AQI entry ("uaqi") from the
  `indexes` list of the Air Quality response, and the handler around that choice.
- The temperature seeding script:
  - `_iter_half_hour_points`, the half-hour time grid of one day;
  - `_commit_in_batches`, which cuts the documents into consecutive batches of at most the
    batch size.

Numbers are Dafny `real`s. The planar distance `sqrt(dLat² + dLon²)` is only compared with
0.0001 and squared again for the weight, so the model works with the squared distance:
`dist < 0.0001` is `d² < 1e-8` (`Idw.SquaredThreshold`) and the weight is `1 / d²`.

Decoded JSON is a `Json.Value`. The Python operations the code applies to it keep their
exceptions, as `Json.Eval` results:
- `dict.get` raises `AttributeError` on anything that is not an object;
- `float(x)` raises `TypeError` on `None`, lists and dicts, and `ValueError` on text that
  does not parse.

Writes to Firestore are returned as the list of records added, in order. The clock and the
HTTP response are parameters.

Modules, one per file:

| module | file | what |
|---|---|---|
| `Wrappers` | `wrappers.dfy` | `Option` |
| `PyText` | `py_text.dfy` | `str.strip`, `str.replace`, and the decimal subset of `float(str)` |
| `Json` | `json.dfy` | decoded values, `dict.get`, and `float()` on a value |
| `Idw` | `idw.dfy` | distance, readings, the IDW accumulators, the estimate (function and loop) |
| `Stations` | `stations.dfy` | one feed item, and the sanitisation loop |
| `TideLevels` | `tide_levels.dfy` | the zone table, the zone loop, and `fetch_tide_levels` |
| `AirQuality` | `air_quality.dfy` | the "uaqi" selection, and `fetch_venice_air_quality` |
| `SeedTemperature` | `seed_temperature.dfy` | the half-hour grid, and the batched write |

### A null coordinate aborts the whole request

The per-item `try` reads as meant to skip any item that does not convert. It does skip a
coordinate that is missing (it reads as 0) or that is text that does not parse
(`ValueError`). But `float(None)`, and `float` of a list or an object, raises `TypeError`.
The per-item `except (ValueError, AttributeError)` does not catch it, so it reaches the
handler's outer `except`. A single item with `"latDDN": null` therefore makes the whole
request fail with status 500 and write nothing.

The model keeps that behaviour:
- an item's outcome is `Keep`, `Skip` or `Abort`;
- `Stations.NullLatitudeAborts` states the consequence;
- `TideLevels.FetchTideLevels` maps it to `InternalError`.

The coordinates are converted in the code's order: latitude, then longitude, then the height,
then the test against 0. So an item whose latitude does not parse is skipped even if its
longitude is `null`.

## Model

| member | source | states |
|---|---|---|
| `Json.Get` | functions/main.py:191-193 | `obj.get(key, default)` raises exactly when `obj` is not an object, and then raises `AttributeError`; otherwise it gives the field when present and the default when absent |
| `Json.ToFloat` | functions/main.py:191-192 | `float(x)` raises `TypeError` exactly on null, lists and objects, and `ValueError` exactly on strings that do not parse; it never raises `AttributeError`; a number converts to itself |
| `PyText.IsSpace` | functions/main.py:196 | the characters `str.isspace()` treats as whitespace: the ASCII controls 9-13 and 0x1C-0x1F, the space, and the Unicode separators it lists |
| `PyText.LeadingSpaces` | functions/main.py:196 | the leading run `strip` removes: all whitespace, and followed by a non-space or by the end |
| `PyText.TrailingSpaces` | functions/main.py:196 | the trailing run `strip` removes: all whitespace, and preceded by a non-space or by the start |
| `PyText.Strip` | functions/main.py:196 | `str.strip()`: the text without its leading and its trailing whitespace run (its properties are the `Strip...` lemmas below) |
| `PyText.StripIsTrimmedSlice` | functions/main.py:196 | `strip()` returns a slice `s[lo..hi]` with only whitespace before and after it, which neither starts nor ends with whitespace |
| `PyText.StripKeepsAbsent` | functions/main.py:196 | `strip()` introduces no character the text did not hold |
| `PyText.StripUnchanged` | functions/main.py:196 | text that neither starts nor ends with whitespace is returned unchanged by `strip()` |
| `PyText.Replace` | functions/main.py:196 | `str.replace(sub, rep)`: scanning left to right, every occurrence of `sub` that does not overlap an earlier replaced one becomes `rep` (its properties are the `Replace...` lemmas below) |
| `PyText.ReplaceChar` | functions/main.py:196 | `replace(',', '.')` keeps the length and changes exactly the commas, into points |
| `PyText.ReplaceAbsent` | functions/main.py:196 | `replace(sub, rep)` leaves text that does not contain `sub` unchanged |
| `PyText.ReplaceByEmptyShrinks` | functions/main.py:196 | `replace(' m', '')` never lengthens the text |
| `PyText.DotIndex` | functions/main.py:196 | the position of the first decimal point, or the length when there is none |
| `PyText.ParseUnsigned` | functions/main.py:196 | an unsigned decimal: digits, at most one point, digits, with at least one digit, worth the whole part plus the fraction; anything else is `None` (`ValueError`) |
| `PyText.ParseDecimal` | functions/main.py:196 | an optional `+` or `-` followed by an unsigned decimal, negated for `-` |
| `PyText.ParseFloat` | functions/main.py:196 | `float(str)`: surrounding whitespace is ignored, the rest must be a signed decimal |
| `PyText.UnsignedShape` | functions/main.py:196 | an unsigned decimal that parses is made of digits and at most one point, with at least one digit |
| `PyText.ParseDecimalShape` | functions/main.py:196 | text that parses as a number is non-empty, has a digit, and holds only digits, at most one point and a leading sign |
| `PyText.ParseUnsignedPoint` | functions/main.py:196 | digits, a point and digits parse to the whole part plus the fraction digits over 10 to the power of their count |
| `PyText.ParseDigits` | functions/main.py:196 | a digit string parses to the number it writes, and with a leading '-' to its negation |
| `Stations.Normalize` | functions/main.py:196 | the height text the code hands to `float`: ` m` removed, commas turned into points, then stripped |
| `Stations.Height` | functions/main.py:193-196 | the height of an item: `float` of the normalised `valore` (default `''`); `None` when `valore` is not a string (`AttributeError`) or does not parse (`ValueError`) |
| `Stations.Coord` | functions/main.py:191-192 | a missing coordinate reads as 0, a present one as `float` of its value |
| `Stations.EmptyHeightRejected` | functions/main.py:193-196 | the default `''` does not parse as a height |
| `Stations.HeightNeedsString` | functions/main.py:193-196 | a height is read only from a `valore` that is present and a string, and then it is `float` of the normalised text |
| `Stations.ProcessItem` | functions/main.py:189-205 | a kept station never has a zero latitude or longitude |
| `Stations.ProcessItemCases` | functions/main.py:189-205 | a non-object item is skipped; an item aborts exactly when `float` of a coordinate raises `TypeError` before any other exception; it is kept exactly when both coordinates and the height convert and neither coordinate is 0, and then the station holds those three numbers |
| `Stations.Outcomes` | functions/main.py:189-205 | one outcome per item, in feed order |
| `Stations.Collect` | functions/main.py:198-205 | the loop over outcomes from the front: a keep appends its station, a skip continues, an abort ends the loop with the uncaught `TypeError` |
| `Stations.Sanitize` | functions/main.py:188-205 | the loop over the whole feed: `Stations.Collect` of the items' outcomes |
| `Stations.SanitizeStations` | functions/main.py:188-205 | the loop returns the stations kept, in feed order, or stops with the uncaught `TypeError` |
| `Stations.CollectStep` | functions/main.py:198-205 | one more item appends its station when kept, changes nothing when skipped, and aborts the loop otherwise |
| `Stations.AbortPersists` | functions/main.py:189-205 | once an item has aborted the loop, later items change nothing |
| `Stations.AbortFromPrefix` | functions/main.py:188-205 | an uncaught `TypeError` among the first items is the result of the whole loop, whatever follows |
| `Stations.CollectAppend` | functions/main.py:188-205 | the loop over outcomes composes over concatenation |
| `Stations.SanitizeAppend` | functions/main.py:188-205 | sanitising `a + b` keeps the stations of `a` followed by those of `b`, and aborts exactly when one of the halves does |
| `Stations.CollectAbortIff` | functions/main.py:188-205 | the loop over outcomes aborts exactly when some outcome aborts |
| `Stations.SanitizeAbortIff` | functions/main.py:188-205 | sanitisation aborts exactly when some item raises the uncaught `TypeError` |
| `Stations.CollectKept` | functions/main.py:188-205 | every collected station comes from a kept outcome, and there are no more stations than outcomes |
| `Stations.SanitizeKeptStations` | functions/main.py:188-205 | every kept station comes from some item and has non-zero coordinates; there are no more stations than items |
| `Stations.CollectAllKept` | functions/main.py:188-205 | when every outcome is a keep, the loop returns all their stations in order |
| `Stations.SanitizeAllKept` | functions/main.py:188-205 | when every item is kept, the result is every item's station, in feed order |
| `Stations.CollectKeptAt` | functions/main.py:198-205 | a kept outcome's station sits in the result after the stations collected before it and before those collected after it |
| `Stations.KeptAppears` | functions/main.py:188-205 | every kept item's station is in the result, at its feed position: after the stations of the items before it and before those of the items after it |
| `Stations.NormalizeNoComma` | functions/main.py:196 | no decimal comma survives the normalisation |
| `Stations.NormalizeNoLonger` | functions/main.py:196 | normalisation only removes characters: the text handed to `float` is never longer than `valore` |
| `Stations.DropUnitExample` | functions/main.py:196 | `"1,23 m".replace(' m', '')` is `"1,23"` |
| `Stations.DecimalPointExample` | functions/main.py:196 | `"1,23".replace(',', '.')` is `"1.23"` |
| `Stations.DigitsExample` | functions/main.py:196 | the digits "1" and "23" write the decimal 1.23 |
| `Stations.ParseExample` | functions/main.py:196 | `float("1.23")` is 1.23 |
| `Stations.NormalizeExample` | functions/main.py:196 | the feed's `"1,23 m"` normalises to `"1.23"` and reads as 1.23 metres |
| `Stations.ProcessItemExample` | functions/main.py:189-203 | a published feed item with coordinates and `"1,23 m"` becomes the station (45.43, 12.33, 1.23) |
| `Stations.ProcessItemBadHeight` | functions/main.py:193-205 | a height that is not a string, or does not parse, skips the item without raising |
| `Stations.ProcessItemMissingLatitude` | functions/main.py:191-198 | an item without a latitude is never kept |
| `Stations.NullLatitudeAborts` | functions/main.py:191-205 | a `null` latitude anywhere in the feed makes the whole sanitisation fail |
| `Idw.SqDist` | functions/main.py:213-215 | the squared planar distance is never negative |
| `Idw.SquaredThreshold` | functions/main.py:227 | for a non-negative distance, `dist < 0.0001` holds exactly when `dist² < 1e-8` |
| `Idw.ReadingsAt` | functions/main.py:223-224 | the stations as seen from the zone, one reading per station, in list order |
| `Idw.Weight` | functions/main.py:230 | the weight `1 / dist²` of a station outside the threshold is positive |
| `Idw.FirstNear` | functions/main.py:223-228 | the index of the first reading within the threshold; none exactly when all are outside it |
| `Idw.EstimateOf` | functions/main.py:217-237 | the estimate from the readings: the value of the first reading within the threshold, else `None` when the weights sum to 0, else Σ(vᵢ/dᵢ²) / Σ(1/dᵢ²) |
| `Idw.Estimate` | functions/main.py:217-237 | `estimate_tide_idw(zone_lat, zone_lon, stations)`: `Idw.EstimateOf` of the stations' readings from the zone |
| `Idw.EstimateTideIdw` | functions/main.py:217-237 | the loop with its early return and two accumulators computes the estimate function `Idw.Estimate` |
| `Idw.FirstNearAt` | functions/main.py:223-228 | the first reading within the threshold is found where the scan returns |
| `Idw.EstimateAtNear` | functions/main.py:223-228 | when the first `i` stations are outside the threshold and station `i` is within it, the estimate is station `i`'s value, as the early return gives |
| `Idw.EstimateAllFar` | functions/main.py:230-237 | when every station is outside the threshold, the estimate is `None` for a zero denominator and `numerator / denominator` otherwise, as the code after the loop gives |
| `Idw.SumsStep` | functions/main.py:230-232 | one more station outside the threshold adds `weight = 1 / dist²` to `denominator` and `altezza_m * weight` to `numerator`, and keeps every station seen so far outside the threshold |
| `Idw.WeightSumPositive` | functions/main.py:230-235 | with at least one station outside the threshold, `denominator` is positive; with none it is 0 |
| `Idw.SumsBounded` | functions/main.py:230-232 | if every value lies in `[lo, hi]` then `lo * denominator <= numerator <= hi * denominator` |
| `Idw.SumsAppend` | functions/main.py:230-232 | both accumulators distribute over concatenation |
| `Idw.AllFarPermutation` | functions/main.py:223-228 | reordering keeps every station outside the threshold |
| `Idw.SumsPermutation` | functions/main.py:230-232 | reordering the stations changes neither accumulator |
| `Idw.EstimateCoincident` | functions/main.py:223-228 | if some station is within 0.0001 degrees, the estimate is the value of the first such station in list order, whatever the others hold |
| `Idw.EstimateWeightedMean` | functions/main.py:217-237 | with no coincident station and at least one station, the estimate is Σ(vᵢ/dᵢ²) / Σ(1/dᵢ²) and the denominator is positive |
| `Idw.EstimateNoneIffEmpty` | functions/main.py:234-235 | the estimate is `None` exactly when there are no stations |
| `Idw.EstimateSingleStation` | functions/main.py:219-237 | with one station the estimate is its value, whatever the distance |
| `Idw.MinValue` | functions/main.py:217-237 | the smallest station value |
| `Idw.MaxValue` | functions/main.py:217-237 | the largest station value |
| `Idw.EstimateBetweenMinMax` | functions/main.py:217-237 | with no coincident station, the estimate lies between the smallest and the largest station value |
| `Idw.EstimateOfBetween` | functions/main.py:217-237 | with no reading within the threshold, the estimate lies between any bounds of the values |
| `Idw.ReadingsAppend` | functions/main.py:223-224 | readings distribute over concatenation of station lists |
| `Idw.ReadingsPermutation` | functions/main.py:223-224 | a permutation of the stations gives a permutation of the readings |
| `Idw.EstimatePermutation` | functions/main.py:223-237 | with no coincident station, reordering the stations does not change the estimate |
| `Idw.CoincidentOrderMatters` | functions/main.py:223-228 | with two coincident stations, the order decides the estimate |
| `Idw.ScenarioCoincidentStation` | functions/main.py:226-228 | a station on the zone's centroid passes its value through |
| `Idw.ScenarioTwoStations` | functions/main.py:217-237 | two stations near zone 2 give the weighted mean 797/1540 |
| `TideLevels.ZoneTable` | functions/main.py:145-170 | there are 24 zones numbered 1 to 24 in order, so the ids are distinct |
| `TideLevels.SaveTideEstimates` | functions/main.py:242-257 | the zone loop adds the records of `TideLevels.TideRecords` in zone order, and `saved_count` is their number, at most the number of zones |
| `TideLevels.TideRecords` | functions/main.py:244-257 | the documents the zone loop adds: one per zone whose estimate exists, in zone order, with the shared timestamp, the estimate and the zone id |
| `TideLevels.TideRecordsStep` | functions/main.py:246-257 | one more zone adds its document exactly when its estimate is not `None`, and adds nothing otherwise |
| `TideLevels.TideRecordsFromZones` | functions/main.py:244-257 | every record carries the shared timestamp and the id of a zone whose estimate is its height; there are no more records than zones |
| `TideLevels.TideRecordsAllZones` | functions/main.py:244-257 | with at least one station every zone gets its record, in zone order |
| `TideLevels.TideRecordsNoStations` | functions/main.py:244-248 | without stations no zone gets a record |
| `TideLevels.SavesEveryZone` | functions/main.py:244-257 | with at least one station, a table of 24 zones numbered 1 to 24 (as the zone table is) is stored whole, zone `i + 1` in position `i` |
| `TideLevels.HttpStatus` | functions/main.py:180-263 | status 200 exactly on success, 500 on every error return; `TideLevels.FetchTideLevels` answers 200 exactly when it wrote records |
| `TideLevels.FetchTideLevels` | functions/main.py:174-263 | the handler's outcome for every feed: API error, not a list, the uncaught `TypeError`, no valid station (nothing written), or 24 records for 24 zones from the sanitised stations |
| `AirQuality.IsUaqi` | functions/main.py:110 | `idx.get('code') == 'uaqi'` on an object entry |
| `AirQuality.FindUaqi` | functions/main.py:109-112 | the scan finds the first "uaqi" entry preceded only by other object entries, finds none when every entry is an object without that code, and raises `AttributeError` exactly at a non-object entry met first |
| `AirQuality.Truthy` | functions/main.py:104 | Python truthiness of a decoded value: `None`, `False`, zero, the empty string, list and object are falsy |
| `AirQuality.SelectAqi` | functions/main.py:103-112 | the choice of the entry: no entry for an empty list, else the first "uaqi" entry, else `indexes[0]`, or the `AttributeError` of a non-object entry met first |
| `AirQuality.SelectAqiIndex` | functions/main.py:107-112 | the `for` loop with its `break` computes the selection `AirQuality.SelectAqi` |
| `AirQuality.FindUaqiRaises` | functions/main.py:109-110 | a non-object entry before any "uaqi" entry raises |
| `AirQuality.FindUaqiFinds` | functions/main.py:109-112 | a "uaqi" entry preceded only by other objects is the one chosen |
| `AirQuality.SelectAqiChosen` | functions/main.py:103-115 | the chosen entry is an object of the list: the first "uaqi" entry if there is one, else `indexes[0]` |
| `AirQuality.SelectAqiErrorIff` | functions/main.py:108-112 | the selection fails exactly when a non-object entry comes before any "uaqi" entry |
| `AirQuality.LeadingUaqiWins` | functions/main.py:109-112 | the entries after a leading "uaqi" entry are never looked at |
| `AirQuality.FetchAirQuality` | functions/main.py:74-134 | the handler's outcome: missing key, API error, no index (falsy `indexes`), the uncaught exceptions, or one record with the chosen entry's `aqi` and `category` |
| `SeedTemperature.HalfHourSlots` | functions/seed_temperature_2026_01_22.py:52-74 | the day has 48 points |
| `SeedTemperature.IterHalfHourPoints` | functions/seed_temperature_2026_01_22.py:55-74 | the `while` loop yields exactly the slots of `SeedTemperature.HalfHourSlots`, point `i` at minute `30 * i` |
| `SeedTemperature.HalfHourSlotsCoverDay` | functions/seed_temperature_2026_01_22.py:55-74 | the first point is at 00:00 and the last at 23:30; times increase strictly in steps of 30 minutes and stay within the day; point `i` has index `i`; the phase fraction `i / 48` lies in [0, 1) |
| `SeedTemperature.Slice` | functions/seed_temperature_2026_01_22.py:98 | `docs[i : i + size]` clips at the end of the list and holds the documents from `i` on |
| `SeedTemperature.CommitInBatches` | functions/seed_temperature_2026_01_22.py:93-105 | a zero batch size raises `ValueError` and a negative one writes nothing; a positive one commits the chunks in order and returns `len(docs)` |
| `SeedTemperature.Chunks` | functions/seed_temperature_2026_01_22.py:97-98 | the chunks `docs[i : i + batch_size]` for `i` in `range(0, len(docs), batch_size)` |
| `SeedTemperature.FlattenChunks` | functions/seed_temperature_2026_01_22.py:97-98 | the chunks put back together are the documents in order |
| `SeedTemperature.ChunkSizes` | functions/seed_temperature_2026_01_22.py:97-98 | every chunk holds between 1 and `batch_size` documents, and all but the last hold exactly `batch_size` |
| `SeedTemperature.ChunkCount` | functions/seed_temperature_2026_01_22.py:97-103 | the number of batches is ceil(len(docs) / batch_size), and 0 exactly for an empty list |
| `SeedTemperature.SeedRunSingleBatch` | functions/seed_temperature_2026_01_22.py:140-167 | the 48 documents of a seeding run go in one batch of the default size 450 |

## Left out

- HTTP: `requests.get`/`post`, the request payload and the URLs are left out; a response is given as its status code and its decoded body, or `None` when `response.json()` fails.
- Firestore and Firebase: `firestore.client`, `.add`, `batch.set`/`commit` and `_init_firebase_app` are left out; each write is a record appended to a returned list.
- Environment and framework glue: `os.environ` becomes an `Option<string>` parameter, `datetime.now().isoformat()` a timestamp parameter; the `functions_framework` decorators, `argparse` and `main()` of the seed script are left out.
- Printed messages and the text of the HTTP answers are left out; each answer is an outcome constructor.
- `fetch_venice_weather` and `fetch_uv_data` are not part of this model. They are fetch-and-save wrappers whose own logic is `dict.get` defaults and `round(..., 2)`.
- The temperature values of the seed script (the `math.sin` curve and `round(value, 2)`) are left out; the model keeps each point's index, time and phase fraction `i / 48`.
- Time zones (`_get_tzinfo`, `ZoneInfo`) are left out: aware-datetime plus `timedelta` is wall-clock arithmetic, so the grid is minutes after midnight on every day.
- Floating point: numbers are exact reals, so the IEEE rounding of the IDW sums and of the division is not modelled, and neither is `sqrt`.
- PyText.ParseFloat: Python's `float(str)` also accepts exponents, `inf`, `nan`, underscores between digits and non-ASCII digits; the model accepts only an optional sign and plain decimals, and rejects the rest as a `ValueError`.
- PyText.IsSpace: whitespace is the set `str.isspace()` accepts in the ranges listed; no other Unicode property is modelled.
- Json.ToFloat: a JSON number is one real; the distinction between Python `int` and `float` is not kept. In Python `float()` of an integer beyond the double range raises `OverflowError`, which the per-item `except (ValueError, AttributeError)` does not catch, so such a coordinate would fail the whole request; the model converts every number.
- `TempPoint` is a `SeedTemperature.Slot` without its temperature.
