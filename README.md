# Muon telescope and thermometer logs: a Dafny model

This project models the data-handling core of a laboratory repository with two parts.

**Muon telescope.** Three scintillator plates (m101, m102, m103) each record, per trigger:
- an event number (`evn`);
- two time stamps;
- three hex bytes. These encode which of 12 B strips and 12 A strips fired.

The model covers the following:
- `0_muon_csv_root.py`. `check_evn`/`check_data` look for gaps in the event numbers. `get_coordinates_single` drops events inside a gap and decodes the strip word. The `Fill` loop then assembles the three planes, position by position, into rows of the `matedata` ntuple.
- `reconstruct_muon_tracks.py`. This fits a least-squares slope per event and axis, against the plate depths.
- `1_angulo_incidencia_coordenada.py`. This validates the chosen (A2, B2) strip pair and filters the entries that hit it.

**Thermometer logs.** `make_tuple.C` turns temperature logs into a ROOT tree. The lines have the form `YYYY-MM-DD,HH:MM:SS, Unidad: C, S1: v1, ..., S19: v19.`. The model covers these pieces of it:
- the string helpers `trim_copy`, `has_glob`, `split_commas`, `join_path` and the fallback branch of `basename_of`;
- the date-based naming: `extract_date_yyyymmdd`, `compute_span_from_filenames` and `pick_outfile_name`;
- the per-line parse that fills the `temps` tree.

`draw_range.C` parses a start and an end time into a compact date and a second count (`parse_dt`). It then builds a selection over the tree (`build_sel`). The model treats that selection as the predicate ROOT evaluates on each entry, not as the text of the formula.

## How the model is organised

The modules follow the source files:

| File | Module | What it holds |
|---|---|---|
| `common.dfy` | `Common` | `Option`, powers of two, concatenation associativity |
| `ctext.dfy` | `CText` | character classes; `std::string::find`; skipping white space; `std::string` ordering |
| `scanf.dfy` | `Scanf` | the `%d`/`%u` conversions of `sscanf`; a decimal renderer used to state round trips |
| `strip_decoder.dfy` | `StripDecoder` | `int(pos_hex, 16)`; `format(.., '0>24b')`; the one-hot decode of each 12-bit half |
| `muon_csv.dfy` | `MuonCsv` | `check_data`, `check_evn`, `get_coordinates_single`, the fill loop; the `TNtuple` as a class whose `Fill` appends a row |
| `track_fit.dfy` | `TrackFit` | the slope fit, in exact real arithmetic |
| `incidence.dfy` | `Incidence` | the selection and filter loop of the incidence script |
| `make_tuple_names.dfy` | `MakeTuple` | the string and naming helpers of `make_tuple.C` |
| `make_tuple_rows.dfy` | `MakeTupleRows` | the line parse; the sensor array `S`; the tree as a class |
| `draw_range.dfy` | `DrawRange` | `parse_dt`, `build_sel`, the subset a selection keeps |

Loops in the source are methods with loops in the model. Each is proved equal to a recursive reference function, and the properties are proved about that function. Examples:
- `SplitCommas` is proved against the sequence of trimmed, non-empty comma-separated pieces;
- `CheckData` is proved against the gap list;
- `GetCoordinatesSingle` is proved against the decoded hits.

Objects that the source changes in place are classes whose methods append rows: the `TNtuple` and the `TTree`.

In four places the code does less than a first reading suggests; the model follows the code:
- **Exclusion.** `get_coordinates_single` tests only the first pair of each error list (`error1[0]`, `error1[1]`, ...). If the first plane's list is empty, an `IndexError` is swallowed and no event is excluded at all. If the second plane's list is empty, the third plane's list is never looked at. The comment at `0_muon_csv_root.py:57` ("Ignora eventos dentro del rango con errores") reads naturally as a union over every interval of every plane; the code does not compute that. `MuonCsv.Skipped` models the code, and `OnlyFirstGapCounts`, `FirstEmptyKeepsAll`, `SecondEmptyDisablesThird` and `GapOnSecondPlaneOnly` state the consequences.
- **Decode.** An ambiguous half sets *both* axes to -1, because the code appends `[-1]` to both lists together; the two axes are not validated independently.
- **Assembly.** The fill loop runs over plane 1's list. Every index past the shortest plane raises `IndexError`, which the code reports and skips. The rows are therefore those of the shortest length, and the skipped indices are returned as `missing`.
- **build_sel.** An unparsable start gives `TCut("")`, which ROOT applies as no cut, so every entry is kept. An end earlier than the start, on another day, does not give an empty selection: the two border days are still kept (`ReversedKeepsBorderDays`).

## Definitions

The contracts below are stated against these reference definitions. Each is a function or predicate written from the cited lines:
- `MuonCsv.GapPairs` (Python/0_muon_csv_root.py:26-29): the error list of `check_data`.
- `MuonCsv.Aborts` (Python/0_muon_csv_root.py:38-41): `check_evn` indexes an empty plane; `SetAborts` and `NoneAborts` lift it to data sets and walks.
- `MuonCsv.Skipped` (Python/0_muon_csv_root.py:55-63): the exclusion test of `get_coordinates_single`.
- `MuonCsv.Hits` (Python/0_muon_csv_root.py:46-88): the surviving decoded hits of one plane.
- `MuonCsv.TripletRows` and `MuonCsv.AllRows` (Python/0_muon_csv_root.py:113-130): the rows one data set and one walk fill.
- `TrackFit.Slope` (Python/reconstruct_muon_tracks.py:44-61): the least-squares slope.
- `Scanf.ScanInt` and `Scanf.ScanTriple` (Termometros/Root/make_tuple.C:343-344, Termometros/Root/temp_root/draw_range.C:19): one `%d` conversion, and three of them with a literal separator.
- `DrawRange.ScanDt` (Termometros/Root/temp_root/draw_range.C:19): the six-field `sscanf` of `parse_dt`.
- `DrawRange.InWindow` (Termometros/Root/temp_root/draw_range.C:41-50): the three time windows of `build_sel`.
- `DrawRange.Admits` (Termometros/Root/temp_root/draw_range.C:41-55): the window together with the optional `file_id` test.
- `MakeTuple.Trim` (Termometros/Root/make_tuple.C:43-47): `trim_copy`.
- `MakeTuple.SpanOf` (Termometros/Root/make_tuple.C:141-152): the first and last date found among the input names.
- `MakeTuple.PickOutfileName` (Termometros/Root/make_tuple.C:162-172): the output name chosen.
- `MakeTupleRows.LineRecord` and `MakeTupleRows.FieldsRecord` (Termometros/Root/make_tuple.C:331-354): the row one log line gives, if any.

## Model

| member | source | states |
|---|---|---|
| StripDecoder.ParseHex | Python/0_muon_csv_root.py:68 | `int(pos_hex, 16)` succeeds exactly on a non-empty string of hex digits |
| StripDecoder.HexValueAppend | Python/0_muon_csv_root.py:67-68 | the value of the concatenated hex bytes is the first part shifted by four bits per digit of the rest, plus the rest |
| StripDecoder.PadBinaryFixed | Python/0_muon_csv_root.py:69 | for a value below 2^n, the zero-padded binary rendering is exactly its n bits, most significant first |
| StripDecoder.PadBinaryInjective | Python/0_muon_csv_root.py:69 | two values below 2^n with the same padded rendering are equal |
| StripDecoder.PositionsMembers | Python/0_muon_csv_root.py:73-75 | a position is listed exactly when it is in the window and that bit is set |
| StripDecoder.Decode | Python/0_muon_csv_root.py:73-83 | the two indices are -1 together, and each lies in -1..11 |
| StripDecoder.DecodeEncode | Python/0_muon_csv_root.py:67-83 | the word with exactly bit 23-b and bit 11-a set decodes to (b, a), for every pair of strips |
| StripDecoder.EncodeDecode | Python/0_muon_csv_root.py:67-83 | a 24-bit word that decodes to a hit is exactly the word of that strip pair |
| StripDecoder.DecodeValidIff | Python/0_muon_csv_root.py:78-83 | a 24-bit word decodes to a hit if and only if it has one set bit in each half |
| MuonCsv.CheckData | Python/0_muon_csv_root.py:24-30 | the loop returns the gap list: both event numbers of each non-consecutive neighbour pair, in order, and the line indices at which they occur |
| MuonCsv.GapIndicesMembers | Python/0_muon_csv_root.py:26-29 | k is reported exactly when entries k and k+1 are not consecutive |
| MuonCsv.GapIndicesAscending | Python/0_muon_csv_root.py:26-29 | the reported indices ascend and stay below the last index |
| MuonCsv.GapPairsShape | Python/0_muon_csv_root.py:26-29 | the error list holds two entries per gap: the number before it and the number after it |
| MuonCsv.ConsecutiveIffNoErrors | Python/0_muon_csv_root.py:24-30 | the error list is empty if and only if every event number is one more than the previous |
| MuonCsv.GapPairsExample | Python/0_muon_csv_root.py:26-29 | event numbers 5, 6, 8, 9 give the errors [6, 8] at index 1 |
| MuonCsv.CheckEvn | Python/0_muon_csv_root.py:15-43 | the three error lists of the planes, and whether the first and the last event numbers differ across the planes, compared with Python's short-circuiting chained `==`, so plane 3 is indexed only when planes 1 and 2 agree |
| MuonCsv.SecondEmptyDisablesThird | Python/0_muon_csv_root.py:55-63 | with no errors on plane 2, only plane 1's first interval can exclude an event |
| MuonCsv.FirstEmptyKeepsAll | Python/0_muon_csv_root.py:55-63 | with no errors on plane 1, the other planes' errors exclude nothing |
| MuonCsv.SkippedInclusive | Python/0_muon_csv_root.py:58-60 | both bounds of an interval are excluded |
| MuonCsv.SkippedInFirstInterval | Python/0_muon_csv_root.py:58-61 | an excluded event lies in the first interval of some plane's list |
| MuonCsv.OnlyFirstGapCounts | Python/0_muon_csv_root.py:24-63 | an event inside a plane's second gap is not excluded |
| MuonCsv.GapOnSecondPlaneOnly | Python/0_muon_csv_root.py:24-63 | a gap on plane 2 alone excludes nothing while plane 1 has no gap |
| MuonCsv.DecodedContribution | Python/0_muon_csv_root.py:65-88 | a kept record whose word parses contributes its decoded strips with its evn, tp1 and tp2 copied through |
| MuonCsv.ColumnsOf | Python/0_muon_csv_root.py:79-88 | the five lists have equal length and hold, position by position, the fields of the hits |
| MuonCsv.GetCoordinatesSingle | Python/0_muon_csv_root.py:46-92 | the five lists are the columns of the decoded surviving hits, and the failed lines are those not excluded whose hex word does not parse |
| MuonCsv.HitsSurvive | Python/0_muon_csv_root.py:54-83 | no kept hit lies in an excluded interval; each hit's two strips are -1 together and lie in -1..11 |
| MuonCsv.HitsKeepAll | Python/0_muon_csv_root.py:54-88 | with nothing excluded and every word parsing, every record is kept in order, with its evn, tp1 and tp2 |
| MuonCsv.Filled | Python/0_muon_csv_root.py:122-130 | the number of rows the fill loop writes is the length of the shortest of the nine columns it indexes |
| MuonCsv.AssembleRows | Python/0_muon_csv_root.py:122-128 | row j combines plane 1's tp1, tp2 and evn with the j-th strips of all three planes |
| MuonCsv.Ntuple.constructor | Python/0_muon_csv_root.py:12 | a new ntuple holds no rows |
| MuonCsv.Ntuple.Fill | Python/0_muon_csv_root.py:124-128 | `Fill` appends one row |
| MuonCsv.FillPlanes | Python/0_muon_csv_root.py:122-130 | the loop appends the assembled rows, and reports every index past them as failed |
| MuonCsv.TripletRowsCount | Python/0_muon_csv_root.py:113-130 | a data set adds as many rows as its shortest list of surviving hits |
| MuonCsv.ProcessTriplet | Python/0_muon_csv_root.py:113-130 | the set aborts, adding no row, exactly when `check_evn` indexes an empty plane (plane 1 or 2 empty, or plane 3 empty while planes 1 and 2 agree on the first or the last event number); otherwise it appends exactly its assembled rows |
| MuonCsv.ProcessSet | Python/0_muon_csv_root.py:104-130 | a data set with a missing file adds nothing and does not abort; a read set aborts as `ProcessTriplet` says, and otherwise adds its rows |
| MuonCsv.ProcessAll | Python/0_muon_csv_root.py:95-130 | with no aborting set, the walk appends the rows of all data sets in order; otherwise it stops at the first aborting set, names it, and has appended the rows of the sets before it |
| MuonCsv.NoneAbortsMeans | Python/0_muon_csv_root.py:95-113 | the walk's recursive "no set aborts" holds exactly when no set at any index aborts |
| TrackFit.DenomZeroIff | Python/reconstruct_muon_tracks.py:44-46 | `denom` is never negative, and is zero exactly when the three depths coincide |
| TrackFit.DegenerateDepths | Python/reconstruct_muon_tracks.py:44-61 | with coincident depths the covariance is zero and the slope is the NaN of 0/0 |
| TrackFit.DefaultDenom | Python/reconstruct_muon_tracks.py:29-46 | the default depths 0, 10, 20 have mean 10 and `denom` 200 |
| TrackFit.ExactLine | Python/reconstruct_muon_tracks.py:57-61 | hits on a straight line c + s·z give back exactly the slope s |
| TrackFit.ShiftInvariant | Python/reconstruct_muon_tracks.py:57-61 | adding a constant to all three hits does not change the slope |
| TrackFit.ConstantSlope | Python/reconstruct_muon_tracks.py:57-61 | equal hits on all three planes give slope 0 |
| TrackFit.ExampleSlope | Python/reconstruct_muon_tracks.py:54-61 | strips 0, 1, 2 at the default depths give slope 0.1 |
| TrackFit.SentinelIsFitted | Python/reconstruct_muon_tracks.py:54-61 | a -1 sentinel is fitted like any coordinate: -1, 0, 1 give slope 0.1 |
| TrackFit.FitTracks | Python/reconstruct_muon_tracks.py:48-61 | the two arrays have one entry per event, holding the slope of its B and of its A coordinates |
| Incidence.MatchesSound | Python/1_angulo_incidencia_coordenada.py:74-95 | every collected event is a valid entry hitting the chosen pair, recorded with its own index, A1, B1 and offsets; the indices ascend |
| Incidence.MatchesComplete | Python/1_angulo_incidencia_coordenada.py:74-95 | every valid entry that hits the chosen pair is collected |
| Incidence.SentinelNeverKept | Python/1_angulo_incidencia_coordenada.py:82-84 | an entry carrying a -1 strip is never collected |
| Incidence.OffsetZeroIff | Python/1_angulo_incidencia_coordenada.py:90-91 | both offsets vanish exactly when plates 1 and 2 were hit on the same strips |
| Incidence.Collect | Python/1_angulo_incidencia_coordenada.py:69-95 | the loop collects the matching events, and the A1 and B1 lists hold their strips, position by position |
| Incidence.Analyse | Python/1_angulo_incidencia_coordenada.py:57-130 | a non-integer answer, an out-of-range one, no matching event, or the collected events, with a line fit exactly when there are at least two |
| CText.Find | Termometros/Root/make_tuple.C:62 | `find` returns the first occurrence at or after the start, or none when there is none |
| CText.StrLessTotal | Termometros/Root/make_tuple.C:148-149 | two different strings are ordered one way or the other |
| CText.StrLessTransitive | Termometros/Root/make_tuple.C:148-149 | the string order is transitive |
| Scanf.ScanIntDigits | Termometros/Root/make_tuple.C:343-344 | `%u` reads a run of digits, up to the first non-digit, as its decimal value |
| Scanf.ScanTripleDigits | Termometros/Root/make_tuple.C:343-344 | `"%u-%u-%u"` reads three digit runs that the separator joins |
| Scanf.TripleTextReads | Termometros/Root/make_tuple.C:343-344 | a triple written in decimal is read back as the same three numbers |
| MakeTuple.TrimShape | Termometros/Root/make_tuple.C:43-47 | the trimmed string is a slice of the input with only white space before and after it; it neither starts nor ends with white space, and it is empty exactly when the input is all white space |
| MakeTuple.TrimIdempotent | Termometros/Root/make_tuple.C:43-47 | trimming twice equals trimming once |
| MakeTuple.TrimCopy | Termometros/Root/make_tuple.C:43-47 | the two index loops compute the trimmed string |
| MakeTuple.HasGlob | Termometros/Root/make_tuple.C:52-54 | true exactly when the token holds `*`, `?` or `[` |
| MakeTuple.TokensShape | Termometros/Root/make_tuple.C:56-70 | every token is non-empty, carries no surrounding white space and holds no comma |
| MakeTuple.TokensFromSuffix | Termometros/Root/make_tuple.C:59-70 | reading from a position with `find` gives the trimmed non-empty comma pieces of the rest of the string |
| MakeTuple.SplitCommas | Termometros/Root/make_tuple.C:59-70 | the loop returns the trimmed non-empty pieces between commas, in order |
| MakeTuple.JoinPath | Termometros/Root/make_tuple.C:107-112 | an empty directory gives the name alone; otherwise the directory, then the name, with a `/` inserted exactly when the directory does not already end in `/` or `\` |
| MakeTuple.BaseName | Termometros/Root/make_tuple.C:123-124 | the result is the suffix after the last `/` or `\`, holds no separator, and is the whole path when there is none |
| MakeTuple.BaseNameUnique | Termometros/Root/make_tuple.C:123-124 | any separator-free suffix preceded by a separator, or making up the whole path, is the base name |
| MakeTuple.BaseNameIdempotent | Termometros/Root/make_tuple.C:123-124 | the base name of a base name is itself |
| MakeTuple.BaseNameOfJoin | Termometros/Root/make_tuple.C:107-124 | the base name of a joined path is the name that was joined |
| MakeTuple.ExtractDate | Termometros/Root/make_tuple.C:130-135 | a non-empty result exactly when the name starts with eight digits, and then those eight digits |
| MakeTuple.SpanBounds | Termometros/Root/make_tuple.C:141-152 | the span is empty exactly when no name carries a date; otherwise dmin and dmax are dates found, below and above every date found |
| MakeTuple.ComputeSpan | Termometros/Root/make_tuple.C:141-152 | the loop returns the least and the greatest date among the base names |
| MakeTuple.DatedName | Termometros/Root/make_tuple.C:127-135 | a name without directories that starts with eight digits has those as its date |
| MakeTuple.PickUndated | Termometros/Root/make_tuple.C:162-172 | with no explicit name, the name is `temps.root` if and only if no file carries a date |
| MakeTuple.PickOneDate | Termometros/Root/make_tuple.C:168-170 | when all dated files share one date, the name is `temps_<date>.root` |
| MakeTuple.PickTwoDates | Termometros/Root/make_tuple.C:168-171 | with two or more distinct dates, the name is `temps_<dmin>_<dmax>.root`, and dmin is before dmax |
| MakeTuple.AutoTwo | Termometros/Root/make_tuple.C:371-372 | two files dated d and a later e are named `temps_d_e.root` |
| MakeTuple.OutfileOne | Termometros/Root/make_tuple.C:368-369 | `20250819_0800-0800.TXT` alone becomes `temps_20250819.root` |
| MakeTuple.OutfileExplicit | Termometros/Root/make_tuple.C:377-378 | an explicit `mi_salida.root` is used as given |
| MakeTuple.OutfileExplicitDir | Termometros/Root/make_tuple.C:164-166 | an explicit name that includes a directory keeps only its base name |
| MakeTupleRows.CleanLine | Termometros/Root/make_tuple.C:332-334 | a line is skipped exactly when it is blank or a `#` comment after trimming; otherwise it is the trimmed line less one trailing `.` or `,` |
| MakeTupleRows.SkippedLines | Termometros/Root/make_tuple.C:332-333 | a blank or comment line fills no row |
| MakeTupleRows.SplitWritten | Termometros/Root/make_tuple.C:338-342 | a line made of a date, a time and the rest, separated by commas, splits back into exactly those three |
| MakeTupleRows.FieldsParsed | Termometros/Root/make_tuple.C:338-354 | when both triples convert, the row holds them stored as unsigned values, `tsec` and the sensors of the rest |
| MakeTupleRows.TSecClock | Termometros/Root/make_tuple.C:346 | for a valid clock time, `tsec` lies below 86400 and gives back the hour, minute and second |
| MakeTupleRows.LineRoundTrip | Termometros/Root/make_tuple.C:331-354 | a line written from a date, a time and a sensor text parses back to those numbers; one trailing `.` or `,` of the sensor text is dropped |
| MakeTupleRows.Sensors | Termometros/Root/make_tuple.C:336-352 | 19 slots, slot k holding the value of the last match with index k, or NaN |
| MakeTupleRows.OutOfRangeIgnored | Termometros/Root/make_tuple.C:351 | a match with an index outside 1..19 changes no slot |
| MakeTupleRows.LastMatchWins | Termometros/Root/make_tuple.C:351 | the last match with index k sets slot k |
| MakeTupleRows.UnnamedIsNaN | Termometros/Root/make_tuple.C:336-352 | a sensor no match names stays NaN |
| MakeTupleRows.ResetSensors | Termometros/Root/make_tuple.C:336 | the loop sets `S[1..19]` to NaN and leaves `S[0]` alone |
| MakeTupleRows.StoreMatches | Termometros/Root/make_tuple.C:349-352 | the loop over the matches leaves `S[1..19]` as the slots of the line |
| MakeTupleRows.ParseFields | Termometros/Root/make_tuple.C:338-354 | the imperative parse of a cleaned line gives the row of the reference reading, or none |
| MakeTupleRows.ParseLine | Termometros/Root/make_tuple.C:331-354 | the loop body turns a raw line into the row of the reference reading, or none |
| MakeTupleRows.FileRowsId | Termometros/Root/make_tuple.C:314-355 | every row filled from a file carries that file's `file_id` |
| MakeTupleRows.FileIdsArePositions | Termometros/Root/make_tuple.C:313-322 | every row's `file_id` is the position of a file that could be opened |
| MakeTupleRows.TempTree.constructor | Termometros/Root/make_tuple.C:286 | a new tree holds no rows |
| MakeTupleRows.TempTree.Fill | Termometros/Root/make_tuple.C:354 | `Fill` appends one row |
| MakeTupleRows.FillFile | Termometros/Root/make_tuple.C:330-355 | reading one file appends the rows of its parsable lines, in order |
| MakeTupleRows.FillAll | Termometros/Root/make_tuple.C:313-356 | the file loop appends the rows of every file it can open, in order; a file that cannot be opened adds none |
| DrawRange.ParseDt | Termometros/Root/temp_root/draw_range.C:16-23 | success exactly for a non-empty text from which all six numbers convert, giving `Y*10000+M*100+D` and `h*3600+m*60+s` |
| DrawRange.ParseHeldDt | Termometros/Root/temp_root/draw_range.C:16-23 | a text holding a date, one blank and a time parses to their values |
| DrawRange.ParseDtReads | Termometros/Root/temp_root/draw_range.C:16-23 | a date and a time written out, followed by anything that does not start with a digit, parse back to their values |
| DrawRange.DateOnlyFails | Termometros/Root/temp_root/draw_range.C:19 | a date without a time does not parse |
| DrawRange.NothingLeft | Termometros/Root/temp_root/draw_range.C:19 | a text that ends after the date triple does not parse |
| DrawRange.ParseDtExample | Termometros/Root/temp_root/draw_range.C:111 | `2025-08-19 15:22:22` gives (20250819, 55342) |
| DrawRange.YmdOrder | Termometros/Root/temp_root/draw_range.C:20 | for month and day below 100, the compact date orders and identifies dates as (year, month, day) do |
| DrawRange.BuildSel | Termometros/Root/temp_root/draw_range.C:30-57 | no cut exactly when the start does not parse; otherwise a file restriction exactly when `file_id >= 0`, and an open end exactly when the end does not parse |
| DrawRange.UnparsableStartKeepsAll | Termometros/Root/temp_root/draw_range.C:32-35 | an unparsable start keeps every entry |
| DrawRange.OpenEnded | Termometros/Root/temp_root/draw_range.C:41-43 | without an end, exactly the entries at or after the start are kept |
| DrawRange.SameDayInterval | Termometros/Root/temp_root/draw_range.C:44-46 | on one day, exactly the entries of that day between the two seconds are kept, and none when the end second is earlier |
| DrawRange.ForwardInterval | Termometros/Root/temp_root/draw_range.C:47-50 | an end on a later day keeps exactly the entries from the start to the end, both included |
| DrawRange.ReversedKeepsBorderDays | Termometros/Root/temp_root/draw_range.C:47-50 | an end on an earlier day keeps the start day from the start second and the end day up to the end second |
| DrawRange.FileRestriction | Termometros/Root/temp_root/draw_range.C:53-55 | with `file_id >= 0`, an entry is kept exactly when it is from that file and in the window; with a negative one, the file does not matter |
| DrawRange.SubsetExact | Termometros/Root/temp_root/draw_range.C:88-97 | the entries counted and copied are exactly those the cut admits, and with no cut all entries in order |

## Left out

- File and terminal I/O, `os.walk`, ROOT files, `print` diagnostics, plotting and the written CSV are not modelled. Records arrive as parameters and results are returned. A data set with a missing file is a `Missing` value. The `matedata` ntuple stores every column as `Float_t`, so ROOT rounds tp1, tp2 and evn above 2^24; `MuonCsv.Ntuple.Fill` keeps exact integers.
- Splitting a CSV line and `int()` of its decimal fields are not modelled. Records carry `tp1`, `tp2` and `evn` already as integers. Every plane's `evn` (line 27) and plane 1's `tp1`, `tp2` and `evn` (line 125) pass through `int()` with no handler, so a non-integer there ends the script; planes 2 and 3's `tp1` and `tp2` are never converted or used, so they affect no row.
- An empty m101 or m102 file, or an empty m103 file whose first or last event number `check_evn` compares, raises an uncaught `IndexError` that ends the script, so `fout.Write` never runs. The model does not end a process: `MuonCsv.ProcessAll` reports the aborting set and the rows appended before it.
- `StripDecoder.ParseHex`: accepts plain hex digits only. Python's `int(., 16)` also admits surrounding white space, a sign, a `0x` prefix and `_` separators; the model assumes the hex fields hold none of these.
- `expand_one_token` and `expand_inputs` are not modelled, because `glob(3)` is a call into the operating system. Only `has_glob` and `split_commas` are.
- `MakeTuple.BaseName`: follows the fallback branch of `basename_of` (make_tuple.C:123-124), which splits on `/` and `\`. Inside ROOT `gSystem` is always set, so the source actually calls `gSystem->BaseName`, which is not part of this model. On Unix that call splits on `/` only, so it can differ on a path holding `\`, and it returns `/` for the path `/`.
- `extract_date_yyyymmdd` is modelled by what its regular expression `^([0-9]{8})` matches, not by an engine for regular expressions.
- The sensor pattern `S(\d+):\s*([-+]?\d+(?:\.\d+)?)` with `stoi` and `stof` is a parameter `scan`. It yields (index, value) pairs, and the values are of an uninterpreted type. Float conversion and an `stoi` that overflows are not modelled.
- `read_header_if_any`, the `meta` list and the `files` list are not modelled. A header that parses never changes the rows, because a `#` line is skipped by the loop as well. One exception is not captured: a `Duracion` too large for an `int` makes `std::stoi` (make_tuple.C:200) throw `std::out_of_range`. Nothing catches it, so the macro aborts; the model instead reads the file as if the header were absent.
- `ensure_output_dir` is not modelled, because it creates a directory. The output path's name is: `pick_outfile_name` and `join_path`.
- `Scanf.ScanInt`: `%d` is modelled on unbounded integers. The undefined behaviour of a C `int` conversion that overflows is not modelled. `%u` wraps modulo 2^32 (`MakeTupleRows.U`) for fields below 2^64; a larger field saturates in glibc's `strtoul` and stores 2^32-1, which is not modelled.
- `DrawRange.ParseDt`: `Y*10000 + M*100 + D` and `h*3600 + m*60 + s` are computed on unbounded integers. The signed overflow C would have for huge fields is not modelled.
- A `char*` is a `string`: an embedded NUL, which would end a C string early, is not modelled. A null pointer is `None`.
- `TrackFit`: the slope is computed in exact real arithmetic rather than floating point. The NaN of 0/0 is `None`. The arctangent to degrees is not modelled.
- `Incidence`: the angles (`sqrt`, `atan2`, `degrees`) and `np.polyfit` are not modelled. Which events reach them is. The `int(ntuple.A2)` truncation of the ntuple's float columns is taken as done.
- `Incidence.Analyse`: `int(input().strip())` is taken as done. Its result arrives as `Some(n)`, or `None` for the `ValueError`.
- The text of the `TCut` formula and `TTree::Draw` are not modelled. The cut is modelled as the predicate ROOT evaluates on each entry.
