# A Dafny model of BirdFont's fixed kerning and outline loading, its build scripts, and waf's netcache servers and demos

This project models, in Dafny, the core of three pieces of software that live side by side in one repository:

- **BirdFont**, the font editor:
  - the *fixed-kerning table*: an 8-byte header and 12-byte rows of (first glyph, second glyph, 16.16 kerning), written by the font editor and validated, searched and indexed by the reader library (`fk.c`, `fk-font-editor.c`);
  - the *outline loader's contour pass* (`load_font.c`), which turns one TrueType/CFF contour into BirdFont path data: it inserts hidden mid-points between quadratic off-curve points, pairs them into double curves, compacts the hidden points away and walks the flags emitting segments;
  - the *build and release scripts*: the doit task runner and task generator (`scripts/builder.py`), the Vala build helper (`scripts/bavala.py`), the translation completeness measure (`scripts/complete_translations.py`), and the installer's path, option and library-directory logic (`install.py`).
- **waf's network cache** (`playground/netcache`): the Python server and its Java twin, which keep an index from task signature to [timestamp, size] beside a sharded cache directory, serve GET, PUT, LST, CLN/CLEAN, RST and BYE commands read from 128-byte headers, and trim the cache least recently used first.
- **waf's demos**:
  - the `cbit` file parser of the build-system kit;
  - the timestamp-only runnable decision of the stateless build kit;
  - the archive-order genetic search of the compression playground;
  - the fake Fortran compiler of the module demo;
  - the JNI string predicates;
  - the Accumulator and HelloWorld classes of the unit-test demo.

Each source file has one module:

| module | file | models |
|---|---|---|
| `Common` | common.dfy | Option and Result |
| `PyStrings` | py_strings.dfy | Python's str methods, os.path, str(int) and int(str) |
| `JavaStrings` | java_strings.dfy | trim, split and new Long |
| `FixedKerning` | fixed_kerning.dfy | fk.c and fk-font-editor.c |
| `ContourFlags` | contour_flags.dfy | set_double_curves and remove_hidden_points |
| `Contour` | contour.dfy | create_contour and get_bf_contour_data |
| `Builder` | builder.dfy | scripts/builder.py |
| `Bavala` | bavala.dfy | scripts/bavala.py |
| `Translations` | translations.dfy | scripts/complete_translations.py |
| `Install` | install.dfy | install.py |
| `CacheStore` | netcache_store.dfy | the cache directory and index shared by both servers |
| `NetcachePy` | netcache_py.dfy | netcache_server.py |
| `NetcacheJava` | netcache_java.dfy | Netcache.java |
| `CbitParser` | cbit_parser.dfy | cbdlib.py |
| `StatelessBuild` | stateless_build.dfy | ebdlib.py |
| `Optim` | optim.dfy | optim.py |
| `FakeCc` | fakecc.dfy | fakecc.py |
| `StringUtils` | string_utils.dfy | StringUtils.c |
| `UnitTestDemo` | unit_test_demo.dfy | Accumulator.cpp and HelloWorld.cpp |

The model follows the shape of each source file:

- Code that mutates in place is imperative Dafny. This covers:
  - the contour passes, over `array`s;
  - the kerning-table writer, the cache servers, the task runner, the genetic search and the demo classes, each a `class` whose methods state their new state;
  - loops, which are methods with invariants.
- Each method is proved against a specification function. Lemmas then state the properties about that function, for example:
  - round trips: a written table reads back; a request header parses back;
  - what is preserved: the index matches the disk; the cache stays under its bound after a clean;
  - ordering and the error paths.

Three behaviours of the servers that are easy to miss, all modelled as the code has them:

- The Java server answers a GET for a missing file with `0,` (File.length() of a missing file), and the connection then ends when the file is opened.
- The Python server's `make_clean_unsafe` stops when the `rmtree` of a missing directory raises. Only `reset` ignores that error.
- The Java server's commands are `CLEAN` (not `CLN`), and it has no `RST`.

## Model

| member | source | states |
|---|---|---|
| FixedKerning.ToU32 | fixed-kerning-example/fk.c:59-61 | a conversion to uint32_t keeps the value modulo 2^32 and leaves values already in range unchanged |
| FixedKerning.ToI32 | fixed-kerning-example/fk-font-editor.c:28-30 | a conversion to int32_t keeps the value modulo 2^32 and leaves values already in range unchanged |
| FixedKerning.I32RoundTrip | fixed-kerning-example/fk.c:176-180 | a signed kerning read through its uint32_t bit pattern and stored back in an int32_t is unchanged |
| FixedKerning.Sub | fixed-kerning-example/fk.c:141-150 | the subtable is everything after the 8-byte header, and empty when the table is no longer than the header |
| FixedKerning.EncodeU16 | fixed-kerning-example/fk.c:47-50 | fk_write_u16 emits exactly two bytes (what they hold is stated by ReadWrittenU16) |
| FixedKerning.EncodeU32 | fixed-kerning-example/fk.c:52-57 | fk_write_u32 emits exactly four bytes (what they hold is stated by ReadWrittenU32) |
| FixedKerning.ReadWrittenU16 | fixed-kerning-example/fk.c:20-29 | fk_get_uint16 at the offset where fk_write_u16 wrote a value returns that value, whatever surrounds it |
| FixedKerning.ReadWrittenU32 | fixed-kerning-example/fk.c:31-41 | fk_get_uint32 at the offset where fk_write_u32 wrote a value returns that value, whatever surrounds it |
| FixedKerning.WrittenDatatypesReadBack | fixed-kerning-example/fk-test.c:52-67 | the u16 0x1234 and u32 0x567abcde written one after the other read back at offsets 0 and 2 |
| FixedKerning.DoubleToFixed | fixed-kerning-example/fk-font-editor.c:24-33 | the Fixed 16.16 value is floor(65536 v) as int32_t, and for v in the int16 range it is the largest multiple of 1/65536 not above v |
| FixedKerning.FixedConversionExamples | fixed-kerning-example/fk-test.c:71-89 | -0.2 converts to 0xffffcccc and -0.1 to 0xffffe666 |
| FixedKerning.Rows | fixed-kerning-example/fk.c:152-159 | a table announces exactly as many rows as the u32 pair count at offset 4 says |
| FixedKerning.EncodeRow | fixed-kerning-example/fk-font-editor.c:45-47 | an entry is twelve bytes |
| FixedKerning.EncodePairs | fixed-kerning-example/fk-font-editor.c:35-48 | N entries written one after another take 12 N bytes |
| FixedKerning.ReadWrittenRow | fixed-kerning-example/fk.c:176-179 | a row written at byte 12 i reads back as row i, whatever surrounds it |
| FixedKerning.RowAtEncoded | fixed-kerning-example/fk.c:161-181 | row i of a subtable of written entries is the i-th entry written |
| FixedKerning.HasFixedKerningAgrees | fixed-kerning-example/fk.c:68-102 | for pair counts below 0x55555556 fk_has_fixed_kerning accepts a table exactly when it is a valid table (header version 1.0, size a multiple of four, subtable of 12 bytes per announced pair) |
| FixedKerning.ValidTableHoldsRows | fixed-kerning-example/fk.c:68-102 | a table fk_has_fixed_kerning accepts announces at least one pair and holds every row it announces |
| FixedKerning.HasFixedKerningAcceptsWrappedCount | fixed-kerning-example/fk.c:94 | as written, a 16-byte table announcing 0x55555556 pairs passes fk_has_fixed_kerning, although it is not a valid table |
| FixedKerning.HeaderBytes | fixed-kerning-example/fk-font-editor.c:14-22 | the header as written is eight bytes |
| FixedKerning.IntendedHeaderBytes | fixed-kerning-example/fk-font-editor.c:14-22 | the header with the full pair count is eight bytes |
| FixedKerning.ReadHeader | fixed-kerning-example/fk.c:84-92 | a header of this layout reads back as version 1.0 with the pair count it holds |
| FixedKerning.HeaderTruncatesPairCount | fixed-kerning-example/fk-font-editor.c:17 | as written, the header announces the pair count modulo 65536 |
| FixedKerning.HeaderRejects65536Pairs | fixed-kerning-example/fk-font-editor.c:17 | as written, a table written with 65536 rows announces none and fk_has_fixed_kerning rejects it |
| FixedKerning.WrittenTableReadsBack | fixed-kerning-example/fk-test.c:28-50 | a header for N pairs (0 < N < 65536) followed by N entries passes fk_has_fixed_kerning and its rows read back in the order written |
| FixedKerning.IntendedTableReadsBack | fixed-kerning-example/fk-font-editor.c:14-22 | with the full pair count in the header, every non-empty table of fewer than 2^32 rows is valid and reads back |
| FixedKerning.ClampKerning | fixed-kerning-example/fk-font-editor.c:38-41 | the kerning converted lies in the int16 range, and equals the given kerning when that is in range |
| FixedKerning.KerningWriter.constructor | fixed-kerning-example/fk-test.c:32 | a file freshly opened for writing holds no bytes |
| FixedKerning.KerningWriter.WriteU8 | fixed-kerning-example/fk.c:43-45 | one byte is appended to the file |
| FixedKerning.KerningWriter.WriteU16 | fixed-kerning-example/fk.c:47-50 | the low byte then the high byte are appended |
| FixedKerning.KerningWriter.WriteU32 | fixed-kerning-example/fk.c:52-57 | the high u16 then the low u16 are appended |
| FixedKerning.KerningWriter.WriteHeader | fixed-kerning-example/fk-font-editor.c:14-22 | the header bytes (version 1, 0, pair count cut to 16 bits) are appended |
| FixedKerning.KerningWriter.WriteEntry | fixed-kerning-example/fk-font-editor.c:35-48 | the first glyph, second glyph and converted, range-checked kerning are appended |
| FixedKerning.KerningForAbsent | fixed-kerning-example/fk.c:138 | a key no row holds has kerning 0 |
| FixedKerning.KerningForRow | fixed-kerning-example/fk.c:127-129 | in strictly sorted rows, the key of row i finds row i's kerning |
| FixedKerning.GetFixedKerning | fixed-kerning-example/fk.c:104-139 | the binary search returns 0 for a table without rows or with a pair count of 2^31 or more, and otherwise, on a sorted subtable that holds its rows, the kerning of the row with key (first << 32) \| second, or 0 when no row has it |
| FixedKerning.Probe | fixed-kerning-example/fk.c:122-128 | the search reads the key and kerning of row middle, and zeros when middle is the row just past the table |
| FixedKerning.NegativeAboveHalf | fixed-kerning-example/fk.c:110 | a pair count of 2^31 or more stored in an int is negative; a smaller one is unchanged |
| FixedKerning.SearchRight | fixed-kerning-example/fk.c:131-132 | a probed row with a smaller key lets the lower bound move past it without losing the key |
| FixedKerning.SearchLeft | fixed-kerning-example/fk.c:133-134 | a probed row with a greater key lets the upper bound move below it without losing the key |
| FixedKerning.SearchMissing | fixed-kerning-example/fk.c:118-138 | once the bounds have crossed, no row holds the key, so 0 is the right answer |
| FixedKerning.GetFixedKerningByIndex | fixed-kerning-example/fk.c:161-181 | with the offset 12 index computed in 64-bit size_t: when 12 index + 12 does not wrap, three zeros when row index does not lie wholly in the subtable and otherwise that row's fields; in a valid table, row index itself |
| FixedKerning.ByIndexWraps | fixed-kerning-example/fk.c:166-181 | as written, index 0x1555555555555555 wraps 12 index to 2^64 - 4 and passes the bounds test of any subtable of 8 bytes or more, giving first glyph 0, row 0's first glyph as second glyph and row 0's second glyph as kerning |
| FixedKerning.LookupFindsEveryRow | fixed-kerning-example/fk-test.c:91-126 | in a sorted written table, looking up the glyphs of row i gives row i's kerning |
| ContourFlags.FlagClassesPartition | libbirdfont/OpenFontFormat/load_font.c:42-64 | every flag is exactly one of on-curve, cubic off-curve and quadratic off-curve; DOUBLE_CURVE, HIDDEN_CURVE and 0 count as quadratic, ON_CURVE as a line and CUBIC_CURVE as cubic |
| ContourFlags.HalfWayBetween | libbirdfont/OpenFontFormat/load_font.c:97-99 | the midpoint stored in an integer coordinate lies between its two arguments, within one half of the exact midpoint, exact for an even sum, with the sign of the sum |
| ContourFlags.HalfWaySymmetric | libbirdfont/OpenFontFormat/load_font.c:97-99 | the stored midpoint does not depend on the order of the two points |
| ContourFlags.PassStepKeeps | libbirdfont/OpenFontFormat/load_font.c:73-93 | every iteration of set_double_curves' loop keeps its invariant: flags above i untouched, on-curve flags kept, every hidden flag handled so far a kept HIDDEN_CURVE between two DOUBLE_CURVE flags, kept hidden flags separated by an on-curve one |
| ContourFlags.PassAt | libbirdfont/OpenFontFormat/load_font.c:74-90 | the loop body at index i changes the flags and the double_curve flag as one step of the pass |
| ContourFlags.PassEnd | libbirdfont/OpenFontFormat/load_font.c:73 | when the loop has reached length, the flags satisfy what set_double_curves promises |
| ContourFlags.NothingToSet | libbirdfont/OpenFontFormat/load_font.c:73 | for length at most 1 the loop does not run and the unchanged flags satisfy the promise |
| ContourFlags.PassUpTo | libbirdfont/OpenFontFormat/load_font.c:73-93 | the loop state after indices 1..i-1, one loop step per index, over as many flags as it started with |
| ContourFlags.DoubleCurves | libbirdfont/OpenFontFormat/load_font.c:69-94 | the flags set_double_curves leaves: unchanged for length at most 1, otherwise the loop run up to length; as many as it found |
| ContourFlags.PassUpToHolds | libbirdfont/OpenFontFormat/load_font.c:73-93 | every state the loop passes through satisfies its invariant |
| ContourFlags.DoubleCurvesKeepPromise | libbirdfont/OpenFontFormat/load_font.c:69-94 | the flags DoubleCurves gives keep set_double_curves' promise, for every input and length |
| ContourFlags.SettledStays | libbirdfont/OpenFontFormat/load_font.c:73-93 | once index i holds ON_CURVE, or a pairing that is still in force, no later iteration changes it |
| ContourFlags.HiddenFlagOutcome | libbirdfont/OpenFontFormat/load_font.c:76-90 | a hidden flag reached with no pairing in force and quadratic flags on both sides ends as HIDDEN_CURVE between two DOUBLE_CURVE flags; every other hidden flag ends as ON_CURVE |
| ContourFlags.PairingExample | libbirdfont/OpenFontFormat/load_font.c:77-83 | one hidden flag between two quadratic ones is paired: its neighbours become DOUBLE_CURVE |
| ContourFlags.AlternationExample | libbirdfont/OpenFontFormat/load_font.c:84-90 | of two eligible hidden flags with no on-curve flag between them, the first is paired and the second becomes ON_CURVE |
| ContourFlags.SetDoubleCurves | libbirdfont/OpenFontFormat/load_font.c:69-94 | the flags it leaves are exactly DoubleCurves of the flags it found (the loop run over indices 1..length-1), and so keep the promise: on-curve flags stay, every hidden flag left is a HIDDEN_CURVE between two DOUBLE_CURVE flags, two such separated by an on-curve flag |
| ContourFlags.VisibleStaysVisible | libbirdfont/OpenFontFormat/load_font.c:69-94 | set_double_curves never hides a flag that was visible |
| ContourFlags.KeepFlags | libbirdfont/OpenFontFormat/load_font.c:109-115 | the flags kept are no more than the input and none of them is hidden |
| ContourFlags.KeepPoints | libbirdfont/OpenFontFormat/load_font.c:109-115 | as many points are kept as flags |
| ContourFlags.KeepWithoutHidden | libbirdfont/OpenFontFormat/load_font.c:109-115 | without hidden flags nothing is removed |
| ContourFlags.KeptComeFromInput | libbirdfont/OpenFontFormat/load_font.c:109-115 | every kept flag and its point come from one and the same input position |
| ContourFlags.CompactMove | libbirdfont/OpenFontFormat/load_font.c:110-114 | moving a visible entry k down to l keeps the compaction invariant |
| ContourFlags.CompactSkip | libbirdfont/OpenFontFormat/load_font.c:110 | passing over a hidden entry keeps the compaction invariant |
| ContourFlags.CompactEnd | libbirdfont/OpenFontFormat/load_font.c:109 | once every entry below length is visited, the prefix holds the kept flags and points and the rest is untouched |
| ContourFlags.CompactVisible | libbirdfont/OpenFontFormat/load_font.c:108-115 | the first l entries become the visible flags and their points, in order, with l their count; entries from l on are untouched |
| ContourFlags.RemoveHiddenPoints | libbirdfont/OpenFontFormat/load_font.c:104-124 | returns the number l of visible entries, which now lead the arrays in order; the whole arrays are RemovedPoints and RemovedFlags of the old ones: as written, the clearing loop only zeroes entry l (when l < capacity) and leaves every entry above l untouched |
| ContourFlags.RemovedFlags | libbirdfont/OpenFontFormat/load_font.c:104-124 | the flag array remove_hidden_points leaves: as long as before |
| ContourFlags.RemovedPoints | libbirdfont/OpenFontFormat/load_font.c:104-124 | the point array remove_hidden_points leaves: as long as before |
| ContourFlags.RemovedPrefix | libbirdfont/OpenFontFormat/load_font.c:108-115 | the leading entries of RemovedFlags and RemovedPoints are the visible flags and their points, in order |
| ContourFlags.RemovedBuffers | libbirdfont/OpenFontFormat/load_font.c:104-124 | arrays whose leading entries are the visible ones, with entry l cleared below capacity and the rest untouched, are RemovedPoints and RemovedFlags |
| ContourFlags.Write | libbirdfont/OpenFontFormat/load_font.c:111-112 | one point and one flag are stored at k, nothing else changes |
| Contour.VisibleIsKept | libbirdfont/OpenFontFormat/load_font.c:109-115 | a point whose flag is visible is among the points remove_hidden_points keeps |
| Contour.PlacedKept | libbirdfont/OpenFontFormat/load_font.c:178-215 | writing the buffers at or above j keeps every input point already copied below j at its place, with a visible flag |
| Contour.PlacedAdd | libbirdfont/OpenFontFormat/load_font.c:212-213 | recording where an input point was written keeps the record of copied points |
| Contour.PlacedPaired | libbirdfont/OpenFontFormat/load_font.c:365 | set_double_curves over the new flags leaves every copied point's flag visible |
| Contour.PlacedSurvives | libbirdfont/OpenFontFormat/load_font.c:366 | a copied point survives remove_hidden_points over the new buffers |
| Contour.CopyStepKeeps | libbirdfont/OpenFontFormat/load_font.c:178-215 | every turn of the copying loop keeps its invariant: i and j advance as the branches say, and every point visited so far is copied with a visible flag (the first quadratic point may be skipped) |
| Contour.CopyStepCounts | libbirdfont/OpenFontFormat/load_font.c:178-215 | every turn of the copying loop keeps the bounds j between i - 1 and 2i - 1 and stays inside the 4 len buffers |
| Contour.CopyStepPlaced | libbirdfont/OpenFontFormat/load_font.c:179-214 | every turn keeps the points already copied and copies points[i] unless it is the skipped first point |
| Contour.CopyPut | libbirdfont/OpenFontFormat/load_font.c:212-214 | copying points[i] to j advances both indices and records the point and flag at j |
| Contour.CopyAt | libbirdfont/OpenFontFormat/load_font.c:179-214 | the loop body at i changes the buffers, indices and prev_is_curve as one step of the copying loop |
| Contour.CopyEnd | libbirdfont/OpenFontFormat/load_font.c:178 | once the loop has visited len points, every one of them is copied with a visible flag (the first one unless it is a skipped quadratic point) and j lies between len - 1 and 2 len - 1 |
| Contour.PlacedPut | libbirdfont/OpenFontFormat/load_font.c:212 | copying an input point with a visible flag records it as copied |
| Contour.VisibleFlags | libbirdfont/OpenFontFormat/load_font.c:198-209 | the flags points are copied with (QUADRATIC_OFF_CURVE, ON_CURVE, CUBIC_CURVE) are not hidden |
| Contour.PlacedWrite | libbirdfont/OpenFontFormat/load_font.c:184-190 | writing an extra point at j keeps the points copied below j |
| Contour.InsertMidPoints | libbirdfont/OpenFontFormat/load_font.c:157-215 | the buffers, j, prev_is_curve and the placement of each point are those of Inserted (the copying loop run from its start); the first flag is ON_CURVE for a mid-point start; every visited point is copied with a visible flag and j lies within len - 1 and 2 len - 1 |
| Contour.CopyStartHolds | libbirdfont/OpenFontFormat/load_font.c:157-176 | the copying loop's invariant, and the ordering of copied points, hold on entry |
| Contour.CopyFrom | libbirdfont/OpenFontFormat/load_font.c:178-215 | the copying loop run from a state satisfying its invariant ends with every point visited and the invariant kept |
| Contour.Inserted | libbirdfont/OpenFontFormat/load_font.c:157-215 | the copying part from given buffers ends with every point visited and the loop invariant holding |
| Contour.CopyStepBetween | libbirdfont/OpenFontFormat/load_font.c:179-214 | every turn of the copying loop keeps consecutive copied points in order, with a HIDDEN_CURVE mid-point between two quadratic ones |
| Contour.CopyFromBetween | libbirdfont/OpenFontFormat/load_font.c:178-215 | the whole copying loop keeps that ordering |
| Contour.MidPointsInserted | libbirdfont/OpenFontFormat/load_font.c:178-215 | after the copying part, points i-1 and i (from index 1) lie in order: two consecutive quadratic points two entries apart with their HIDDEN_CURVE mid-point between them, any other pair in adjacent entries |
| Contour.CloseOffCurveAfterMidStart | libbirdfont/OpenFontFormat/load_font.c:218-238 | the arrays become exactly the ending OffCurveAfterMidStart: at j0 the last point (quadratic), the mid-point between it and the first point (on-curve), the first point (quadratic), then entry 0 again with its flag; j = j0 + 4; nothing else changes |
| Contour.CloseOnCurveAfterMidStart | libbirdfont/OpenFontFormat/load_font.c:239-252 | the arrays become exactly the ending OnCurveAfterMidStart: at j0 the last point (on-curve), the first point (quadratic), then entry 0 again with its flag; j = j0 + 3; nothing else changes |
| Contour.CloseCurveAfterMidStart | libbirdfont/OpenFontFormat/load_font.c:253-282 | the arrays become exactly the ending CurveAfterMidStart: a hidden mid-point before the last point, the last point with its own flag, a hidden mid-point to the first point, the first point (quadratic) and entry 0 (on-curve); j = j0 + 5; nothing else changes |
| Contour.CloseAtOffCurveStart | libbirdfont/OpenFontFormat/load_font.c:283-317 | the arrays become exactly the ending AtOffCurveStart: a hidden mid-point when the entry before and the last point are both quadratic, the last point (on-curve for a line, else quadratic), a hidden mid-point when entry 0 and the first point are both quadratic, then the first point (quadratic); nothing else changes |
| Contour.CloseCurveAtOnCurveStart | libbirdfont/OpenFontFormat/load_font.c:318-348 | with an on-curve entry 0, the arrays become exactly the ending CurveAtOnCurveStart: a hidden mid-point before the last point, the last point (quadratic), then entry 0 again; j = j0 + 3; nothing else changes |
| Contour.CloseStraight | libbirdfont/OpenFontFormat/load_font.c:349-363 | the arrays become exactly the ending Straight: the last point, then entry 0 again, both quadratic when the last point is and on-curve otherwise; j = j0 + 2; nothing else changes |
| Contour.CloseContour | libbirdfont/OpenFontFormat/load_font.c:217-363 | the buffers, j and the last point's place are those of Closing, the ending picked by the same tests as the code; it appends 2 to 5 entries, stays inside the buffers, keeps every copied point and copies the last point unless its flag is hidden |
| Contour.Closing | libbirdfont/OpenFontFormat/load_font.c:217-363 | the ending picked by the six tests of create_contour, appended at j0: same buffer sizes, j above j0 and at least two entries short of the end for two points or more |
| Contour.ClosingEndsAtStart | libbirdfont/OpenFontFormat/load_font.c:217-363 | every ending keeps the entries below j0 and closes the contour: its last entry is the buffer's first entry or the contour's first point |
| Contour.ClosingPlacesLast | libbirdfont/OpenFontFormat/load_font.c:217-363 | every ending puts the last point above j0 with a visible flag whenever its own flag is not hidden |
| Contour.ClosingKeepsPlaced | libbirdfont/OpenFontFormat/load_font.c:217-363 | an ending keeps every point already placed below j0 |
| Contour.CreateContour | libbirdfont/OpenFontFormat/load_font.c:127-367 | the new buffers and length are those of Created: the copying part and the ending over cleared buffers of 4 len entries, then set_double_curves and remove_hidden_points over the j entries written |
| Contour.ZeroPoints | libbirdfont/OpenFontFormat/load_font.c:141-151 | n points at the origin |
| Contour.ZeroFlags | libbirdfont/OpenFontFormat/load_font.c:141-151 | n zero flags |
| Contour.Copied | libbirdfont/OpenFontFormat/load_font.c:157-215 | the copying part over cleared buffers visits every point and keeps the loop invariant |
| Contour.Closed | libbirdfont/OpenFontFormat/load_font.c:157-363 | the copying part and the ending leave buffers of 4 len entries filled to j, with 1 <= j < 4 len and two spare entries for two points or more |
| Contour.ClosedPlacesInput | libbirdfont/OpenFontFormat/load_font.c:157-363 | before the pairing pass every input point is in the buffers below j with a visible flag: points 1..len-1, point 0 unless it is quadratic, point len unless its flag is hidden |
| Contour.Created | libbirdfont/OpenFontFormat/load_font.c:127-367 | create_contour as a function of its input: 4 len entries in each buffer and a new length within them |
| Contour.CreatedKeepsInput | libbirdfont/OpenFontFormat/load_font.c:127-367 | the new length lies between 1 and 4 len - 1 (two short of the end for two points or more), no flag below it is hidden, and every input point (the first unless quadratic, the last unless hidden) is among the new points |
| Contour.Width | libbirdfont/OpenFontFormat/load_font.c:420-547 | the walk moves on by one, two or three entries |
| Contour.CommandAt | libbirdfont/OpenFontFormat/load_font.c:420-547 | at most one segment per index, and none exactly at a hidden flag |
| Contour.Walk | libbirdfont/OpenFontFormat/load_font.c:416-551 | the walk from i emits at most one segment per remaining entry |
| Contour.WalkHasNoStart | libbirdfont/OpenFontFormat/load_font.c:416-551 | no segment after the first is a start |
| Contour.EveryFlagHasACommand | libbirdfont/OpenFontFormat/load_font.c:424-547 | a visible flag gives a line, quadratic, cubic or double segment exactly as its class says, so the branch that sets err cannot be reached |
| Contour.WalkOfLines | libbirdfont/OpenFontFormat/load_font.c:525-541 | on a run of on-curve flags the walk draws one line to each point, in order |
| Contour.WalkUnfold | libbirdfont/OpenFontFormat/load_font.c:417-551 | the walk at i is the segment at i followed by the walk from where that segment ends |
| Contour.WalkAppend | libbirdfont/OpenFontFormat/load_font.c:417-551 | the walk splits where it lands on an index |
| Contour.SegmentAt | libbirdfont/OpenFontFormat/load_font.c:420-547 | the loop body at i emits the segment at i and moves on by its width |
| Contour.WalkSegments | libbirdfont/OpenFontFormat/load_font.c:416-551 | the loop emits the walk from index 1 to length |
| Contour.ContourData | libbirdfont/OpenFontFormat/load_font.c:372-557 | an empty contour, or one that keeps fewer than two points, gives no data; otherwise the data is a start at the first new point followed by Walk over the new buffers from 1 to the new length, so it holds one start and at most 4 length commands |
| Builder.BasenameIs | scripts/builder.py:151 | a path's basename is a given plain name exactly when the path is that name or ends in '/' and that name |
| Builder.CountedByBasename | scripts/builder.py:150-152 | a dependency's time is counted exactly when its basename is not 'placeholder' |
| Builder.IsUpToDate | scripts/builder.py:131-158 | the loops decide as Decide does: out of date when a target is missing or the task lists no file_dep, the build ends when a dependency is missing, and otherwise up to date exactly when both time lists are non-empty and the newest counted dependency is no newer than the oldest target |
| Builder.MissingTargetIsStale | scripts/builder.py:132-134 | a task with a target that is not a file is out of date |
| Builder.AbortMeansMissingDependency | scripts/builder.py:139-142 | the build ends exactly when every target exists, the task lists file_dep, and one of them is not a file |
| Builder.PlaceholderIgnored | scripts/builder.py:149-153 | adding a placeholder dependency that exists leaves the decision unchanged |
| Builder.RunActions | scripts/builder.py:171-173 | every action is printed and handed to run, in order, and the build goes on |
| Builder.ExecOutcomes | scripts/builder.py:167-173 | an up-to-date task changes nothing but prints its name (the 'name', else the 'basename') followed by " - up to date."; a stale one runs every action in order; the build ends exactly when a dependency is missing |
| Builder.EndedStaysEnded | scripts/builder.py:139-142 | once the build has ended, later tasks change nothing |
| Builder.ProcessFlatAppend | scripts/builder.py:175-180 | processing two streams one after the other is processing their concatenation |
| Builder.ProcessIsFlat | scripts/builder.py:175-180 | process_tasks on nested generators does what running the flattened task stream does, in the same order |
| Builder.Runner.constructor | scripts/builder.py:175 | the runner starts on the given files with nothing run, nothing printed, and the build going on |
| Builder.Runner.ExecuteTask | scripts/builder.py:167-173 | execute_task leaves the runner's files, commands, printed lines and ended flag as Exec gives them |
| Builder.Runner.ProcessTasks | scripts/builder.py:175-180 | process_tasks leaves the runner's state as Process gives it for the items in order |
| Builder.IsHeaderBySuffix | scripts/builder.py:78 | a copy is a header exactly when its path ends in ".h" |
| Builder.BinDeps | scripts/builder.py:45-48 | no dependencies give no bin dependencies; otherwise one build/bin path per dependency |
| Builder.CopiesOf | scripts/builder.py:75-76 | one copy destination per copied path |
| Builder.GeneratedOf | scripts/builder.py:57-61 | one generated C path per Vala source |
| Builder.CopyTasks | scripts/builder.py:75-88 | one copy task per copied path |
| Builder.CompileTasks | scripts/builder.py:100-112 | one compile task per C source |
| Builder.CompileTaskAt | scripts/builder.py:100-112 | the k-th compile task is the one for the k-th C source |
| Builder.ObjectPaths | scripts/builder.py:114 | one object path per compiled source |
| Builder.GenerateCPaths | scripts/builder.py:57-61 | the loop over Vala sources gives the generated C path of each, in order |
| Builder.CopySources | scripts/builder.py:73-88 | the loop over headers then C sources gives a copy task for each and splits the copies into non-headers and headers, in order |
| Builder.CopyStep | scripts/builder.py:75-88 | one more copied path appends its task and adds its copy to exactly one of the header and source lists |
| Builder.CompileSources | scripts/builder.py:97-112 | the loop gives a compile task for each C source, in order, with C_SOURCE and OBJECT_FILE replaced in the compiler command |
| Builder.Build | scripts/builder.py:38-129 | build yields the mkdir task, the copy tasks, the valac task, the compile tasks, the link task and, when a link name is given, the symlink task, in that order |
| Builder.ReplaceStep | scripts/builder.py:104-106 | str.replace scans left to right: a match at the front is replaced and skipped, otherwise the first character is kept |
| Builder.ReplaceAround | scripts/builder.py:101 | when the pattern cannot contain the separator, replacing in a + separator + b replaces in each side |
| Builder.ReplaceAtEnd | scripts/builder.py:101 | a pattern occurring only at the very end is replaced there and nowhere else |
| Builder.ObjectOfSource | scripts/builder.py:101 | a file X.c in any directory compiles to X.o, when X holds neither '/' nor ".c" |
| Builder.GeneratedOfVala | scripts/builder.py:58-60 | X.vala in any directory yields <build dir>/X.c, when X holds neither '/' nor ".vala" |
| Builder.CopiesSplit | scripts/builder.py:78-81 | the headers and the non-headers together are exactly the copies |
| Builder.HeaderCopies | scripts/builder.py:75-81 | copying headers gives only headers |
| Builder.SourceCopies | scripts/builder.py:75-81 | copying sources whose names do not end in ".h" gives no header |
| Builder.CopyDestShape | scripts/builder.py:76 | a copy's path is the build directory, followed by a "/" unless it is empty or already ends in one, then the basename |
| Builder.HeaderCopyIsHeader | scripts/builder.py:76-81 | a header keeps its ".h" when copied |
| Builder.SourceCopyIsNotHeader | scripts/builder.py:76-79 | a path whose basename does not end in ".h" is not a header once copied |
| Builder.HeadersNeverCompiled | scripts/builder.py:73-97 | the copied headers are exactly the header list and never compiled; the compiled sources are the generated C files followed by the copied C sources |
| Builder.BuildTaskCount | scripts/builder.py:65-129 | build yields 3 tasks plus one per header, two per C source, one per Vala source, and one for the link |
| Bavala.Values | scripts/bavala.py:36-37 | a string value is treated as the one-element list of it |
| Bavala.Flags | scripts/bavala.py:38 | one "--param value" part per value |
| Bavala.ExtendWithParams | scripts/bavala.py:35-38 | the dict loop extends the parts with "--param value" for every pair and every value of it, in order |
| Bavala.ExtendWithArg | scripts/bavala.py:32-40 | one argument extends the parts: a string as itself, a dict as its flags, any other iterable element by element |
| Bavala.Cmd | scripts/bavala.py:28-41 | cmd returns the name followed by every argument's parts, joined by single spaces |
| Bavala.JoinConcat | scripts/bavala.py:41 | joining two non-empty lists is the two joins with one separator between |
| Bavala.JoinPrefix | scripts/bavala.py:41 | the joined line starts with the join of its first parts |
| Bavala.CmdStartsWithName | scripts/bavala.py:30-41 | the command line starts with the command's name |
| Bavala.ArgsPartsConcat | scripts/bavala.py:31-40 | the arguments add their parts in order, each after those before it |
| Bavala.ArgsPartsSnoc | scripts/bavala.py:31-40 | one more argument adds its own parts at the end |
| Bavala.StringAppended | scripts/bavala.py:32-33 | a string argument is appended verbatim |
| Bavala.ItemsSpliced | scripts/bavala.py:39-40 | any other iterable is spliced element by element |
| Bavala.StringValueIsOneElementList | scripts/bavala.py:36-38 | a dict pair with a string value adds "--param value", the same as the one-element list of that value |
| Bavala.ParamsPartsShape | scripts/bavala.py:34-38 | every part a dict adds is "--param value" for one of its pairs and one of that pair's values |
| Bavala.CmdSplitsBack | scripts/bavala.py:30-41 | when no part holds a space, splitting the command line on spaces gives back the parts |
| Bavala.Paths | scripts/bavala.py:44-50 | get_sources_path gives os.path.join(root, name) for each file found, in order |
| Bavala.Names | scripts/bavala.py:54-60 | get_sources_name gives each found file's name, in order |
| Bavala.CcList | scripts/bavala.py:76-77 | self.cc is the copied C files, then the C file for each Vala source, all joined onto build/src |
| Bavala.ObjList | scripts/bavala.py:78-79 | self.obj is build/src/ followed by each C name with ".c" made ".o", then each Vala name with ".vala" made ".o" |
| Bavala.LibraryFiles | scripts/bavala.py:81-88 | a library's header and vapi sit in the build directory, the shared object is build/src.so plus "." and the version, and so_name is lib<library>.so.<version> |
| Bavala.NewVala | scripts/bavala.py:67-88 | __init__ fails exactly for a library without so_version; otherwise the object has library files exactly when library is given and not empty, and self.cc and self.obj have one entry per C and Vala source |
| Bavala.ReplaceAfterPlainStem | scripts/bavala.py:77-79 | a replacement whose pattern starts with '.' leaves a stem without '.' untouched |
| Bavala.ValaStemNames | scripts/bavala.py:77-79 | stem.vala gives the C file stem.c and the object stem.o, and stem.c the object stem.o |
| Bavala.ObjectsMatchSources | scripts/bavala.py:76-79 | the i-th object sits next to the i-th C file in build/src and is its name with ".c" replaced by ".o" |
| Bavala.JoinRelative | scripts/bavala.py:76 | joining a directory without a trailing '/' with a relative name puts one '/' between them |
| Bavala.DepVapis | scripts/bavala.py:105 | the dependencies' vapis, in order, exist exactly when every dependency is a library |
| Bavala.CompileCTargets | scripts/bavala.py:107-109 | gen_c's targets are self.cc, followed by the header and the vapi for a library |
| Bavala.GenC | scripts/bavala.py:91-126 | gen_c fails exactly when a dependency is no library; otherwise it yields one copy_c task per C source and then the valac task, whose dependencies are the Vala sources and the dependencies' vapis and whose action is the valac command |
| Bavala.ValacParts | scripts/bavala.py:93-106 | the valac command's parts are valac, --ccode, --save-temps, the caller's options, then the params, the vapis and the Vala sources |
| Bavala.ValacCommandPrefix | scripts/bavala.py:93-106 | the valac command line starts with "valac --ccode --save-temps" |
| Bavala.GenSo | scripts/bavala.py:148-165 | gen_so succeeds exactly for a library; its task depends on the objects, builds the shared object, and is named after its file name |
| Bavala.SharedObjectTaskName | scripts/bavala.py:84 | gen_so's task name is src.so.<version> |
| Translations.Counted | scripts/complete_translations.py:30-34 | closing an entry adds exactly one to the two counters together, none when the opening line was exactly msgstr "", and keeps the gathered text and opening line |
| Translations.CloseEntry | scripts/complete_translations.py:29-36 | a msgid line becomes the new entry's opening line and its gathered text starts empty |
| Translations.CountEntry | scripts/complete_translations.py:30-34 | the counting step of the loop body leaves the counters that Counted gives |
| Translations.ReadLine | scripts/complete_translations.py:25-38 | the loop body leaves its four variables as one Step over the line gives them |
| Translations.Completeness | scripts/complete_translations.py:15-50 | the loop, the final entry and the division give the completeness of the scanned lines (CompletenessOf), which lies between 0 and 100 |
| Translations.PercentInRange | scripts/complete_translations.py:45-50 | the share lies between 0 and 100 |
| Translations.ShareBounds | scripts/complete_translations.py:50 | a part of a positive whole is between none and all of it |
| Translations.IgnoredLineChangesNothing | scripts/complete_translations.py:25-28 | comments and blank lines change no counter and no gathered text |
| Translations.MsgIdIsNoMessageLine | scripts/complete_translations.py:29-38 | a msgid line does not add text |
| Translations.MsgIdClosesEntry | scripts/complete_translations.py:29-36 | a msgid line counts the entry before it as untranslated when it is untranslated (text strips to nothing, msgid line not blank) and as translated otherwise, and opens a new entry with empty text |
| Translations.FirstMsgIdCountsTranslated | scripts/complete_translations.py:29-34 | the first msgid line always counts one translated entry, because original is still empty |
| Translations.MessageLineAppends | scripts/complete_translations.py:37-38 | a msgstr or continuation line adds its text without "msgstr" and quotes, and counts nothing |
| Translations.ReplaceRemovesChar | scripts/complete_translations.py:38 | replacing a character by nothing leaves none of it |
| Translations.MessageTextHasNoQuote | scripts/complete_translations.py:38 | the gathered text never holds a quote |
| Translations.OriginalIsMsgIdLine | scripts/complete_translations.py:29-35 | original is always empty or a msgid line, so the test against msgstr "" never excludes an entry |
| Translations.FinishIntendedMatchesClose | scripts/complete_translations.py:40-43 | with the final entry judged like the others, its counters are exactly those a following msgid line would leave, and the corrected share lies between 0 and 100 |
| Translations.FinalEmptyMsgStrCountedTranslated | scripts/complete_translations.py:40-43 | as written, a file holding one msgid "a" with an empty msgstr "" is 100% complete; counted like the other entries it is 50% |
| Translations.KeywordLineNotIgnored | scripts/complete_translations.py:25-28 | a line starting with 'm' is neither a comment nor blank |
| Translations.SecondLineText | scripts/complete_translations.py:38 | the text of the line msgstr "" is a space and the line break |
| Install.TailIsBasename | install.py:30-34 | the rfind-based tail is the file's last path component |
| Install.GetDestShape | install.py:28-35 | getDest is dest + prefix + dir + "/" + the basename, which holds no '/' and ends the file name |
| Install.GetDestRootNoPrefix | install.py:37-44 | getDestRoot is getDest without the prefix: dest + dir + "/" + the basename |
| Install.GetDestOfBareName | install.py:33-34 | a file name without '/' is kept whole |
| Install.Defaults | install.py:79-97 | dest defaults to "", manpage directory to /man/man1, apport to on when not given and otherwise follows the text's truthiness; command line tools and gzip are on exactly when their skip options are not set |
| Install.RStripNewlines | install.py:133 | rstrip('\n') removes exactly the trailing newlines: the result is a prefix, does not end in a newline, and only newlines were removed |
| Install.ExplicitLibdirWins | install.py:142-143 | a non-empty --libdir is used as given |
| Install.MachineLibdir | install.py:134-141 | outside Debian and Ubuntu, without --libdir, the directory is /lib64 exactly for x86_64, s390x and ppc64 and /lib for every other machine |
| Install.DebianLibdir | install.py:130-133 | on Debian and Ubuntu, without --libdir, the directory starts /lib/ and does not end in a newline |
| PyStrings.LStrip | waf-1.7.6/build_system_kit/parser/cbdlib.py:24 | lstrip() drops exactly the leading white space: the result is a suffix, starts with no white space, and only white space was dropped |
| PyStrings.RStrip | waf-1.7.6/playground/netcache/netcache_server.py:149 | rstrip() drops exactly the trailing white space: the result is a prefix, ends in no white space, and only white space was dropped |
| PyStrings.Strip | waf-1.7.6/playground/netcache/netcache_server.py:149 | strip() leaves text that neither starts nor ends with white space, and is empty exactly when the text is all white space |
| PyStrings.Split | waf-1.7.6/playground/netcache/netcache_server.py:154 | split(sep) gives at least one field, none holding the separator, and joining them back with it gives the text |
| PyStrings.SplitWithoutSeparator | waf-1.7.6/playground/netcache/netcache_server.py:154 | text without the separator splits into itself alone |
| PyStrings.SplitHead | waf-1.7.6/build_system_kit/parser/cbdlib.py:26 | a field before the first separator is split off as the first field |
| PyStrings.SplitJoin | waf-1.7.6/playground/netcache/netcache_server.py:154 | splitting fields joined by a separator none of them holds gives the fields back |
| PyStrings.SplitLines | waf-1.7.6/build_system_kit/parser/cbdlib.py:20 | splitlines() gives lines without line breaks |
| PyStrings.SplitLinesHead | waf-1.7.6/build_system_kit/parser/cbdlib.py:20 | a first line followed by a line break is split off as the first line |
| PyStrings.ReplaceAbsent | scripts/builder.py:59 | replace() of a pattern that does not occur leaves the text unchanged |
| PyStrings.RFind | install.py:30 | rfind gives -1 exactly when the character is absent, and otherwise the index of its last occurrence |
| PyStrings.Basename | scripts/builder.py:55 | os.path.basename gives the part after the last '/': it holds no '/', ends the path, and is the whole path when there is no '/' |
| PyStrings.BasenameOfJoined | scripts/builder.py:76 | the basename of dir + "/" + name is name, when name holds no '/' |
| PyStrings.PathJoinKeepsParts | scripts/builder.py:14 | os.path.join with a relative second part starts with the first part and ends with the second |
| PyStrings.LJust | waf-1.7.6/playground/netcache/netcache_server.py:174 | ljust(n) keeps the text and pads it with spaces to n characters, leaving longer text as it is |
| PyStrings.RStripPadding | waf-1.7.6/playground/netcache/netcache_server.py:174 | stripping trailing spaces from padded text gives back text that did not end in white space |
| PyStrings.StripPadded | waf-1.7.6/playground/netcache/netcache_server.py:149 | strip() undoes ljust() for text that neither starts nor ends with white space |
| PyStrings.NatToStr | waf-1.7.6/playground/netcache/netcache_server.py:173 | str() of a natural number is one or more digits with no leading zero |
| PyStrings.IntToStr | waf-1.7.6/playground/netcache/netcache_server.py:191 | str() of an integer is its digits, after a '-' when it is negative |
| PyStrings.NatToStrRoundTrip | waf-1.7.6/playground/netcache/netcache_server.py:211 | the digits str() prints have the number's value |
| PyStrings.SignedRoundTrip | waf-1.7.6/playground/netcache/netcache_server.py:211 | int() of what str() prints is the number |
| PyStrings.IntToStrRoundTrip | waf-1.7.6/playground/netcache/netcache_server.py:211 | int() of what str() prints is the number, with int()'s white-space stripping |
| PyStrings.IntToStrUnpadded | waf-1.7.6/playground/netcache/netcache_server.py:191 | str() of a number neither starts nor ends with white space |
| PyStrings.ParseInt | waf-1.7.6/playground/netcache/netcache_server.py:211 | int() accepts nothing that strips to the empty text |
| PyStrings.ParseIntUnsigned | waf-1.7.6/playground/netcache/netcache_server.py:211 | int() of text without '-' is never negative |
| JavaStrings.TrimStart | waf-1.7.6/playground/netcache/Netcache.java:112 | the leading blanks trim() drops: a suffix with no blank in front, only blanks dropped |
| JavaStrings.TrimEnd | waf-1.7.6/playground/netcache/Netcache.java:112 | the trailing blanks trim() drops: a prefix with no blank at the end, only blanks dropped |
| JavaStrings.Trim | waf-1.7.6/playground/netcache/Netcache.java:112 | trim() leaves text neither starting nor ending in a blank, empty exactly for all-blank text, and drawn from the input |
| JavaStrings.TrimSlice | waf-1.7.6/playground/netcache/Netcache.java:112 | trim() keeps one contiguous slice of the text, and gives nothing only when the text is all blanks |
| JavaStrings.TrimPadded | waf-1.7.6/playground/netcache/Netcache.java:164 | trim() gives back text padded with trailing spaces, when the text neither starts nor ends in a blank |
| JavaStrings.TrimEndPadding | waf-1.7.6/playground/netcache/Netcache.java:112 | dropping the trailing blanks from text padded with spaces gives back text that did not end in a blank |
| JavaStrings.DropTrailingEmpty | waf-1.7.6/playground/netcache/Netcache.java:50 | String.split drops exactly the trailing empty fields |
| JavaStrings.JavaSplit | waf-1.7.6/playground/netcache/Netcache.java:50 | split(",") gives fields without commas: the text itself when it holds no comma, otherwise the comma fields with the trailing empty ones dropped |
| JavaStrings.JavaSplitJoin | waf-1.7.6/playground/netcache/Netcache.java:50 | split(",") gives back comma-free fields joined by commas, when the last is not empty |
| JavaStrings.OnlyCommas | waf-1.7.6/playground/netcache/Netcache.java:50 | a header made only of commas splits into no fields at all |
| JavaStrings.ParseLong | waf-1.7.6/playground/netcache/Netcache.java:112 | new Long(text) accepts only text of a signed 64-bit value without blanks, and no negative value without '-' |
| JavaStrings.ParseLongRoundTrip | waf-1.7.6/playground/netcache/Netcache.java:112 | new Long of the decimal text of a 64-bit value is that value |
| CacheStore.ShardOf | waf-1.7.6/playground/netcache/netcache_server.py:129 | the shard of a signature is its first two characters, or the whole of a shorter one |
| CacheStore.RemoveDir | waf-1.7.6/playground/netcache/netcache_server.py:96 | rmtree removes exactly the signature's directory; its shard and every other directory stay |
| CacheStore.StoreFile | waf-1.7.6/playground/netcache/netcache_server.py:223-235 | after makedirs and the rename the signature's directory exists, holds the file with its size besides the files it held, has mtime now, and nothing else changes |
| CacheStore.MakeDir | waf-1.7.6/playground/netcache/netcache_server.py:223-231 | makedirs when the move that follows fails: a missing signature directory is created empty with mtime now; an existing one, and every other directory, stay as they were |
| CacheStore.SumRemove | waf-1.7.6/playground/netcache/netcache_server.py:85 | the sum of sizes is one entry's size plus the sum of the rest, whichever entry is taken |
| CacheStore.SumAtLeastValue | waf-1.7.6/playground/netcache/netcache_server.py:85 | no single size exceeds the sum |
| CacheStore.Sizes | waf-1.7.6/playground/netcache/netcache_server.py:85 | the sizes of the index, key by key |
| CacheStore.TotalSizeRemove | waf-1.7.6/playground/netcache/netcache_server.py:95-98 | deleting an index entry lowers the total by exactly its size, which is what `total -= s` assumes |
| CacheStore.DirSize | waf-1.7.6/playground/netcache/netcache_server.py:128-131 | summing a directory's file sizes one by one gives the size of the directory |
| CacheStore.IndexSize | waf-1.7.6/playground/netcache/netcache_server.py:85 | summing the index entry by entry gives the total size it records |
| CacheStore.OldestExists | waf-1.7.6/playground/netcache/netcache_server.py:90-95 | a non-empty index has an entry with the smallest timestamp |
| CacheStore.Oldest | waf-1.7.6/playground/netcache/netcache_server.py:91-95 | the entry popped after sorting by timestamp and reversing is one with the smallest timestamp |
| CacheStore.KeysInSomeOrder | waf-1.7.6/playground/netcache/netcache_server.py:90 | the keys of a dictionary are listed each exactly once, in an unspecified order |
| CacheStore.EmptyTotal | waf-1.7.6/playground/netcache/netcache_server.py:105 | an empty index records a total of 0 |
| CacheStore.RemoveIfPresent | waf-1.7.6/playground/netcache/netcache_server.py:116-119 | a recursive delete removes the directory if it is there and otherwise changes nothing |
| CacheStore.DroppedOneMore | waf-1.7.6/playground/netcache/netcache_server.py:98 | deleting one more key adds it to the keys deleted so far |
| CacheStore.EvictOldest | waf-1.7.6/playground/netcache/netcache_server.py:94-98 | evicting the oldest remaining entry keeps the eviction least recently used first: nothing evicted is newer than anything kept |
| CacheStore.RemoveOneMore | waf-1.7.6/playground/netcache/netcache_server.py:96 | removing one more signature directory extends the set of removed ones and leaves everything else |
| CacheStore.RemoveAnother | waf-1.7.6/playground/netcache/netcache_server.py:96 | deleting a directory that is already gone also extends the set of removed ones |
| CacheStore.ScanMove | waf-1.7.6/playground/netcache/netcache_server.py:60-68 | moving one directory from the unvisited to the visited ones keeps them a partition and shrinks the unvisited ones |
| CacheStore.IndexStep | waf-1.7.6/playground/netcache/netcache_server.py:63-68 | visiting one more directory keeps the index exact: every entry is the mtime and summed size of a directory visited and kept |
| CacheStore.Touch | waf-1.7.6/playground/netcache/netcache_server.py:188-189 | os.utime sets the signature directory's mtime to now and changes nothing else |
| NetcachePy.ParseRequest | waf-1.7.6/playground/netcache/netcache_server.py:149-169 | a header is carried out only when its stripped text is one or more characters of [a-zA-Z0-9_, ]; any other header is an invalid query |
| NetcachePy.Dispatch | waf-1.7.6/playground/netcache/netcache_server.py:156-169 | the first comma field picks the command; BYE, and only BYE, ends the connection |
| NetcachePy.ParsedSizeNonNegative | waf-1.7.6/playground/netcache/netcache_server.py:149-159 | a PUT that passes the whitelist never announces a negative size |
| NetcachePy.FieldsHaveNoMinus | waf-1.7.6/playground/netcache/netcache_server.py:151-154 | no comma field of a validated query holds a '-' |
| NetcachePy.FieldCharsFromQuery | waf-1.7.6/playground/netcache/netcache_server.py:151-154 | every character of every comma field of a validated query is whitelisted |
| NetcachePy.DispatchedSizeUnsigned | waf-1.7.6/playground/netcache/netcache_server.py:211 | int() of a field without '-' is not negative |
| NetcachePy.AcceptedPrefix | waf-1.7.6/playground/netcache/netcache_server.py:141-146 | headers carried out one after another extend the run of accepted headers |
| NetcachePy.TraceExtended | waf-1.7.6/playground/netcache/netcache_server.py:140-146 | one more command served extends the record of the connection: the commands before it keep their states and replies |
| NetcachePy.PutThenGet | waf-1.7.6/playground/netcache/netcache_server.py:177-240 | a file put while no clean can run is got back: both succeed and the GET answers the uploaded size (0 for a negative one), with the signature indexed |
| NetcachePy.PutThenGetDirectory | waf-1.7.6/playground/netcache/netcache_server.py:177-240 | a put with an empty name only makes the signature directory; a get with an empty name then touches and stamps it, sends a size header and ends the connection |
| NetcachePy.WordsAreQueryText | waf-1.7.6/playground/netcache/netcache_server.py:49 | a signature or file name made of word characters is whitelisted text without commas |
| NetcachePy.RequestHeader | waf-1.7.6/playground/netcache/netcache_server.py:36 | a request a client can send takes exactly the 128-byte header |
| NetcachePy.PaddedTextDispatched | waf-1.7.6/playground/netcache/netcache_server.py:149-154 | a whitelisted text without whitespace at its ends reaches the dispatch whole, however it is padded |
| NetcachePy.WordText | waf-1.7.6/playground/netcache/netcache_server.py:149-154 | a non-empty word is a whitelisted, unpadded query that splits into itself |
| NetcachePy.ThreeWordsSplit | waf-1.7.6/playground/netcache/netcache_server.py:154 | three words joined by commas split back into them |
| NetcachePy.ThreeWordsQuery | waf-1.7.6/playground/netcache/netcache_server.py:151 | three words joined by commas, the first non-empty, are whitelisted with no space at their ends |
| NetcachePy.GetTextSplit | waf-1.7.6/playground/netcache/netcache_server.py:154-157 | the GET header's text is whitelisted, unpadded and splits into its three fields |
| NetcachePy.GetRoundTrip | waf-1.7.6/playground/netcache/netcache_server.py:156-157 | a sendable GET request is read back as itself |
| NetcachePy.PutRoundTrip | waf-1.7.6/playground/netcache/netcache_server.py:158-159 | a sendable PUT request is read back as itself, size included |
| NetcachePy.PutFieldsSplit | waf-1.7.6/playground/netcache/netcache_server.py:154 | the PUT header's text splits into its four fields |
| NetcachePy.DispatchPut | waf-1.7.6/playground/netcache/netcache_server.py:158-159 | a PUT with a size field int() reads as n dispatches to a put of n bytes |
| NetcachePy.PaddedWordDispatched | waf-1.7.6/playground/netcache/netcache_server.py:149-154 | a padded word reaches the dispatch as a single field |
| NetcachePy.CommandRoundTrip | waf-1.7.6/playground/netcache/netcache_server.py:160-167 | a command without fields (LST, CLN, RST, BYE) is read back from its padded word |
| NetcachePy.RequestRoundTrip | waf-1.7.6/playground/netcache/netcache_server.py:148-169 | the server reads back every request a client can send |
| NetcachePy.ListHeaderRoundTrip | waf-1.7.6/playground/netcache/netcache_server.py:172-174 | the first comma field of the LST reply header gives back the listing's length |
| NetcachePy.GetHeaderRoundTrip | waf-1.7.6/playground/netcache/netcache_server.py:191-192 | int() of the GET reply header gives back the size, -1 for a missing file included |
| NetcachePy.IndexableDirs | waf-1.7.6/playground/netcache/netcache_server.py:60-68 | init_flist only indexes directories that exist |
| NetcachePy.IndexableMember | waf-1.7.6/playground/netcache/netcache_server.py:60-68 | a directory is indexed exactly when its shard name has two characters and it holds at least one file (the index line sits inside the per-file loop) |
| NetcachePy.TrimNothing | waf-1.7.6/playground/netcache/netcache_server.py:85-88 | below MAX make_clean_unsafe leaves the index and the disk as they are |
| NetcachePy.TrimStep | waf-1.7.6/playground/netcache/netcache_server.py:94-98 | evicting the oldest entry keeps the loop's state: what was evicted is least recently used, its directory removed, and the total drops by its size |
| NetcachePy.TrimDone | waf-1.7.6/playground/netcache/netcache_server.py:94 | the loop ends with the total below MAX * CLEANRATIO, having evicted nothing more than needed |
| NetcachePy.TrimFailed | waf-1.7.6/playground/netcache/netcache_server.py:96 | an rmtree of a missing directory stops the trim with the failure |
| NetcachePy.CleanKeepsSurvivors | waf-1.7.6/playground/netcache/netcache_server.py:94-98 | an entry that survives the trim still has its directory, untouched |
| NetcachePy.HexValue | waf-1.7.6/playground/netcache/netcache_server.py:40 | a character of CHARS is the digit at its own position |
| NetcachePy.HexPair | waf-1.7.6/playground/netcache/netcache_server.py:108-109 | step i of the double loop over CHARS visits the two-character shard whose hex value is i |
| NetcachePy.HexPairInjective | waf-1.7.6/playground/netcache/netcache_server.py:108-111 | two steps of the loop visit different shards and rename them to different targets |
| NetcachePy.HexPairOnto | waf-1.7.6/playground/netcache/netcache_server.py:108-111 | every two-character hex shard is visited |
| NetcachePy.RmShardOnto | waf-1.7.6/playground/netcache/netcache_server.py:108-119 | every x+y+'_rm' shard is the rename target of a visited shard |
| NetcachePy.RenameStep | waf-1.7.6/playground/netcache/netcache_server.py:110-113 | one rename touches only its own shard and its '_rm' target |
| NetcachePy.RmShardsStep | waf-1.7.6/playground/netcache/netcache_server.py:114-119 | one more rmtree adds its '_rm' shard to those deleted |
| NetcachePy.ResetHexShard | waf-1.7.6/playground/netcache/netcache_server.py:108-119 | a hex shard survives reset exactly when its rename was blocked, and then it is untouched |
| NetcachePy.ResetRmShard | waf-1.7.6/playground/netcache/netcache_server.py:114-119 | every '_rm' shard is deleted |
| NetcachePy.ResetOtherShard | waf-1.7.6/playground/netcache/netcache_server.py:108-119 | any other directory under CACHEDIR is neither renamed nor deleted |
| NetcachePy.ResetOutcome | waf-1.7.6/playground/netcache/netcache_server.py:100-119 | after both loops a shard is left exactly when it is neither an '_rm' shard nor a hex shard whose rename went through, and it is unchanged |
| NetcachePy.Server.constructor | waf-1.7.6/playground/netcache/netcache_server.py:51 | the server starts with an empty index, the given disk and the lock free |
| NetcachePy.Server.InitFlist | waf-1.7.6/playground/netcache/netcache_server.py:52-68 | the index maps every indexable directory's signature to its mtime and summed size, and holds nothing else |
| NetcachePy.Server.MakeCleanUnsafe | waf-1.7.6/playground/netcache/netcache_server.py:82-98 | below MAX nothing changes; otherwise the least recently used entries are evicted, with their directories, until the total is below MAX * CLEANRATIO, or the trim stops at a missing directory |
| NetcachePy.Server.MakeClean | waf-1.7.6/playground/netcache/netcache_server.py:71-80 | when another thread holds the lock nothing changes; otherwise the cache is trimmed, and the lock is free again afterwards |
| NetcachePy.Server.Update | waf-1.7.6/playground/netcache/netcache_server.py:122-137 | a missing directory raises and leaves the index; otherwise a known signature gets the new size and a new one its mtime and size |
| NetcachePy.Server.Reset | waf-1.7.6/playground/netcache/netcache_server.py:100-119 | the index becomes empty and every hex shard is moved aside and deleted, unless its rename was blocked |
| NetcachePy.Server.ListFiles | waf-1.7.6/playground/netcache/netcache_server.py:171-175 | the reply is the length header followed by every indexed signature exactly once, joined by newlines |
| NetcachePy.Server.GetFile | waf-1.7.6/playground/netcache/netcache_server.py:177-205 | the outcome GotFile: a missing file gives the header -1 and changes nothing; a present one is sent whole after its size header and its directory's mtime and index timestamp become now; an unindexed signature raises after the touch; an empty name finds the signature directory itself, which is touched and stamped like a hit, and after some size header the read raises |
| NetcachePy.Server.PutFile | waf-1.7.6/playground/netcache/netcache_server.py:207-240 | the outcome PutDone: a connection closed before size bytes raises and changes nothing; otherwise makedirs runs and the file is moved in (for an empty name the move onto the directory fails silently and only the directory is made), the entry is re-measured and make_clean runs |
| NetcachePy.Server.ProcessCommand | waf-1.7.6/playground/netcache/netcache_server.py:148-169 | the outcome Processed: a whitelisted PUT to a get-only handler or GET to a put-only handler is answered with the ERROR header whatever fields follow, before any field is read, and changes nothing; otherwise an invalid header or missing or malformed fields raise without reply or change; a valid request has the effect and reply of its command as Run states them; a command carried out was an accepted header |
| NetcachePy.RefusedBeforeFields | waf-1.7.6/playground/netcache/netcache_server.py:240-250 | the header PUT,sig to a get-only handler, or GET,sig to a put-only one, lacks fields the full handler fails on, yet is answered with the ERROR header, not ok, nothing changed |
| NetcachePy.RefusedRequest | waf-1.7.6/playground/netcache/netcache_server.py:156-159 | a header the handler refuses that still reads as a full request is a PUT to a get-only handler or a GET to a put-only one, so both readings answer ERROR |
| NetcachePy.ShortHeaderRead | waf-1.7.6/playground/netcache/netcache_server.py:148-159 | the padded header PUT,sig or GET,sig passes the whitelist, is refused by the matching handler, and is short of fields for the full handler |
| NetcachePy.Server.Run | waf-1.7.6/playground/netcache/netcache_server.py:156-169 | the outcome RanCommand of each command: get-only and put-only handlers refuse with the ERROR header and change nothing; GET has get_file's effect and reply, PUT put_file's with no reply; LST answers every key once and changes nothing; CLN runs make_clean with no reply; RST empties the index and clears the shards |
| NetcachePy.Server.Handle | waf-1.7.6/playground/netcache/netcache_server.py:140-146 | the connection serves headers until the first one that raises (a GET of the signature directory itself among them, and a command its handler refuses, after the ERROR header), which ends it; every header served was accepted; the trace of states links them: header k took the index and disk from trace[k] to trace[k + 1] with reply k as ProcessCommand states, the last header failing |
| NetcacheJava.ThresholdIsCleanRatio | waf-1.7.6/playground/netcache/Netcache.java:22-23 | the eviction threshold is MAX * CLEANRATIO, four fifths of 10 GiB |
| NetcacheJava.Decode | waf-1.7.6/playground/netcache/Netcache.java:50-71 | LST is served on any listener and BYE closes; PUT and CLEAN are only served on the upload port and GET only on the download port; a header without fields is refused |
| NetcacheJava.DecodeGet | waf-1.7.6/playground/netcache/Netcache.java:57-58 | a header whose fields are GET and two more is a GET of the trimmed file name on the download port |
| NetcacheJava.DecodePut | waf-1.7.6/playground/netcache/Netcache.java:54-55 | a header whose fields are PUT and three more, the last a long once trimmed, is a PUT of that size on the upload port |
| NetcacheJava.AcceptedPrefix | waf-1.7.6/playground/netcache/Netcache.java:39-72 | headers served one after another extend the run of accepted headers |
| NetcacheJava.TraceExtended | waf-1.7.6/playground/netcache/Netcache.java:39-72 | one more header served extends the record of the connection: the headers before it keep their states and replies |
| NetcacheJava.PutThenGet | waf-1.7.6/playground/netcache/Netcache.java:108-195 | a file put and then got back answers the uploaded size (0 for a negative one), both succeed, and the signature is indexed |
| NetcacheJava.GetOfDirectory | waf-1.7.6/playground/netcache/Netcache.java:163-178 | a get with an empty name on an existing signature directory sends a size header, then throws and changes nothing |
| NetcacheJava.RequestHeader | waf-1.7.6/playground/netcache/Netcache.java:43-47 | a request a client can send takes exactly the 128 bytes run reads |
| NetcacheJava.IntToStrIsField | waf-1.7.6/playground/netcache/Netcache.java:112 | the decimal digits of a size hold no comma and no blank |
| NetcacheJava.PaddedFieldHasNoComma | waf-1.7.6/playground/netcache/Netcache.java:50 | a field padded with spaces holds no comma, so split leaves it whole |
| NetcacheJava.PaddedTail | waf-1.7.6/playground/netcache/Netcache.java:50 | the rest of a padded text after a prefix is the rest of the text, padded |
| NetcacheJava.JoinFour | waf-1.7.6/playground/netcache/Netcache.java:50 | four fields joined by commas |
| NetcacheJava.JoinThree | waf-1.7.6/playground/netcache/Netcache.java:50 | three fields joined by commas |
| NetcacheJava.PutRoundTrip | waf-1.7.6/playground/netcache/Netcache.java:108-112 | a sendable PUT header is decoded back as its request on the upload port, size included |
| NetcacheJava.GetRoundTrip | waf-1.7.6/playground/netcache/Netcache.java:163-164 | a sendable GET header is decoded back as its request on the download port |
| NetcacheJava.CommandRoundTrip | waf-1.7.6/playground/netcache/Netcache.java:51-62 | LST, and CLEAN on the upload port, written with their trailing comma are decoded back |
| NetcacheJava.RequestRoundTrip | waf-1.7.6/playground/netcache/Netcache.java:39-72 | every request a client can send is decoded back on its listener |
| NetcacheJava.ListOnEitherPort | waf-1.7.6/playground/netcache/Netcache.java:51-53 | LST is served on both listeners |
| NetcacheJava.BareCommandRefused | waf-1.7.6/playground/netcache/Netcache.java:50-71 | a padded LST without its comma is refused, because the padding stays in the first field |
| NetcacheJava.SizeHeader | waf-1.7.6/playground/netcache/Netcache.java:102 | the reply header is at least 128 characters |
| NetcacheJava.SizeHeaderRoundTrip | waf-1.7.6/playground/netcache/Netcache.java:172 | the first comma field of a reply header gives back the size |
| NetcacheJava.LinesAppend | waf-1.7.6/playground/netcache/Netcache.java:92-97 | one more key adds it and a newline to the listing |
| NetcacheJava.LinesPrefixStep | waf-1.7.6/playground/netcache/Netcache.java:92-97 | the listing of one more key of a list extends the listing of its prefix |
| NetcacheJava.LinesAsJoin | waf-1.7.6/playground/netcache/Netcache.java:92-97 | the listing is the keys joined by newlines with a final newline |
| NetcacheJava.LinesSplit | waf-1.7.6/playground/netcache/Netcache.java:88-106 | a client splitting the listing at newlines gets the keys back, then an empty tail |
| NetcacheJava.Compare | waf-1.7.6/playground/netcache/Netcache.java:249-251 | compare answers -1, 0 or 1 |
| NetcacheJava.CompareIsPreorder | waf-1.7.6/playground/netcache/Netcache.java:249-251 | compare is antisymmetric and transitive and orders entries by timestamp, as Collections.sort requires |
| NetcacheJava.SelectStep | waf-1.7.6/playground/netcache/Netcache.java:204-205 | appending an oldest remaining key keeps the sort's state |
| NetcacheJava.SortByTimestamp | waf-1.7.6/playground/netcache/Netcache.java:204-205 | the keys of the index, each once, in ascending timestamp order |
| NetcacheJava.CleanStart | waf-1.7.6/playground/netcache/Netcache.java:199-207 | before the loop every entry is left and the total is the index's total size |
| NetcacheJava.CleanNotExhausted | waf-1.7.6/playground/netcache/Netcache.java:208-209 | while the total is above the threshold an entry is left to evict |
| NetcacheJava.NextIsOldest | waf-1.7.6/playground/netcache/Netcache.java:209 | the next entry of the sorted list is an oldest entry left |
| NetcacheJava.NextKeys | waf-1.7.6/playground/netcache/Netcache.java:218-219 | evicting the next entry leaves exactly the rest of the list |
| NetcacheJava.CleanStateIntro | waf-1.7.6/playground/netcache/Netcache.java:207-220 | the loop's state from its parts |
| NetcacheJava.CleanStep | waf-1.7.6/playground/netcache/Netcache.java:208-220 | evicting the next entry keeps the loop's state: it is an oldest one and the total drops by its size |
| NetcacheJava.CleanDone | waf-1.7.6/playground/netcache/Netcache.java:208 | the loop ends with the total at most MAX * CLEANRATIO |
| NetcacheJava.CleanFailed | waf-1.7.6/playground/netcache/Netcache.java:212 | a signature shorter than two characters makes substring throw and stops the loop above the threshold |
| NetcacheJava.Stamped | waf-1.7.6/playground/netcache/Netcache.java:152-159 | put refreshes a known entry's timestamp and keeps its size; a new entry gets the directory's mtime and summed size; nothing else changes |
| NetcacheJava.Netcache.constructor | waf-1.7.6/playground/netcache/Netcache.java:225 | the index starts empty on the given disk |
| NetcacheJava.Netcache.InitFlist | waf-1.7.6/playground/netcache/Netcache.java:224-247 | every second-level directory, empty ones included, is indexed with its mtime and summed size, and nothing else |
| NetcacheJava.Netcache.Lst | waf-1.7.6/playground/netcache/Netcache.java:88-106 | the reply is the length header followed by every key exactly once, each followed by a newline |
| NetcacheJava.Netcache.Put | waf-1.7.6/playground/netcache/Netcache.java:108-161 | the outcome PutDone: put succeeds exactly when size bytes arrived, the signature has two characters and the name is not empty (an empty name makes the move fail and throw); then the file is stored and the index stamped, otherwise nothing changes |
| NetcacheJava.Netcache.Get | waf-1.7.6/playground/netcache/Netcache.java:163-195 | the outcome GotFile: a missing file gets the header 0 and changes nothing; a present one is sent whole after its size header and its directory touched; the index timestamp becomes now unless the signature is unindexed, which throws; an empty name on an existing signature directory sends some size header, then throws and changes nothing |
| NetcacheJava.Netcache.Clean | waf-1.7.6/playground/netcache/Netcache.java:197-222 | the least recently used entries are evicted with their directories until the total is at most MAX * CLEANRATIO, or a short signature stops the loop |
| NetcacheJava.Netcache.Serve | waf-1.7.6/playground/netcache/Netcache.java:43-71 | the outcome Served: a header that does not decode closes the connection and changes nothing; LST answers every key once and changes nothing; PUT and GET have put's and get's effects and replies; CLEAN evicts as clean does |
| NetcacheJava.Netcache.Run | waf-1.7.6/playground/netcache/Netcache.java:35-72 | the connection serves headers until the first one that is refused or fails, which ends it; every header served was accepted; the trace of states links them: header k took the index and disk from trace[k] to trace[k + 1] with reply k as Serve states, the last header failing |
| CbitParser.RemoveComments | waf-1.7.6/build_system_kit/parser/cbdlib.py:14-17 | the text without comments holds no '#' and is no longer than the input |
| CbitParser.BeforeHash | waf-1.7.6/build_system_kit/parser/cbdlib.py:14 | what a line keeps is the prefix before its first '#', or the whole line when it has none |
| CbitParser.CommentTailDropped | waf-1.7.6/build_system_kit/parser/cbdlib.py:14 | inside a comment every character up to the line break is dropped |
| CbitParser.CommentLine | waf-1.7.6/build_system_kit/parser/cbdlib.py:14-17 | a line followed by a line break loses exactly the text from its first '#' on |
| CbitParser.NoCommentUnchanged | waf-1.7.6/build_system_kit/parser/cbdlib.py:17 | text without '#' is left as it is |
| CbitParser.NewGen | waf-1.7.6/build_system_kit/parser/cbdlib.py:29-33 | a new generator has no rule, and a target or source exactly when that field is not empty |
| CbitParser.SplitPieces | waf-1.7.6/build_system_kit/parser/cbdlib.py:26-28 | split gives a second piece exactly when the line holds ':', so line[1] raises otherwise |
| CbitParser.ParseLine | waf-1.7.6/build_system_kit/parser/cbdlib.py:21-33 | an empty line changes nothing; an indented line fails exactly when no generator exists yet, and otherwise sets the last one's rule; a declaration fails exactly without ':', and otherwise adds one generator; an error names its line |
| CbitParser.CreateGenerator | waf-1.7.6/build_system_kit/parser/cbdlib.py:29-33 | one generator is added after the others, which are untouched |
| CbitParser.ReadLine | waf-1.7.6/build_system_kit/parser/cbdlib.py:20-33 | the loop body carries out one line as the parse of one line says |
| CbitParser.Build | waf-1.7.6/build_system_kit/parser/cbdlib.py:15-33 | build on the cbit text gives the generators of its lines once comments are removed, or the first line that raises |
| CbitParser.ParseAllNext | waf-1.7.6/build_system_kit/parser/cbdlib.py:20 | one more line continues the parse so far unless it already failed |
| CbitParser.ErrorPersists | waf-1.7.6/build_system_kit/parser/cbdlib.py:20-33 | the first error ends the loop: no later line changes the outcome |
| CbitParser.OneGeneratorPerDeclaration | waf-1.7.6/build_system_kit/parser/cbdlib.py:25-29 | a successful parse creates one generator per declaring line |
| CbitParser.PrefixParses | waf-1.7.6/build_system_kit/parser/cbdlib.py:20-33 | a prefix of a successful parse succeeds |
| CbitParser.FailsIffSomeLineFails | waf-1.7.6/build_system_kit/parser/cbdlib.py:20-33 | the parse fails exactly when some line fails given what came before it, and the error names the first such line |
| CbitParser.LStripFrom | waf-1.7.6/build_system_kit/parser/cbdlib.py:24 | a character of a left-stripped line comes from the line |
| CbitParser.GeneratorsClean | waf-1.7.6/build_system_kit/parser/cbdlib.py:24-33 | every field a generator holds is non-empty, without ':' and not led by white space, and every rule is not led by white space |
| StatelessBuild.FirstPendingExists | waf-1.7.6/build_system_kit/nostate/ebdlib.py:105-107 | the first loop finds a predecessor exactly when some flag is still NOT_RUN |
| StatelessBuild.StaleAgainstExists | waf-1.7.6/build_system_kit/nostate/ebdlib.py:119-124 | the inner loop returns RUN_ME exactly when some output makes the pair stale |
| StatelessBuild.AnyStaleExists | waf-1.7.6/build_system_kit/nostate/ebdlib.py:118-124 | the outer loop returns RUN_ME exactly when some checked node and some output form a stale pair |
| StatelessBuild.AskLaterIffPending | waf-1.7.6/build_system_kit/nostate/ebdlib.py:104-107 | status is ASK_LATER exactly when some task in run_after has not run |
| StatelessBuild.RunMeIffStalePair | waf-1.7.6/build_system_kit/nostate/ebdlib.py:118-126 | once the predecessors have run, status is RUN_ME exactly when some input, dependency, scanned node or wscript is strictly newer than some output or one of the two cannot be stat'ed, and SKIP_ME otherwise |
| StatelessBuild.NoOutputsSkipped | waf-1.7.6/build_system_kit/nostate/ebdlib.py:118-126 | a task without outputs is skipped once its predecessors have run, even with missing inputs |
| StatelessBuild.ScanFailureIgnored | waf-1.7.6/build_system_kit/nostate/ebdlib.py:109-113 | a scanner that raises is treated as one that found nothing |
| StatelessBuild.WscriptChecked | waf-1.7.6/build_system_kit/nostate/ebdlib.py:116-122 | the wscript node always takes part: a wscript newer than some output makes the task run |
| Optim.Range | waf-1.7.6/playground/compress/optim.py:46 | range(n) lists 0 .. n-1 in order |
| Optim.RotateLeft | waf-1.7.6/playground/compress/optim.py:56-57 | pop(0) then append keeps the length and puts the first element last |
| Optim.Rotated | waf-1.7.6/playground/compress/optim.py:53-57 | k left rotations keep the length |
| Optim.RotatedIsPermutation | waf-1.7.6/playground/compress/optim.py:53-57 | a rotation is a reordering: the same files, each as often |
| Optim.RotateLeftRotated | waf-1.7.6/playground/compress/optim.py:56-57 | rotating once more after k rotations gives k + 1 rotations |
| Optim.RotatedFull | waf-1.7.6/playground/compress/optim.py:53-57 | rotating a list as many times as it has elements gives it back |
| Optim.Swap | waf-1.7.6/playground/compress/optim.py:64-67 | the swap exchanges positions a and b, keeps every other position and so keeps the files |
| Optim.MoveToEnd | waf-1.7.6/playground/compress/optim.py:71-76 | the file at a goes to the end, the others keep their order, and the files are the same |
| Optim.SumOfPermutation | waf-1.7.6/playground/compress/optim.py:99 | two orderings of the same files have the same sum |
| Optim.SumRemove | waf-1.7.6/playground/compress/optim.py:99 | taking one element out takes its value off the sum |
| Optim.PermutationSum | waf-1.7.6/playground/compress/optim.py:99 | every ordering of range(LEN) passes the sum check of evil |
| Optim.PermLength | waf-1.7.6/playground/compress/optim.py:106 | every ordering of range(LEN) has LEN elements, as the length check of evil asserts |
| Optim.Contents | waf-1.7.6/playground/compress/optim.py:55 | the lists the population's entries are bound to, one per entry |
| Optim.RotateLoopAsWritten | waf-1.7.6/playground/compress/optim.py:53-57 | the rotation loop as written, over bindings to list objects, keeps the objects and entries |
| Optim.RotateLoopShares | waf-1.7.6/playground/compress/optim.py:55 | after x iterations the entries LEN-1 .. LEN+x-1 are all bound to the list object of entry LEN-1 |
| Optim.RotateLoopRotates | waf-1.7.6/playground/compress/optim.py:56-57 | after x iterations that one shared object has been rotated x times |
| Optim.RotationGroupUnchanged | waf-1.7.6/playground/compress/optim.py:53-57 | as written, once the loop ends every entry LEN-1 .. 2LEN-1 shows the unrotated list of entry LEN-1 |
| Optim.RotationGroupMissesRotation | waf-1.7.6/playground/compress/optim.py:53-57 | as written, entry LEN is not entry LEN-1 rotated once whenever that list's first two files differ |
| Optim.Select | waf-1.7.6/playground/compress/optim.py:80-97 | the position found is -1 or that of an individual |
| Optim.SelectIsFirstBest | waf-1.7.6/playground/compress/optim.py:80-92 | pos is -1 exactly when no size beats opti_ref; otherwise best is the size at pos, nothing beats it, and it beats every earlier size, so pos is the first best |
| Optim.OptiOnlyImproves | waf-1.7.6/playground/compress/optim.py:94-96 | opti[0] only moves to a strictly better size, and ends as the better of its old value and the best size |
| Optim.Mutated | waf-1.7.6/playground/compress/optim.py:52-76 | a mutated population has as many individuals as before |
| Optim.MutatedKeepsOrderings | waf-1.7.6/playground/compress/optim.py:52-76 | every individual of a mutated population of orderings of range(LEN) is still one, of LEN files |
| Optim.Sizes | waf-1.7.6/playground/compress/optim.py:82-89 | fitn holds the archive size of each individual, in order |
| Optim.RotateGroup | waf-1.7.6/playground/compress/optim.py:53-57 | with a copy before each rotation, individual LEN + x is individual LEN-1 rotated x + 1 times and every other individual is unchanged |
| Optim.SwapGroup | waf-1.7.6/playground/compress/optim.py:59-67 | individual x < LEN gets positions a[x] and b[x] swapped, the others are unchanged |
| Optim.MoveGroup | waf-1.7.6/playground/compress/optim.py:69-76 | individual 2LEN + x gets the file at moves[x] moved to the end, the others are unchanged |
| Optim.Score | waf-1.7.6/playground/compress/optim.py:80-97 | the scoring loop stores every individual's size in fitn and finds the first best size, its position and the new opti[0] |
| Optim.Spread | waf-1.7.6/playground/compress/optim.py:102-106 | every entry becomes a copy of the kept individual |
| Optim.Kept | waf-1.7.6/playground/compress/optim.py:105 | the kept individual is the one at pos, or the last one when pos is -1, as Python's index -1 gives |
| Optim.GroupsMakeMutated | waf-1.7.6/playground/compress/optim.py:52-76 | the three loops of mutate, one after the other, give the mutated population |
| Optim.MutateAll | waf-1.7.6/playground/compress/optim.py:52-76 | mutate on a population of lists gives the mutated population |
| Optim.Search.constructor | waf-1.7.6/playground/compress/optim.py:41-47 | every individual starts as range(LEN), every fitness 0, and opti[0] as opti_ref |
| Optim.Search.Mutate | waf-1.7.6/playground/compress/optim.py:52-76 | the population becomes the mutated one, and every individual stays an ordering of range(LEN) |
| Optim.Search.Evil | waf-1.7.6/playground/compress/optim.py:78-107 | fitn holds every individual's size; best, the position and opti[0] are as the scoring loop finds them; then every entry becomes a copy of the individual kept, and the population stays valid |
| FakeCc.LowerRun | waf-1.7.6/demos/fortran/mod/fakecc.py:12-13 | the greedy match of [a-z]* is the longest run of lowercase letters that starts the text |
| FakeCc.MatchKeyword | waf-1.7.6/demos/fortran/mod/fakecc.py:22-23 | an anchored match succeeds exactly when the line starts with the keyword, and its group follows the keyword |
| FakeCc.Scan | waf-1.7.6/demos/fortran/mod/fakecc.py:19-25 | at most one module file per line, each ending in .mod |
| FakeCc.ScanOneLine | waf-1.7.6/demos/fortran/mod/fakecc.py:21-24 | a matching line yields exactly its group plus .mod, any other line nothing |
| FakeCc.ScanAppend | waf-1.7.6/demos/fortran/mod/fakecc.py:21-24 | scanning keeps the line order: the files of two texts are those of the first, then those of the second |
| FakeCc.DeclarationLine | waf-1.7.6/demos/fortran/mod/fakecc.py:22-24 | a line "module name..." with name lowercase and not followed by a lowercase letter yields name.mod |
| FakeCc.LowerRunOf | waf-1.7.6/demos/fortran/mod/fakecc.py:12 | the run of lowercase letters of a name followed by a non-letter is the name |
| FakeCc.KeywordsExclusive | waf-1.7.6/demos/fortran/mod/fakecc.py:12-13 | no line both declares and uses a module |
| FakeCc.Compile | waf-1.7.6/demos/fortran/mod/fakecc.py:35-44 | the output always holds "compiled"; a module file is written exactly when the source declares a module, named after the first declaration and holding "module compiled" |
| FakeCc.FirstDeclarationNamesModuleFile | waf-1.7.6/demos/fortran/mod/fakecc.py:37-43 | a source whose first line declares module name makes the compile step write name.mod |
| StringUtils.DoWhileReads | waf-1.7.6/demos/jni/src/jni/source/StringUtils.c:18-23 | the do-while loop reads first at the offset just below the end pointer |
| StringUtils.DoWhileReadsInside | waf-1.7.6/demos/jni/src/jni/source/StringUtils.c:18-23 | for a string of n > 0 characters the loop reads offsets n-1 down to 0, each once, all inside the string |
| StringUtils.DoWhileReadsBeforeEmpty | waf-1.7.6/demos/jni/src/jni/source/StringUtils.c:15-23 | for the empty string the body still runs once and reads offset -1, one character before the string |
| StringUtils.IsAlpha | waf-1.7.6/demos/jni/src/jni/source/StringUtils.c:5-27 | isAlpha is true exactly for a non-null, non-empty string of letters (the empty string reading before its start is not modelled, see Findings) |
| StringUtils.IsEmpty | waf-1.7.6/demos/jni/src/jni/source/StringUtils.c:29-51 | isEmpty is true exactly for null or a string of white space, the empty string included (its out-of-bounds read is not modelled, see Findings) |
| StringUtils.AlphaAndBlankExclusive | waf-1.7.6/demos/jni/src/jni/source/StringUtils.c:5-51 | no non-empty string is both all letters and all white space |
| UnitTestDemo.DigitIn | waf-1.7.6/demos/unit_test/src/Accumulator.cpp:10 | a character is a digit of base 8, 10 or 16 with a value below the base, or none (-1) |
| UnitTestDemo.DigitsEnd | waf-1.7.6/demos/unit_test/src/Accumulator.cpp:10 | strtol's run of digits ends inside the text, not before it starts |
| UnitTestDemo.SkipSpace | waf-1.7.6/demos/unit_test/src/Accumulator.cpp:10 | the leading white space strtol skips ends inside the text |
| UnitTestDemo.Saturate | waf-1.7.6/demos/unit_test/src/Accumulator.cpp:10 | a value strtol returns always lies in the range of a 64-bit long |
| UnitTestDemo.StrToLInRange | waf-1.7.6/demos/unit_test/src/Accumulator.cpp:10 | strtol(data, 0, 0) never leaves the range of long |
| UnitTestDemo.ValueOfDecimal | waf-1.7.6/demos/unit_test/src/Accumulator.cpp:10 | a run of decimal digits has its decimal value |
| UnitTestDemo.DigitsEndAll | waf-1.7.6/demos/unit_test/src/Accumulator.cpp:10 | a text of digits is read to its end |
| UnitTestDemo.MagnitudeOfDecimal | waf-1.7.6/demos/unit_test/src/Accumulator.cpp:10 | the decimal text of n reads as n, whether base 0 takes it as decimal or, for "0", octal |
| UnitTestDemo.StrToLOfDecimal | waf-1.7.6/demos/unit_test/src/Accumulator.cpp:10 | str(n) round-trips through strtol for every n up to LONG_MAX |
| UnitTestDemo.StrToLOfNegative | waf-1.7.6/demos/unit_test/src/Accumulator.cpp:10 | "-" followed by str(n) reads as -n down to LONG_MIN |
| UnitTestDemo.MagnitudeShiftAt | waf-1.7.6/demos/unit_test/src/Accumulator.cpp:10 | reading after one extra leading character reads what the rest alone gives |
| UnitTestDemo.SkipSpaceShift | waf-1.7.6/demos/unit_test/src/Accumulator.cpp:10 | skipping white space after one extra leading character ends one position later |
| UnitTestDemo.DigitsEndShift | waf-1.7.6/demos/unit_test/src/Accumulator.cpp:10 | the run of digits after one extra leading character ends one position later |
| UnitTestDemo.ValueOfShift | waf-1.7.6/demos/unit_test/src/Accumulator.cpp:10 | digits read after one extra leading character have the same value |
| UnitTestDemo.StrToLSkipsSpace | waf-1.7.6/demos/unit_test/src/Accumulator.cpp:10 | leading white space does not change what strtol reads |
| UnitTestDemo.StrToLOfEmpty | waf-1.7.6/demos/unit_test/tests/test1/AccumulatorTest.cpp:52-56 | the empty line the test's reader adds at the end of the file reads as 0 |
| UnitTestDemo.Wrap32 | waf-1.7.6/demos/unit_test/src/Accumulator.cpp:10 | storing the sum in the int m_total gives a value in the int range |
| UnitTestDemo.Wrap32Congruent | waf-1.7.6/demos/unit_test/src/Accumulator.cpp:10 | that conversion keeps the value modulo 2^32 and leaves in-range values unchanged |
| UnitTestDemo.Accumulated | waf-1.7.6/demos/unit_test/src/Accumulator.cpp:8-11 | the total after adding each value in turn stays in the int range |
| UnitTestDemo.AccumulatedSnoc | waf-1.7.6/demos/unit_test/src/Accumulator.cpp:8-11 | accumulating one more value adds it to the total so far and reduces to int |
| UnitTestDemo.Parsed | waf-1.7.6/demos/unit_test/src/Accumulator.cpp:10 | the values read are one per line, each what strtol reads from that line |
| UnitTestDemo.Accumulator.constructor | waf-1.7.6/demos/unit_test/src/Accumulator.cpp:4-6 | a new accumulator has total 0 |
| UnitTestDemo.Accumulator.Accumulate | waf-1.7.6/demos/unit_test/src/Accumulator.cpp:8-11 | the total grows by strtol(data, 0, 0), reduced to the int range |
| UnitTestDemo.AccumulateLines | waf-1.7.6/demos/unit_test/tests/test1/AccumulatorTest.cpp:77-82 | accumulating every line in order gives the start total plus the lines' values, reduced to int after each addition |
| UnitTestDemo.AccumulatedNext | waf-1.7.6/demos/unit_test/tests/test1/AccumulatorTest.cpp:77-82 | accumulating line k after the lines before it gives the total of the first k + 1 lines |
| UnitTestDemo.ParsedNext | waf-1.7.6/demos/unit_test/tests/test1/AccumulatorTest.cpp:77-82 | reading one more line appends its value |
| UnitTestDemo.AccumulatedOfTestValues | waf-1.7.6/demos/unit_test/tests/test1/AccumulatorTest.cpp:83 | 1 to 5 and a final 0 add up to 15 with no reduction |
| UnitTestDemo.SumOfTestLines | waf-1.7.6/demos/unit_test/tests/test1/AccumulatorTest.cpp:71-85 | the lines 1 to 5 followed by the empty end-of-file line sum to 1+2+3+4+5 |
| UnitTestDemo.FirstTestLine | waf-1.7.6/demos/unit_test/tests/test1/AccumulatorTest.cpp:60-69 | a single line "10" gives the total 10 |
| UnitTestDemo.HelloWorld.Default | waf-1.7.6/demos/unit_test/src/HelloWorld.cpp:2-4 | the default message is "Hello World" |
| UnitTestDemo.HelloWorld.constructor | waf-1.7.6/demos/unit_test/src/HelloWorld.cpp:6-7 | the constructor with a message stores it |
| UnitTestDemo.HelloWorld.SetMessage | waf-1.7.6/demos/unit_test/src/HelloWorld.cpp:14-17 | after setMessage, message() returns the new text |

## Left out

- Sockets, threads, listeners and their concurrency in both netcache servers are not modelled. A connection is the sequence of headers it sends, the bytes it delivers and the clock readings it sees. The Python server's lock is a flag saying whether another thread holds it.
- Reading files, writing files, `print`, `os.walk`, `os.stat`, `glob`, `tar` and `subprocess` are I/O. Walks are given as the (directory, name) pairs they find. File systems are maps from path to size or time. File contents and clock readings are parameters.
- Printed messages are mostly not modelled: the builder's "Dependency is not created yet" line, bavala's `print(action)`, the installer's lines and the servers' log lines. The builder's printed actions and its "up to date" lines are the exception: they are the `printed` part of the runner's state (Builder.Outcome).
- `scripts/run.py` is not part of this model. Running a command is a parameter that maps the file system before the command to the file system after it.
- Strings are sequences of characters. White space is the ASCII white space of Python 2 byte strings (space, tab, line feed, carriage return, vertical tab and form feed); Python 3's `str.strip` would also remove \x1c to \x1f and the Unicode spaces. Character classes are those of the C locale. There is no Unicode case folding, normalisation or encoding. The JNI UTF-8 marshalling of StringUtils.c is not modelled.
- PyStrings.SplitLines: splits on '\n' only, not on the other line boundaries of str.splitlines. The texts read here use '\n'.
- Floating point is modelled as exact reals: the kerning value before its conversion to 16.16 fixed point, and the completeness percentage.
- FixedKerning.GetFixedKerning: `lower` and `middle` are unbounded integers. In C, `middle + 1` stored into an `int` overflows only when the search passes row 0x7FFFFFFF, which needs a table of more than 24 GiB.
- Builder.IsUpToDate: compares the newest counted dependency with the oldest target directly, rather than sorting the two time lists. The two give the same answer.
- Builder.Build: the `csource_files` list of `build` is computed but never used, so it is left out.
- Builder.IsUpToDate: scripts/builder.py:141 concatenates a string with the target list before `exit(1)`, which raises a TypeError. The build ends either way, so both are the `Abort` verdict.
- Bavala: `gen_o`, `gen_ln` and `gen_bin` are not modelled. Their command lines are completed later from `pkg-config` output, which is I/O. A dict's pairs are modelled as a sequence in a fixed order; Python 2's dict order is unspecified.
- CbitParser: the `start`, `recurse_rep`, `options` and `configure` functions of cbdlib.py are not modelled. They only hand over to waf's context objects.
- Optim: the `size` function stands for `tar` and `os.stat`, and the random draws are sequences of indices. The driver loop of 10000 rounds and the `shutil.copy2` of the best file are not modelled.
- Optim.Search.Mutate: models the corrected rotation, in which each entry is copied before it is rotated (see Findings). With the aliasing as written, the swap at LEN-1 would also reach the rotation group.
- ContourFlags.SetDoubleCurves: requires `length < flag.Length`. set_double_curves reads flag[length] while looking one point ahead.
- Contour.CreateContour: requires `len < |points|` and `len < |flags|`. get_bf_path passes the index of the contour's last point as `len` (libbirdfont/OpenFontFormat/load_font.c:560-582), so points[len] and flags[len] are the contour's own last point. The read of points[len + 1] at load_font.c:332 sits in a branch that an on-curve first point makes unreachable, so the model has no such read.
- Contour.CreateContour: requires `!(len == 1 && IsQuadratic(flags[0]))`, so it does not model a two-point contour whose first point is quadratic. The copying loop skips that point and leaves j at 0, and the ending at load_font.c:283-284 then reads the flag before the start of the new buffer, whose value C leaves undefined.
- Contour.InsertMidPoints: carries the same requires for the same two-point contour, as do Contour.Copied, Contour.Inserted, Contour.CopyStartHolds and Contour.MidPointsInserted.
- Contour.ContourData: carries the same requires for the same two-point contour, as do Contour.Created, Contour.Closed, Contour.ClosedPlacesInput and Contour.CreatedKeepsInput.
- StringUtils.IsAlpha: does not model the read one character before an empty string (see Findings). The same holds for StringUtils.IsEmpty.
- UnitTestDemo: the test inputs come from files. Their lines are given as sequences of strings.
- NetcacheJava.Netcache.Put: with an empty name, `renameTo` onto the signature's directory fails and put throws, so the model answers not ok with the disk unchanged. When that directory did not exist yet, the source has by then made the shard directory, and the rename succeeds and leaves the upload as a plain file at the directory's path before `listFiles` fails on it. The model records neither change.
- NetcacheJava.Netcache.Put: takes the signature and the name as single path components, holding no '/' and neither '.' nor '..'. The Java server has no header whitelist and builds CACHEDIR/<first two characters>/<signature>/<name> with java.io.File. So the header PUT,ab/cd,f,1 writes CACHEDIR/ab/ab/cd/f and indexes it under the last component "cd" (and a later CLEAN of "cd" removes CACHEDIR/cd/cd, not the stored file), a '..' component writes outside CACHEDIR, and a '/' in the name puts the upload in a subdirectory, which `listFiles` counts by the directory's own length. The model stores and indexes the upload under the whole signature text.
- NetcacheJava.Netcache.Get: makes the same single-component assumption. For a signature holding '/', the source reads CACHEDIR/ab/ab/cd/<name> and stamps the entry "cd" (a NullPointerException, after the data is sent, when "cd" is not indexed); for a name holding '/', it stamps the entry of the name's own directory. The model looks up and stamps the whole signature text.
- NetcacheJava.Netcache.Serve: inherits the single-component assumption of Put and Get: a PUT or GET whose signature or name holds '/', '.' or '..' is served as if that text were one path component.
- NetcacheJava.Netcache.Run: inherits the same assumption through Serve, for every header of the connection.
- NetcachePy.Server.GetFile: the size `os.stat` reports for the signature directory, sent for an empty name, depends on the file system. The contract leaves it open; the method sends CacheStore.DirStatSize. An empty signature names CACHEDIR itself, which the model looks up as shard '' and signature '', as PutFile stores it.
- NetcacheJava.Netcache.Get: `File.length` of the signature directory, sent for an empty name, is unspecified by the Java API. The contract leaves it open; the method sends CacheStore.DirStatSize.
- NetcachePy.Server.PutFile: an empty signature makes the target directory CACHEDIR itself. The source then re-measures the whole cache root under the key '', and a later eviction of '' would remove CACHEDIR. The disk model has no place for files at the root, so the model stores the file under shard '' and signature ''.
- FixedKerning.HasFixedKerning: the product of the pair count by three wraps at 32 bits, but the following multiplication by four is done in `size_t` and is taken not to wrap, as on a 64-bit target (a 32-bit `size_t` would wrap it too).
- NetcacheJava: sizes are unbounded integers limited to the range of a Java `long` where the source parses one. The sum of sizes is not wrapped at 64 bits.
- Install: running `install` and `ln`, writing `build/installed`, and the file-existence tests are I/O. The distribution name, the machine name and the `dpkg-architecture` output are parameters.

## Findings

| source | as written | input that shows it | evidently intended | confidence | as-written member | corrected member |
|---|---|---|---|---|---|---|
| fixed-kerning-example/fk.c:94 | the size check computes `entries * 3` in 32-bit unsigned arithmetic, which wraps | a 16-byte table whose header announces 0x55555556 pairs passes fk_has_fixed_kerning | accept only tables whose size is exactly 8 + 12 * pairs | not executed | FixedKerning.HasFixedKerningAcceptsWrappedCount | FixedKerning.HasFixedKerningAgrees |
| fixed-kerning-example/fk-font-editor.c:17 | the header stores the pair count as a 16-bit value | a table written with 65536 rows announces 0 pairs and is rejected by fk_has_fixed_kerning | store the full 32-bit pair count, as the reader expects | not executed | FixedKerning.HeaderRejects65536Pairs | FixedKerning.IntendedTableReadsBack |
| scripts/complete_translations.py:40-43 | the last entry is untranslated only when its gathered text is exactly "" | a file with `msgid "a"` and an empty `msgstr ""` is 100% complete, because the gathered text is " " and a line break | test the last entry with the same stripped-text rule as the others, which gives 50% | not executed | Translations.FinalEmptyMsgStrCountedTranslated | Translations.FinishIntendedMatchesClose |
| waf-1.7.6/demos/jni/src/jni/source/StringUtils.c:15-23 | the do-while loop reads a character before it tests for the start of the string | for the empty string the loop reads the byte one before the string | test for the start of the string before reading | not executed | StringUtils.DoWhileReadsBeforeEmpty | StringUtils.IsAlpha |
| waf-1.7.6/playground/compress/optim.py:55 | `v = popul[x+LEN] = popul[x+LEN-1]` makes both entries one list, which is then rotated in place | with LEN = 2 and an entry 1 whose first two files differ, entries 1, 2 and 3 end up as one list, rotated twice and so back in its first order, where entry 2 should be entry 1 rotated once | copy the list before rotating it | not executed | Optim.RotationGroupMissesRotation | Optim.RotateGroup |
