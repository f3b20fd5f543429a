# Kiss: the Groovy script cache and the Groff report writer, in Dafny

This project models two parts of the Kiss web framework and proves what they
do.

**GroovyService** serves Groovy scripts as microservices. It keeps a static
cache from the absolute file name of a script to a `GroovyClassInfo`. An entry
holds four things:

- the compiled class;
- the file's modification time when it was loaded;
- the time of its last access;
- the number of invocations running against it (`executing`).

`loadGroovyClass` handles one lookup in one of three ways:

- **Hit.** The file is unchanged, so the entry is reused.
- **Vanished file.** The file's time reads 0, so the entry is dropped.
- **Reload.** The file changed, so the entry is dropped and the file is
  compiled again.

On its way, a lookup calls `cleanGroovyCache`. That is a throttled sweep: it
drops the idle entries that have gone unused for longer than `MaxHold`, and it
marks busy entries as used now. `tryGroovy` and `internalGroovy` raise an
entry's `executing` count around an invocation and restore it on every exit.
`getMethod`, `constructor`, `internalGroovy` and `tryGroovy` each build the
cache key (the file name) from their arguments in their own way.

The model has three modules:

- `GroovyPaths`: the four file-name builders, as functions.
- `GroovyCacheSpec`: the cache as values (`Loaded`, `Cleaned`, `Swept`), with
  lemmas about whole lookups.
- `GroovyService`: the cache as the source keeps it. A class `GroovyCache`
  holds a map of `GroovyClassInfo` objects, whose counters are updated in
  place. Every method is proved to move the abstract state exactly as the
  value functions say.

**Groff** writes the groff/tbl/mm input of a PDF report, line by line. Two
protocols are modelled:

- **The prologue protocol.** Before the first line, `out` writes the defaults
  block exactly once. It also writes the page-header macro `TP` at most once,
  unless `noAutoPageHeader` switched it off.
- **The table state machine.** It is made of `startTable`, `column`,
  `columnWrap`, `flush`, `endRow`, `endTitle` and `endTable`, acting on these
  fields:
  - `numberOfColumns`, `currentColumn` and `currentRow`;
  - the pending `row`;
  - `inTitle`, `inTable` and `grayEveryOtherLineFlg`.

`GroffText` holds the text these methods write, as functions:

- the normalized column format and its column count;
- wrapped cells, rows and the gray marker;
- the title rule;
- the defaults block and the page header.

`GroffReport.Groff` is the imperative class:

- The `PrintWriter` is the string `doc`. `println` appends the line and a
  newline.
- The `StringBuilder` is the string `row`.
- The invariant `Valid` ties `row` to a ghost list of cells joined by the
  delimiter.
- Ghost counters record how often the defaults and the header were written.

Each method's `ensures` gives the new `doc` as the old one plus the text
functions applied to the old state.

Three behaviours of the code a reader might not expect:

- The sweep runs only when strictly more than `CheckCacheDelay` seconds have
  passed since the last one.
- On a hit, the cache sets `lastAccess` before it sweeps. The model reads the
  clock once per lookup. There, when `MaxHold` is not negative, a hit entry is
  never evicted by the sweep that its own lookup triggers (`FoundIsCached`),
  even when the entry was idle for longer than `MaxHold`. The code reads the
  clock a second time in that sweep, and an idle hit entry survives only when
  the two readings are at most `MaxHold` apart (`HitSurvivesLaterSweep`). With
  `MaxHold` 0, a second boundary between the two readings evicts the very
  entry that is returned. A negative `MaxHold` evicts an idle hit entry
  whenever the sweep is due.
- A vanished file is detected in two ways:
  - for a cached file, by a modification time of 0;
  - on a miss, by `exists()`.
  `EpochFileDroppedOnNextLookup` shows the consequence.

Files:

- `wrappers.dfy`: `Option`.
- `strings.dfy`: prefixes and suffixes, character counts, joining.
- `groovy_paths.dfy`, `groovy_cache_spec.dfy`, `groovy_service.dfy`: the
  script cache.
- `groff_text.dfy`, `groff_columns.dfy`, `groff.dfy`: the report writer.

## Model

| member | source | states |
|---|---|---|
| GroovyPaths.DropLast | src/main/core/org/kissweb/restServer/GroovyService.java:59 | the root without its last character: putting that character back gives the root; an empty root stays empty |
| GroovyPaths.DotsToSlashes | src/main/core/org/kissweb/restServer/GroovyService.java:221 | same length, no dot left, every dot becomes a slash, every other character is kept in place |
| GroovyPaths.MethodDirectory | src/main/core/org/kissweb/restServer/GroovyService.java:58-63 | the directory of a `getMethod` script: the root without its last character for a null or empty path, an absolute path as given, a relative one under that root |
| GroovyPaths.MethodFileName | src/main/core/org/kissweb/restServer/GroovyService.java:58-64 | always ends in "/" + className + ".groovy"; an absolute path is kept as the prefix; a relative one is placed under the root without its trailing slash; a null or empty path gives the root without its last character |
| GroovyPaths.ConstructorFileName | src/main/core/org/kissweb/restServer/GroovyService.java:211-212 | exactly root + "/" + className + ".groovy" for a null or empty path, and root + "/" + path + "/" + className + ".groovy" otherwise |
| GroovyPaths.QualifiedName | src/main/core/org/kissweb/restServer/GroovyService.java:220 | the class name alone without a package; otherwise it starts with package + "." and is exactly that long plus the class name, which it ends in |
| GroovyPaths.InternalFileName | src/main/core/org/kissweb/restServer/GroovyService.java:221 | root + "/" + the qualified name with no dot left + ".groovy": the part between root + "/" and ".groovy" is exactly `DotsToSlashes` of the qualified name |
| GroovyPaths.TryFileName | src/main/core/org/kissweb/restServer/GroovyService.java:252 | root (no separator added) + the class name with no dot left + ".groovy": the part between the root and ".groovy" is exactly `DotsToSlashes` of the class name |
| GroovyPaths.MethodFileNameInjective | src/main/core/org/kissweb/restServer/GroovyService.java:64 | two class names under the same path never share a cache key |
| GroovyPaths.ConstructorKeyDiffersFromMethodKey | src/main/core/org/kissweb/restServer/GroovyService.java:212 | the same relative script named through `constructor` and through `getMethod` gets two different cache keys |
| GroovyPaths.TryKeyDiffersFromInternalKey | src/main/core/org/kissweb/restServer/GroovyService.java:252 | `tryGroovy` and `internalGroovy` give the same class different cache keys |
| GroovyCacheSpec.LastModified | src/main/core/org/kissweb/restServer/GroovyService.java:302 | `File.lastModified()`: the file's time, 0 for a file that does not exist |
| GroovyCacheSpec.Exists | src/main/core/org/kissweb/restServer/GroovyService.java:317 | `File.exists()`: the file is in the file system |
| GroovyCacheSpec.SweepDue | src/main/core/org/kissweb/restServer/GroovyService.java:334 | the sweep runs only when strictly more than CheckCacheDelay seconds have passed since the last one |
| GroovyCacheSpec.Evictable | src/main/core/org/kissweb/restServer/GroovyService.java:338-341 | an entry is dropped only when nothing executes it and it has been unused for strictly more than MaxHold seconds |
| GroovyCacheSpec.Touched | src/main/core/org/kissweb/restServer/GroovyService.java:338-339 | a scanned entry is only refreshed: an executing entry's last access becomes now, an idle entry is unchanged |
| GroovyCacheSpec.Swept | src/main/core/org/kissweb/restServer/GroovyService.java:335-344 | the scan keeps exactly the non-evictable entries (idle and unused for more than MaxHold is evictable), refreshes the executing ones and leaves the idle survivors unchanged |
| GroovyCacheSpec.SweptByParts | src/main/core/org/kissweb/restServer/GroovyService.java:336-344 | collecting the evictable names, touching every entry and then removing the names is the scan |
| GroovyCacheSpec.Cleaned | src/main/core/org/kissweb/restServer/GroovyService.java:332-347 | no change unless strictly more than CheckCacheDelay has passed; otherwise the time of the sweep becomes now and a key is kept exactly when its entry is not evictable; never adds a key; every kept entry is at most refreshed |
| GroovyCacheSpec.Compiled | src/main/core/org/kissweb/restServer/GroovyService.java:316-329 | null exactly when the file does not exist or does not compile, with the cache unchanged; otherwise a new entry (compiled class, current time of the file, last access now, not executing) is cached under the path and returned |
| GroovyCacheSpec.LoadMiss | src/main/core/org/kissweb/restServer/GroovyService.java:315-329 | runs the throttled sweep first (its time of last sweep and the old keys it keeps are those of `Cleaned`); after the sweep: null exactly when the file does not exist or does not compile, and then no entry for the path; a result is a fresh entry with the file's time, now and a zero counter, cached under the path |
| GroovyCacheSpec.LookupSweeps | src/main/core/org/kissweb/restServer/GroovyService.java:302-315 | every lookup but one whose cached file has vanished runs the throttled sweep: the time of the last sweep and which other keys stay are those of `Cleaned` on the cache as it was |
| GroovyCacheSpec.Loaded | src/main/core/org/kissweb/restServer/GroovyService.java:293-330 | a missing file gives null; null leaves no entry for the path; a result carries the file's current time and last access now; no other key is added and every other entry is at most refreshed |
| GroovyCacheSpec.CacheHit | src/main/core/org/kissweb/restServer/GroovyService.java:308-312 | an unchanged file returns the cached entry with only its last access moved to now, and the result does not depend on the compiler |
| GroovyCacheSpec.VanishedFileDropsEntry | src/main/core/org/kissweb/restServer/GroovyService.java:302-307 | a cached file whose time reads 0 is removed from the cache and null is returned, without a sweep |
| GroovyCacheSpec.ChangedFileReloads | src/main/core/org/kissweb/restServer/GroovyService.java:313-328 | a changed file drops the old entry first: a failed compile leaves no entry, a successful one caches and returns a fresh entry |
| GroovyCacheSpec.HitSurvivesLaterSweep | src/main/core/org/kissweb/restServer/GroovyService.java:308-341 | with the hit's clock reading and a later one for a due sweep, an idle hit entry is kept exactly when the two readings are at most MaxHold apart |
| GroovyCacheSpec.FoundIsCached | src/main/core/org/kissweb/restServer/GroovyService.java:293-330 | with MaxHold >= 0 and one clock value for the whole lookup, a lookup returns an entry exactly when the cache holds one for the path afterwards, and the two are the same |
| GroovyCacheSpec.SecondLookupHits | src/main/core/org/kissweb/restServer/GroovyService.java:308-311 | looking up an unchanged file twice hits the entry the first lookup returned, whatever the compiler would do |
| GroovyCacheSpec.EpochFileDroppedOnNextLookup | src/main/core/org/kissweb/restServer/GroovyService.java:302-317 | an existing file with time 0 is loaded on a miss but dropped, with null, by the next lookup |
| GroovyCacheSpec.SweepSparesExecuting | src/main/core/org/kissweb/restServer/GroovyService.java:338-339 | the sweep never removes an executing entry and marks it as used now |
| GroovyService.GroovyClassInfo.constructor | src/main/core/org/kissweb/restServer/GroovyService.java:30-35 | a new entry holds the class, the given time, last access now and a zero counter |
| GroovyService.GroovyClassInfo.Scan | src/main/core/org/kissweb/restServer/GroovyService.java:337-341 | the entry becomes `Touched` of its old value, and the result says whether the old value was evictable |
| GroovyService.GroovyClassInfo.RunGuarded | src/main/core/org/kissweb/restServer/GroovyService.java:257-288 | the counter is one higher during the calls and back to its old value on every exit; Success only when constructor, lookup and invocation all succeed, Error otherwise |
| GroovyService.GroovyClassInfo.InvokeGuarded | src/main/core/org/kissweb/restServer/GroovyService.java:234-239 | the counter is one higher during the invocation and restored whether it returns or raises |
| GroovyService.GroovyCache.constructor | src/main/core/org/kissweb/restServer/GroovyService.java:21-24 | the cache starts empty with the last sweep at time 0 |
| GroovyService.GroovyCache.ScanEntries | src/main/core/org/kissweb/restServer/GroovyService.java:335-342 | returns exactly the names of the evictable entries and leaves every entry `Touched` |
| GroovyService.GroovyCache.CleanGroovyCache | src/main/core/org/kissweb/restServer/GroovyService.java:332-347 | the abstract cache becomes `Cleaned` of the old one; kept names keep their objects; every entry, also a removed one, is at most refreshed |
| GroovyService.GroovyCache.Sweep | src/main/core/org/kissweb/restServer/GroovyService.java:335-345 | the entries become `Swept` of the old ones and the time of the sweep becomes now |
| GroovyService.GroovyCache.LoadGroovyClass | src/main/core/org/kissweb/restServer/GroovyService.java:293-330 | the cache and the answer follow `Loaded`; a hit returns the very object that was cached, any other result is a new object, and a returned entry is the one cached under the path; an entry that leaves the cache is at most refreshed, and the old entry for the path itself is changed only by a hit |
| GroovyService.GroovyCache.LoadMissing | src/main/core/org/kissweb/restServer/GroovyService.java:315-329 | the cache and the answer follow `LoadMiss`, and a result is a new object cached under the path; every old entry, also one the sweep removes, is at most refreshed |
| GroovyService.GroovyCache.AddCompiled | src/main/core/org/kissweb/restServer/GroovyService.java:316-328 | the cache and the answer follow `Compiled` |
| GroovyService.GroovyCache.GetMethod | src/main/core/org/kissweb/restServer/GroovyService.java:57-96 | with ignoreMissing, a missing file gives null without touching the cache; otherwise the cache follows `Loaded`; a failed load gives null or "not found"; a null Method gives null or an exception; a lookup that throws always gives an exception; every other old entry is at most refreshed |
| GroovyService.GroovyCache.Constructor | src/main/core/org/kissweb/restServer/GroovyService.java:210-217 | the cache follows `Loaded`; a failed load raises "not found", and the constructor's outcome is returned or raised; every other old entry is at most refreshed |
| GroovyService.GroovyCache.InvokeEntry | src/main/core/org/kissweb/restServer/GroovyService.java:234-239 | the invocation leaves the abstract cache and the entry as they were, with the counter one higher during the call; it completes exactly when the invocation returns |
| GroovyService.GroovyCache.RunEntry | src/main/core/org/kissweb/restServer/GroovyService.java:257-288 | the constructor, lookup and call leave the abstract cache and the entry as they were, with the counter one higher during the calls; Success exactly when all three succeed |
| GroovyService.GroovyCache.InternalGroovy | src/main/core/org/kissweb/restServer/GroovyService.java:219-248 | the cache follows `Loaded` and the counters end as they were; NotFound on a failed load, Success only when the method exists and returns, Error otherwise; the counter is raised only around the invocation; every other old entry is at most refreshed |
| GroovyService.GroovyCache.TryGroovy | src/main/core/org/kissweb/restServer/GroovyService.java:250-291 | the cache follows `Loaded` and the counters end as they were; NotFound on a failed load, Success only when constructor, lookup and call succeed, Error otherwise; every other old entry is at most refreshed |
| GroffText.Trim | src/main/core/org/kissweb/Groff.java:87 | `String.trim`: no character up to U+0020 at either end, and never longer |
| GroffText.TrimSlice | src/main/core/org/kissweb/Groff.java:87 | the trim removes white characters only: the result is the slice of the argument where `TrimStart` begins, and everything before and after it is white |
| GroffText.CollapseSpacePairs | src/main/core/org/kissweb/Groff.java:88 | `replaceAll(" {2}", " ")`, one left-to-right pass that turns each pair of spaces into one: never longer |
| GroffText.CollapseKeepsUnpaired | src/main/core/org/kissweb/Groff.java:88 | a string with no two adjacent spaces is unchanged by the collapse |
| GroffText.Spaces | src/main/core/org/kissweb/Groff.java:91 | the number of spaces, which `replaceAll("[^ ]", "").length()` counts; never more than the length |
| GroffText.TableFormat | src/main/core/org/kissweb/Groff.java:87-90 | the written format always ends in "." |
| GroffText.CollapseKeepsNonSpaces | src/main/core/org/kissweb/Groff.java:88 | collapsing removes spaces only |
| GroffText.TableFormatKeepsKeys | src/main/core/org/kissweb/Groff.java:87-90 | the written format keeps every non-space character of the trimmed argument, in order, with at most a "." added |
| GroffText.ColumnCount | src/main/core/org/kissweb/Groff.java:91 | there is always at least one column |
| GroffText.TableFormatTrimmed | src/main/core/org/kissweb/Groff.java:91 | the written format is already trimmed, so the second trim changes nothing |
| GroffText.ColumnCountAsWritten | src/main/core/org/kissweb/Groff.java:91 | the column count equals the source's formula with its second trim |
| GroffText.SingleSpacedIsFixed | src/main/core/org/kissweb/Groff.java:87-88 | a single-spaced format is left alone by the trim and the collapse |
| GroffText.TableFormatOfSingleSpaced | src/main/core/org/kissweb/Groff.java:87-90 | a single-spaced format stays single-spaced and gains no space |
| GroffText.ColumnCountOfKeys | src/main/core/org/kissweb/Groff.java:87-91 | column keys separated by single spaces give exactly one column per key |
| GroffColumns.ColumnCountFiveSpaces | src/main/core/org/kissweb/Groff.java:87-91 | the format "l     r" counts three columns for two keys |
| GroffColumns.CollapseRun | src/main/core/org/kissweb/Groff.java:88 | one collapse turns a run of k spaces before a non-space into ceil(k/2) spaces |
| GroffColumns.CollapseWord | src/main/core/org/kissweb/Groff.java:88 | a stretch without spaces passes through the collapse unchanged |
| GroffColumns.CollapseSpaced | src/main/core/org/kissweb/Groff.java:88 | one collapse of keys separated by runs of spaces halves every run, rounding up, and keeps the keys |
| GroffColumns.SpacedSpaces | src/main/core/org/kissweb/Groff.java:91 | keys separated by runs hold exactly the spaces of the runs |
| GroffColumns.SpacedTrimmed | src/main/core/org/kissweb/Groff.java:87 | keys separated by runs are their own trim |
| GroffColumns.FirstCollapse | src/main/core/org/kissweb/Groff.java:87-88 | the written format of keys separated by runs has every run halved once |
| GroffColumns.SecondCollapse | src/main/core/org/kissweb/Groff.java:89-91 | the second collapse, with or without the added ".", leaves every run halved twice |
| GroffColumns.ColumnCountOfSpaced | src/main/core/org/kissweb/Groff.java:87-91 | the column count is one plus, for each run of g spaces between keys, ceil(g/4) |
| GroffColumns.QuarteredRuns | src/main/core/org/kissweb/Groff.java:88-91 | a run halved twice, rounding up, is ceil(g/4) |
| GroffColumns.ColumnCountOfNarrowRuns | src/main/core/org/kissweb/Groff.java:87-91 | keys separated by runs of one to four spaces count exactly one column per key |
| GroffColumns.ColumnCountOfWideRun | src/main/core/org/kissweb/Groff.java:87-91 | one run of five or more spaces between keys counts more columns than there are keys |
| GroffText.NatToString | src/main/core/org/kissweb/Groff.java:334 | decimal digits, at least one, with no leading zero |
| GroffText.NatToStringRoundTrip | src/main/core/org/kissweb/Groff.java:334 | the digits read back as the number |
| GroffText.WrappedCell | src/main/core/org/kissweb/Groff.java:161-167 | a null cell adds nothing; a cell longer than three characters is the cell inside "T{\n" and "\nT}"; a shorter one is the cell itself |
| GroffText.Shade | src/main/core/org/kissweb/Groff.java:114-115 | the gray marker `\*Y` when shaded, nothing otherwise |
| GroffText.RowLine | src/main/core/org/kissweb/Groff.java:114-116 | a row as `flush` writes it: the gray marker when shaded, the row, one newline |
| GroffText.PendingRow | src/main/core/org/kissweb/Groff.java:272-282 | the last row as `endTable` writes it: after a leading "T{\n" the marker follows that opening, otherwise as `RowLine` |
| GroffText.PendingRowContent | src/main/core/org/kissweb/Groff.java:272-282 | the last row is written unchanged when not shaded; when shaded, the marker is the only addition, at the start or right after a leading "T{\n"; its exact length |
| GroffText.TitleRule | src/main/core/org/kissweb/Groff.java:257-261 | the rule under the title: n `\_` cells joined by the delimiter |
| GroffText.TitleRuleShape | src/main/core/org/kissweb/Groff.java:257-261 | the title rule has one `\_` cell per column and n - 1 delimiters |
| GroffText.TitleRuleSnoc | src/main/core/org/kissweb/Groff.java:257-261 | one loop step appends a delimiter (except the first time) and `\_` |
| GroffText.PaddedRowDelimiters | src/main/core/org/kissweb/Groff.java:141-144 | a row of cells without delimiters, padded to n >= 1 cells, holds exactly n - 1 delimiters |
| GroffText.LineText | src/main/core/org/kissweb/Groff.java:363-364 | null writes nothing; a line is written followed by exactly one newline |
| GroffText.LinesNewlines | src/main/core/org/kissweb/Groff.java:335-337 | lines without a newline of their own end up as exactly one newline each |
| GroffText.RunDateLine | src/main/core/org/kissweb/Groff.java:330-333 | the clock's date when no run date was set, the run date when one was, and no line for an empty one |
| GroffText.FooterMacro | src/main/core/org/kissweb/Groff.java:313 | the `.PF` line with the left footer, the page number and the right footer |
| GroffText.PageHeaderText | src/main/core/org/kissweb/Groff.java:327-340 | the `TP` macro: `.de TP`, the top space, the run date line, `'ce` with the number of centered lines, the title and each title line, `'SP` and `..` |
| GroffText.PageHeaderCentersTitleLines | src/main/core/org/kissweb/Groff.java:334-337 | the number on the `'ce` request reads back as the number of centered lines that follow |
| GroffText.MmName | src/main/core/org/kissweb/Groff.java:63 | a final ".pdf" becomes ".mm" with the rest unchanged; any other name is kept |
| GroffText.MmNameInjective | src/main/core/org/kissweb/Groff.java:63 | different report files get different groff input files |
| GroffReport.Groff.constructor | src/main/core/org/kissweb/Groff.java:54-66 | the .mm name derived from the .pdf name, an empty document, both prologue parts due, empty footers, no table, gray rows on |
| GroffReport.Groff.Shaded | src/main/core/org/kissweb/Groff.java:114 | the gray-row rule: a row is shaded when the flag is on, outside the title, and the row count before it is odd |
| GroffReport.Groff.RowAfterEmit | src/main/core/org/kissweb/Groff.java:114 | the row count after a row is written: one higher exactly when the flag is on outside the title |
| GroffReport.Groff.DefaultsDue | src/main/core/org/kissweb/Groff.java:355-358 | the defaults block while it is still due, nothing afterwards |
| GroffReport.Groff.HeaderDue | src/main/core/org/kissweb/Groff.java:359-362 | the page header while it is still due, nothing afterwards |
| GroffReport.Groff.NoAutoPageHeader | src/main/core/org/kissweb/Groff.java:71-76 | the header is switched off; ".rm TP" is written only if it was already off |
| GroffReport.Groff.SetRuntime | src/main/core/org/kissweb/Groff.java:108-110 | the run date becomes the argument, null included |
| GroffReport.Groff.AddPageTitleLine | src/main/core/org/kissweb/Groff.java:307-309 | the line is appended to the title lines |
| GroffReport.Groff.SetFooter | src/main/core/org/kissweb/Groff.java:441-444 | each footer part becomes its argument, or "" for null |
| GroffReport.Groff.SetDefaults | src/main/core/org/kissweb/Groff.java:311-325 | appends the defaults block: empty page header, the footer macro with the current footers, then the page set-up |
| GroffReport.Groff.WritePageHeader | src/main/core/org/kissweb/Groff.java:327-340 | appends the `TP` macro: the run date line, `'ce` with 1 + the number of title lines, the title, each title line, the closing |
| GroffReport.Groff.CenteredLines | src/main/core/org/kissweb/Groff.java:335-337 | the title and every added title line, one per line, in order |
| GroffReport.Groff.Out | src/main/core/org/kissweb/Groff.java:354-365 | appends the defaults block if still due, then the page header if still due, then the line; afterwards neither is due; the defaults are written exactly once and the header at most once |
| GroffReport.Groff.OutBold | src/main/core/org/kissweb/Groff.java:298-300 | `out` of the text wrapped in a `.B` request |
| GroffReport.Groff.StartTable | src/main/core/org/kissweb/Groff.java:85-101 | gray rows on; the column count is `ColumnCount` of the argument; the prologue if due, then ".fi", ".ad l", ".TS H", the tab option and the normalized format; title mode in an open table with an empty row and the counters reset |
| GroffReport.Groff.OpenTable | src/main/core/org/kissweb/Groff.java:91-101 | the five table lines after the prologue, and the table state with the given column count |
| GroffReport.Groff.WriteTablePreamble | src/main/core/org/kissweb/Groff.java:92-96 | the prologue if due, then the five lines of the table start, in order |
| GroffReport.Groff.EnterTitleRows | src/main/core/org/kissweb/Groff.java:97-100 | title mode in an open table with the given column count, an empty row and both counters at 0 |
| GroffReport.Groff.Flush | src/main/core/org/kissweb/Groff.java:112-120 | a full row is written, with the gray marker exactly when the flag is on, not in the title and the row count is odd; the count advances only when the flag is on outside the title; the row is cleared; a row that is not full is left alone |
| GroffReport.Groff.AppendCell | src/main/core/org/kissweb/Groff.java:129-132 | the cell is appended, after one delimiter unless it is the first cell |
| GroffReport.Groff.Column | src/main/core/org/kissweb/Groff.java:127-133 | writes the pending row first if it is full; then adds the cell ("" for null) after one delimiter unless it is first; afterwards currentColumn >= 1, and at most numberOfColumns once a table has set a column count (before any `startTable` the count is 0 and currentColumn is 1) |
| GroffReport.Groff.ColumnWrap | src/main/core/org/kissweb/Groff.java:153-168 | gray rows switched off, so the row written first is never shaded and the row count stays; the cell is added wrapped as `WrappedCell` says |
| GroffReport.Groff.Padding | src/main/core/org/kissweb/Groff.java:141-144 | the number of empty cells that bring a row to the column count, 0 once it is reached |
| GroffReport.Groff.PadRow | src/main/core/org/kissweb/Groff.java:141-144 | the row gets exactly `Padding` empty cells, one delimiter each, and is then full; with a column count and no delimiter inside a cell, the padded row holds exactly numberOfColumns - 1 delimiters (by `PaddedRowDelimiters`) |
| GroffReport.Groff.EndRow | src/main/core/org/kissweb/Groff.java:138-146 | nothing without a pending cell; otherwise the row padded to the column count is written, shaded as by `flush`, and cleared |
| GroffReport.Groff.EndTitle | src/main/core/org/kissweb/Groff.java:253-265 | writes the pending row, a rule of `\_` cells, one per column, and ".TH"; leaves title mode with an empty row |
| GroffReport.Groff.TakePendingRow | src/main/core/org/kissweb/Groff.java:272-284 | a non-empty row is returned as `endTable` writes it, shaded as by `flush`, and is cleared; an empty row gives nothing |
| GroffReport.Groff.EndTable | src/main/core/org/kissweb/Groff.java:270-291 | in a table: the pending row if it holds text, then ".TE" and ".nf"; the table is closed and the counters and row are reset. Outside a table nothing is written or reset. Title mode ends in either case |

## Left out

- Compiling Groovy and reflective lookup and invocation are foreign calls. They
  are parameters: `compiled` is the class a file compiles to (None when
  compiling throws). `MemberLookup` and `Completion` say how `getMethod`, the
  constructor and the invocation end. `GroovyClass.reset()` and the argument
  classes of `getMethod` are not modelled.
- The clock is a parameter `now` (seconds), read once per call. The source
  reads it at most twice in one `loadGroovyClass`: on a hit, for
  `lastAccess` and in `cleanGroovyCache`; on a load, in `cleanGroovyCache`
  and in the `GroovyClassInfo` constructor. The model gives both reads the
  same value. `HitSurvivesLaterSweep` states what a later second reading
  changes on a hit.
- The file system is a map from existing files to their modification times.
- The application path, `MaxHold` and `CheckCacheDelay` are constant fields of
  the cache.
- `synchronized` and thread interleavings are not modelled. The cache is
  sequential. `tryGroovy` raising `executing` outside the lock is not modelled.
- Logging, `errorReturn` replies and exception messages are not modelled.
- The `run` entry points are not modelled separately. They only call
  `getMethod` and invoke the result.
- GroovyService.GroovyCache.GetMethod: the `File.exists()` check for
  `ignoreMissing` is the same file-system map that the cache reads.
- `Groff.process` (running groff and the PDF converters, timeouts, deleting
  files, margin arithmetic) is not modelled. It is external processes and
  floating point.
- `column(double…)` and `column(int…)` are not modelled, because they format
  numbers in floating point. `dateColumn*` is not modelled, because it wraps a
  date library outside this model.
- `dontDeleteGroffFile`, the getters and the `landscape` flag (used only by
  `process`) are not modelled.
- Creating the report file and opening the `PrintWriter` are not modelled. The
  constructor takes the absolute .pdf name.
- A null title, a null `out` argument inside `outBold`, and a null title line
  would be printed as "null". Titles and title lines are strings here. `out`
  itself takes an `Option`, where None writes nothing.
- GroffReport.Groff.StartTable: the method is split into helpers.
  `numberOfColumns` is assigned after the five lines are written, not before,
  and `grayEveryOtherLineFlg` is set last rather than first. Nothing in
  between reads either.
- GroffText.ColumnCount: defined without the source's second `trim`.
  `ColumnCountAsWritten` proves the two equal. Its own contract says only that
  there is at least one column. Its value for keys separated by runs of
  spaces is stated by `GroffColumns.ColumnCountOfSpaced` and its two
  corollaries.
- GroffText.Trim: its own contract gives the ends and the length. That only
  white characters are removed, and that the rest is a slice of the argument,
  is stated by `TrimSlice`.
- GroffText.CollapseSpacePairs: its own contract bounds the length. What it
  does to a run of spaces is stated by `GroffColumns.CollapseRun`, and what it
  does to a string without space pairs by `CollapseKeepsUnpaired`.
- GroffText.MmName: models the `\.pdf$` regular expression as "ends with
  .pdf". A name ending in ".pdf" followed by a line terminator is not modelled.
- GroffReport.Groff.WritePageHeader, GroffReport.Groff.EndTitle: text built by
  a loop is buffered in a local string and appended to `doc` once. The
  written text is the same.
- GroffReport.Groff.Flush: `currentRow` is unbounded, so the 32-bit
  wrap-around of `currentRow++` is not modelled.
- Java string lengths count UTF-16 units, and here they count characters.
  This affects only `columnWrap`'s "longer than 3" test, and only for
  characters outside the Basic Multilingual Plane.
- `println` writes the platform's line separator ("\r\n" on Windows). The
  model always writes "\n".
- The defaults block's page set-up is held in a constant field equal to
  `PageSetup`.
