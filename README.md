# Hangfire.RecurringJobAdmin — a Dafny model of its core

Hangfire.RecurringJobAdmin is a dashboard extension for Hangfire. It lists
recurring jobs, both running and stopped, and lets a user edit a job's cron
text, time zone, queue, class, method and arguments. This project models and
proves properties of the four pieces that carry its logic:

- **The save endpoint** (`ChangeJobDispatcher.Dispatch`). Module `ChangeJob`.
  It runs the fields of a save request through a fixed sequence of stages,
  and the first stage that fails ends the request:
  - the cron check;
  - the time-zone lookup;
  - the class check;
  - the removal of the parameters Hangfire injects itself;
  - the coercion of the remaining values;
  - the method/argument cross-check;
  - the method lookup with the full parameter list;
  - the `Register` call.

  `SaveOutcome` states the pipeline as a function. `ChangeJobDispatcher.Dispatch`
  is the imperative method, proved to answer and register exactly as
  `SaveOutcome` says.
- **The type catalogue** (`StorageAssemblySingleton`). Module `Catalog`.
  - A lazily created singleton holding the list of assemblies.
  - The directory scan that fills the list.
  - The recursive loading of referenced assemblies, specified by the
    function `LoadClosure` and proved closed under loadable references.
  - The first-match lookups `IsValidType`, `IsValidMethod` and
    `AreValidArguments`.
- **The job page** (`JobExtensionPage.cshtml.cs`). Module `JobExtensionPage`.
  - The page's list of rows: running jobs followed by stopped jobs.
  - `ParseCronExpression`, which picks the five- or six-part cron format.
- **The page's cron-editor script** (`getValidSplitCronValue`). Module
  `CronEditorScript`. It reduces a cron text to five fields and rewrites each
  field against its unit's range. It is specified by `ValidSplitCronValue`,
  which is proved to produce well-formed fields and to be idempotent. The
  script itself is the method `GetValidSplitCronValue`, with its loops.

Supporting modules:

- `Wrappers`: `Option` and `Result`.
- `Text`: JavaScript `split`/`join`/`parseInt`, and C# `Split`/`Contains`.
- `Platform`: .NET reflection and conversion, passed in as a `Runtime` record
  of functions.
- `Revisions`: a switch between the code as written (`AsWritten`) and the
  corrected code (`Fixed`) for each finding below.
- `SampleJobs`: the repository's sample job class run through the pipeline.

## Model

| member | source | states |
|---|---|---|
| Catalog.ResolveType | src/Hangfire.RecurringJobAdmin/Core/StorageAssemblySingleton.cs:71-74 | a type is found exactly when `IsValidType` holds. It is the process-wide type when `Type.GetType` resolves the name; otherwise it is the type of the first assembly of the list that defines the name |
| Catalog.IsValidType | src/Hangfire.RecurringJobAdmin/Core/StorageAssemblySingleton.cs:71 | `currentAssembly.Any(...)` finds a defining assembly exactly when `FirstOrDefault` does: the name is valid iff `Type.GetType` resolves it or the first defining assembly exists |
| Catalog.IsValidMethod | src/Hangfire.RecurringJobAdmin/Core/StorageAssemblySingleton.cs:73-74 | a valid method implies a valid type. When `Type.GetType` resolves the name, the method is valid iff that type declares it; otherwise iff the first assembly defining the type exists and its type declares it |
| Catalog.ValidArguments | src/Hangfire.RecurringJobAdmin/Core/StorageAssemblySingleton.cs:76-99 | valid arguments imply a resolvable type, as many arguments as types, and every argument converting to the type in its position |
| Catalog.FirstDefining | src/Hangfire.RecurringJobAdmin/Core/StorageAssemblySingleton.cs:73-74 | the index of the `FirstOrDefault` assembly: it defines the name, and no earlier assembly does |
| Catalog.FirstDefiningAssemblyShadows | src/Hangfire.RecurringJobAdmin/Core/StorageAssemblySingleton.cs:73-74 | `IsValidMethod` consults only the first assembly defining the type. A method declared by a same-named type in a later assembly is not found |
| Catalog.DirectoryCandidates | src/Hangfire.RecurringJobAdmin/Core/StorageAssemblySingleton.cs:37-40 | a path is a candidate iff it is in the directory listing, is not the location of an explicitly given assembly, and is not ignored |
| Catalog.FileName | src/Hangfire.RecurringJobAdmin/Core/StorageAssemblySingleton.cs:39 | the file name is a suffix of the path, no longer than it, holding no `/` or `\` |
| Catalog.Ignored | src/Hangfire.RecurringJobAdmin/Core/StorageAssemblySingleton.cs:39 | as written, where the path must be a substring of an ignore entry, no path longer than 30 characters (the longest entry) is ignored, so an absolute path never is |
| Catalog.MicrosoftLibraryScannedAsWritten | src/Hangfire.RecurringJobAdmin/Core/StorageAssemblySingleton.cs:37-40 | a `Microsoft.*` DLL in the application directory is a candidate as written and is skipped by the corrected file-name prefix test |
| Catalog.FixedIgnoresMicrosoft | src/Hangfire.RecurringJobAdmin/Core/StorageAssemblySingleton.cs:39 | with the corrected file-name prefix test, a file named `Microsoft.*` is ignored in any directory |
| Catalog.LoadFiles | src/Hangfire.RecurringJobAdmin/Core/StorageAssemblySingleton.cs:42 | never adds more assemblies than there are paths |
| Catalog.LoadFilesStopsAtFailure | src/Hangfire.RecurringJobAdmin/Core/StorageAssemblySingleton.cs:42 | the files before the first failing load are added in order; the loop stops exactly at the first failure, and completes iff none fails |
| Catalog.ReferenceLoadsFresh | src/Hangfire.RecurringJobAdmin/Core/StorageAssemblySingleton.cs:52-57 | the inner loop only loads names not loaded before the round, each as the assembly of that name |
| Catalog.RoundLoadsFresh | src/Hangfire.RecurringJobAdmin/Core/StorageAssemblySingleton.cs:50-63 | the same for a whole round over all processed assemblies |
| Catalog.ReferenceLoadsCover | src/Hangfire.RecurringJobAdmin/Core/StorageAssemblySingleton.cs:52-57 | every loadable reference unknown before the round is loaded by the inner loop |
| Catalog.RoundLoadsCover | src/Hangfire.RecurringJobAdmin/Core/StorageAssemblySingleton.cs:50-63 | every loadable, unknown reference of every processed assembly is loaded in the round |
| Catalog.RoundShrinksUnknown | src/Hangfire.RecurringJobAdmin/Core/StorageAssemblySingleton.cs:64-67 | a round that loads something strictly shrinks the set of loadable names not yet loaded, so the recursion ends |
| Catalog.LoadClosure | src/Hangfire.RecurringJobAdmin/Core/StorageAssemblySingleton.cs:47-69 | the recursion only appends: the list before the call is a prefix of the list after it |
| Catalog.LoadClosureStep | src/Hangfire.RecurringJobAdmin/Core/StorageAssemblySingleton.cs:64-67 | a round that loads something recurses on exactly what it loaded, with the loaded list extended by it |
| Catalog.RoundCloses | src/Hangfire.RecurringJobAdmin/Core/StorageAssemblySingleton.cs:50-66 | after a round, every assembly it processed has all its loadable references in the list |
| Catalog.LoadClosureClosed | src/Hangfire.RecurringJobAdmin/Core/StorageAssemblySingleton.cs:43-69 | starting from a list whose unprocessed members are closed, every assembly of the result has all its loadable references loaded |
| Catalog.LoadClosureAddsOnlyLoadable | src/Hangfire.RecurringJobAdmin/Core/StorageAssemblySingleton.cs:54-61 | failed loads are skipped: every assembly the recursion adds is the one that loads under its own full name |
| Catalog.CollectRound | src/Hangfire.RecurringJobAdmin/Core/StorageAssemblySingleton.cs:49-63 | the two nested `foreach` loops compute exactly the round's loads |
| Catalog.StorageAssemblySingleton.constructor | src/Hangfire.RecurringJobAdmin/Core/StorageAssemblySingleton.cs:20 | a new catalogue starts with an empty assembly list |
| Catalog.StorageAssemblySingleton.SetCurrentAssembly | src/Hangfire.RecurringJobAdmin/Core/StorageAssemblySingleton.cs:31-45 | the given assemblies are appended. With `includeReferences`, the candidate files are loaded too: a throwing load ends the call and keeps the earlier ones; otherwise the list becomes the reference closure of everything loaded |
| Catalog.StorageAssemblySingleton.AddFiles | src/Hangfire.RecurringJobAdmin/Core/StorageAssemblySingleton.cs:42 | appends exactly `LoadFiles`' assemblies and reports whether a load threw |
| Catalog.StorageAssemblySingleton.LoadReferences | src/Hangfire.RecurringJobAdmin/Core/StorageAssemblySingleton.cs:47-69 | the list becomes `LoadClosure` of the work list and the old list |
| Catalog.StorageAssemblySingleton.AreValidArguments | src/Hangfire.RecurringJobAdmin/Core/StorageAssemblySingleton.cs:76-99 | true iff the method is valid, the arguments and types have equal counts, and every argument converts to the type at its position |
| Catalog.InstanceSlot.constructor | src/Hangfire.RecurringJobAdmin/Core/StorageAssemblySingleton.cs:16 | the static slot starts empty |
| Catalog.InstanceSlot.GetInstance | src/Hangfire.RecurringJobAdmin/Core/StorageAssemblySingleton.cs:22-29 | the first call creates a fresh, empty catalogue; every later call returns that same object |
| ChangeJob.ResponseOf | src/Hangfire.RecurringJobAdmin/Pages/ChangeJobDispatcher.cs:39-99 | a response is written unless an exception escapes. Its status is true iff the job was registered, and a rejection carries its message |
| ChangeJob.RegisteredBy | src/Hangfire.RecurringJobAdmin/Pages/ChangeJobDispatcher.cs:214-220 | a request registers at most one job, and does so iff its outcome is a registration |
| ChangeJob.TimeZoneOf | src/Hangfire.RecurringJobAdmin/Pages/ChangeJobDispatcher.cs:58-87 | UTC for a missing or empty id; otherwise the lookup's zone, or its failure message |
| ChangeJob.FilteredTypes | src/Hangfire.RecurringJobAdmin/Pages/ChangeJobDispatcher.cs:108-113 | a type is kept iff it is in the list and is not one of the three injected types; the list never grows |
| ChangeJob.FilteredArgs | src/Hangfire.RecurringJobAdmin/Pages/ChangeJobDispatcher.cs:108-120 | no more values than types or than given values; nothing is padded in |
| ChangeJob.KeptPositions | src/Hangfire.RecurringJobAdmin/Pages/ChangeJobDispatcher.cs:108-111 | every kept position is in range and holds a non-injected type |
| ChangeJob.KeptPositionsExact | src/Hangfire.RecurringJobAdmin/Pages/ChangeJobDispatcher.cs:108-111 | the kept positions increase and include every non-injected position |
| ChangeJob.FilteredTypesAtKept | src/Hangfire.RecurringJobAdmin/Pages/ChangeJobDispatcher.cs:108-113 | filtered type j is the type at kept position j |
| ChangeJob.FilteredArgsAtKept | src/Hangfire.RecurringJobAdmin/Pages/ChangeJobDispatcher.cs:108-120 | filtered value j is the value at kept position j. Only kept positions past the end of the values are dropped, so values and types stay aligned |
| ChangeJob.FilterAligned | src/Hangfire.RecurringJobAdmin/Pages/ChangeJobDispatcher.cs:102-120 | the filtered types and values line up position by position with the original lists |
| ChangeJob.FilteredArgsComplete | src/Hangfire.RecurringJobAdmin/Pages/ChangeJobDispatcher.cs:115-118 | with a value for every type, every kept position keeps its value |
| ChangeJob.FilterFullArguments | src/Hangfire.RecurringJobAdmin/Pages/ChangeJobDispatcher.cs:102-120 | with a value for every type, the filtered lists have equal length |
| ChangeJob.FilteredTypesAppend | src/Hangfire.RecurringJobAdmin/Pages/ChangeJobDispatcher.cs:108-113 | filtering a concatenation filters each part |
| ChangeJob.ResolveAll | src/Hangfire.RecurringJobAdmin/Pages/ChangeJobDispatcher.cs:122-125 | one entry per name, and entry i is the catalogue lookup (`Type.GetType`, then the first defining assembly) of name i; it is non-null iff `IsValidType` holds for that name |
| ChangeJob.Values | src/Hangfire.RecurringJobAdmin/Pages/ChangeJobDispatcher.cs:191 | the type array handed to `AreValidArguments` once no entry is null |
| ChangeJob.Coerce | src/Hangfire.RecurringJobAdmin/Pages/ChangeJobDispatcher.cs:142-174 | a null type fails. A null value stays null for a reference or `Nullable<T>` type and becomes the type's default for any other value type. A boxed value is `Convert.ChangeType` of it. A JSON token is `ToObject` of it: a failing `ToObject` fails, and a non-null result is then `Convert.ChangeType` of that result |
| ChangeJob.CoerceAll | src/Hangfire.RecurringJobAdmin/Pages/ChangeJobDispatcher.cs:137-186 | succeeds iff every step below both lengths succeeds. Each such value is then its coerced form, and the values past the type list are unchanged |
| ChangeJob.FirstDeclaring | src/Hangfire.RecurringJobAdmin/Pages/ChangeJobDispatcher.cs:208-210 | the first assembly whose type declares the method with those parameters; no earlier one does |
| ChangeJob.FindMethod | src/Hangfire.RecurringJobAdmin/Pages/ChangeJobDispatcher.cs:203-211 | a found method has the requested name and full parameter list. When `Type.GetType` resolves the class, a method is found iff no parameter type is null and that type declares it. Otherwise a found method belongs to the type of the first assembly whose type declares it (the `FirstOrDefault` of line 209) |
| ChangeJob.CrossCheckFails | src/Hangfire.RecurringJobAdmin/Pages/ChangeJobDispatcher.cs:191-200 | with no values left the check never fails, even with an unresolved type; with values, an unresolved filtered type fails it. Passing it with values means, as written, that the method takes exactly the filtered types and there is one value per type; corrected, that no full type is null, that the method takes the full types, and that there is one value per filtered type |
| ChangeJob.FixedCrossCheckFindsMethod | src/Hangfire.RecurringJobAdmin/Pages/ChangeJobDispatcher.cs:191-211 | corrected, a request with values that passes the cross-check has its method found by the final lookup |
| ChangeJob.FixedWithArgumentsNeverFaults | src/Hangfire.RecurringJobAdmin/Pages/ChangeJobDispatcher.cs:191-220 | corrected, a request that ends in an escaping exception has no values left after filtering |
| ChangeJob.ShadowedMethodFoundOnlyByFinalLookup | src/Hangfire.RecurringJobAdmin/Pages/ChangeJobDispatcher.cs:191-211 | a method declared only by a same-named type in a later assembly is refused by the cross-check's `IsValidMethod` but found by the final lookup |
| ChangeJob.SaveOutcome | src/Hangfire.RecurringJobAdmin/Pages/ChangeJobDispatcher.cs:58-220 | a bad cron, an unknown time zone and an unknown class are rejected in that order with their messages. A registration carries the id, cron, zone, queue (default "default"), the full-length parameter list and exactly the coerced filtered values. A registration passed the cross-check, and its method is the one the final lookup finds |
| ChangeJob.ClassCheckedBeforeArguments | src/Hangfire.RecurringJobAdmin/Pages/ChangeJobDispatcher.cs:90-99 | an unknown class is rejected whatever the argument lists hold |
| ChangeJob.NoArgumentsSkipCrossCheck | src/Hangfire.RecurringJobAdmin/Pages/ChangeJobDispatcher.cs:191-220 | with no values left after filtering, the cross-check is skipped and the method lookup alone decides |
| ChangeJob.StagesPassRegisters | src/Hangfire.RecurringJobAdmin/Pages/ChangeJobDispatcher.cs:58-220 | when the cron, zone, class, coercion, cross-check and final lookup all pass, the request registers the found method with the coerced values, the id, cron, zone and queue (default "default") |
| ChangeJob.CrossCheckRejects | src/Hangfire.RecurringJobAdmin/Pages/ChangeJobDispatcher.cs:191-200 | when the earlier stages pass and the cross-check fails, the request is rejected with "Method not found or the Arguments are not valid" |
| ChangeJob.MissingMethodFaults | src/Hangfire.RecurringJobAdmin/Pages/ChangeJobDispatcher.cs:202-220 | when every check passes but the final lookup finds no method, an exception escapes the request |
| ChangeJob.CoercionFailureRejects | src/Hangfire.RecurringJobAdmin/Pages/ChangeJobDispatcher.cs:177-186 | a failed coercion at any position rejects with "Arguments are not of specified type" |
| ChangeJob.AsWrittenNeedsFilteredSignature | src/Hangfire.RecurringJobAdmin/Pages/ChangeJobDispatcher.cs:191 | as written, a registration with user arguments needs a method taking exactly the filtered types |
| ChangeJob.RegisteredNullsAreReferences | src/Hangfire.RecurringJobAdmin/Pages/ChangeJobDispatcher.cs:161-200 | a null reaches the registry only in a position whose type is a reference type |
| ChangeJob.CoercionFails | src/Hangfire.RecurringJobAdmin/Pages/ChangeJobDispatcher.cs:138-186 | one failing step makes the whole coercion fail |
| ChangeJob.FilterInjected | src/Hangfire.RecurringJobAdmin/Pages/ChangeJobDispatcher.cs:102-120 | the filter loop builds exactly `FilteredTypes` and `FilteredArgs` |
| ChangeJob.CoerceArguments | src/Hangfire.RecurringJobAdmin/Pages/ChangeJobDispatcher.cs:137-186 | the in-place coercion loop yields exactly `CoerceAll`, with failure as `None` |
| ChangeJob.CrossCheck | src/Hangfire.RecurringJobAdmin/Pages/ChangeJobDispatcher.cs:191 | rejects exactly when values remain and a filtered type is null or the catalogue refuses the method and arguments; corrected, the method is looked up with the full type list |
| ChangeJob.RecurringJobRegistry.constructor | src/Hangfire.RecurringJobAdmin/Pages/ChangeJobDispatcher.cs:33 | a new registry has no registrations |
| ChangeJob.RecurringJobRegistry.Register | src/Hangfire.RecurringJobAdmin/Pages/ChangeJobDispatcher.cs:214-220 | appends exactly one registration |
| ChangeJob.ChangeJobDispatcher.constructor | src/Hangfire.RecurringJobAdmin/Pages/ChangeJobDispatcher.cs:29-34 | the dispatcher owns a fresh, empty registry |
| ChangeJob.ChangeJobDispatcher.Dispatch | src/Hangfire.RecurringJobAdmin/Pages/ChangeJobDispatcher.cs:37-228 | the response is the one `SaveOutcome` determines, and the registry grows by exactly the registration it determines |
| SampleJobs.ExecuteWithContextRegisters | samples/Hangfire.Sample/TestExecution.cs:30-35 | the sample job whose only parameter is `PerformContext` is saved and registered with no arguments and its stored id, cron, zone and queue |
| SampleJobs.JobClassResolves | samples/Hangfire.Sample/TestExecution.cs:8-10 | the sample job class is found in the sample assembly |
| SampleJobs.ContextResolves | src/Hangfire.RecurringJobAdmin/Pages/ChangeJobDispatcher.cs:122-125 | `PerformContext` resolves to the type of the loaded Hangfire assembly |
| SampleJobs.ExecuteFound | src/Hangfire.RecurringJobAdmin/Pages/ChangeJobDispatcher.cs:203-211 | the lookup with the full one-parameter list finds `Execute(PerformContext)` |
| SampleJobs.WithParamsCommon | samples/Hangfire.Sample/TestExecution.cs:40-44 | for `ExecuteWithParams(string, int, PerformContext)`, the context is filtered away and the two user values are coerced to `string` and `int` |
| SampleJobs.WithParamsFullTypes | src/Hangfire.RecurringJobAdmin/Pages/ChangeJobDispatcher.cs:203-206 | the full type list of that method resolves, with `PerformContext` coming from the loaded Hangfire assembly |
| SampleJobs.WithParamsFound | src/Hangfire.RecurringJobAdmin/Pages/ChangeJobDispatcher.cs:208-211 | the lookup with the full list finds `ExecuteWithParams` |
| SampleJobs.NoFilteredOverload | samples/Hangfire.Sample/TestExecution.cs:40-44 | the class declares no `ExecuteWithParams(string, int)` overload |
| SampleJobs.AsWrittenCrossCheckFails | src/Hangfire.RecurringJobAdmin/Pages/ChangeJobDispatcher.cs:191 | as written, the cross-check of that request fails |
| SampleJobs.FixedCrossCheckPasses | src/Hangfire.RecurringJobAdmin/Pages/ChangeJobDispatcher.cs:191 | corrected, the cross-check of that request passes |
| SampleJobs.WithParamsRejectedAsWritten | src/Hangfire.RecurringJobAdmin/Pages/ChangeJobDispatcher.cs:191 | as written, that request is rejected with "Method not found or the Arguments are not valid" |
| SampleJobs.WithParamsRegisteredFixed | src/Hangfire.RecurringJobAdmin/Pages/ChangeJobDispatcher.cs:191-220 | with the corrected cross-check, the same request registers the three-parameter method with the two converted values |
| JobExtensionPage.CronParts | src/Hangfire.RecurringJobAdmin/Dashboard/Pages/JobExtensionPage.cshtml.cs:1464 | splitting on spaces and tabs with `RemoveEmptyEntries` yields only non-empty parts |
| JobExtensionPage.ParseCronExpression | src/Hangfire.RecurringJobAdmin/Dashboard/Pages/JobExtensionPage.cshtml.cs:1457-1476 | a null text raises an argument error naming `cronExpression`. Six parts are parsed with seconds and five without; any other count is a format error quoting the text |
| JobExtensionPage.RemoveEmptyKeepsNonEmpty | src/Hangfire.RecurringJobAdmin/Dashboard/Pages/JobExtensionPage.cshtml.cs:1464 | `RemoveEmptyEntries` leaves a list of non-empty parts unchanged |
| JobExtensionPage.CronPartsOfJoined | src/Hangfire.RecurringJobAdmin/Dashboard/Pages/JobExtensionPage.cshtml.cs:1464 | the parts of fields written with single spaces are those fields |
| JobExtensionPage.FormatFollowsFieldCount | src/Hangfire.RecurringJobAdmin/Dashboard/Pages/JobExtensionPage.cshtml.cs:1464-1475 | for a text of n space-separated fields: six means with seconds, five means standard, and any other n is refused before the library is called |
| JobExtensionPage.AsRunning | src/Hangfire.RecurringJobAdmin/Dashboard/Pages/JobExtensionPage.cshtml.cs:50-66 | a job the storage schedules is shown with state "Running" |
| JobExtensionPage.AllRunning | src/Hangfire.RecurringJobAdmin/Dashboard/Pages/JobExtensionPage.cshtml.cs:50-66 | one row per recurring job, in order, each converted as `AsRunning` says |
| JobExtensionPage.Skip | src/Hangfire.RecurringJobAdmin/Dashboard/Pages/JobExtensionPage.cshtml.cs:68 | LINQ `Skip`: a non-positive count keeps everything, a count past the end leaves nothing |
| JobExtensionPage.Take | src/Hangfire.RecurringJobAdmin/Dashboard/Pages/JobExtensionPage.cshtml.cs:68 | LINQ `Take`: a non-positive count gives nothing, a count past the end gives everything |
| JobExtensionPage.StoppedOffset | src/Hangfire.RecurringJobAdmin/Dashboard/Pages/JobExtensionPage.cshtml.cs:68 | as written, `Math.Min(0, …)` never skips a stopped job; the corrected offset is never negative |
| JobExtensionPage.ListedJobs | src/Hangfire.RecurringJobAdmin/Dashboard/Pages/JobExtensionPage.cshtml.cs:50-68 | the page holds every running row, followed by as many stopped jobs past the offset as fit in `recordsPerPage`, or all of them if fewer are left |
| JobExtensionPage.RunningWindow | src/Hangfire.RecurringJobAdmin/Dashboard/Pages/JobExtensionPage.cshtml.cs:44 | the storage returns at most one page of running jobs |
| JobExtensionPage.RunningJobsFirst | src/Hangfire.RecurringJobAdmin/Dashboard/Pages/JobExtensionPage.cshtml.cs:50-68 | running rows come first, all marked "Running". The rest is a run of consecutive stopped jobs in their order, starting at the skipped count, no more than the page has room for, and none when the running rows fill the page |
| JobExtensionPage.AsWrittenStoppedPrefix | src/Hangfire.RecurringJobAdmin/Dashboard/Pages/JobExtensionPage.cshtml.cs:68 | as written, the stopped part of any page is a prefix of the stopped jobs |
| JobExtensionPage.AsWrittenPagesRepeat | src/Hangfire.RecurringJobAdmin/Dashboard/Pages/JobExtensionPage.cshtml.cs:43-68 | as written, every page past the running jobs shows the same rows: the first stopped jobs |
| JobExtensionPage.FixedPageIsWindow | src/Hangfire.RecurringJobAdmin/Dashboard/Pages/JobExtensionPage.cshtml.cs:43-68 | corrected, each page is exactly the window at `fromRecord` in all running jobs followed by all stopped jobs |
| JobExtensionPage.FixedPagePastRunning | src/Hangfire.RecurringJobAdmin/Dashboard/Pages/JobExtensionPage.cshtml.cs:43-68 | corrected, a page past the running jobs is the window at `fromRecord - total running` in the stopped jobs |
| JobExtensionPage.FixedPageWithinRunning | src/Hangfire.RecurringJobAdmin/Dashboard/Pages/JobExtensionPage.cshtml.cs:43-68 | corrected, a page starting among the running jobs shows the rest of its window of running jobs, then the first stopped jobs that fit |
| CronEditorScript.UnitRanges | src/Hangfire.RecurringJobAdmin/Dashboard/Pages/JobExtensionPage.cshtml.cs:983-989 | with `lastIndex = max + min - 1` the units range over 0-59, 0-23, 1-31, 1-12 and 0-6 |
| CronEditorScript.Clamp | src/Hangfire.RecurringJobAdmin/Dashboard/Pages/JobExtensionPage.cshtml.cs:1411 | `Math.max(Math.min(x, last), first)` lies in the range and leaves in-range values alone |
| CronEditorScript.Stride | src/Hangfire.RecurringJobAdmin/Dashboard/Pages/JobExtensionPage.cshtml.cs:1384-1388 | every value pushed lies between the clamped low and high bounds |
| CronEditorScript.StrideExact | src/Hangfire.RecurringJobAdmin/Dashboard/Pages/JobExtensionPage.cshtml.cs:1384-1388 | the pushed values are exactly k, k+s, k+2s, … up to the last one not beyond l. Nothing is pushed iff k > l |
| CronEditorScript.ListItem | src/Hangfire.RecurringJobAdmin/Dashboard/Pages/JobExtensionPage.cshtml.cs:1376-1394 | a piece of a list selects only values in the unit's range |
| CronEditorScript.ListSelection | src/Hangfire.RecurringJobAdmin/Dashboard/Pages/JobExtensionPage.cshtml.cs:1373-1395 | a list field selects only values in the unit's range |
| CronEditorScript.NumberTexts | src/Hangfire.RecurringJobAdmin/Dashboard/Pages/JobExtensionPage.cshtml.cs:1397 | one text per selected number, text k being the decimal text of number k, which `parseInt` reads back |
| CronEditorScript.ListSelectionCanonical | src/Hangfire.RecurringJobAdmin/Dashboard/Pages/JobExtensionPage.cshtml.cs:1390-1393 | a list of canonical in-range numbers selects exactly their values, in order |
| CronEditorScript.ListItemRange | src/Hangfire.RecurringJobAdmin/Dashboard/Pages/JobExtensionPage.cshtml.cs:1376-1388 | a list piece `a-b` selects exactly the numbers from max(a, first) to min(b, last), in increasing order |
| CronEditorScript.ListItemNumber | src/Hangfire.RecurringJobAdmin/Dashboard/Pages/JobExtensionPage.cshtml.cs:1389-1393 | a list piece holding an in-range number selects exactly that number |
| CronEditorScript.ListSelectionAppend | src/Hangfire.RecurringJobAdmin/Dashboard/Pages/JobExtensionPage.cshtml.cs:1373-1395 | the selection of two runs of pieces is the selection of the first followed by that of the second |
| CronEditorScript.ListField | src/Hangfire.RecurringJobAdmin/Dashboard/Pages/JobExtensionPage.cshtml.cs:1372-1400 | a field with a comma is always rewritten to a well-formed field: canonical in-range numbers joined by commas, or `*` when nothing is selected |
| CronEditorScript.RangeTextValid | src/Hangfire.RecurringJobAdmin/Dashboard/Pages/JobExtensionPage.cshtml.cs:1411-1417 | clamped bounds lo <= hi with an optional valid step make a well-formed range |
| CronEditorScript.PlainRangeValid | src/Hangfire.RecurringJobAdmin/Dashboard/Pages/JobExtensionPage.cshtml.cs:1411-1417 | clamped bounds lo <= hi make a well-formed range without a step |
| CronEditorScript.SteppedRangeValid | src/Hangfire.RecurringJobAdmin/Dashboard/Pages/JobExtensionPage.cshtml.cs:1411-1417 | clamped bounds lo <= hi with a valid step make a well-formed stepped range |
| CronEditorScript.RangeField | src/Hangfire.RecurringJobAdmin/Dashboard/Pages/JobExtensionPage.cshtml.cs:1401-1421 | a field with a dash and no comma is always rewritten to a well-formed field |
| CronEditorScript.SingleField | src/Hangfire.RecurringJobAdmin/Dashboard/Pages/JobExtensionPage.cshtml.cs:1422-1439 | a field with neither comma nor dash is always rewritten to a well-formed field, and one that is already a well-formed single value is kept |
| CronEditorScript.NormalizeField | src/Hangfire.RecurringJobAdmin/Dashboard/Pages/JobExtensionPage.cshtml.cs:1372-1439 | whatever the input, the rewritten field is well formed for its unit |
| CronEditorScript.RangeFieldClamps | src/Hangfire.RecurringJobAdmin/Dashboard/Pages/JobExtensionPage.cshtml.cs:1401-1412 | a range `a-b` with a <= b is rewritten to its two bounds clamped into the unit's range |
| CronEditorScript.RangeFieldStepped | src/Hangfire.RecurringJobAdmin/Dashboard/Pages/JobExtensionPage.cshtml.cs:1401-1418 | a range `a-b/t` with a <= b is rewritten to its clamped bounds, keeping `/t` only if t is between 1 and the unit's last value |
| CronEditorScript.RangeFieldReversed | src/Hangfire.RecurringJobAdmin/Dashboard/Pages/JobExtensionPage.cshtml.cs:1406-1421 | a range whose low bound exceeds its high bound is rewritten to `*` |
| CronEditorScript.SingleFieldDropsBadStep | src/Hangfire.RecurringJobAdmin/Dashboard/Pages/JobExtensionPage.cshtml.cs:1429-1434 | `n/t` with `n` in range or `*` and an invalid step t is rewritten to `n` |
| CronEditorScript.SingleFieldOutOfRange | src/Hangfire.RecurringJobAdmin/Dashboard/Pages/JobExtensionPage.cshtml.cs:1423-1438 | a number outside the unit's range is rewritten to `*` |
| CronEditorScript.ListFieldKeepsValid | src/Hangfire.RecurringJobAdmin/Dashboard/Pages/JobExtensionPage.cshtml.cs:1372-1400 | a well-formed list is rewritten to itself |
| CronEditorScript.RangeParts | src/Hangfire.RecurringJobAdmin/Dashboard/Pages/JobExtensionPage.cshtml.cs:1402-1405 | a well-formed range is its low bound, a dash, its high bound and its step, and its split at `/` is that of the step |
| CronEditorScript.RangeFieldKeepsValid | src/Hangfire.RecurringJobAdmin/Dashboard/Pages/JobExtensionPage.cshtml.cs:1401-1421 | a well-formed range is rewritten to itself |
| CronEditorScript.NormalizeFieldKeepsValid | src/Hangfire.RecurringJobAdmin/Dashboard/Pages/JobExtensionPage.cshtml.cs:1372-1439 | a well-formed field is rewritten to itself |
| CronEditorScript.NormalizeFieldIdempotent | src/Hangfire.RecurringJobAdmin/Dashboard/Pages/JobExtensionPage.cshtml.cs:1372-1439 | rewriting a field twice is rewriting it once |
| CronEditorScript.NormalizeFieldFixedIffValid | src/Hangfire.RecurringJobAdmin/Dashboard/Pages/JobExtensionPage.cshtml.cs:1372-1439 | a field is left unchanged iff it is well formed |
| CronEditorScript.ValidFieldText | src/Hangfire.RecurringJobAdmin/Dashboard/Pages/JobExtensionPage.cshtml.cs:1372-1439 | a well-formed field is non-empty and holds only digits, `*`, `,`, `-` and `/`, so it holds no white space |
| CronEditorScript.NeverSplit | src/Hangfire.RecurringJobAdmin/Dashboard/Pages/JobExtensionPage.cshtml.cs:1359-1361 | the fallback `Cron.Never()` splits into its five fields |
| CronEditorScript.FiveFields | src/Hangfire.RecurringJobAdmin/Dashboard/Pages/JobExtensionPage.cshtml.cs:1354-1365 | the script always works on exactly five fields, and on `Cron.Never()`'s fields for a missing text |
| CronEditorScript.FiveFieldsOfJoined | src/Hangfire.RecurringJobAdmin/Dashboard/Pages/JobExtensionPage.cshtml.cs:1358-1365 | for space-separated fields, five are kept, six lose the first (seconds), and any other count gives way to `Cron.Never()` |
| CronEditorScript.ValidSplitCronValue | src/Hangfire.RecurringJobAdmin/Dashboard/Pages/JobExtensionPage.cshtml.cs:1353-1443 | the result always has five fields, and each is well formed for its unit |
| CronEditorScript.ValidSplitCronValueAt | src/Hangfire.RecurringJobAdmin/Dashboard/Pages/JobExtensionPage.cshtml.cs:1367-1371 | field i of the result is field i of the input, rewritten against unit i's range |
| CronEditorScript.ValidSplitCronValueIdempotent | src/Hangfire.RecurringJobAdmin/Dashboard/Pages/JobExtensionPage.cshtml.cs:1353-1443 | writing the result back with single spaces and running the script again gives the same five fields |
| CronEditorScript.GetValidSplitCronValue | src/Hangfire.RecurringJobAdmin/Dashboard/Pages/JobExtensionPage.cshtml.cs:1353-1443 | the script, overwriting field by field, returns exactly `ValidSplitCronValue` |
| CronEditorScript.SplitCronValue | src/Hangfire.RecurringJobAdmin/Dashboard/Pages/JobExtensionPage.cshtml.cs:1353-1365 | the split, the `Cron.Never()` fallback and the seconds slice leave exactly `FiveFields` |
| CronEditorScript.NormalizeUnits | src/Hangfire.RecurringJobAdmin/Dashboard/Pages/JobExtensionPage.cshtml.cs:1367-1440 | the unit loop rewrites each of the five fields against its own unit's range |
| CronEditorScript.ValidUnitValue | src/Hangfire.RecurringJobAdmin/Dashboard/Pages/JobExtensionPage.cshtml.cs:1368-1439 | one iteration of the unit loop writes exactly the rewritten field |
| CronEditorScript.SelectUnits | src/Hangfire.RecurringJobAdmin/Dashboard/Pages/JobExtensionPage.cshtml.cs:1373-1395 | the loop over the comma pieces pushes exactly the list's selection |
| CronEditorScript.SelectPiece | src/Hangfire.RecurringJobAdmin/Dashboard/Pages/JobExtensionPage.cshtml.cs:1376-1394 | one comma piece pushes exactly its `ListItem` selection |
| CronEditorScript.PushStride | src/Hangfire.RecurringJobAdmin/Dashboard/Pages/JobExtensionPage.cshtml.cs:1384-1388 | the innermost loop appends exactly the stride |
| Text.NatToString | src/Hangfire.RecurringJobAdmin/Dashboard/Pages/JobExtensionPage.cshtml.cs:1411 | a number's decimal text passes `hasOnlyDigits` and `parseInt` reads it back |

## Left out

- The JSON decoding of the request's `ArgumentsTypes` and `Arguments` is not modelled. The request carries already-decoded lists; a missing or blank field is an empty list.
- The request's `Id`, `Cron`, `Class` and `Method` and the entries of `ArgumentsTypes` are plain strings, not nullable. So the model cannot produce the exceptions that escape the request when they are null: a missing `Method` makes `GetMethod(null, …)` throw (through `AreValidArguments` at ChangeJobDispatcher.cs:191 and StorageAssemblySingleton.cs:74, or at ChangeJobDispatcher.cs:209-211), and a null entry of `ArgumentsTypes` makes `Type.GetType(null)` throw at ChangeJobDispatcher.cs:123.
- Writing the JSON response, the content type and the HTTP status are not modelled. `Dispatch` returns the response value; an escaping exception is `None`.
- `Console.WriteLine` of load failures is not modelled.
- .NET reflection and conversion are parameters of the model, supplied as the `Runtime` record:
  - `Type.GetType`, `Assembly.GetType` and `GetMethod`;
  - `Convert.ChangeType`, `ToObject` and `Activator.CreateInstance`;
  - `TimeZoneInfo.FindSystemTimeZoneById`, `Utility.IsValidSchedule` and `CronExpression.Parse`.
- Types are identified by full name. Assembly-qualified names, generic types and overload resolution beyond exact parameter types are not modelled.
- All JSON token kinds (`JObject`, `JArray`, `JToken`, `JValue`) are one `Token` case, since each branch makes the same `ToObject` call.
- `Assembly.Load` is a map from full name to assembly. It is assumed to return an assembly of the requested name (`LoaderConsistent`); version unification is not modelled. The termination of `LoadReferences` and the closure lemmas rest on this assumption. In the source, an assembly loaded under a different full name never matches the reference that loaded it (StorageAssemblySingleton.cs:52-56), so it is loaded again in every round that meets that reference. The list then collects duplicates, and a reference cycle through such a name makes the recursion run without end, e.g. a name `A,1` that loads an assembly `A,2` referencing `A,1`. The model does not cover that case.
- Catalog.StorageAssemblySingleton.SetCurrentAssembly: `Directory.GetFiles` is the `baseDirectoryDlls` parameter; the real file system is not modelled.
- The `storageConnection == null` path of the page is not modelled. On that path `pager` stays null (JobExtensionPage.cshtml.cs:35, 46-49), so reading `pager.FromRecord` at line 68 throws a `NullReferenceException` and the page fails.
- The `Pager` class is not modelled: `fromRecord` and `recordsPerPage` are parameters, and `GetRecurringJobs(from, to)` is the window `RunningWindow`.
- Only the id, cron, class, method, queue, time zone and state of a row are modelled. Dates, errors, arguments and last-job fields are left out.
- `JobsStoppedPage`, `ConfigurationExtensions`, the page's HTML, and the script's other functions are not modelled: they call the core but hold no logic it depends on. The script's other functions include `isNumeric` and the editor's UI handlers.
- `Cron.Never()` is taken to be Hangfire's `"0 0 31 2 *"`. The Hangfire source that defines it is not part of this model.
- RecurringJobRegistry is not part of this model: the dispatcher takes it from `Hangfire.RecurringJobAdmin.Core`, whose class is not shown. Only the sequence of its `Register` calls is recorded. The final lookup's unguarded `FirstOrDefault(...).GetType` and its `GetMethod` with a null entry in the type array are the `Faulted` outcome.
- ChangeJob.FindMethod: when `Type.GetType(job.Class)` resolves but `GetMethod(job.Method, allArgumentTypes)` returns null (ChangeJobDispatcher.cs:208-211), the source goes on to call `Register` with a null method (lines 214-220); an example is class `System.String`, method `Nope` and no arguments. The registry class is not shown, so the model assumes that call throws: the outcome is `Faulted` and no registration is recorded.
- JavaScript arrays are Dafny sequences. `parseInt` on a digit string is its exact integer value, not a double; the two differ only for numbers above 2^53, far beyond any unit's range.
- The inner loops and single steps of `SetCurrentAssembly`, `LoadReferences`, `Dispatch` and `getValidSplitCronValue` are separate methods (`AddFiles`, `CollectRound`, `FilterInjected`, `CoerceArguments`, `CrossCheck`, `SplitCronValue`, `NormalizeUnits`, `ValidUnitValue`, `SelectUnits`, `SelectPiece`, `PushStride`). Each is proved against the function that specifies it, and the order of updates is unchanged.
- Catalog.StorageAssemblySingleton.AddFiles: a throwing `LoadFile` ends the call with `completed == false` instead of raising an exception.
- Catalog.InstanceSlot.GetInstance: the static field is a field of an explicit slot object. Thread safety is not modelled; the source has none.

## Findings

| source | as written | input that shows it | evidently intended | confidence | as-written member | corrected member |
|---|---|---|---|---|---|---|
| src/Hangfire.RecurringJobAdmin/Pages/ChangeJobDispatcher.cs:191 | the cross-check passes the filtered types (injected parameters removed) to `AreValidArguments`, which looks the method up with them | saving the sample `ExecuteWithParams(string, int, PerformContext)` with values `"hello"`, `3` | look the method up with the full type list and check the values against the filtered types, so that a method with an injected parameter can be saved | not executed | SampleJobs.WithParamsRejectedAsWritten | SampleJobs.WithParamsRegisteredFixed |
| src/Hangfire.RecurringJobAdmin/Dashboard/Pages/JobExtensionPage.cshtml.cs:68 | stopped jobs are skipped by `Math.Min(0, FromRecord - recurringJobs.Count)`, which is never positive | two pages that both start past the last running job | skip the stopped jobs already shown on earlier pages, `max(0, FromRecord - total running)` | not executed | JobExtensionPage.AsWrittenPagesRepeat | JobExtensionPage.FixedPageIsWindow |
| src/Hangfire.RecurringJobAdmin/Core/StorageAssemblySingleton.cs:39 | the ignore test is `p.Contains(x)`: the full path must be a substring of an ignore entry | the directory file `/app/Microsoft.Extensions.Logging.dll` | skip files whose name starts with an ignore entry | not executed | Catalog.MicrosoftLibraryScannedAsWritten | Catalog.FixedIgnoresMicrosoft |
