/** The sample job class of the repository (`TestExecutionJob`) run through
    the save pipeline, on a runtime that resolves `System.String` and
    `System.Int32` process-wide, finds `PerformContext` in the loaded
    `Hangfire.Core` assembly, and converts any primitive value. */
module SampleJobs {
  import opened Wrappers
  import opened Revisions
  import opened Platform
  import opened Catalog
  import opened ChangeJob

  const JobClass := "Hangfire.JobExtensions.DotNetCore.Test.TestExecutionJob"

  const StringType := TypeInfo("System.String", false, false, [])
  const Int32Type := TypeInfo("System.Int32", true, false, [])
  const PerformContextType := TypeInfo("Hangfire.Server.PerformContext", false, false, [])

  const Execute := MethodInfo("Execute", ["Hangfire.Server.PerformContext"])
  const ExecuteWithParams :=
    MethodInfo("ExecuteWithParams", ["System.String", "System.Int32", "Hangfire.Server.PerformContext"])

  const TestExecutionJobType := TypeInfo(JobClass, false, false,
    [MethodInfo("TestConsole", []), MethodInfo("CheckFileExists", []), Execute, ExecuteWithParams])

  const SampleAssembly := Assembly("Hangfire.Sample", "/app/Hangfire.Sample.dll", [TestExecutionJobType], ["Hangfire.Core"])
  const HangfireCore := Assembly("Hangfire.Core", "/app/Hangfire.Core.dll", [PerformContextType], [])
  const Loaded := [SampleAssembly, HangfireCore]

  const SampleRuntime := Runtime(
    isValidSchedule := (s: string) => true,
    findSystemTimeZoneById := (id: string) => Ok(TimeZone(id)),
    getType := (n: string) =>
      if n == "System.String" then Some(StringType)
      else if n == "System.Int32" then Some(Int32Type)
      else None,
    toObject := (v: Value, t: TypeInfo) => None,
    changeType := (v: Value, t: TypeInfo) => if v.Boxed? then Some(Boxed(t.fullName, v.text)) else None,
    createInstance := (t: TypeInfo) => Boxed(t.fullName, "0"))

  /** The job class is found in the sample assembly. */
  lemma JobClassResolves()
    ensures ResolveType(SampleRuntime, Loaded, JobClass) == Some(TestExecutionJobType)
    ensures IsValidType(SampleRuntime, Loaded, JobClass)
  {
    assert SampleRuntime.getType(JobClass).None?;
    assert AssemblyGetType(SampleAssembly, JobClass) == Some(TestExecutionJobType);
    assert FirstDefining(Loaded, JobClass) == 0;
  }

  /** `PerformContext` is found in the loaded Hangfire assembly. */
  lemma ContextResolves()
    ensures ResolveType(SampleRuntime, Loaded, "Hangfire.Server.PerformContext") == Some(PerformContextType)
  {
    var name := "Hangfire.Server.PerformContext";
    assert SampleRuntime.getType(name).None?;
    assert AssemblyGetType(SampleAssembly, name).None?;
    assert AssemblyGetType(HangfireCore, name) == Some(PerformContextType);
    assert FirstDefining(Loaded, name) == 1;
  }

  lemma ExecuteFound()
    ensures FindMethod(SampleRuntime, Loaded, JobClass, "Execute", [Some(PerformContextType)])
            == Some(JobMethod(TestExecutionJobType, Execute))
  {
    assert Values([Some(PerformContextType)]) == [PerformContextType];
    assert TypeNames([PerformContextType]) == Execute.parameterTypes;
    assert SampleRuntime.getType(JobClass).None?;
    assert AssemblyGetType(SampleAssembly, JobClass) == Some(TestExecutionJobType);
    assert FirstDeclaring(Loaded, JobClass, "Execute", [PerformContextType]) == 0;
  }

  lemma ContextFiltered()
    ensures FilteredTypes(["Hangfire.Server.PerformContext"]) == []
    ensures FilteredArgs(["Hangfire.Server.PerformContext"], [Null]) == []
  {
    assert IsInjected("Hangfire.Server.PerformContext");
  }

  /** The request of `Execute(PerformContext)`: a null for the context. */
  const ExecuteRequest := SaveRequest("DifyCleanTasks", "0 0 * * *", JobClass, "Execute",
    ["Hangfire.Server.PerformContext"], [Null], Some("default"), Some("Asia/Shanghai"))

  /** Every stage of the save passes for `ExecuteRequest`. */
  lemma ExecuteRequestStages()
    ensures SampleRuntime.isValidSchedule(ExecuteRequest.cron)
    ensures TimeZoneOf(SampleRuntime, ExecuteRequest.timeZoneId) == Ok(TimeZone("Asia/Shanghai"))
    ensures IsValidType(SampleRuntime, Loaded, ExecuteRequest.cls)
    ensures CoerceAll(SampleRuntime, FilteredArgs(ExecuteRequest.argumentsTypes, ExecuteRequest.arguments),
                      ResolveAll(SampleRuntime, Loaded, FilteredTypes(ExecuteRequest.argumentsTypes))) == Some([])
    ensures FindMethod(SampleRuntime, Loaded, JobClass, "Execute", ResolveAll(SampleRuntime, Loaded, ExecuteRequest.argumentsTypes))
            == Some(JobMethod(TestExecutionJobType, Execute))
  {
    JobClassResolves();
    ContextFiltered();
    assert ResolveAll(SampleRuntime, Loaded, ExecuteRequest.argumentsTypes) == [Some(PerformContextType)] by { ContextResolves(); }
    ExecuteFound();
  }

  /** Saving the `DifyCleanTasks` job of `Execute(PerformContext)`: the
      stored null for the context is filtered away, no argument is left,
      and the method is found with the full one-parameter list. */
  lemma ExecuteWithContextRegisters(rev: Revision)
    ensures SaveOutcome(rev, SampleRuntime, Loaded, ExecuteRequest)
      == Registered(Registration("DifyCleanTasks", JobMethod(TestExecutionJobType, Execute), [], "0 0 * * *",
                                 TimeZone("Asia/Shanghai"), "default"))
  {
    ExecuteRequestStages();
    StagesPassRegisters(rev, SampleRuntime, Loaded, ExecuteRequest, TimeZone("Asia/Shanghai"), [],
                        JobMethod(TestExecutionJobType, Execute));
  }

  /** The request of `ExecuteWithParams(string, int, PerformContext)` with
      the user's two values and a null for the context. */
  const WithParamsRequest := SaveRequest("WithParams", "0 0 * * *", JobClass, "ExecuteWithParams",
    ["System.String", "System.Int32", "Hangfire.Server.PerformContext"],
    [Boxed("System.String", "hello"), Boxed("System.Int64", "3"), Null], None, None)

  lemma WithParamsFiltered()
    ensures FilteredTypes(WithParamsRequest.argumentsTypes) == ["System.String", "System.Int32"]
    ensures FilteredArgs(WithParamsRequest.argumentsTypes, WithParamsRequest.arguments)
            == [Boxed("System.String", "hello"), Boxed("System.Int64", "3")]
  {
    var types := WithParamsRequest.argumentsTypes;
    assert types[..2] == ["System.String", "System.Int32"];
    assert types[..2][..1] == ["System.String"];
    assert !IsInjected("System.String") && !IsInjected("System.Int32");
  }

  lemma WithParamsCoerced()
    ensures CoerceAll(SampleRuntime, [Boxed("System.String", "hello"), Boxed("System.Int64", "3")],
                      [Some(StringType), Some(Int32Type)])
            == Some([Boxed("System.String", "hello"), Boxed("System.Int32", "3")])
  {
    var rt := SampleRuntime;
    var hello := Boxed("System.String", "hello");
    var three := Boxed("System.Int64", "3");
    var r := CoerceAll(rt, [hello, three], [Some(StringType), Some(Int32Type)]);
    assert Coerce(rt, hello, Some(StringType)) == Some(hello);
    assert Coerce(rt, three, Some(Int32Type)) == Some(Boxed("System.Int32", "3"));
    assert r.Some? && |r.value| == 2;
    assert r.value[0] == hello && r.value[1] == Boxed("System.Int32", "3");
    assert r.value == [hello, Boxed("System.Int32", "3")];
  }

  /** For `ExecuteWithParams(string, int, PerformContext)`, the context is
      filtered away and the two user values are coerced to `string` and
      `int`. */
  lemma WithParamsCommon()
    ensures FilteredTypes(WithParamsRequest.argumentsTypes) == ["System.String", "System.Int32"]
    ensures FilteredArgs(WithParamsRequest.argumentsTypes, WithParamsRequest.arguments)
            == [Boxed("System.String", "hello"), Boxed("System.Int64", "3")]
    ensures ResolveAll(SampleRuntime, Loaded, FilteredTypes(WithParamsRequest.argumentsTypes))
            == [Some(StringType), Some(Int32Type)]
    ensures CoerceAll(SampleRuntime, FilteredArgs(WithParamsRequest.argumentsTypes, WithParamsRequest.arguments),
                      [Some(StringType), Some(Int32Type)])
            == Some([Boxed("System.String", "hello"), Boxed("System.Int32", "3")])
  {
    WithParamsFiltered();
    WithParamsCoerced();
  }

  /** The class has no `ExecuteWithParams(string, int)` overload. */
  lemma NoFilteredOverload()
    ensures !IsValidMethod(SampleRuntime, Loaded, JobClass, "ExecuteWithParams", [StringType, Int32Type])
  {
    JobClassResolves();
    assert TypeNames([StringType, Int32Type]) == ["System.String", "System.Int32"];
    assert MethodInfo("ExecuteWithParams", ["System.String", "System.Int32"]) !in TestExecutionJobType.methods;
  }

  /** The cross-check as written looks the method up with the filtered
      types `(string, int)`, finds no such overload, and rejects a job the
      class can run. */
  lemma WithParamsRejectedAsWritten()
    ensures SaveOutcome(AsWritten, SampleRuntime, Loaded, WithParamsRequest) == Rejected(MethodNotFoundMessage)
  {
    WithParamsCommon();
    JobClassResolves();
    AsWrittenCrossCheckFails();
    CrossCheckRejects(AsWritten, SampleRuntime, Loaded, WithParamsRequest,
                      [Boxed("System.String", "hello"), Boxed("System.Int32", "3")]);
  }

  lemma AsWrittenCrossCheckFails()
    ensures CrossCheckFails(AsWritten, SampleRuntime, Loaded, JobClass, "ExecuteWithParams",
                            [Some(StringType), Some(Int32Type)],
                            ResolveAll(SampleRuntime, Loaded, WithParamsRequest.argumentsTypes),
                            [Boxed("System.String", "hello"), Boxed("System.Int32", "3")])
  {
    NoFilteredOverload();
    assert Values([Some(StringType), Some(Int32Type)]) == [StringType, Int32Type];
  }

  /** Fixed, the same request registers the three-parameter method with
      the two converted values. */
  lemma WithParamsRegisteredFixed()
    ensures SaveOutcome(Fixed, SampleRuntime, Loaded, WithParamsRequest)
            == Registered(Registration("WithParams", JobMethod(TestExecutionJobType, ExecuteWithParams),
                                       [Boxed("System.String", "hello"), Boxed("System.Int32", "3")],
                                       "0 0 * * *", Utc, "default"))
  {
    var all := [Some(StringType), Some(Int32Type), Some(PerformContextType)];
    WithParamsCommon();
    WithParamsFullTypes();
    JobClassResolves();
    WithParamsFound(all);
    FixedCrossCheckPasses();
    StagesPassRegisters(Fixed, SampleRuntime, Loaded, WithParamsRequest, Utc,
                        [Boxed("System.String", "hello"), Boxed("System.Int32", "3")],
                        JobMethod(TestExecutionJobType, ExecuteWithParams));
  }

  lemma FixedCrossCheckPasses()
    ensures !CrossCheckFails(Fixed, SampleRuntime, Loaded, JobClass, "ExecuteWithParams",
                             [Some(StringType), Some(Int32Type)],
                             [Some(StringType), Some(Int32Type), Some(PerformContextType)],
                             [Boxed("System.String", "hello"), Boxed("System.Int32", "3")])
  {
    WithParamsFound([Some(StringType), Some(Int32Type), Some(PerformContextType)]);
    assert Values([Some(StringType), Some(Int32Type)]) == [StringType, Int32Type];
    assert Convertible(SampleRuntime, [Boxed("System.String", "hello"), Boxed("System.Int32", "3")],
                       [StringType, Int32Type]);
  }

  lemma WithParamsFullTypes()
    ensures ResolveAll(SampleRuntime, Loaded, WithParamsRequest.argumentsTypes)
            == [Some(StringType), Some(Int32Type), Some(PerformContextType)]
  {
    ContextResolves();
  }

  lemma WithParamsFound(all: seq<Option<TypeInfo>>)
    requires all == [Some(StringType), Some(Int32Type), Some(PerformContextType)]
    ensures IsValidMethod(SampleRuntime, Loaded, JobClass, "ExecuteWithParams", Values(all))
    ensures FindMethod(SampleRuntime, Loaded, JobClass, "ExecuteWithParams", all)
            == Some(JobMethod(TestExecutionJobType, ExecuteWithParams))
  {
    assert Values(all) == [StringType, Int32Type, PerformContextType];
    JobClassResolves();
    assert TypeNames([StringType, Int32Type, PerformContextType]) == ExecuteWithParams.parameterTypes;
    assert FirstDeclaring(Loaded, JobClass, "ExecuteWithParams", [StringType, Int32Type, PerformContextType]) == 0;
  }
}
