/** The save endpoint of the job editor (`Pages/ChangeJobDispatcher.cs`):
    it turns the untyped fields of a dashboard request into a recurring-job
    registration, or into a rejection carrying a message. The stages run
    in a fixed order and the first failing one ends the request:
    the cron text, the time zone, the class, the removal of the parameters
    the job server injects, the coercion of the remaining values, an
    optional cross-check of method and arguments, the method lookup with
    the full parameter list, and finally a single `Register` call. */
module ChangeJob {
  import opened Wrappers
  import opened Revisions
  import opened Text
  import opened Platform
  import opened Catalog

  /** Parameter types the job server supplies itself, so the dashboard
      user provides no value for them. */
  const HangfireInjectedTypes: set<string> :=
    {"Hangfire.Server.PerformContext", "Hangfire.IJobCancellationToken", "System.Threading.CancellationToken"}

  /** Hangfire's `EnqueuedState.DefaultQueue`. */
  const DefaultQueue := "default"

  const InvalidCronMessage := "Invalid CRON"
  const ClassNotFoundMessage := "The Class not found"
  const ArgumentsTypeMessage := "Arguments are not of specified type"
  const MethodNotFoundMessage := "Method not found or the Arguments are not valid"

  /** The query fields of a save request, JSON lists already decoded. An
      absent query field is `None`. */
  datatype SaveRequest = SaveRequest(
    id: string,
    cron: string,
    cls: string,
    methodName: string,
    argumentsTypes: seq<string>,
    arguments: seq<Value>,
    queue: Option<string>,
    timeZoneId: Option<string>)

  /** A method found by reflection, with the type that declares it. */
  datatype JobMethod = JobMethod(declaringType: TypeInfo, info: MethodInfo)

  /** The arguments of one `RecurringJobRegistry.Register` call. */
  datatype Registration = Registration(
    id: string,
    job: JobMethod,
    args: seq<Value>,
    cron: string,
    timeZone: TimeZone,
    queue: string)

  /** How a request ends: a JSON response with `Status = false` and a
      message, an exception that escapes `Dispatch`, or a registration
      followed by `Status = true`. */
  datatype Outcome = Rejected(message: string) | Faulted | Registered(registration: Registration)

  /** The JSON body written back; `message` is absent on success. */
  datatype Response = Response(status: bool, message: Option<string>)

  /** The response of an outcome; `None` when an exception escapes and no
      response is written. */
  function ResponseOf(o: Outcome): (r: Option<Response>)
    ensures r.None? <==> o.Faulted?
    ensures r.Some? ==> (r.value.status <==> o.Registered?)
    ensures o.Rejected? ==> r == Some(Response(false, Some(o.message)))
  {
    match o
    case Rejected(m) => Some(Response(false, Some(m)))
    case Faulted => None
    case Registered(_) => Some(Response(true, None))
  }

  /** The registrations an outcome adds to the registry. */
  function RegisteredBy(o: Outcome): (rs: seq<Registration>)
    ensures |rs| <= 1
    ensures |rs| == 1 <==> o.Registered?
    ensures o.Registered? ==> rs[0] == o.registration
  {
    if o.Registered? then [o.registration] else []
  }

  /* ---------------------------------------------------------------------
     Time zone.
     --------------------------------------------------------------------- */

  /** The zone of the request: UTC unless a non-empty id is given, in which
      case the lookup decides, and its failure carries the exception's
      message. */
  function TimeZoneOf(rt: Runtime, timeZoneId: Option<string>): (r: Result<TimeZone, string>)
    ensures (timeZoneId.None? || timeZoneId == Some("")) ==> r == Ok(Utc)
    ensures timeZoneId.Some? && timeZoneId.value != "" ==> r == rt.findSystemTimeZoneById(timeZoneId.value)
  {
    if timeZoneId.Some? && timeZoneId.value != "" then rt.findSystemTimeZoneById(timeZoneId.value)
    else Ok(Utc)
  }

  /* ---------------------------------------------------------------------
     Removing the injected parameters.
     --------------------------------------------------------------------- */

  predicate IsInjected(typeName: string)
  {
    typeName in HangfireInjectedTypes
  }

  /** The type list without the injected types, in order (the loop over
      `argumentsTypesList` at each step). */
  function FilteredTypes(types: seq<string>): (r: seq<string>)
    ensures |r| <= |types|
    ensures forall t :: t in r <==> t in types && !IsInjected(t)
  {
    if |types| == 0 then []
    else
      var t := types[|types| - 1];
      FilteredTypes(types[..|types| - 1]) + (if IsInjected(t) then [] else [t])
  }

  /** The values kept by the same loop: value `i` is kept when type `i` is
      not injected and there is a value `i`. Nothing is padded in. */
  function FilteredArgs(types: seq<string>, args: seq<Value>): (r: seq<Value>)
    ensures |r| <= |types| && |r| <= |args|
  {
    if |types| == 0 then []
    else
      var i := |types| - 1;
      FilteredArgs(types[..i], args) + (if !IsInjected(types[i]) && i < |args| then [args[i]] else [])
  }

  /** The positions whose type is not injected, in increasing order: an
      independent description of what the filter keeps. */
  function KeptPositions(types: seq<string>): (ks: seq<nat>)
    ensures forall j :: 0 <= j < |ks| ==> ks[j] < |types| && !IsInjected(types[ks[j]])
  {
    if |types| == 0 then []
    else
      var i := |types| - 1;
      KeptPositions(types[..i]) + (if IsInjected(types[i]) then [] else [i])
  }

  /** The kept positions are increasing and miss no position whose type is
      not injected. */
  lemma {:induction false} KeptPositionsExact(types: seq<string>)
    ensures var ks := KeptPositions(types);
      && (forall j, l :: 0 <= j < l < |ks| ==> ks[j] < ks[l])
      && (forall i :: 0 <= i < |types| && !IsInjected(types[i]) ==> i in ks)
  {
    if |types| > 0 {
      var i := |types| - 1;
      KeptPositionsExact(types[..i]);
      var ks0 := KeptPositions(types[..i]);
      var ks := KeptPositions(types);
      forall k | 0 <= k < |types| && !IsInjected(types[k])
        ensures k in ks
      {
        if k < i {
          assert types[..i][k] == types[k];
          assert k in ks0;
        } else {
          assert ks[|ks| - 1] == k;
        }
      }
    }
  }

  /** The filtered types are the types at the kept positions. */
  lemma {:induction false} FilteredTypesAtKept(types: seq<string>)
    ensures var ks := KeptPositions(types);
      var ft := FilteredTypes(types);
      |ft| == |ks| && forall j :: 0 <= j < |ft| ==> ft[j] == types[ks[j]]
  {
    if |types| > 0 {
      FilteredTypesAtKept(types[..|types| - 1]);
    }
  }

  /** The filtered values are the values at the leading kept positions
      that have a value: filtered value `j` always belongs with filtered
      type `j`, and only kept positions past the end of the values are
      dropped. */
  lemma {:induction false} FilteredArgsAtKept(types: seq<string>, args: seq<Value>)
    ensures var ks := KeptPositions(types);
      var fa := FilteredArgs(types, args);
      && |fa| <= |ks|
      && (forall j :: 0 <= j < |fa| ==> ks[j] < |args| && fa[j] == args[ks[j]])
      && (forall j :: |fa| <= j < |ks| ==> ks[j] >= |args|)
  {
    if |types| > 0 {
      var i := |types| - 1;
      FilteredArgsAtKept(types[..i], args);
      var ks0 := KeptPositions(types[..i]);
      var fa0 := FilteredArgs(types[..i], args);
      var ks := KeptPositions(types);
      var fa := FilteredArgs(types, args);
      if IsInjected(types[i]) {
        assert ks == ks0 && fa == fa0;
      } else if i < |args| {
        assert ks == ks0 + [i] && fa == fa0 + [args[i]];
        FilteredArgsComplete(types[..i], args);
      } else {
        assert ks == ks0 + [i] && fa == fa0;
        forall j | |fa| <= j < |ks|
          ensures ks[j] >= |args|
        {
          if j < |ks0| {
            assert ks[j] == ks0[j];
          }
        }
      }
    }
  }

  lemma FilterAligned(types: seq<string>, args: seq<Value>)
    ensures var ks := KeptPositions(types);
      var ft := FilteredTypes(types);
      var fa := FilteredArgs(types, args);
      && |ft| == |ks|
      && (forall j :: 0 <= j < |ft| ==> ft[j] == types[ks[j]])
      && |fa| <= |ks|
      && (forall j :: 0 <= j < |fa| ==> ks[j] < |args| && fa[j] == args[ks[j]])
      && (forall j :: |fa| <= j < |ks| ==> ks[j] >= |args|)
  {
    FilteredTypesAtKept(types);
    FilteredArgsAtKept(types, args);
  }

  /** With a value for every type, every kept position keeps its value. */
  lemma {:induction false} FilteredArgsComplete(types: seq<string>, args: seq<Value>)
    requires |types| <= |args|
    ensures |FilteredArgs(types, args)| == |KeptPositions(types)|
  {
    if |types| > 0 {
      FilteredArgsComplete(types[..|types| - 1], args);
    }
  }

  /** With a value for every type, the filtered lists have equal length. */
  lemma FilterFullArguments(types: seq<string>, args: seq<Value>)
    requires |types| <= |args|
    ensures |FilteredArgs(types, args)| == |FilteredTypes(types)|
  {
    FilteredArgsComplete(types, args);
    FilteredTypesAtKept(types);
  }

  lemma FilteredTypesSnoc(types: seq<string>, t: string)
    ensures FilteredTypes(types + [t]) == FilteredTypes(types) + (if IsInjected(t) then [] else [t])
  {
    assert (types + [t])[..|types|] == types;
  }

  /** Filtering a concatenation filters each part. */
  lemma {:induction false} FilteredTypesAppend(xs: seq<string>, ys: seq<string>)
    ensures FilteredTypes(xs + ys) == FilteredTypes(xs) + FilteredTypes(ys)
  {
    if |ys| > 0 {
      var init := ys[..|ys| - 1];
      var t := ys[|ys| - 1];
      assert ys == init + [t];
      assert xs + ys == (xs + init) + [t];
      var tail := if IsInjected(t) then [] else [t];
      FilteredTypesSnoc(xs + init, t);
      FilteredTypesSnoc(init, t);
      FilteredTypesAppend(xs, init);
      ConcatAssoc(FilteredTypes(xs), FilteredTypes(init), tail);
    } else {
      assert xs + ys == xs;
    }
  }

  /* ---------------------------------------------------------------------
     Coercing the values.
     --------------------------------------------------------------------- */

  /** `Type.GetType(name) ?? currentAssembly.FirstOrDefault(...)?.GetType(name)`
      for each name; `None` stands for a null type. */
  function ResolveAll(rt: Runtime, assemblies: seq<Assembly>, names: seq<string>): (r: seq<Option<TypeInfo>>)
    ensures |r| == |names|
    ensures forall i :: 0 <= i < |names| ==> (r[i].Some? <==> IsValidType(rt, assemblies, names[i]))
    ensures forall i :: 0 <= i < |names| ==> r[i] == ResolveType(rt, assemblies, names[i])
  {
    seq(|names|, i requires 0 <= i < |names| => ResolveType(rt, assemblies, names[i]))
  }

  /** The types of a list that holds no null. */
  function Values(ts: seq<Option<TypeInfo>>): (r: seq<TypeInfo>)
    requires None !in ts
    ensures |r| == |ts|
    ensures forall i :: 0 <= i < |ts| ==> ts[i] == Some(r[i])
  {
    assert forall i :: 0 <= i < |ts| ==> ts[i] != None;
    seq(|ts|, i requires 0 <= i < |ts| && None !in ts => ts[i].value)
  }

  /** One step of the coercion loop. A JSON token is first converted to
      the type; a non-null value then goes through `Convert.ChangeType`; a
      null stays null for a reference or `Nullable<T>` type and becomes the
      type's default otherwise. A null type makes every branch throw. */
  function Coerce(rt: Runtime, v: Value, t: Option<TypeInfo>): (r: Option<Value>)
    ensures t.None? ==> r.None?
    ensures t.Some? && v.Null? ==> r.Some?
    ensures t.Some? && v.Null? && (!t.value.isValueType || t.value.isNullable) ==> r == Some(Null)
    ensures t.Some? && v.Null? && t.value.isValueType && !t.value.isNullable ==> r == Some(rt.createInstance(t.value))
    ensures t.Some? && v.Boxed? ==> r == rt.changeType(v, t.value)
    ensures t.Some? && v.Token? && rt.toObject(v, t.value).None? ==> r.None?
    ensures t.Some? && v.Token? && rt.toObject(v, t.value).Some? && !rt.toObject(v, t.value).value.Null? ==>
      r == rt.changeType(rt.toObject(v, t.value).value, t.value)
  {
    match t
    case None => None
    case Some(ty) =>
      var v1 := if v.Token? then rt.toObject(v, ty) else Some(v);
      if v1.None? then None
      else if !v1.value.Null? then rt.changeType(v1.value, ty)
      else if !ty.isValueType || ty.isNullable then Some(Null)
      else Some(rt.createInstance(ty))
  }

  /** The whole coercion loop: the values below `min(|args|, |types|)` are
      coerced, the others are left as they are, and any failure aborts. */
  function CoerceAll(rt: Runtime, args: seq<Value>, types: seq<Option<TypeInfo>>): (r: Option<seq<Value>>)
    ensures r.Some? <==> forall i :: 0 <= i < |args| && i < |types| ==> Coerce(rt, args[i], types[i]).Some?
    ensures r.Some? ==> |r.value| == |args|
    ensures r.Some? ==> forall i :: 0 <= i < |args| && i < |types| ==> Some(r.value[i]) == Coerce(rt, args[i], types[i])
    ensures r.Some? ==> forall i :: |types| <= i < |args| ==> r.value[i] == args[i]
  {
    if |args| == 0 || |types| == 0 then Some(args)
    else
      match Coerce(rt, args[0], types[0])
      case None => None
      case Some(v) =>
        match CoerceAll(rt, args[1..], types[1..])
        case None =>
          assert exists i :: 0 <= i < |args| - 1 && i < |types| - 1 && Coerce(rt, args[1..][i], types[1..][i]).None?;
          None
        case Some(rest) => Some([v] + rest)
  }

  /* ---------------------------------------------------------------------
     The cross-check and the method lookup.
     --------------------------------------------------------------------- */

  /** The check before registration. It runs only when there are
      arguments, and fails on a null filtered type. As written it then
      asks `AreValidArguments` about the method with the FILTERED types,
      which cannot find a method that takes an injected parameter; fixed,
      the method is looked up with the full list and the arguments are
      checked against the filtered types. */
  predicate CrossCheckFails(rev: Revision, rt: Runtime, assemblies: seq<Assembly>, cls: string, methodName: string,
                            argumentTypes: seq<Option<TypeInfo>>, allArgumentTypes: seq<Option<TypeInfo>>,
                            finalArguments: seq<Value>)
    ensures |finalArguments| == 0 ==>
      !CrossCheckFails(rev, rt, assemblies, cls, methodName, argumentTypes, allArgumentTypes, finalArguments)
    ensures |finalArguments| > 0 && None in argumentTypes ==>
      CrossCheckFails(rev, rt, assemblies, cls, methodName, argumentTypes, allArgumentTypes, finalArguments)
    ensures rev == AsWritten && |finalArguments| > 0 && !CrossCheckFails(rev, rt, assemblies, cls, methodName, argumentTypes, allArgumentTypes, finalArguments) ==>
      IsValidMethod(rt, assemblies, cls, methodName, Values(argumentTypes)) && |finalArguments| == |argumentTypes|
    ensures rev == Fixed && |finalArguments| > 0 && !CrossCheckFails(rev, rt, assemblies, cls, methodName, argumentTypes, allArgumentTypes, finalArguments) ==>
      None !in allArgumentTypes && IsValidMethod(rt, assemblies, cls, methodName, Values(allArgumentTypes))
      && |finalArguments| == |argumentTypes|
  {
    && |finalArguments| > 0
    && (|| None in argumentTypes
        || match rev
           case AsWritten => !ValidArguments(rt, assemblies, cls, methodName, finalArguments, Values(argumentTypes))
           case Fixed =>
             || None in allArgumentTypes
             || !IsValidMethod(rt, assemblies, cls, methodName, Values(allArgumentTypes))
             || !Convertible(rt, finalArguments, Values(argumentTypes)))
  }

  /** Index of the first assembly whose type `cls` declares the method, or
      `|assemblies|` if there is none. */
  function FirstDeclaring(assemblies: seq<Assembly>, cls: string, methodName: string, argTypes: seq<TypeInfo>): (k: nat)
    ensures k <= |assemblies|
    ensures forall j :: 0 <= j < k ==>
      AssemblyGetType(assemblies[j], cls).None? || GetMethod(AssemblyGetType(assemblies[j], cls).value, methodName, argTypes).None?
    ensures k < |assemblies| ==>
      AssemblyGetType(assemblies[k], cls).Some? && GetMethod(AssemblyGetType(assemblies[k], cls).value, methodName, argTypes).Some?
  {
    if |assemblies| == 0 then 0
    else
      var t := AssemblyGetType(assemblies[0], cls);
      if t.Some? && GetMethod(t.value, methodName, argTypes).Some? then 0
      else 1 + FirstDeclaring(assemblies[1..], cls, methodName, argTypes)
  }

  /** The final lookup with the full type list: the process-wide type if
      it resolves, otherwise the first assembly whose type declares the
      method. `None` where the source throws: a null in the type list
      (`GetMethod` rejects it), no assembly declaring the method (a call on
      the null of `FirstOrDefault`), or no such method on the process-wide
      type (a null method handed to `Register`). */
  function FindMethod(rt: Runtime, assemblies: seq<Assembly>, cls: string, methodName: string,
                      allArgumentTypes: seq<Option<TypeInfo>>): (r: Option<JobMethod>)
    ensures r.Some? ==> None !in allArgumentTypes
    ensures r.Some? ==> r.value.info == MethodInfo(methodName, TypeNames(Values(allArgumentTypes)))
    ensures r.Some? ==> r.value.info in r.value.declaringType.methods
    ensures r.Some? && rt.getType(cls).Some? ==> r.value.declaringType == rt.getType(cls).value
    ensures rt.getType(cls).None? ==>
      (r.Some? <==>
        (None !in allArgumentTypes &&
         exists a :: a in assemblies && AssemblyGetType(a, cls).Some? &&
           GetMethod(AssemblyGetType(a, cls).value, methodName, Values(allArgumentTypes)).Some?))
    ensures rt.getType(cls).Some? ==>
      (r.Some? <==>
        None !in allArgumentTypes && GetMethod(rt.getType(cls).value, methodName, Values(allArgumentTypes)).Some?)
    ensures rt.getType(cls).None? && r.Some? ==>
      var k := FirstDeclaring(assemblies, cls, methodName, Values(allArgumentTypes));
      k < |assemblies| && r.value.declaringType == AssemblyGetType(assemblies[k], cls).value
  {
    if None in allArgumentTypes then None
    else
      var argTypes := Values(allArgumentTypes);
      match rt.getType(cls)
      case Some(t) =>
        (match GetMethod(t, methodName, argTypes)
         case Some(m) => Some(JobMethod(t, m))
         case None => None)
      case None =>
        var k := FirstDeclaring(assemblies, cls, methodName, argTypes);
        if k < |assemblies| then
          var t := AssemblyGetType(assemblies[k], cls).value;
          Some(JobMethod(t, GetMethod(t, methodName, argTypes).value))
        else None
  }

  /* ---------------------------------------------------------------------
     The pipeline.
     --------------------------------------------------------------------- */

  /** What one save request leads to, given the catalogue's assemblies. */
  function SaveOutcome(rev: Revision, rt: Runtime, assemblies: seq<Assembly>, req: SaveRequest): (o: Outcome)
    ensures !rt.isValidSchedule(req.cron) ==> o == Rejected(InvalidCronMessage)
    ensures rt.isValidSchedule(req.cron) && TimeZoneOf(rt, req.timeZoneId).Err? ==>
      o == Rejected(TimeZoneOf(rt, req.timeZoneId).error)
    ensures rt.isValidSchedule(req.cron) && TimeZoneOf(rt, req.timeZoneId).Ok? && !IsValidType(rt, assemblies, req.cls) ==>
      o == Rejected(ClassNotFoundMessage)
    ensures o.Registered? ==>
      && rt.isValidSchedule(req.cron)
      && TimeZoneOf(rt, req.timeZoneId) == Ok(o.registration.timeZone)
      && IsValidType(rt, assemblies, req.cls)
      && o.registration.id == req.id
      && o.registration.cron == req.cron
      && o.registration.queue == req.queue.GetOr(DefaultQueue)
      && |o.registration.job.info.parameterTypes| == |req.argumentsTypes|
      && CoerceAll(rt, FilteredArgs(req.argumentsTypes, req.arguments),
                   ResolveAll(rt, assemblies, FilteredTypes(req.argumentsTypes))) == Some(o.registration.args)
      && !CrossCheckFails(rev, rt, assemblies, req.cls, req.methodName,
                          ResolveAll(rt, assemblies, FilteredTypes(req.argumentsTypes)),
                          ResolveAll(rt, assemblies, req.argumentsTypes), o.registration.args)
      && FindMethod(rt, assemblies, req.cls, req.methodName, ResolveAll(rt, assemblies, req.argumentsTypes))
         == Some(o.registration.job)
  {
    if !rt.isValidSchedule(req.cron) then Rejected(InvalidCronMessage)
    else
      match TimeZoneOf(rt, req.timeZoneId)
      case Err(m) => Rejected(m)
      case Ok(timeZone) =>
        if !IsValidType(rt, assemblies, req.cls) then Rejected(ClassNotFoundMessage)
        else
          var argumentTypes := ResolveAll(rt, assemblies, FilteredTypes(req.argumentsTypes));
          match CoerceAll(rt, FilteredArgs(req.argumentsTypes, req.arguments), argumentTypes)
          case None => Rejected(ArgumentsTypeMessage)
          case Some(finalArguments) =>
            var allArgumentTypes := ResolveAll(rt, assemblies, req.argumentsTypes);
            if CrossCheckFails(rev, rt, assemblies, req.cls, req.methodName, argumentTypes, allArgumentTypes, finalArguments)
            then Rejected(MethodNotFoundMessage)
            else
              match FindMethod(rt, assemblies, req.cls, req.methodName, allArgumentTypes)
              case None => Faulted
              case Some(m) =>
                Registered(Registration(req.id, m, finalArguments, req.cron, timeZone, req.queue.GetOr(DefaultQueue)))
  }

  /** Conversely, a request whose every stage passes is registered with
      the coerced values, the zone found and the method found. */
  lemma StagesPassRegisters(rev: Revision, rt: Runtime, assemblies: seq<Assembly>, req: SaveRequest,
                            timeZone: TimeZone, finalArguments: seq<Value>, m: JobMethod)
    requires rt.isValidSchedule(req.cron)
    requires TimeZoneOf(rt, req.timeZoneId) == Ok(timeZone)
    requires IsValidType(rt, assemblies, req.cls)
    requires CoerceAll(rt, FilteredArgs(req.argumentsTypes, req.arguments),
                       ResolveAll(rt, assemblies, FilteredTypes(req.argumentsTypes))) == Some(finalArguments)
    requires !CrossCheckFails(rev, rt, assemblies, req.cls, req.methodName,
                              ResolveAll(rt, assemblies, FilteredTypes(req.argumentsTypes)),
                              ResolveAll(rt, assemblies, req.argumentsTypes), finalArguments)
    requires FindMethod(rt, assemblies, req.cls, req.methodName, ResolveAll(rt, assemblies, req.argumentsTypes)) == Some(m)
    ensures SaveOutcome(rev, rt, assemblies, req)
            == Registered(Registration(req.id, m, finalArguments, req.cron, timeZone, req.queue.GetOr(DefaultQueue)))
  {
  }

  /** A request that passes every check but whose method the final lookup
      does not find ends in an exception that escapes the request. */
  lemma MissingMethodFaults(rev: Revision, rt: Runtime, assemblies: seq<Assembly>, req: SaveRequest,
                            finalArguments: seq<Value>)
    requires rt.isValidSchedule(req.cron) && TimeZoneOf(rt, req.timeZoneId).Ok? && IsValidType(rt, assemblies, req.cls)
    requires CoerceAll(rt, FilteredArgs(req.argumentsTypes, req.arguments),
                       ResolveAll(rt, assemblies, FilteredTypes(req.argumentsTypes))) == Some(finalArguments)
    requires !CrossCheckFails(rev, rt, assemblies, req.cls, req.methodName,
                              ResolveAll(rt, assemblies, FilteredTypes(req.argumentsTypes)),
                              ResolveAll(rt, assemblies, req.argumentsTypes), finalArguments)
    requires FindMethod(rt, assemblies, req.cls, req.methodName, ResolveAll(rt, assemblies, req.argumentsTypes)).None?
    ensures SaveOutcome(rev, rt, assemblies, req) == Faulted
  {
  }

  /** Corrected, a passing cross-check over at least one value has already
      found the method the final lookup looks for. */
  lemma FixedCrossCheckFindsMethod(rt: Runtime, assemblies: seq<Assembly>, cls: string, methodName: string,
                                   argumentTypes: seq<Option<TypeInfo>>, allArgumentTypes: seq<Option<TypeInfo>>,
                                   finalArguments: seq<Value>)
    requires |finalArguments| > 0
    requires !CrossCheckFails(Fixed, rt, assemblies, cls, methodName, argumentTypes, allArgumentTypes, finalArguments)
    ensures FindMethod(rt, assemblies, cls, methodName, allArgumentTypes).Some?
  {
  }

  /** Corrected, a request that keeps at least one value never ends in an
      escaping exception: the cross-check either rejects it or has found
      the method. */
  lemma FixedWithArgumentsNeverFaults(rt: Runtime, assemblies: seq<Assembly>, req: SaveRequest)
    ensures SaveOutcome(Fixed, rt, assemblies, req) == Faulted ==> |FilteredArgs(req.argumentsTypes, req.arguments)| == 0
  {
  }

  /** A method declared only by a same-named type in a later assembly:
      the cross-check's `IsValidMethod` does not see it, although the
      final lookup, which asks every assembly, finds it. */
  lemma ShadowedMethodFoundOnlyByFinalLookup(rt: Runtime, assemblies: seq<Assembly>, cls: string, methodName: string,
                                             allArgumentTypes: seq<Option<TypeInfo>>, k: nat, later: nat)
    requires None !in allArgumentTypes
    requires rt.getType(cls).None?
    requires k < later < |assemblies|
    requires AssemblyGetType(assemblies[k], cls).Some?
    requires forall j :: 0 <= j < k ==> AssemblyGetType(assemblies[j], cls).None?
    requires GetMethod(AssemblyGetType(assemblies[k], cls).value, methodName, Values(allArgumentTypes)).None?
    requires AssemblyGetType(assemblies[later], cls).Some?
    requires GetMethod(AssemblyGetType(assemblies[later], cls).value, methodName, Values(allArgumentTypes)).Some?
    ensures !IsValidMethod(rt, assemblies, cls, methodName, Values(allArgumentTypes))
    ensures FindMethod(rt, assemblies, cls, methodName, allArgumentTypes).Some?
  {
    FirstDefiningAssemblyShadows(rt, assemblies, cls, methodName, Values(allArgumentTypes), k, later);
    assert assemblies[later] in assemblies;
  }

  /** A request that reaches the cross-check and fails it is rejected
      with the method message. */
  lemma CrossCheckRejects(rev: Revision, rt: Runtime, assemblies: seq<Assembly>, req: SaveRequest,
                          finalArguments: seq<Value>)
    requires rt.isValidSchedule(req.cron) && TimeZoneOf(rt, req.timeZoneId).Ok? && IsValidType(rt, assemblies, req.cls)
    requires CoerceAll(rt, FilteredArgs(req.argumentsTypes, req.arguments),
                       ResolveAll(rt, assemblies, FilteredTypes(req.argumentsTypes))) == Some(finalArguments)
    requires CrossCheckFails(rev, rt, assemblies, req.cls, req.methodName,
                             ResolveAll(rt, assemblies, FilteredTypes(req.argumentsTypes)),
                             ResolveAll(rt, assemblies, req.argumentsTypes), finalArguments)
    ensures SaveOutcome(rev, rt, assemblies, req) == Rejected(MethodNotFoundMessage)
  {
  }

  /** The class check comes before any argument processing: a request for
      an unknown class is rejected whatever its argument lists hold. */
  lemma ClassCheckedBeforeArguments(rev: Revision, rt: Runtime, assemblies: seq<Assembly>, req: SaveRequest,
                                    argumentsTypes: seq<string>, arguments: seq<Value>)
    requires rt.isValidSchedule(req.cron) && TimeZoneOf(rt, req.timeZoneId).Ok?
    requires !IsValidType(rt, assemblies, req.cls)
    ensures SaveOutcome(rev, rt, assemblies, req.(argumentsTypes := argumentsTypes, arguments := arguments))
            == SaveOutcome(rev, rt, assemblies, req) == Rejected(ClassNotFoundMessage)
  {
  }

  /** Without arguments left after filtering, the cross-check is skipped:
      the outcome is the method lookup's. */
  lemma NoArgumentsSkipCrossCheck(rev: Revision, rt: Runtime, assemblies: seq<Assembly>, req: SaveRequest)
    requires rt.isValidSchedule(req.cron) && TimeZoneOf(rt, req.timeZoneId).Ok? && IsValidType(rt, assemblies, req.cls)
    requires FilteredArgs(req.argumentsTypes, req.arguments) == []
    ensures var found := FindMethod(rt, assemblies, req.cls, req.methodName, ResolveAll(rt, assemblies, req.argumentsTypes));
      SaveOutcome(rev, rt, assemblies, req) ==
        if found.None? then Faulted
        else Registered(Registration(req.id, found.value, [], req.cron, TimeZoneOf(rt, req.timeZoneId).value,
                                     req.queue.GetOr(DefaultQueue)))
  {
    assert CoerceAll(rt, [], ResolveAll(rt, assemblies, FilteredTypes(req.argumentsTypes))) == Some([]);
  }

  /** A coercion failure at any position below both lengths rejects the
      request with the argument message. */
  lemma CoercionFailureRejects(rev: Revision, rt: Runtime, assemblies: seq<Assembly>, req: SaveRequest, i: nat)
    requires rt.isValidSchedule(req.cron) && TimeZoneOf(rt, req.timeZoneId).Ok? && IsValidType(rt, assemblies, req.cls)
    requires var fa := FilteredArgs(req.argumentsTypes, req.arguments);
      var ts := ResolveAll(rt, assemblies, FilteredTypes(req.argumentsTypes));
      i < |fa| && i < |ts| && Coerce(rt, fa[i], ts[i]).None?
    ensures SaveOutcome(rev, rt, assemblies, req) == Rejected(ArgumentsTypeMessage)
  {
  }

  /** Only the fixed cross-check can let a method with an injected
      parameter and at least one user argument through: as written, the
      method must also take exactly the filtered types. */
  lemma {:induction false} AsWrittenNeedsFilteredSignature(rt: Runtime, assemblies: seq<Assembly>, req: SaveRequest)
    requires SaveOutcome(AsWritten, rt, assemblies, req).Registered?
    requires |SaveOutcome(AsWritten, rt, assemblies, req).registration.args| > 0
    ensures IsValidMethod(rt, assemblies, req.cls, req.methodName,
                          Values(ResolveAll(rt, assemblies, FilteredTypes(req.argumentsTypes))))
  {
  }

  /** A null reaches the registry only for a reference type: coercion
      keeps a null for `Nullable<T>`, but the cross-check's
      `Convert.ChangeType(null, typeof(T?))` throws, so such a request is
      rejected. */
  lemma RegisteredNullsAreReferences(rev: Revision, rt: Runtime, assemblies: seq<Assembly>, req: SaveRequest)
    requires SaveOutcome(rev, rt, assemblies, req).Registered?
    ensures var args := SaveOutcome(rev, rt, assemblies, req).registration.args;
      var ts := ResolveAll(rt, assemblies, FilteredTypes(req.argumentsTypes));
      forall j :: 0 <= j < |args| && args[j] == Null ==> j < |ts| && ts[j].Some? && !ts[j].value.isValueType
  {
    var args := SaveOutcome(rev, rt, assemblies, req).registration.args;
    var ts := ResolveAll(rt, assemblies, FilteredTypes(req.argumentsTypes));
    if |args| > 0 {
      assert None !in ts;
      assert Convertible(rt, args, Values(ts));
    }
  }

  /* ---------------------------------------------------------------------
     The dispatcher object.
     --------------------------------------------------------------------- */

  /** `RecurringJobRegistry`, reduced to the record of its `Register`
      calls. */
  class RecurringJobRegistry {
    var registrations: seq<Registration>

    constructor ()
      ensures registrations == []
    {
      registrations := [];
    }

    method Register(r: Registration)
      modifies this
      ensures registrations == old(registrations) + [r]
    {
      registrations := registrations + [r];
    }
  }

  class ChangeJobDispatcher {
    const registry: RecurringJobRegistry

    constructor ()
      ensures fresh(registry) && registry.registrations == []
    {
      registry := new RecurringJobRegistry();
    }

    /** `Dispatch`: answer the request as `SaveOutcome` says, and register
        exactly when it registers. `catalog` is the catalogue instance. */
    method Dispatch(rev: Revision, rt: Runtime, catalog: StorageAssemblySingleton, req: SaveRequest)
      returns (response: Option<Response>)
      modifies registry
      ensures response == ResponseOf(SaveOutcome(rev, rt, catalog.currentAssembly, req))
      ensures registry.registrations
              == old(registry.registrations) + RegisteredBy(SaveOutcome(rev, rt, catalog.currentAssembly, req))
    {
      var timeZone := Utc;
      if !rt.isValidSchedule(req.cron) {
        return Some(Response(false, Some(InvalidCronMessage)));
      }
      if req.timeZoneId.Some? && req.timeZoneId.value != "" {
        var found := rt.findSystemTimeZoneById(req.timeZoneId.value);
        if found.Err? {
          return Some(Response(false, Some(found.error)));
        }
        timeZone := found.value;
      }
      if !IsValidType(rt, catalog.currentAssembly, req.cls) {
        return Some(Response(false, Some(ClassNotFoundMessage)));
      }

      var filteredArgumentsTypes, filteredArguments := FilterInjected(req.argumentsTypes, req.arguments);
      var argumentTypes := ResolveAll(rt, catalog.currentAssembly, filteredArgumentsTypes);
      var coerced := CoerceArguments(rt, filteredArguments, argumentTypes);
      if coerced.None? {
        return Some(Response(false, Some(ArgumentsTypeMessage)));
      }
      var finalArguments := coerced.value;

      var allArgumentTypes := ResolveAll(rt, catalog.currentAssembly, req.argumentsTypes);
      var rejected := CrossCheck(rev, rt, catalog, req.cls, req.methodName, argumentTypes, allArgumentTypes, finalArguments);
      if rejected {
        return Some(Response(false, Some(MethodNotFoundMessage)));
      }

      var methodInfo := FindMethod(rt, catalog.currentAssembly, req.cls, req.methodName, allArgumentTypes);
      if methodInfo.None? {
        return None;
      }
      registry.Register(Registration(req.id, methodInfo.value, finalArguments, req.cron, timeZone,
                                     req.queue.GetOr(DefaultQueue)));
      return Some(Response(true, None));
    }
  }

  /** The condition of the cross-check, evaluated left to right: nothing
      is checked without arguments, and `AreValidArguments` is asked only
      when no filtered type is null. */
  method CrossCheck(rev: Revision, rt: Runtime, catalog: StorageAssemblySingleton, cls: string, methodName: string,
                    argumentTypes: seq<Option<TypeInfo>>, allArgumentTypes: seq<Option<TypeInfo>>,
                    finalArguments: seq<Value>)
    returns (rejected: bool)
    ensures rejected == CrossCheckFails(rev, rt, catalog.currentAssembly, cls, methodName,
                                        argumentTypes, allArgumentTypes, finalArguments)
  {
    if |finalArguments| == 0 {
      return false;
    }
    rejected := None in argumentTypes;
    if !rejected {
      match rev
      case AsWritten =>
        var valid := catalog.AreValidArguments(rt, cls, methodName, finalArguments, Values(argumentTypes));
        rejected := !valid;
      case Fixed =>
        rejected := || None in allArgumentTypes
                    || !IsValidMethod(rt, catalog.currentAssembly, cls, methodName, Values(allArgumentTypes))
                    || !Convertible(rt, finalArguments, Values(argumentTypes));
    }
  }

  /** The filter loop: build the type and value lists without the
      injected parameters. */
  method FilterInjected(argumentsTypesList: seq<string>, argumentsList: seq<Value>)
    returns (filteredArgumentsTypes: seq<string>, filteredArguments: seq<Value>)
    ensures filteredArgumentsTypes == FilteredTypes(argumentsTypesList)
    ensures filteredArguments == FilteredArgs(argumentsTypesList, argumentsList)
  {
    filteredArgumentsTypes := [];
    filteredArguments := [];
    for i := 0 to |argumentsTypesList|
      invariant filteredArgumentsTypes == FilteredTypes(argumentsTypesList[..i])
      invariant filteredArguments == FilteredArgs(argumentsTypesList[..i], argumentsList)
    {
      assert argumentsTypesList[..i + 1][..i] == argumentsTypesList[..i];
      var argType := argumentsTypesList[i];
      if argType !in HangfireInjectedTypes {
        filteredArgumentsTypes := filteredArgumentsTypes + [argType];
        if i < |argumentsList| {
          filteredArguments := filteredArguments + [argumentsList[i]];
        }
      }
    }
    assert argumentsTypesList[..|argumentsTypesList|] == argumentsTypesList;
  }

  /** The coercion loop: overwrite each value in place with its coerced
      form, stopping at the end of the type list; `None` when a step
      throws. */
  method CoerceArguments(rt: Runtime, filteredArguments: seq<Value>, argumentTypes: seq<Option<TypeInfo>>)
    returns (coerced: Option<seq<Value>>)
    ensures coerced == CoerceAll(rt, filteredArguments, argumentTypes)
  {
    var argsList := filteredArguments;
    var i := 0;
    while i < |argsList|
      invariant 0 <= i <= |argsList| == |filteredArguments|
      invariant forall k :: 0 <= k < i && k < |argumentTypes| ==>
        Some(argsList[k]) == Coerce(rt, filteredArguments[k], argumentTypes[k])
      invariant forall k :: i <= k < |argsList| ==> argsList[k] == filteredArguments[k]
      invariant i <= |argumentTypes|
    {
      if i >= |argumentTypes| {
        break;
      }
      if argumentTypes[i].None? {
        CoercionFails(rt, filteredArguments, argumentTypes, i);
        return None;
      }
      var t := argumentTypes[i].value;
      if argsList[i].Token? {
        var converted := rt.toObject(argsList[i], t);
        if converted.None? {
          CoercionFails(rt, filteredArguments, argumentTypes, i);
          return None;
        }
        argsList := argsList[i := converted.value];
      }
      if !argsList[i].Null? {
        var changed := rt.changeType(argsList[i], t);
        if changed.None? {
          CoercionFails(rt, filteredArguments, argumentTypes, i);
          return None;
        }
        argsList := argsList[i := changed.value];
      } else if !t.isValueType || t.isNullable {
        argsList := argsList[i := Null];
      } else {
        argsList := argsList[i := rt.createInstance(t)];
      }
      i := i + 1;
    }
    var expected := CoerceAll(rt, filteredArguments, argumentTypes);
    assert expected.Some?;
    assert expected.value == argsList;
    return Some(argsList);
  }

  /** A failed step at position `i` makes the whole coercion fail. */
  lemma CoercionFails(rt: Runtime, args: seq<Value>, types: seq<Option<TypeInfo>>, i: nat)
    requires i < |args| && i < |types|
    requires Coerce(rt, args[i], types[i]).None?
    ensures CoerceAll(rt, args, types).None?
  {
  }
}
