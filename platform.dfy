/** The .NET services the job-registration path calls but does not
    implement: reflection over loaded assemblies, JSON-to-object conversion,
    `Convert.ChangeType`, `Activator.CreateInstance`, the time-zone database
    and the cron validator. Reflection is modelled on explicit data (an
    assembly lists its types, a type lists its methods); everything else is
    an oracle held by a `Runtime` value that the caller supplies. */
module Platform {
  import opened Wrappers

  /** A public method as reflection sees it: its name and the full names of
      its parameter types, in order. */
  datatype MethodInfo = MethodInfo(name: string, parameterTypes: seq<string>)

  /** A loaded type. `isNullable` marks a `Nullable<T>`, which is also a
      value type. */
  datatype TypeInfo = TypeInfo(
    fullName: string,
    isValueType: bool,
    isNullable: bool,
    methods: seq<MethodInfo>)

  /** A loaded assembly: its identity, the file it came from, the types it
      defines and the full names of the assemblies it references. */
  datatype Assembly = Assembly(
    fullName: string,
    location: string,
    types: seq<TypeInfo>,
    references: seq<string>)

  /** An argument value. The JSON decoder yields `Null`, a CLR primitive
      (`Boxed`: a string, an integer, a boolean, ...) or a JSON token
      (`Token`: an object or array literal, or any other `JToken`). */
  datatype Value = Null | Token(json: string) | Boxed(typeName: string, text: string)

  datatype TimeZone = TimeZone(id: string)

  const Utc := TimeZone("UTC")

  /** The oracles. A function returning `None` or `Err` stands for the call
      throwing; `Err` carries the exception's message. */
  datatype Runtime = Runtime(
    /** the schedule validator the dispatcher calls on the cron text */
    isValidSchedule: string -> bool,
    /** `TimeZoneInfo.FindSystemTimeZoneById` */
    findSystemTimeZoneById: string -> Result<TimeZone, string>,
    /** `Type.GetType(name)`: the process-wide lookup */
    getType: string -> Option<TypeInfo>,
    /** `JToken.ToObject(type)` */
    toObject: (Value, TypeInfo) -> Option<Value>,
    /** `Convert.ChangeType(value, type)` for a non-null value */
    changeType: (Value, TypeInfo) -> Option<Value>,
    /** `Activator.CreateInstance(type)` for a value type: its default */
    createInstance: TypeInfo -> Value)

  /** Index of the first type named `name`, or `|types|` if there is none. */
  function FirstTypeIndex(types: seq<TypeInfo>, name: string): (k: nat)
    ensures k <= |types|
    ensures forall j :: 0 <= j < k ==> types[j].fullName != name
    ensures k < |types| ==> types[k].fullName == name
  {
    if |types| == 0 || types[0].fullName == name then 0
    else 1 + FirstTypeIndex(types[1..], name)
  }

  /** `assembly.GetType(name)`. */
  function AssemblyGetType(a: Assembly, name: string): Option<TypeInfo>
  {
    var k := FirstTypeIndex(a.types, name);
    if k < |a.types| then Some(a.types[k]) else None
  }

  function TypeNames(ts: seq<TypeInfo>): (names: seq<string>)
    ensures |names| == |ts|
    ensures forall i :: 0 <= i < |ts| ==> names[i] == ts[i].fullName
  {
    seq(|ts|, i requires 0 <= i < |ts| => ts[i].fullName)
  }

  /** Index of the first method called `name` whose parameter types are
      exactly `parameterTypes`, or `|methods|` if there is none. */
  function FirstMethodIndex(methods: seq<MethodInfo>, name: string, parameterTypes: seq<string>): (k: nat)
    ensures k <= |methods|
    ensures forall j :: 0 <= j < k ==> methods[j] != MethodInfo(name, parameterTypes)
    ensures k < |methods| ==> methods[k] == MethodInfo(name, parameterTypes)
  {
    if |methods| == 0 || methods[0] == MethodInfo(name, parameterTypes) then 0
    else 1 + FirstMethodIndex(methods[1..], name, parameterTypes)
  }

  /** `type.GetMethod(name, argTypes)`: the public method with that name
      whose parameter types match `argTypes` exactly and in order. */
  function GetMethod(t: TypeInfo, name: string, argTypes: seq<TypeInfo>): (r: Option<MethodInfo>)
    ensures r.Some? <==> MethodInfo(name, TypeNames(argTypes)) in t.methods
    ensures r.Some? ==> r.value == MethodInfo(name, TypeNames(argTypes))
  {
    var k := FirstMethodIndex(t.methods, name, TypeNames(argTypes));
    if k < |t.methods| then Some(t.methods[k]) else None
  }

  /** `Convert.ChangeType(value, type)`: a null converts to a reference type
      (giving null) and throws for every value type, `Nullable<T>`
      included; a non-null value is the runtime's business. */
  function ChangeType(rt: Runtime, v: Value, t: TypeInfo): Option<Value>
  {
    if v.Null? then (if t.isValueType then None else Some(Null))
    else rt.changeType(v, t)
  }
}
