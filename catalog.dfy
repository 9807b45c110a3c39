/** The type catalogue behind job registration
    (`Core/StorageAssemblySingleton.cs`): a lazily created process-wide
    object holding the list of assemblies in which job classes are looked
    up, the code that fills that list (optionally with every DLL of the
    application directory and the closure of their references), and the
    first-match lookups of types, methods and argument conversions. */
module Catalog {
  import opened Wrappers
  import opened Revisions
  import opened Text
  import opened Platform

  /** The file names the directory scan means to skip. */
  const PrefixIgnore: seq<string> := ["Hangfire.RecurringJobAdmin.dll", "Microsoft."]

  /* ---------------------------------------------------------------------
     Lookups over the assembly list. They read the list but change nothing.
     --------------------------------------------------------------------- */

  /** Index of the first assembly defining a type named `name`, or
      `|assemblies|` if none does. */
  function FirstDefining(assemblies: seq<Assembly>, name: string): (k: nat)
    ensures k <= |assemblies|
    ensures forall j :: 0 <= j < k ==> AssemblyGetType(assemblies[j], name).None?
    ensures k < |assemblies| ==> AssemblyGetType(assemblies[k], name).Some?
  {
    if |assemblies| == 0 || AssemblyGetType(assemblies[0], name).Some? then 0
    else 1 + FirstDefining(assemblies[1..], name)
  }

  /** `IsValidType`: the process-wide lookup succeeds or some assembly of
      the list defines the type. */
  predicate IsValidType(rt: Runtime, assemblies: seq<Assembly>, name: string)
    ensures IsValidType(rt, assemblies, name) <==>
      rt.getType(name).Some? || FirstDefining(assemblies, name) < |assemblies|
  {
    assert FirstDefining(assemblies, name) < |assemblies| ==> assemblies[FirstDefining(assemblies, name)] in assemblies;
    rt.getType(name).Some? || exists a :: a in assemblies && AssemblyGetType(a, name).Some?
  }

  /** `Type.GetType(name) ?? assemblies.FirstOrDefault(a => a.GetType(name) != null)?.GetType(name)`:
      the process-wide lookup first, then the first assembly of the list
      that defines the name. */
  function ResolveType(rt: Runtime, assemblies: seq<Assembly>, name: string): (r: Option<TypeInfo>)
    ensures r.Some? <==> IsValidType(rt, assemblies, name)
    ensures rt.getType(name).Some? ==> r == rt.getType(name)
    ensures rt.getType(name).None? && r.Some? ==>
      var k := FirstDefining(assemblies, name);
      k < |assemblies| && r == AssemblyGetType(assemblies[k], name)
  {
    if rt.getType(name).Some? then rt.getType(name)
    else
      var k := FirstDefining(assemblies, name);
      if k < |assemblies| then AssemblyGetType(assemblies[k], name) else None
  }

  /** `IsValidMethod`: the type resolves and declares a method with that
      name and exactly those parameter types. */
  predicate IsValidMethod(rt: Runtime, assemblies: seq<Assembly>, typeName: string, methodName: string, argTypes: seq<TypeInfo>)
    ensures IsValidMethod(rt, assemblies, typeName, methodName, argTypes) ==> IsValidType(rt, assemblies, typeName)
    ensures rt.getType(typeName).Some? ==>
      (IsValidMethod(rt, assemblies, typeName, methodName, argTypes) <==>
       GetMethod(rt.getType(typeName).value, methodName, argTypes).Some?)
    ensures rt.getType(typeName).None? ==>
      var k := FirstDefining(assemblies, typeName);
      (IsValidMethod(rt, assemblies, typeName, methodName, argTypes) <==>
       k < |assemblies| && GetMethod(AssemblyGetType(assemblies[k], typeName).value, methodName, argTypes).Some?)
  {
    match ResolveType(rt, assemblies, typeName)
    case None => false
    case Some(t) => GetMethod(t, methodName, argTypes).Some?
  }

  /** What `AreValidArguments` computes: the method is valid, there are as
      many arguments as types, and each argument converts to the type in
      its position. */
  predicate ValidArguments(rt: Runtime, assemblies: seq<Assembly>, typeName: string, methodName: string,
                           args: seq<Value>, argTypes: seq<TypeInfo>)
    ensures ValidArguments(rt, assemblies, typeName, methodName, args, argTypes) ==>
      IsValidType(rt, assemblies, typeName) && |args| == |argTypes|
      && forall i :: 0 <= i < |args| ==> ChangeType(rt, args[i], argTypes[i]).Some?
  {
    IsValidMethod(rt, assemblies, typeName, methodName, argTypes) && Convertible(rt, args, argTypes)
  }

  /** As many arguments as types, each converting to the type in its position. */
  predicate Convertible(rt: Runtime, args: seq<Value>, argTypes: seq<TypeInfo>)
  {
    |argTypes| == |args| && forall i :: 0 <= i < |args| ==> ChangeType(rt, args[i], argTypes[i]).Some?
  }

  /** The lookup sees only the first assembly that defines the type: a
      method declared by a same-named type in the later assembly `later`
      is not found. */
  lemma FirstDefiningAssemblyShadows(rt: Runtime, assemblies: seq<Assembly>, typeName: string, methodName: string,
                                     argTypes: seq<TypeInfo>, k: nat, later: nat)
    requires rt.getType(typeName).None?
    requires k < later < |assemblies|
    requires AssemblyGetType(assemblies[k], typeName).Some?
    requires forall j :: 0 <= j < k ==> AssemblyGetType(assemblies[j], typeName).None?
    requires GetMethod(AssemblyGetType(assemblies[k], typeName).value, methodName, argTypes).None?
    requires AssemblyGetType(assemblies[later], typeName).Some?
    requires GetMethod(AssemblyGetType(assemblies[later], typeName).value, methodName, argTypes).Some?
    ensures !IsValidMethod(rt, assemblies, typeName, methodName, argTypes)
  {
    assert FirstDefining(assemblies, typeName) == k;
  }

  /* ---------------------------------------------------------------------
     Filling the list.
     --------------------------------------------------------------------- */

  /** What the directory scan and the loader see of the process. */
  datatype AppDomain = AppDomain(
    /** `Directory.GetFiles(BaseDirectory, "*.dll")` */
    baseDirectoryDlls: seq<string>,
    /** `Assembly.LoadFile(path)`; `None` when it throws */
    loadFile: string -> Option<Assembly>,
    /** `Assembly.Load(name)`: the assemblies that load by full name; a
        name missing here fails to load */
    images: map<string, Assembly>)

  /** Loading an assembly by name yields the assembly of that name. */
  predicate LoaderConsistent(images: map<string, Assembly>)
  {
    forall n :: n in images ==> images[n].fullName == n
  }

  /** The last path segment, after any `/` or `\`. */
  function FileName(path: string): (name: string)
    ensures |name| <= |path| && name == path[|path| - |name|..]
    ensures '/' !in name && '\\' !in name
  {
    if |path| == 0 || path[|path| - 1] == '/' || path[|path| - 1] == '\\' then ""
    else FileName(path[..|path| - 1]) + [path[|path| - 1]]
  }

  /** Whether the scan skips `path` because of an ignore entry. As written
      the test is `entry.Contains(path)`: the path must be a substring of
      the entry, so no path longer than the longest entry (30 characters)
      is ever ignored, and an absolute path never is. Fixed, it is the
      file-name prefix test the entries' name describes. */
  predicate Ignored(rev: Revision, path: string)
    ensures rev == AsWritten && |path| > 30 ==> !Ignored(rev, path)
  {
    assert forall p :: p in PrefixIgnore ==> |p| <= 30;
    match rev
    case AsWritten => exists p :: p in PrefixIgnore && Contains(p, path)
    case Fixed => exists p :: p in PrefixIgnore && p <= FileName(path)
  }

  /** The candidate files of the directory scan, in directory order: every
      file that is not the location of an explicitly given assembly and is
      not ignored. */
  function DirectoryCandidates(rev: Revision, files: seq<string>, explicit: seq<Assembly>): (toLoad: seq<string>)
    ensures forall r :: r in toLoad <==>
      r in files && (forall a :: a in explicit ==> a.location != r) && !Ignored(rev, r)
  {
    if |files| == 0 then []
    else
      var r := files[0];
      var keep := (forall a :: a in explicit ==> a.location != r) && !Ignored(rev, r);
      (if keep then [r] else []) + DirectoryCandidates(rev, files[1..], explicit)
  }

  lemma {:induction false} FileNameAfterSeparator(dir: string, name: string)
    requires '/' !in name && '\\' !in name
    ensures FileName(dir + "/" + name) == name
  {
    var prefix := dir + "/";
    var path := prefix + name;
    if |name| == 0 {
      assert path == prefix && path[|path| - 1] == '/';
    } else {
      var init := name[..|name| - 1];
      var c := name[|name| - 1];
      assert name == init + [c];
      assert path == (prefix + init) + [c];
      assert path[..|path| - 1] == prefix + init;
      assert path[|path| - 1] == c && c != '/' && c != '\\';
      FileNameAfterSeparator(dir, init);
    }
  }

  /** The example of the finding: a `Microsoft.` library in the
      application directory (any directory and file name whose path is
      longer than 30 characters, e.g. `/app/Microsoft.Extensions.Logging.dll`)
      is scanned and loaded as written and skipped when fixed. */
  lemma MicrosoftLibraryScannedAsWritten(dir: string, rest: string, explicit: seq<Assembly>)
    requires '/' !in rest && '\\' !in rest
    requires |dir| + |rest| > 19
    requires forall a :: a in explicit ==> a.location != dir + "/" + "Microsoft." + rest
    ensures var path := dir + "/" + "Microsoft." + rest;
      path in DirectoryCandidates(AsWritten, [path], explicit) &&
      path !in DirectoryCandidates(Fixed, [path], explicit)
  {
    var name := "Microsoft." + rest;
    var path := dir + "/" + name;
    assert dir + "/" + "Microsoft." + rest == path;
    FixedIgnoresMicrosoft(dir, rest);
  }

  /** Fixed, a file named `Microsoft.*` is ignored in any directory. */
  lemma FixedIgnoresMicrosoft(dir: string, rest: string)
    requires '/' !in rest && '\\' !in rest
    ensures Ignored(Fixed, dir + "/" + "Microsoft." + rest)
  {
    var name := "Microsoft." + rest;
    var path := dir + "/" + name;
    assert dir + "/" + "Microsoft." + rest == path;
    FileNameAfterSeparator(dir, name);
    assert PrefixIgnore[1] in PrefixIgnore && PrefixIgnore[1] <= FileName(path);
  }

  /** `toLoad.ForEach(path => list.Add(Assembly.LoadFile(path)))`: the
      assemblies added, in order, and whether a load threw, which ends the
      loop and leaves the exception to the caller. */
  datatype FileLoads = FileLoads(added: seq<Assembly>, threw: bool)

  function LoadFiles(paths: seq<string>, loadFile: string -> Option<Assembly>): (r: FileLoads)
    ensures |r.added| <= |paths|
  {
    if |paths| == 0 then FileLoads([], false)
    else
      match loadFile(paths[0])
      case None => FileLoads([], true)
      case Some(a) =>
        var rest := LoadFiles(paths[1..], loadFile);
        FileLoads([a] + rest.added, rest.threw)
  }

  /** One step of the loads from position `i` on. */
  lemma LoadFilesAt(paths: seq<string>, i: nat, loadFile: string -> Option<Assembly>)
    requires i < |paths|
    ensures loadFile(paths[i]).None? ==> LoadFiles(paths[i..], loadFile) == FileLoads([], true)
    ensures loadFile(paths[i]).Some? ==>
      LoadFiles(paths[i..], loadFile)
        == FileLoads([loadFile(paths[i]).value] + LoadFiles(paths[i + 1..], loadFile).added,
                     LoadFiles(paths[i + 1..], loadFile).threw)
  {
    assert paths[i..][0] == paths[i];
    assert paths[i..][1..] == paths[i + 1..];
  }

  /** The files before the first failing one are all loaded, in order;
      the loop stops exactly at that failure. */
  lemma {:induction false} LoadFilesStopsAtFailure(paths: seq<string>, loadFile: string -> Option<Assembly>)
    ensures var r := LoadFiles(paths, loadFile);
      && (forall j :: 0 <= j < |r.added| ==> loadFile(paths[j]) == Some(r.added[j]))
      && (!r.threw <==> |r.added| == |paths|)
      && (r.threw ==> loadFile(paths[|r.added|]).None?)
  {
    if |paths| > 0 && loadFile(paths[0]).Some? {
      LoadFilesStopsAtFailure(paths[1..], loadFile);
    }
  }

  function FullNames(assemblies: seq<Assembly>): (names: set<string>)
    ensures forall a :: a in assemblies ==> a.fullName in names
  {
    if |assemblies| == 0 then {}
    else {assemblies[0].fullName} + FullNames(assemblies[1..])
  }

  lemma {:induction false} FullNamesWitness(assemblies: seq<Assembly>, n: string)
    requires n in FullNames(assemblies)
    ensures exists a :: a in assemblies && a.fullName == n
  {
    if assemblies[0].fullName != n {
      FullNamesWitness(assemblies[1..], n);
    }
  }

  lemma {:induction false} FullNamesAppend(xs: seq<Assembly>, ys: seq<Assembly>)
    ensures FullNames(xs + ys) == FullNames(xs) + FullNames(ys)
  {
    if |xs| > 0 {
      assert (xs + ys)[1..] == xs[1..] + ys;
      FullNamesAppend(xs[1..], ys);
    } else {
      assert xs + ys == ys;
    }
  }

  /** The loads of one round for one assembly (the inner `foreach`): each
      referenced name that no assembly loaded before the round has, and
      that loads; a name that fails to load is skipped. */
  function ReferenceLoads(refs: seq<string>, known: set<string>, images: map<string, Assembly>): seq<Assembly>
  {
    if |refs| == 0 then []
    else
      var n := refs[|refs| - 1];
      ReferenceLoads(refs[..|refs| - 1], known, images) + (if n !in known && n in images then [images[n]] else [])
  }

  /** The loads of one round (both `foreach` loops): `known` are the full
      names loaded before the round and do not change during it. */
  function RoundLoads(toProcess: seq<Assembly>, known: set<string>, images: map<string, Assembly>): seq<Assembly>
  {
    if |toProcess| == 0 then []
    else
      var a := toProcess[|toProcess| - 1];
      RoundLoads(toProcess[..|toProcess| - 1], known, images) + ReferenceLoads(a.references, known, images)
  }

  /** A round only loads names not known before it, each under its own name. */
  lemma {:induction false} RoundLoadsFresh(toProcess: seq<Assembly>, known: set<string>, images: map<string, Assembly>)
    requires LoaderConsistent(images)
    ensures forall x :: x in RoundLoads(toProcess, known, images) ==>
      x.fullName in images && images[x.fullName] == x && x.fullName !in known
  {
    if |toProcess| > 0 {
      RoundLoadsFresh(toProcess[..|toProcess| - 1], known, images);
      ReferenceLoadsFresh(toProcess[|toProcess| - 1].references, known, images);
    }
  }

  lemma {:induction false} ReferenceLoadsFresh(refs: seq<string>, known: set<string>, images: map<string, Assembly>)
    requires LoaderConsistent(images)
    ensures forall x :: x in ReferenceLoads(refs, known, images) ==>
      x.fullName in images && images[x.fullName] == x && x.fullName !in known
  {
    if |refs| > 0 {
      ReferenceLoadsFresh(refs[..|refs| - 1], known, images);
    }
  }

  /** A round loads every loadable, unknown reference of every processed assembly. */
  lemma {:induction false} RoundLoadsCover(toProcess: seq<Assembly>, known: set<string>, images: map<string, Assembly>,
                                           a: Assembly, n: string)
    requires a in toProcess && n in a.references && n in images && n !in known
    ensures images[n] in RoundLoads(toProcess, known, images)
  {
    var last := toProcess[|toProcess| - 1];
    if a == last {
      ReferenceLoadsCover(a.references, known, images, n);
    } else {
      assert a in toProcess[..|toProcess| - 1];
      RoundLoadsCover(toProcess[..|toProcess| - 1], known, images, a, n);
    }
  }

  lemma {:induction false} ReferenceLoadsCover(refs: seq<string>, known: set<string>, images: map<string, Assembly>, n: string)
    requires n in refs && n in images && n !in known
    ensures images[n] in ReferenceLoads(refs, known, images)
  {
    if refs[|refs| - 1] != n {
      assert n in refs[..|refs| - 1];
      ReferenceLoadsCover(refs[..|refs| - 1], known, images, n);
    }
  }

  lemma RoundShrinksUnknown(loaded: seq<Assembly>, round: seq<Assembly>, images: map<string, Assembly>)
    requires |round| > 0
    requires forall x :: x in round ==> x.fullName in images && x.fullName !in FullNames(loaded)
    ensures |images.Keys - FullNames(loaded + round)| < |images.Keys - FullNames(loaded)|
  {
    var x := round[0];
    FullNamesAppend(loaded, round);
    var smaller := images.Keys - FullNames(loaded + round);
    var larger := images.Keys - FullNames(loaded);
    assert smaller <= larger;
    assert x.fullName in larger - smaller;
    assert larger == smaller + (larger - smaller);
  }

  /** `LoadReferences(toProcess, loaded)` as a value: rounds of loads until
      a round loads nothing. Every round appends to `loaded` and only
      processes what the previous round loaded. */
  function LoadClosure(toProcess: seq<Assembly>, loaded: seq<Assembly>, images: map<string, Assembly>): (all: seq<Assembly>)
    requires LoaderConsistent(images)
    ensures loaded <= all
    decreases |images.Keys - FullNames(loaded)|
  {
    var round := RoundLoads(toProcess, FullNames(loaded), images);
    if |round| == 0 then loaded
    else
      RoundLoadsFresh(toProcess, FullNames(loaded), images);
      RoundShrinksUnknown(loaded, round, images);
      LoadClosure(round, loaded + round, images)
  }

  /** Every reference of `a` that can be loaded is loaded. */
  ghost predicate Closed(a: Assembly, all: seq<Assembly>, images: map<string, Assembly>)
  {
    forall n :: n in a.references && n in images ==> n in FullNames(all)
  }

  lemma ClosedGrows(a: Assembly, all: seq<Assembly>, more: seq<Assembly>, images: map<string, Assembly>)
    requires Closed(a, all, images)
    ensures Closed(a, all + more, images)
  {
    FullNamesAppend(all, more);
  }

  /** One unfolding of `LoadClosure` when the round loads something. */
  lemma LoadClosureStep(toProcess: seq<Assembly>, loaded: seq<Assembly>, images: map<string, Assembly>)
    requires LoaderConsistent(images)
    requires |RoundLoads(toProcess, FullNames(loaded), images)| > 0
    ensures var round := RoundLoads(toProcess, FullNames(loaded), images);
      |images.Keys - FullNames(loaded + round)| < |images.Keys - FullNames(loaded)| &&
      LoadClosure(toProcess, loaded, images) == LoadClosure(round, loaded + round, images)
  {
    var round := RoundLoads(toProcess, FullNames(loaded), images);
    RoundLoadsFresh(toProcess, FullNames(loaded), images);
    RoundShrinksUnknown(loaded, round, images);
  }

  /** After a round, every assembly it processed is closed. */
  lemma RoundCloses(toProcess: seq<Assembly>, loaded: seq<Assembly>, images: map<string, Assembly>)
    requires LoaderConsistent(images)
    ensures var next := loaded + RoundLoads(toProcess, FullNames(loaded), images);
      forall a :: a in toProcess ==> Closed(a, next, images)
  {
    var known := FullNames(loaded);
    var round := RoundLoads(toProcess, known, images);
    FullNamesAppend(loaded, round);
    forall a, n | a in toProcess && n in a.references && n in images && n !in known
      ensures n in FullNames(round)
    {
      RoundLoadsCover(toProcess, known, images, a, n);
    }
  }

  /** Closure modulo failed loads: if every assembly of `loaded` outside
      the work list is already closed, every assembly of the result is. */
  lemma {:induction false} LoadClosureClosed(toProcess: seq<Assembly>, loaded: seq<Assembly>, images: map<string, Assembly>)
    requires LoaderConsistent(images)
    requires forall a :: a in loaded && a !in toProcess ==> Closed(a, loaded, images)
    ensures var all := LoadClosure(toProcess, loaded, images);
      forall a :: a in all ==> Closed(a, all, images)
    decreases |images.Keys - FullNames(loaded)|
  {
    var round := RoundLoads(toProcess, FullNames(loaded), images);
    var next := loaded + round;
    RoundCloses(toProcess, loaded, images);
    if |round| == 0 {
      assert next == loaded;
    } else {
      forall a | a in next && a !in round
        ensures Closed(a, next, images)
      {
        if a !in toProcess {
          ClosedGrows(a, loaded, round, images);
        }
      }
      LoadClosureStep(toProcess, loaded, images);
      LoadClosureClosed(round, next, images);
    }
  }

  /** Load failures are skipped: whatever the closure adds is an assembly
      that loads under its own full name. */
  lemma {:induction false} LoadClosureAddsOnlyLoadable(toProcess: seq<Assembly>, loaded: seq<Assembly>, images: map<string, Assembly>)
    requires LoaderConsistent(images)
    ensures var all := LoadClosure(toProcess, loaded, images);
      forall x :: x in all[|loaded|..] ==> x.fullName in images && images[x.fullName] == x
    decreases |images.Keys - FullNames(loaded)|
  {
    var round := RoundLoads(toProcess, FullNames(loaded), images);
    if |round| > 0 {
      var next := loaded + round;
      RoundLoadsFresh(toProcess, FullNames(loaded), images);
      LoadClosureStep(toProcess, loaded, images);
      LoadClosureAddsOnlyLoadable(round, next, images);
      var all := LoadClosure(round, next, images);
      AppendedMembers(all, loaded, round);
    }
  }

  /** What follows `loaded` in a list that starts with `loaded + round` is
      in `round` or in what follows both. */
  lemma AppendedMembers<T>(all: seq<T>, loaded: seq<T>, round: seq<T>)
    requires loaded + round <= all
    ensures forall x :: x in all[|loaded|..] ==> x in round || x in all[|loaded| + |round|..]
  {
  }

  /** The two `foreach` loops of `LoadReferences`: the loads of one
      round, against the full names `known` before it. */
  method CollectRound(assembliesToLoadReferences: seq<Assembly>, known: set<string>, images: map<string, Assembly>)
    returns (newlyLoaded: seq<Assembly>)
    ensures newlyLoaded == RoundLoads(assembliesToLoadReferences, known, images)
  {
    newlyLoaded := [];
    var i := 0;
    while i < |assembliesToLoadReferences|
      invariant 0 <= i <= |assembliesToLoadReferences|
      invariant newlyLoaded == RoundLoads(assembliesToLoadReferences[..i], known, images)
    {
      var refs := assembliesToLoadReferences[i].references;
      var j := 0;
      while j < |refs|
        invariant 0 <= j <= |refs|
        invariant newlyLoaded == RoundLoads(assembliesToLoadReferences[..i], known, images)
                                 + ReferenceLoads(refs[..j], known, images)
      {
        var name := refs[j];
        if name !in known && name in images {
          newlyLoaded := newlyLoaded + [images[name]];
        }
        assert refs[..j + 1][..j] == refs[..j];
        j := j + 1;
      }
      assert refs[..j] == refs;
      assert assembliesToLoadReferences[..i + 1][..i] == assembliesToLoadReferences[..i];
      i := i + 1;
    }
    assert assembliesToLoadReferences[..i] == assembliesToLoadReferences;
  }

  /* ---------------------------------------------------------------------
     The catalogue object.
     --------------------------------------------------------------------- */

  class StorageAssemblySingleton {
    var currentAssembly: seq<Assembly>

    constructor ()
      ensures currentAssembly == []
    {
      currentAssembly := [];
    }

    /** Append the given assemblies; with `includeReferences`, also load
        every candidate DLL of the application directory (an exception of
        `LoadFile` ends the call, keeping what was added) and then the
        closure of the references of the whole list. */
    method SetCurrentAssembly(rev: Revision, includeReferences: bool, assemblies: seq<Assembly>, domain: AppDomain)
      returns (completed: bool)
      requires LoaderConsistent(domain.images)
      modifies this
      ensures old(currentAssembly) + assemblies <= currentAssembly
      ensures !includeReferences ==> completed && currentAssembly == old(currentAssembly) + assemblies
      ensures includeReferences ==>
        var files := LoadFiles(DirectoryCandidates(rev, domain.baseDirectoryDlls, assemblies), domain.loadFile);
        completed == !files.threw &&
        (files.threw ==> currentAssembly == old(currentAssembly) + assemblies + files.added)
      ensures includeReferences ==>
        var start := old(currentAssembly) + assemblies;
        var files := LoadFiles(DirectoryCandidates(rev, domain.baseDirectoryDlls, assemblies), domain.loadFile);
        !files.threw ==> currentAssembly == LoadClosure(start + files.added, start + files.added, domain.images)
    {
      currentAssembly := currentAssembly + assemblies;
      completed := true;
      if includeReferences {
        var toLoad := DirectoryCandidates(rev, domain.baseDirectoryDlls, assemblies);
        completed := AddFiles(toLoad, domain.loadFile);
        if completed {
          LoadReferences(currentAssembly, domain.images);
        }
      }
    }

    /** `toLoad.ForEach(path => currentAssembly.Add(Assembly.LoadFile(path)))`:
        each file's assembly is appended in turn; a load that throws ends
        the loop (`completed` is false) and leaves the earlier ones added. */
    method AddFiles(toLoad: seq<string>, loadFile: string -> Option<Assembly>) returns (completed: bool)
      modifies this
      ensures currentAssembly == old(currentAssembly) + LoadFiles(toLoad, loadFile).added
      ensures completed == !LoadFiles(toLoad, loadFile).threw
    {
      ghost var added: seq<Assembly> := [];
      var i := 0;
      while i < |toLoad|
        invariant 0 <= i <= |toLoad|
        invariant currentAssembly == old(currentAssembly) + added
        invariant LoadFiles(toLoad, loadFile).added == added + LoadFiles(toLoad[i..], loadFile).added
        invariant LoadFiles(toLoad, loadFile).threw == LoadFiles(toLoad[i..], loadFile).threw
      {
        LoadFilesAt(toLoad, i, loadFile);
        var loaded := loadFile(toLoad[i]);
        if loaded.None? {
          assert added + LoadFiles(toLoad[i..], loadFile).added == added;
          return false;
        }
        ghost var rest := LoadFiles(toLoad[i + 1..], loadFile).added;
        ConcatAssoc(added, [loaded.value], rest);
        currentAssembly := currentAssembly + [loaded.value];
        added := added + [loaded.value];
        i := i + 1;
      }
      assert toLoad[i..] == [];
      return true;
    }

    /** `LoadReferences(toProcess, currentAssembly)`: one round of loads,
        appended to the list, and another round over what it loaded. */
    method LoadReferences(assembliesToLoadReferences: seq<Assembly>, images: map<string, Assembly>)
      requires LoaderConsistent(images)
      modifies this
      ensures currentAssembly == LoadClosure(assembliesToLoadReferences, old(currentAssembly), images)
      decreases |images.Keys - FullNames(currentAssembly)|
    {
      var newlyLoaded := CollectRound(assembliesToLoadReferences, FullNames(currentAssembly), images);
      if |newlyLoaded| > 0 {
        LoadClosureStep(assembliesToLoadReferences, currentAssembly, images);
        currentAssembly := currentAssembly + newlyLoaded;
        LoadReferences(newlyLoaded, images);
      }
    }

    /** `AreValidArguments`. */
    method AreValidArguments(rt: Runtime, typeName: string, methodName: string, args: seq<Value>, argTypes: seq<TypeInfo>)
      returns (ok: bool)
      ensures ok == ValidArguments(rt, currentAssembly, typeName, methodName, args, argTypes)
    {
      if !IsValidMethod(rt, currentAssembly, typeName, methodName, argTypes) {
        return false;
      }
      if |argTypes| != |args| {
        return false;
      }
      var i := 0;
      while i < |args|
        invariant 0 <= i <= |args|
        invariant forall j :: 0 <= j < i ==> ChangeType(rt, args[j], argTypes[j]).Some?
      {
        if ChangeType(rt, args[i], argTypes[i]).None? {
          return false;
        }
        i := i + 1;
      }
      return true;
    }
  }

  /** Holder of the static `_instance` field. */
  class InstanceSlot {
    var instance: StorageAssemblySingleton?

    constructor ()
      ensures instance == null
    {
      instance := null;
    }

    /** `GetInstance`: create the catalogue on the first call, return the
        same object on every call. */
    method GetInstance() returns (r: StorageAssemblySingleton)
      modifies this
      ensures old(instance) != null ==> r == old(instance)
      ensures old(instance) == null ==> fresh(r) && r.currentAssembly == []
      ensures instance == r
    {
      if instance == null {
        instance := new StorageAssemblySingleton();
      }
      r := instance;
    }
  }
}
