/**
 * BirdFont's Vala build helper (scripts/bavala.py): `cmd`, which renders a
 * command line from a name and a list of arguments, and the `Vala` helper
 * object, whose constructor derives the C and object file lists and, for a
 * library, the header, vapi and shared-object names, and whose `gen_c` and
 * `gen_so` produce doit task descriptions. The directory walks behind
 * get_sources_path and get_sources_name are inputs: the (directory, file
 * name) pairs they find.
 */
module Bavala {
  import opened Common
  import opened PyStrings

  // ---------------------------------------------------------------
  // cmd
  // ---------------------------------------------------------------

  /** A dict value: one string, or a list of strings. */
  datatype Value = One(v: string) | Many(vs: seq<string>)

  /**
   * An argument of `cmd`: a string, a dict (its pairs in the order the
   * dict yields them), or any other iterable of strings.
   */
  datatype Arg = Str(s: string) | Params(pairs: seq<(string, Value)>) | Items(items: seq<string>)

  /** A string value counts as a one-element list. */
  function Values(value: Value): (vs: seq<string>)
    ensures value.One? ==> vs == [value.v]
  {
    match value
    case One(v) => [v]
    case Many(vs) => vs
  }

  /** '--{0} {1}'.format(param, v) for each v. */
  function Flags(param: string, vs: seq<string>): (r: seq<string>)
    ensures |r| == |vs|
  {
    seq(|vs|, i requires 0 <= i < |vs| => "--" + param + " " + vs[i])
  }

  /** The parts a dict adds, pair by pair. */
  function ParamsParts(pairs: seq<(string, Value)>): seq<string> {
    if pairs == [] then []
    else ParamsParts(pairs[..|pairs| - 1]) + Flags(pairs[|pairs| - 1].0, Values(pairs[|pairs| - 1].1))
  }

  /** The parts one argument adds. */
  function ArgParts(a: Arg): seq<string> {
    match a
    case Str(s) => [s]
    case Params(pairs) => ParamsParts(pairs)
    case Items(items) => items
  }

  /** The parts all arguments add, in order. */
  function ArgsParts(args: seq<Arg>): seq<string> {
    if args == [] then []
    else ArgsParts(args[..|args| - 1]) + ArgParts(args[|args| - 1])
  }

  /** The list `cmd` joins: the name, then the parts of each argument. */
  function CmdParts(name: string, args: seq<Arg>): seq<string> {
    [name] + ArgsParts(args)
  }

  /** The inner loop of `cmd` for a dict argument: each pair's values, as flags, extend `parts`. */
  method ExtendWithParams(parts: seq<string>, pairs: seq<(string, Value)>) returns (parts': seq<string>)
    ensures parts' == parts + ParamsParts(pairs)
  {
    parts' := parts;
    for j := 0 to |pairs|
      invariant parts' == parts + ParamsParts(pairs[..j])
    {
      assert pairs[..j + 1][..j] == pairs[..j];
      assert ParamsParts(pairs[..j + 1]) == ParamsParts(pairs[..j]) + Flags(pairs[j].0, Values(pairs[j].1));
      var param := pairs[j].0;
      var value := pairs[j].1;
      var vs := if value.One? then [value.v] else value.vs;
      parts' := parts' + Flags(param, vs);
    }
    assert pairs[..|pairs|] == pairs;
  }

  /** The body of the loop of `cmd` for one argument. */
  method ExtendWithArg(parts: seq<string>, item: Arg) returns (parts': seq<string>)
    ensures parts' == parts + ArgParts(item)
  {
    match item
    case Str(s) =>
      parts' := parts + [s];
    case Params(pairs) =>
      parts' := ExtendWithParams(parts, pairs);
    case Items(items) =>
      parts' := parts + items;
  }

  /** bavala.cmd: the loop that fills `parts`, then ' '.join(parts). */
  method Cmd(name: string, args: seq<Arg>) returns (line: string)
    ensures line == Join(CmdParts(name, args), " ")
  {
    var parts := [name];
    for k := 0 to |args|
      invariant parts == [name] + ArgsParts(args[..k])
    {
      assert args[..k + 1][..k] == args[..k];
      parts := ExtendWithArg(parts, args[k]);
    }
    assert args[..|args|] == args;
    line := Join(parts, " ");
  }

  /** Joining two non-empty lists: the two joins with one separator between. */
  lemma {:induction false} JoinConcat(a: seq<string>, b: seq<string>, sep: string)
    requires a != [] && b != []
    ensures Join(a + b, sep) == Join(a, sep) + sep + Join(b, sep)
    decreases |a|
  {
    if |a| == 1 {
      assert (a + b)[1..] == b;
    } else {
      assert (a + b)[1..] == a[1..] + b;
      JoinConcat(a[1..], b, sep);
    }
  }

  /** The joined list starts with its first parts, joined. */
  lemma JoinPrefix(a: seq<string>, b: seq<string>, sep: string)
    requires a != []
    ensures StartsWith(Join(a + b, sep), Join(a, sep))
  {
    if b == [] {
      assert a + b == a;
    } else {
      JoinConcat(a, b, sep);
    }
    var j := Join(a + b, sep);
    assert j[..|Join(a, sep)|] == Join(a, sep);
  }

  /** The command line starts with the name. */
  lemma CmdStartsWithName(name: string, args: seq<Arg>)
    ensures StartsWith(Join(CmdParts(name, args), " "), name)
  {
    JoinPrefix([name], ArgsParts(args), " ");
  }

  /** Each argument adds its own parts after those of the arguments before it. */
  lemma {:induction false} ArgsPartsConcat(a: seq<Arg>, b: seq<Arg>)
    ensures ArgsParts(a + b) == ArgsParts(a) + ArgsParts(b)
    decreases |b|
  {
    if b == [] {
      assert a + b == a;
    } else {
      assert (a + b)[..|a + b| - 1] == a + b[..|b| - 1];
      ArgsPartsConcat(a, b[..|b| - 1]);
    }
  }

  /** An argument adds its parts after those of the arguments before it. */
  lemma ArgsPartsSnoc(args: seq<Arg>, a: Arg)
    ensures ArgsParts(args + [a]) == ArgsParts(args) + ArgParts(a)
  {
    assert (args + [a])[..|args|] == args;
  }

  /** A string argument is appended verbatim. */
  lemma StringAppended(args: seq<Arg>, s: string)
    ensures ArgsParts(args + [Str(s)]) == ArgsParts(args) + [s]
  {
    ArgsPartsSnoc(args, Str(s));
  }

  /** Any other iterable is spliced element by element. */
  lemma ItemsSpliced(args: seq<Arg>, items: seq<string>)
    ensures ArgsParts(args + [Items(items)]) == ArgsParts(args) + items
  {
    ArgsPartsSnoc(args, Items(items));
  }

  /** A dict pair with a string value adds "--param value", as the one-element list of that value would. */
  lemma StringValueIsOneElementList(args: seq<Arg>, param: string, v: string)
    ensures ArgsParts(args + [Params([(param, One(v))])]) == ArgsParts(args) + ["--" + param + " " + v]
    ensures ArgParts(Params([(param, One(v))])) == ArgParts(Params([(param, Many([v]))]))
  {
    var one: seq<(string, Value)> := [(param, One(v))];
    var many: seq<(string, Value)> := [(param, Many([v]))];
    assert one[..0] == [] && many[..0] == [];
    assert ParamsParts(one) == Flags(param, [v]) == ["--" + param + " " + v];
    assert ParamsParts(many) == Flags(param, [v]);
    ArgsPartsSnoc(args, Params(one));
  }

  /** `part` is "--<param> <value>" for one of the pairs and one of that pair's values. */
  predicate FlagOf(pairs: seq<(string, Value)>, part: string) {
    exists i, j :: 0 <= i < |pairs| && 0 <= j < |Values(pairs[i].1)|
      && part == "--" + pairs[i].0 + " " + Values(pairs[i].1)[j]
  }

  /** Every part a dict adds is a flag of one of its pairs. */
  lemma {:induction false} ParamsPartsShape(pairs: seq<(string, Value)>)
    ensures forall k :: 0 <= k < |ParamsParts(pairs)| ==> FlagOf(pairs, ParamsParts(pairs)[k])
    decreases |pairs|
  {
    if pairs != [] {
      var init := pairs[..|pairs| - 1];
      var n := |pairs| - 1;
      ParamsPartsShape(init);
      var parts := ParamsParts(pairs);
      var before := ParamsParts(init);
      forall k | 0 <= k < |parts|
        ensures FlagOf(pairs, parts[k])
      {
        if k < |before| {
          assert FlagOf(init, before[k]);
          var i, j :| 0 <= i < |init| && 0 <= j < |Values(init[i].1)|
            && before[k] == "--" + init[i].0 + " " + Values(init[i].1)[j];
          assert pairs[i] == init[i];
          assert parts[k] == before[k];
        } else {
          var j := k - |before|;
          assert parts[k] == Flags(pairs[n].0, Values(pairs[n].1))[j];
          assert parts[k] == "--" + pairs[n].0 + " " + Values(pairs[n].1)[j];
        }
      }
    }
  }

  /** Without dicts and without blanks inside any part, splitting the command line on spaces gives back the parts. */
  lemma CmdSplitsBack(name: string, args: seq<Arg>)
    requires forall k :: 0 <= k < |CmdParts(name, args)| ==> ' ' !in CmdParts(name, args)[k]
    ensures Split(Join(CmdParts(name, args), " "), ' ') == CmdParts(name, args)
  {
    SplitJoin(CmdParts(name, args), ' ');
  }

  // ---------------------------------------------------------------
  // The Vala helper object
  // ---------------------------------------------------------------

  const CExt := ".c"
  const ValaExt := ".vala"
  const ObjExt := ".o"

  /** A file the walk found: the directory it was found in and its name. */
  datatype Found = Found(root: string, name: string)

  /** get_sources_path: os.path.join(root, filename) for each file found. */
  function Paths(found: seq<Found>): (r: seq<string>)
    ensures |r| == |found|
    ensures forall i :: 0 <= i < |found| ==> r[i] == PathJoin(found[i].root, found[i].name)
  {
    seq(|found|, i requires 0 <= i < |found| => PathJoin(found[i].root, found[i].name))
  }

  /** get_sources_name: the file name of each file found. */
  function Names(found: seq<Found>): (r: seq<string>)
    ensures |r| == |found|
    ensures forall i :: 0 <= i < |found| ==> r[i] == found[i].name
  {
    seq(|found|, i requires 0 <= i < |found| => found[i].name)
  }

  /** The attributes a library gets, with the library name itself. */
  datatype LibFiles = LibFiles(
    library: string, header: string, vapi: string, so: string, soLink: string,
    soLinkName: string, soVersion: string, soName: string)

  /** The attributes of a Vala helper object after __init__; `lib` is None when `library` is not set. */
  datatype Vala = Vala(
    src: string, build: string, pkgLibs: seq<string>, valaDeps: seq<Vala>,
    vala: seq<string>, c: seq<string>,
    cc: seq<string>, obj: seq<string>, lib: Option<LibFiles>)

  /** What makes a constructor or generator call raise. */
  datatype BavalaError =
    | MissingSoVersion       // a library without so_version: str + None
    | DependencyWithoutVapi  // a vala_deps entry that is not a library has no vapi
    | NotALibrary            // gen_so on an object without `so`

  /** `if library:`: given and not empty. */
  predicate IsLibrary(library: Option<string>) {
    library.Some? && library.value != ""
  }

  /** The directory under the build directory that mirrors `src`: build + '/' + src. */
  function MirrorDir(src: string, build: string): string {
    build + "/" + src
  }

  /** self.cc: the copied C sources, then the C files valac generates, all under the mirror directory. */
  function CcList(src: string, build: string, cNames: seq<string>, valaNames: seq<string>): (r: seq<string>)
    ensures |r| == |cNames| + |valaNames|
    ensures forall i :: 0 <= i < |cNames| ==> r[i] == PathJoin(MirrorDir(src, build), cNames[i])
    ensures forall i :: 0 <= i < |valaNames| ==>
      r[|cNames| + i] == PathJoin(MirrorDir(src, build), Replace(valaNames[i], ValaExt, CExt))
  {
    seq(|cNames|, i requires 0 <= i < |cNames| => PathJoin(MirrorDir(src, build), cNames[i]))
    + seq(|valaNames|, i requires 0 <= i < |valaNames| => PathJoin(MirrorDir(src, build), Replace(valaNames[i], ValaExt, CExt)))
  }

  /** self.obj: one object file per entry of self.cc, in the same order. */
  function ObjList(src: string, build: string, cNames: seq<string>, valaNames: seq<string>): (r: seq<string>)
    ensures |r| == |cNames| + |valaNames|
    ensures forall i :: 0 <= i < |cNames| ==> r[i] == MirrorDir(src, build) + "/" + Replace(cNames[i], CExt, ObjExt)
    ensures forall i :: 0 <= i < |valaNames| ==>
      r[|cNames| + i] == MirrorDir(src, build) + "/" + Replace(valaNames[i], ValaExt, ObjExt)
  {
    seq(|cNames|, i requires 0 <= i < |cNames| => MirrorDir(src, build) + "/" + Replace(cNames[i], CExt, ObjExt))
    + seq(|valaNames|, i requires 0 <= i < |valaNames| => MirrorDir(src, build) + "/" + Replace(valaNames[i], ValaExt, ObjExt))
  }

  /**
   * The library attributes of Vala.__init__: the shared object is the link
   * name plus "." and the version, the link is build/src.so, and so_name is
   * lib<library>.so.<version>.
   */
  function LibraryFiles(src: string, build: string, library: string, soVersion: string): (lib: LibFiles)
    ensures lib.so == lib.soLink + "." + soVersion
    ensures lib.soLink == PathJoin(build, src) + ".so" && lib.soLinkName == src + ".so"
    ensures lib.soName == "lib" + library + ".so." + soVersion
    ensures lib.header == PathJoin(build, library) + ".h" && lib.vapi == PathJoin(build, library) + ".vapi"
  {
    LibFiles(
      library := library,
      header := PathJoin(build, library) + ".h",
      vapi := PathJoin(build, library) + ".vapi",
      so := PathJoin(build, src) + ".so." + soVersion,
      soLink := PathJoin(build, src) + ".so",
      soLinkName := src + ".so",
      soVersion := soVersion,
      soName := "lib" + library + ".so." + soVersion)
  }

  /** Vala.__init__, with the walks for '*.c' and '*.vala' under `src` given as `cFound` and `valaFound`. */
  function NewVala(
    src: string, build: string, pkgLibs: seq<string>, library: Option<string>,
    valaDeps: Option<seq<Vala>>, soVersion: Option<string>,
    cFound: seq<Found>, valaFound: seq<Found>): (r: Result<Vala, BavalaError>)
    ensures r.Err? <==> IsLibrary(library) && soVersion.None?
    ensures r.Ok? ==> r.value.lib.Some? <==> IsLibrary(library)
    ensures r.Ok? && IsLibrary(library) ==> r.value.lib == Some(LibraryFiles(src, build, library.value, soVersion.value))
    ensures r.Ok? ==> r.value.cc == CcList(src, build, Names(cFound), Names(valaFound))
    ensures r.Ok? ==> r.value.obj == ObjList(src, build, Names(cFound), Names(valaFound))
    ensures r.Ok? ==> |r.value.cc| == |r.value.obj| == |cFound| + |valaFound|
  {
    if IsLibrary(library) && soVersion.None? then Err(MissingSoVersion)
    else
      var cNames, valaNames := Names(cFound), Names(valaFound);
      Ok(Vala(
        src, build, pkgLibs,
        if valaDeps.Some? then valaDeps.value else [],
        Paths(valaFound), Paths(cFound),
        CcList(src, build, cNames, valaNames), ObjList(src, build, cNames, valaNames),
        if IsLibrary(library) then Some(LibraryFiles(src, build, library.value, soVersion.value)) else None))
  }

  /** Text without '.' before a pattern that starts with '.' is never touched by the replacement. */
  lemma {:induction false} ReplaceAfterPlainStem(stem: string, t: string, pat: string, rep: string)
    requires '.' !in stem && |pat| > 0 && pat[0] == '.'
    ensures Replace(stem + t, pat, rep) == stem + Replace(t, pat, rep)
    decreases |stem|
  {
    if stem != [] {
      var s := stem + t;
      if |s| >= |pat| {
        assert s[..|pat|][0] == stem[0] != pat[0];
        assert s[1..] == stem[1..] + t;
        ReplaceAfterPlainStem(stem[1..], t, pat, rep);
      } else {
        assert |t| < |pat|;
      }
    } else {
      assert stem + t == t;
    }
  }

  /** The C file valac writes for stem.vala is stem.c, and its object is stem.o. */
  lemma ValaStemNames(stem: string)
    requires '.' !in stem
    ensures Replace(stem + ValaExt, ValaExt, CExt) == stem + CExt
    ensures Replace(stem + ValaExt, ValaExt, ObjExt) == stem + ObjExt
    ensures Replace(stem + CExt, CExt, ObjExt) == stem + ObjExt
  {
    ReplaceAfterPlainStem(stem, ValaExt, ValaExt, CExt);
    ReplaceAfterPlainStem(stem, ValaExt, ValaExt, ObjExt);
    ReplaceAfterPlainStem(stem, CExt, CExt, ObjExt);
    assert ValaExt[..|ValaExt|] == ValaExt && ValaExt[|ValaExt|..] == [];
    assert CExt[..|CExt|] == CExt && CExt[|CExt|..] == [];
  }

  /**
   * The C sources come first, then the generated ones, and object file i
   * sits next to C file i under the mirror directory: it is C file i's name
   * with ".c" replaced by ".o" (for a Vala source stem.vala, whose stem has
   * no '.', the C file is stem.c and the object stem.o). The mirror
   * directory must not end in '/', so that os.path.join and the explicit
   * '/' give the same separator.
   */
  lemma ObjectsMatchSources(src: string, build: string, cNames: seq<string>, valaNames: seq<string>, i: nat)
    requires src != [] && src[|src| - 1] != '/'
    requires i < |cNames| + |valaNames|
    requires i < |cNames| ==> '/' !in cNames[i]
    requires i >= |cNames| ==>
      exists stem :: '.' !in stem && '/' !in stem && valaNames[i - |cNames|] == stem + ValaExt
    ensures var dir := MirrorDir(src, build);
      exists name :: CcList(src, build, cNames, valaNames)[i] == dir + "/" + name
        && ObjList(src, build, cNames, valaNames)[i] == dir + "/" + Replace(name, CExt, ObjExt)
  {
    var cc, obj := CcList(src, build, cNames, valaNames), ObjList(src, build, cNames, valaNames);
    var dir := MirrorDir(src, build);
    if i < |cNames| {
      var name := cNames[i];
      assert !IsAbsolute(name) by { if name != [] { assert name[0] in name; } }
      JoinRelative(dir, name);
      assert cc[i] == dir + "/" + name && obj[i] == dir + "/" + Replace(name, CExt, ObjExt);
    } else {
      var stem :| '.' !in stem && '/' !in stem && valaNames[i - |cNames|] == stem + ValaExt;
      ValaStemNames(stem);
      var name := stem + CExt;
      assert !IsAbsolute(name) by { if stem != [] { assert stem[0] in stem; } }
      JoinRelative(dir, name);
      assert cc[i] == dir + "/" + name && obj[i] == dir + "/" + Replace(name, CExt, ObjExt);
    }
  }

  /** Joining a directory that does not end in '/' with a name that does not start with '/'. */
  lemma JoinRelative(dir: string, name: string)
    requires dir != [] && dir[|dir| - 1] != '/'
    ensures IsAbsolute(name) || PathJoin(dir, name) == dir + "/" + name
  {
  }

  // ---------------------------------------------------------------
  // The task generators
  // ---------------------------------------------------------------

  /** A doit action: a shell line, or a CmdAction whose line is completed later from the configuration, given by its fixed options. */
  datatype Action = Shell(line: string) | Deferred(opts: seq<string>)

  /** The fields of a doit task dict that the generators set. */
  datatype DoitTask = DoitTask(name: string, actions: seq<Action>, fileDep: seq<string>, targets: seq<string>)

  /** The vapi of each dependency; a dependency that is not a library has none. */
  function DepVapis(deps: seq<Vala>): (r: Option<seq<string>>)
    ensures r.Some? <==> forall i :: 0 <= i < |deps| ==> deps[i].lib.Some?
    ensures r.Some? ==> |r.value| == |deps| && forall i :: 0 <= i < |deps| ==> r.value[i] == deps[i].lib.value.vapi
  {
    if forall i :: 0 <= i < |deps| ==> deps[i].lib.Some? then
      Some(seq(|deps|, i requires 0 <= i < |deps| && deps[i].lib.Some? => deps[i].lib.value.vapi))
    else None
  }

  /** The params dict of gen_c, in insertion order. */
  function ValacParams(v: Vala): seq<(string, Value)> {
    [("basedir", One(PathJoin(v.build, v.src))), ("vapidir", One("./")), ("pkg", Many(v.pkgLibs))]
    + (if v.lib.Some? then
         [("library", One(v.lib.value.library)), ("vapi", One(v.lib.value.vapi)), ("header", One(v.lib.value.header))]
       else [])
  }

  /** gen_c's targets: the C files, plus the header and the vapi for a library. */
  function CompileCTargets(v: Vala): (targets: seq<string>)
    ensures |targets| == |v.cc| + (if v.lib.Some? then 2 else 0)
    ensures targets[..|v.cc|] == v.cc
    ensures v.lib.None? ==> targets == v.cc
    ensures v.lib.Some? ==> targets == v.cc + [v.lib.value.header, v.lib.value.vapi]
  {
    v.cc + (if v.lib.Some? then [v.lib.value.header, v.lib.value.vapi] else [])
  }

  /** One copy_c task per regular C source. */
  function CopyTask(v: Vala, f: string): DoitTask {
    var dir := v.build + "/" + v.src + "/";
    DoitTask("copy_c", [Shell("mkdir -p " + dir), Shell("cp " + f + " " + dir)], [], [])
  }

  /** The valac command line of gen_c. */
  function ValacCommand(v: Vala, depVapi: seq<string>, opts: seq<string>): string {
    Join(CmdParts("valac",
      [Items(["--ccode", "--save-temps"] + opts), Params(ValacParams(v)), Items(depVapi), Items(v.vala)]), " ")
  }

  /** Vala.gen_c: the copy tasks, then the valac task. */
  function GenC(v: Vala, opts: seq<string>): (r: Result<seq<DoitTask>, BavalaError>)
    ensures r.Err? <==> exists i :: 0 <= i < |v.valaDeps| && v.valaDeps[i].lib.None?
    ensures r.Ok? ==> |r.value| == |v.c| + 1
    ensures r.Ok? ==> forall i :: 0 <= i < |v.c| ==> r.value[i] == CopyTask(v, v.c[i])
    ensures r.Ok? ==> r.value[|v.c|].targets == CompileCTargets(v)
    ensures r.Ok? ==> r.value[|v.c|].fileDep == v.vala + DepVapis(v.valaDeps).value
    ensures r.Ok? ==> r.value[|v.c|].actions == [Shell(ValacCommand(v, DepVapis(v.valaDeps).value, opts))]
  {
    match DepVapis(v.valaDeps)
    case None => Err(DependencyWithoutVapi)
    case Some(depVapi) =>
      var action := ValacCommand(v, depVapi, opts);
      var copies := seq(|v.c|, i requires 0 <= i < |v.c| => CopyTask(v, v.c[i]));
      Ok(copies + [DoitTask("compile_c", [Shell(action)], v.vala + depVapi, CompileCTargets(v))])
  }

  /** The fixed parts of the valac command: the compiler, the two fixed options, then the caller's options. */
  lemma ValacParts(v: Vala, depVapi: seq<string>, opts: seq<string>)
    ensures CmdParts("valac", [Items(["--ccode", "--save-temps"] + opts), Params(ValacParams(v)), Items(depVapi), Items(v.vala)])
      == ["valac", "--ccode", "--save-temps"] + (opts + ArgsParts([Params(ValacParams(v)), Items(depVapi), Items(v.vala)]))
  {
    var first := Items(["--ccode", "--save-temps"] + opts);
    var rest := [Params(ValacParams(v)), Items(depVapi), Items(v.vala)];
    ArgsPartsConcat([first], rest);
    assert [first] + rest == [first, Params(ValacParams(v)), Items(depVapi), Items(v.vala)];
    assert [first][..0] == [];
  }

  /** The valac command line starts with the compiler and the two fixed options. */
  lemma ValacCommandPrefix(v: Vala, depVapi: seq<string>, opts: seq<string>)
    ensures StartsWith(ValacCommand(v, depVapi, opts), "valac --ccode --save-temps")
  {
    var head := ["valac", "--ccode", "--save-temps"];
    JoinPrefix(head, opts + ArgsParts([Params(ValacParams(v)), Items(depVapi), Items(v.vala)]), " ");
    ValacHeadText();
    ValacParts(v, depVapi, opts);
  }

  lemma ValacHeadText()
    ensures Join(["valac", "--ccode", "--save-temps"], " ") == "valac --ccode --save-temps"
  {
  }

  /** Vala.gen_so: link the objects into the shared object; only a library has one. */
  function GenSo(v: Vala): (r: Result<DoitTask, BavalaError>)
    ensures r.Ok? <==> v.lib.Some?
    ensures r.Ok? ==> r.value.fileDep == v.obj && r.value.targets == [v.lib.value.so]
    ensures r.Ok? ==> r.value.name == Basename(v.lib.value.so)
  {
    match v.lib
    case None => Err(NotALibrary)
    case Some(lib) =>
      var objGlob := PathJoin(PathJoin(v.build, v.src), "*.o");
      var opts := ["-shared " + "-Wl,-soname," + lib.soName + " " + objGlob + " -o " + lib.so];
      Ok(DoitTask(Basename(lib.so), [Deferred(opts)], v.obj, [lib.so]))
  }

  /** gen_so's task is named after the shared object's file name, src.so.<version> when src holds no '/'. */
  lemma SharedObjectTaskName(src: string, build: string, library: string, version: string)
    requires src != [] && '/' !in src && '/' !in version
    requires build != [] && build[|build| - 1] != '/'
    ensures Basename(LibraryFiles(src, build, library, version).so) == src + ".so." + version
  {
    assert !IsAbsolute(src);
    assert LibraryFiles(src, build, library, version).so == build + "/" + (src + ".so." + version);
    BasenameOfJoined(build, src + ".so." + version);
  }
}
