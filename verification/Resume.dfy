/** Starting a scheduler by name and resuming it later: what one writes, the other accepts
    (rust/scx_catalog/src/start.rs, catalog.rs and systemd.rs).

    The executable files are a set of paths. A result of None stands for a refusal.
  */
module Resume {
  import opened Options
  import opened EnvFile

  const SCHEDULER_OVERRIDE_KEY := "SCX_SCHEDULER_OVERRIDE"
  const FLAGS_OVERRIDE_KEY := "SCX_FLAGS_OVERRIDE"
  const NOT_SCHEDULERS := {"scx_loader", "scx_characterize", "scx_forge_agent", "scx_rustland_core"}

  /** A profile is custom when it names its scheduler. */
  datatype Profile = Profile(id: string, sched: Option<string>, args: seq<string>)

  datatype Catalog = Catalog(recommended: seq<Profile>, hidden: seq<string>)

  // ----- paths -----

  predicate Absolute(path: string) { path != [] && path[0] == '/' }

  /** The pieces between slashes. */
  function Pieces(s: string): (r: seq<string>)
    ensures r != []
  {
    if s == [] then [[]]
    else var r := Pieces(s[1..]);
      if s[0] == '/' then [[]] + r else [[s[0]] + r[0]] + r[1..]
  }

  /** The components of an absolute path: empty pieces and single dots do not count. */
  function Components(path: string): seq<string> { Proper(Pieces(path)) }

  function Proper(pieces: seq<string>): seq<string> {
    if pieces == [] then []
    else (if pieces[0] == "" || pieces[0] == "." then [] else [pieces[0]]) + Proper(pieces[1..])
  }

  predicate DoubleSlash(s: string) {
    exists i :: 0 <= i < |s| - 1 && s[i] == '/' && s[i + 1] == '/'
  }

  function JoinPath(dir: string, name: string): string {
    if Absolute(name) then name
    else if dir == [] || dir[|dir| - 1] == '/' then dir + name
    else dir + "/" + name
  }

  // ----- names -----

  predicate SchedName(name: string) {
    StartsWith(name, "scx_") && 4 < |name| <= 64 && forall c <- name :: Alphanumeric(c) || c == '_' || c == '-'
  }

  predicate InTrees(path: string) {
    StartsWith(path, "/usr/") || StartsWith(path, "/bin/") || StartsWith(path, "/sbin/")
  }

  /** A bare scheduler name, or a plain absolute path to one. */
  predicate ValidSched(sched: string) {
    if Absolute(sched) then
      var c := Components(sched);
      && sched[|sched| - 1] != '/' && !DoubleSlash(sched) && InTrees(sched)
      && ".." !in c && |c| >= 2 && SchedName(c[|c| - 1])
    else SchedName(sched)
  }

  predicate ValidName(name: string) { '/' !in name && ValidSched(name) }

  predicate ArgChar(c: char) { Alphanumeric(c) || c in "-_=.,:/+" }

  predicate ValidArg(arg: string) { 1 <= |arg| <= 256 && forall c <- arg :: ArgChar(c) }

  predicate IsSchedulerName(name: string) { ValidSched(name) && name !in NOT_SCHEDULERS }

  /** The rules for profiles that matter here. */
  predicate ValidCatalog(cat: Catalog) {
    forall p <- cat.recommended :: p.sched.Some? ==> ValidName(p.sched.value) && forall a <- p.args :: ValidArg(a)
  }

  // ----- resolving -----

  function ResolveIn(name: string, dirs: seq<string>, exec: set<string>): Option<string> {
    if dirs == [] then None
    else
      var path := JoinPath(dirs[0], name);
      if Absolute(path) && path in exec then Some(path) else ResolveIn(name, dirs[1..], exec)
  }

  /** The directory of the path is one of the search path, compared by components. */
  predicate InDirs(path: string, dirs: seq<string>) {
    var c := Components(path);
    c != [] && exists d <- dirs :: Absolute(d) && Components(d) == c[..|c| - 1]
  }

  function ResolveScheduler(sched: string, dirs: seq<string>, exec: set<string>): Option<string> {
    if !ValidSched(sched) then None
    else if Absolute(sched) then
      if InDirs(sched, dirs) && sched in exec then Some(sched) else None
    else ResolveIn(sched, dirs, exec)
  }

  // ----- starting -----

  function ProfileLaunch(p: Profile, dirs: seq<string>, exec: set<string>): Option<(string, seq<string>)> {
    if p.sched.None? || !IsSchedulerName(p.sched.value) then None
    else match ResolveScheduler(p.sched.value, dirs, exec)
      case None => None
      case Some(path) => Some((path, p.args))
  }

  function Get(profiles: seq<Profile>, id: string): Option<Profile> {
    if profiles == [] then None
    else if profiles[0].id == id then Some(profiles[0])
    else Get(profiles[1..], id)
  }

  predicate Listed(cat: Catalog, name: string) { IsSchedulerName(name) && name !in cat.hidden }

  /** What starting an id other than the default launches. */
  function Plan(cat: Catalog, id: string, dirs: seq<string>, exec: set<string>): Option<(string, seq<string>)> {
    var p := Get(cat.recommended, id);
    if p.Some? && p.value.sched.Some? then ProfileLaunch(p.value, dirs, exec)
    else if !ValidName(id) || !Listed(cat, id) then None
    else match ResolveScheduler(id, dirs, exec)
      case None => None
      case Some(path) => Some((path, []))
  }

  // ----- resuming -----

  datatype Environment = Environment(vars: map<string, string>, error: bool)

  function Assign(vars: map<string, string>, pairs: seq<(string, string)>): map<string, string>
    decreases |pairs|
  {
    if pairs == [] then vars else Assign(vars[pairs[0].0 := pairs[0].1], pairs[1..])
  }

  /** The environment of the unit: the lower layers, then the file; a file that is refused is not read. */
  function UnitEnvironment(base: map<string, string>, content: string): Environment {
    if Supported(content) then Environment(Assign(base, Parse(content)), false) else Environment(base, true)
  }

  function Lookup(env: Environment, key: string): string { if key in env.vars then env.vars[key] else "" }

  /** The options, if they are in the form that a start writes. */
  function CanonicalFlags(raw: string): Option<seq<string>> {
    var args := SplitFlags(raw);
    if raw == JoinWords(args) then Some(args) else None
  }

  function Matching(profiles: seq<Profile>, path: string, args: seq<string>, dirs: seq<string>,
    exec: set<string>): Option<string> {
    if profiles == [] then None
    else if ProfileLaunch(profiles[0], dirs, exec) == Some((path, args)) then Some(profiles[0].id)
    else Matching(profiles[1..], path, args, dirs, exec)
  }

  function SchedBase(path: string): string {
    var c := Components(path);
    if c == [] || c[|c| - 1] == ".." then path else c[|c| - 1]
  }

  /** A scheduler that may be started again, and whether the file must first be made to name its path. */
  datatype Resumed = Resumed(name: string, path: string, args: seq<string>, profile: Option<string>, pin: bool)

  function Resumable(cat: Catalog, env: Environment, dirs: seq<string>, exec: set<string>): Option<Resumed> {
    if env.error then None
    else if Lookup(env, SCHEDULER_OVERRIDE_KEY) != "" || Lookup(env, FLAGS_OVERRIDE_KEY) != "" then None
    else
      var configured := Lookup(env, SCHEDULER_KEY);
      var args := CanonicalFlags(Lookup(env, FLAGS_KEY));
      if configured == "" || args.None? then None
      else match ResolveScheduler(configured, dirs, exec)
        case None => None
        case Some(path) =>
          var name := SchedBase(path);
          var profile := Matching(cat.recommended, path, args.value, dirs, exec);
          if profile.Some? then Some(Resumed(name, path, args.value, profile, configured != path))
          else if args.value != [] || !Listed(cat, name) then None
          else Some(Resumed(name, path, args.value, None, configured != path))
  }

  // ----- paths that a start writes -----

  lemma {:induction false} PiecesJoin(a: string, b: string)
    ensures Pieces(a + "/" + b) == Pieces(a) + Pieces(b)
  {
    var s := a + "/" + b;
    if a == [] {
      assert s[0] == '/' && s[1..] == b;
    } else {
      assert s[0] == a[0] && s[1..] == a[1..] + "/" + b;
      PiecesJoin(a[1..], b);
    }
  }

  lemma {:induction false} OnePiece(name: string)
    requires '/' !in name
    ensures Pieces(name) == [name]
  {
    if name != [] {
      OnePiece(name[1..]);
      assert [name[0]] + name[1..] == name;
    }
  }

  lemma {:induction false} ProperConcat(a: seq<string>, b: seq<string>)
    ensures Proper(a + b) == Proper(a) + Proper(b)
  {
    if a == [] {
      assert a + b == b;
    } else {
      assert (a + b)[0] == a[0] && (a + b)[1..] == a[1..] + b;
      ProperConcat(a[1..], b);
    }
  }

  lemma NameIsPlain(name: string)
    requires SchedName(name)
    ensures '/' !in name && name != "" && name != "." && name != ".." && !Absolute(name)
  {
    assert name[0] == 's';
  }

  /** Joining a name to a directory adds one component. */
  lemma JoinedComponents(dir: string, name: string)
    requires SchedName(name)
    ensures Components(JoinPath(dir, name)) == Components(dir) + [name] || dir == []
    ensures dir == [] ==> JoinPath(dir, name) == name
  {
    NameIsPlain(name);
    OnePiece(name);
    assert Proper([name]) == [name];
    if dir == [] {
      assert dir + name == name;
    } else if dir[|dir| - 1] == '/' {
      var d := dir[..|dir| - 1];
      assert dir == d + "/" + [] && dir + name == d + "/" + name;
      PiecesJoin(d, name);
      PiecesJoin(d, []);
      ProperConcat(Pieces(d), [name]);
      ProperConcat(Pieces(d), [[]]);
    } else {
      PiecesJoin(dir, name);
      ProperConcat(Pieces(dir), [name]);
    }
  }

  /** The name found in the first directory of the search path that has it. */
  lemma {:induction false} ResolvedIn(name: string, dirs: seq<string>, exec: set<string>)
    requires SchedName(name) && ResolveIn(name, dirs, exec).Some?
    ensures var path := ResolveIn(name, dirs, exec).value;
      && path in exec && Absolute(path)
      && exists d <- dirs :: Absolute(d) && path == JoinPath(d, name) && Components(path) == Components(d) + [name]
  {
    NameIsPlain(name);
    JoinedComponents(dirs[0], name);
    JoinAbsolute(dirs[0], name);
    hide Components, JoinPath, SchedName, Absolute;
    var path := JoinPath(dirs[0], name);
    if Absolute(path) && path in exec {
      assert dirs[0] in dirs;
    } else {
      ResolvedIn(name, dirs[1..], exec);
    }
  }

  lemma JoinAbsolute(dir: string, name: string)
    requires !Absolute(name)
    ensures Absolute(JoinPath(dir, name)) ==> Absolute(dir)
  {
  }

  /** A path as a start writes it: a directory of the search path and a name. */
  ghost predicate Written(path: string, name: string, dirs: seq<string>, exec: set<string>) {
    && SchedName(name) && path in exec && Absolute(path) && InDirs(path, dirs)
    && Components(path) != [] && Components(path)[|Components(path)| - 1] == name
    && path[|path| - 1] == name[|name| - 1]
  }

  lemma ResolvedIsWritten(name: string, dirs: seq<string>, exec: set<string>)
    requires ValidName(name) && ResolveScheduler(name, dirs, exec).Some?
    ensures Written(ResolveScheduler(name, dirs, exec).value, name, dirs, exec)
    ensures exists d <- dirs :: Absolute(d) && ResolveScheduler(name, dirs, exec).value == JoinPath(d, name)
  {
    NameIsPlain(name);
    var path := ResolveScheduler(name, dirs, exec).value;
    ResolvedIn(name, dirs, exec);
    var d :| d in dirs && Absolute(d) && path == JoinPath(d, name) && Components(path) == Components(d) + [name];
    JoinEnds(d, name);
    assert path[|path| - |name|..][|name| - 1] == name[|name| - 1];
    assert Components(path)[..|Components(path)| - 1] == Components(d);
  }

  /** The scheduler behind an id. */
  ghost function PlannedName(cat: Catalog, id: string): string {
    var p := Get(cat.recommended, id);
    if p.Some? && p.value.sched.Some? then p.value.sched.value else id
  }

  lemma {:induction false} GetIsThere(profiles: seq<Profile>, id: string)
    ensures Get(profiles, id).Some? ==> Get(profiles, id).value in profiles
  {
    if profiles != [] {
      GetIsThere(profiles[1..], id);
    }
  }

  lemma PlanIsWritten(cat: Catalog, id: string, dirs: seq<string>, exec: set<string>)
    requires ValidCatalog(cat) && Plan(cat, id, dirs, exec).Some?
    ensures var l := Plan(cat, id, dirs, exec).value; var name := PlannedName(cat, id);
      && Written(l.0, name, dirs, exec) && (forall a <- l.1 :: ValidArg(a))
      && (exists d <- dirs :: Absolute(d) && l.0 == JoinPath(d, name))
      && ((exists p <- cat.recommended :: ProfileLaunch(p, dirs, exec) == Some(l)) || (l.1 == [] && Listed(cat, name)))
  {
    GetIsThere(cat.recommended, id);
    var name := PlannedName(cat, id);
    ResolvedIsWritten(name, dirs, exec);
    hide Written, ResolveScheduler, ValidArg;
  }

  lemma {:induction false} MatchExists(profiles: seq<Profile>, path: string, args: seq<string>, dirs: seq<string>,
                                       exec: set<string>)
    requires exists p <- profiles :: ProfileLaunch(p, dirs, exec) == Some((path, args))
    ensures Matching(profiles, path, args, dirs, exec).Some?
  {
    hide ProfileLaunch;
    if ProfileLaunch(profiles[0], dirs, exec) != Some((path, args)) {
      MatchExists(profiles[1..], path, args, dirs, exec);
    }
  }

  // ----- the environment after a write -----

  lemma {:induction false} AssignLast(vars: map<string, string>, pairs: seq<(string, string)>, key: string)
    ensures var v := Values(pairs, key);
      if v == [] then (key in Assign(vars, pairs) <==> key in vars)
        && (key in vars ==> Assign(vars, pairs)[key] == vars[key])
      else key in Assign(vars, pairs) && Assign(vars, pairs)[key] == v[|v| - 1]
    decreases |pairs|
  {
    if pairs != [] {
      var kv, rest := pairs[0], pairs[1..];
      AssignLast(vars[kv.0 := kv.1], rest, key);
      assert Values(pairs, key) == (if kv.0 == key then [kv.1] else []) + Values(rest, key);
      hide Values;
      assert Values(rest, key) != [] ==>
        Values(pairs, key) != []
        && Values(pairs, key)[|Values(pairs, key)| - 1] == Values(rest, key)[|Values(rest, key)| - 1];
    }
  }

  lemma {:induction false} ValuesOfOthers(pairs: seq<(string, string)>, key: string)
    requires !Managed(key)
    ensures Values(Others(pairs), key) == Values(pairs, key)
  {
    if pairs != [] {
      ValuesOfOthers(pairs[1..], key);
      PairStep(pairs[0], Others(pairs[1..]), key);
      hide Managed;
      assert [] + Others(pairs[1..]) == Others(pairs[1..]);
    }
  }

  lemma JoinEnds(dir: string, name: string)
    requires !Absolute(name)
    ensures var path := JoinPath(dir, name); |name| <= |path| && path[|path| - |name|..] == name
  {
  }

  lemma EnvironmentAfter(base: map<string, string>, content: string, launch: Launch, key: string)
    requires Supported(content) && Sound(launch) && NoCR(SchedOf(launch)) && !Managed(key)
    ensures var env := UnitEnvironment(base, Rendered(content, launch));
      && !env.error && Lookup(env, SCHEDULER_KEY) == SchedOf(launch) && Lookup(env, FLAGS_KEY) == FlagsOf(launch)
      && Lookup(env, key) == Lookup(UnitEnvironment(base, content), key)
  {
    StaysSupported(content, launch);
    SoundReads(launch);
    RenderParses(content, launch);
    hide Sound, Readable, Supported, Rendered, Parse, SchedOf, FlagsOf, Managed;
    var p, q := Parse(Rendered(content, launch)), Parse(content);
    AssignLast(base, p, SCHEDULER_KEY);
    AssignLast(base, p, FLAGS_KEY);
    ValuesOfOthers(p, key);
    ValuesOfOthers(q, key);
    AssignLast(base, p, key);
    AssignLast(base, q, key);
  }

  // ----- options as a start writes them -----

  lemma ArgIsPlain(arg: string)
    requires ValidArg(arg)
    ensures Word(arg) && Plain(arg)
  {
  }

  lemma {:induction false} JoinedArgs(args: seq<string>)
    requires forall a <- args :: ValidArg(a)
    ensures Plain(JoinWords(args)) && OneLine(JoinWords(args)) && forall a <- args :: Word(a)
  {
    if args != [] {
      assert args[0] in args;
      ArgIsPlain(args[0]);
      JoinedArgs(args[1..]);
      hide ValidArg, Word;
      assert forall a <- args :: a == args[0] || a in args[1..];
    }
  }

  lemma NameChars(name: string)
    requires SchedName(name)
    ensures var c := name[|name| - 1]; !White(c) && c != '\\' && c != '\r' && c != '\n'
  {
    assert name[|name| - 1] in name;
  }

  lemma WrittenIsSound(path: string, name: string, args: seq<string>, dirs: seq<string>, exec: set<string>)
    requires Written(path, name, dirs, exec) && OneLine(path) && forall a <- args :: ValidArg(a)
    ensures Sound(Set(path, args))
  {
    NameChars(name);
    JoinedArgs(args);
    hide ValidArg, Components, JoinWords, Word;
  }

  /** No override is in effect. */
  ghost predicate NoOverride(env: Environment) {
    Lookup(env, SCHEDULER_OVERRIDE_KEY) == "" && Lookup(env, FLAGS_OVERRIDE_KEY) == ""
  }

  lemma OverridesAreOthers()
    ensures !Managed(SCHEDULER_OVERRIDE_KEY) && !Managed(FLAGS_OVERRIDE_KEY)
  {
    assert |SCHEDULER_OVERRIDE_KEY| != |SCHEDULER_KEY| && |SCHEDULER_OVERRIDE_KEY| != |FLAGS_KEY|;
    assert |FLAGS_OVERRIDE_KEY| != |SCHEDULER_KEY| && |FLAGS_OVERRIDE_KEY| != |FLAGS_KEY|;
  }

  /** The resumed scheduler is the one that was started, and the file need not be rewritten. */
  ghost predicate ResumesAs(r: Option<Resumed>, path: string, args: seq<string>) {
    r.Some? && r.value.path == path && r.value.args == args && !r.value.pin
  }

  /** What a start wrote is accepted. */
  lemma Accepted(cat: Catalog, env: Environment, path: string, name: string, args: seq<string>, dirs: seq<string>,
                 exec: set<string>)
    requires Written(path, name, dirs, exec) && ValidSched(path) && forall a <- args :: ValidArg(a)
    requires (exists p <- cat.recommended :: ProfileLaunch(p, dirs, exec) == Some((path, args)))
      || (args == [] && Listed(cat, name))
    requires !env.error && NoOverride(env) && Lookup(env, SCHEDULER_KEY) == path
    requires Lookup(env, FLAGS_KEY) == JoinWords(args)
    ensures ResumesAs(Resumable(cat, env, dirs, exec), path, args)
  {
    JoinedArgs(args);
    FlagsRoundTrip(args);
    assert CanonicalFlags(JoinWords(args)) == Some(args);
    assert ResolveScheduler(path, dirs, exec) == Some(path);
    assert path != "" && SchedBase(path) == name by {
      NameIsPlain(name);
    }
    if exists p <- cat.recommended :: ProfileLaunch(p, dirs, exec) == Some((path, args)) {
      MatchExists(cat.recommended, path, args, dirs, exec);
    }
    hide Written, ValidSched, ProfileLaunch, ResolveScheduler, CanonicalFlags, SchedBase, Matching, Listed, ValidArg,
         JoinWords, SplitFlags;
  }

  /** Whatever is accepted without being rewritten is a valid path. */
  lemma AcceptedIsValid(cat: Catalog, env: Environment, path: string, args: seq<string>, dirs: seq<string>,
                        exec: set<string>)
    requires ResumesAs(Resumable(cat, env, dirs, exec), path, args)
    ensures !env.error && Lookup(env, SCHEDULER_KEY) == path && ValidSched(path)
  {
    hide ValidSched, Matching, CanonicalFlags, SchedBase, Listed;
  }

  lemma CRInside(path: string, name: string, dirs: seq<string>, exec: set<string>)
    requires Written(path, name, dirs, exec) && OneLine(path) && !NoCR(path)
    ensures InnerCR(path)
  {
    NameChars(name);
    hide Components, SchedName, InDirs;
    var i :| 0 <= i < |path| && path[i] == '\r';
    assert i < |path| - 1 && path[i + 1] in path;
  }

  /** A path that breaks its line, or holds a carriage return, is never read back. */
  lemma NotReadBack(base: map<string, string>, content: string, path: string, name: string, args: seq<string>,
                    dirs: seq<string>, exec: set<string>)
    requires Written(path, name, dirs, exec) && forall a <- args :: ValidArg(a)
    requires !(OneLine(path) && NoCR(path))
    ensures var env := UnitEnvironment(base, Rendered(content, Set(path, args)));
      env.error || Lookup(env, SCHEDULER_KEY) != path
  {
    JoinedArgs(args);
    var text := Rendered(content, Set(path, args));
    if OneLine(path) {
      CRInside(path, name, dirs, exec);
      CRIsRefused(content, path, args);
    } else {
      BrokenPath(content, path, args);
      ReadValuesOneLine(text, SCHEDULER_KEY);
      AssignLast(base, Parse(text), SCHEDULER_KEY);
      var v := Values(Parse(text), SCHEDULER_KEY);
      assert v[|v| - 1] in v;
    }
  }

  /** Starting and resuming: for every file without overrides and every launch that a start accepts, the
      resume accepts the rewritten file with the same path and options and nothing left to rewrite,
      exactly when the path is one that may be configured and fits on a line. */
  lemma RoundTrip(cat: Catalog, id: string, base: map<string, string>, content: string, dirs: seq<string>,
                  exec: set<string>)
    requires ValidCatalog(cat) && Plan(cat, id, dirs, exec).Some?
    requires Supported(content) && NoOverride(UnitEnvironment(base, content))
    ensures var l := Plan(cat, id, dirs, exec).value;
      var env := UnitEnvironment(base, Rendered(content, Set(l.0, l.1)));
      ResumesAs(Resumable(cat, env, dirs, exec), l.0, l.1) <==> ValidSched(l.0) && OneLine(l.0) && NoCR(l.0)
  {
    PlanIsWritten(cat, id, dirs, exec);
    hide *;
    var l, name := Plan(cat, id, dirs, exec).value, PlannedName(cat, id);
    var env := UnitEnvironment(base, Rendered(content, Set(l.0, l.1)));
    if OneLine(l.0) && NoCR(l.0) {
      WrittenIsSound(l.0, name, l.1, dirs, exec);
      Quiet(base, content, l.0, l.1);
      if ValidSched(l.0) {
        Accepted(cat, env, l.0, name, l.1, dirs, exec);
      }
    } else {
      NotReadBack(base, content, l.0, name, l.1, dirs, exec);
    }
    if ResumesAs(Resumable(cat, env, dirs, exec), l.0, l.1) {
      AcceptedIsValid(cat, env, l.0, l.1, dirs, exec);
    }
  }

  lemma Quiet(base: map<string, string>, content: string, path: string, args: seq<string>)
    requires Supported(content) && Sound(Set(path, args)) && NoCR(path) && NoOverride(UnitEnvironment(base, content))
    ensures var env := UnitEnvironment(base, Rendered(content, Set(path, args)));
      !env.error && NoOverride(env) && Lookup(env, SCHEDULER_KEY) == path && Lookup(env, FLAGS_KEY) == JoinWords(args)
  {
    OverridesAreOthers();
    hide Supported, Sound, Rendered, Managed, UnitEnvironment, Lookup;
    EnvironmentAfter(base, content, Set(path, args), SCHEDULER_OVERRIDE_KEY);
    EnvironmentAfter(base, content, Set(path, args), FLAGS_OVERRIDE_KEY);
  }

  // ----- the directories for which it holds -----

  /** A directory with one slash at its end. */
  function Slashed(d: string): string { if d != [] && d[|d| - 1] == '/' then d else d + "/" }

  /** A directory that makes paths which may be configured: plain, under one of the trees, on one line. */
  ghost predicate FitDir(d: string) {
    && Absolute(d) && !DoubleSlash(d) && InTrees(Slashed(d)) && ".." !in Components(d) && Components(d) != []
    && OneLine(d) && NoCR(d)
  }

  lemma JoinIsSlashed(d: string, name: string)
    requires Absolute(d) && !Absolute(name)
    ensures JoinPath(d, name) == Slashed(d) + name
  {
  }

  /** A slash in a path is one of the directory. */
  lemma SlashesOfPath(d: string, name: string)
    requires Absolute(d) && '/' !in name
    ensures DoubleSlash(Slashed(d) + name) <==> DoubleSlash(d)
  {
    var p := Slashed(d) + name;
    forall i | |Slashed(d)| <= i < |p| ensures p[i] != '/' {
      assert p[i] == name[i - |Slashed(d)|];
    }
    if DoubleSlash(d) {
      var i :| 0 <= i < |d| - 1 && d[i] == '/' && d[i + 1] == '/';
      assert p[i] == '/' && p[i + 1] == '/';
    }
    if DoubleSlash(p) {
      var i :| 0 <= i < |p| - 1 && p[i] == '/' && p[i + 1] == '/';
      assert i + 1 < |Slashed(d)|;
      assert d[i] == p[i];
      assert i + 1 < |d|;
    }
  }

  /** A prefix that ends in a slash is one of the directory. */
  lemma PrefixOfPath(d: string, name: string, t: string)
    requires Absolute(d) && '/' !in name && t != [] && t[|t| - 1] == '/'
    ensures StartsWith(Slashed(d) + name, t) <==> StartsWith(Slashed(d), t)
  {
    var p := Slashed(d) + name;
    assert forall i :: |Slashed(d)| <= i < |p| ==> p[i] == name[i - |Slashed(d)|] != '/';
    assert t <= p ==> p[|t| - 1] == '/';
  }

  lemma TreesOfPath(d: string, name: string)
    requires Absolute(d) && '/' !in name
    ensures InTrees(Slashed(d) + name) <==> InTrees(Slashed(d))
  {
    PrefixOfPath(d, name, "/usr/");
    PrefixOfPath(d, name, "/bin/");
    PrefixOfPath(d, name, "/sbin/");
  }

  lemma LineOfPath(d: string, name: string)
    requires SchedName(name)
    ensures var p := Slashed(d) + name; OneLine(p) && NoCR(p) <==> OneLine(d) && NoCR(d)
  {
    var p := Slashed(d) + name;
    assert forall c <- name :: c != '\n' && c != '\r';
    assert forall c <- d :: c in p;
    assert forall c <- p :: c in d || c == '/' || c in name;
  }

  /** A path may be configured and fits on a line exactly if its directory is fit. */
  lemma FitsExactly(d: string, name: string)
    requires Absolute(d) && SchedName(name)
    ensures var p := JoinPath(d, name); FitDir(d) <==> ValidSched(p) && OneLine(p) && NoCR(p)
  {
    NameIsPlain(name);
    JoinedComponents(d, name);
    JoinIsSlashed(d, name);
    SlashesOfPath(d, name);
    TreesOfPath(d, name);
    LineOfPath(d, name);
    var p := JoinPath(d, name);
    assert p[|p| - 1] == name[|name| - 1] && name[|name| - 1] in name;
    assert Absolute(p) && Components(p)[|Components(p)| - 1] == name;
    assert ".." in Components(p) <==> ".." in Components(d);
    hide Components, InTrees, DoubleSlash, OneLine, NoCR, SchedName;
  }

  /** A search takes the name from the first directory if it is there, and from the rest of them otherwise. */
  lemma SearchStep(name: string, dirs: seq<string>, exec: set<string>)
    requires SchedName(name) && ResolveIn(name, dirs, exec).Some?
    ensures dirs != []
    ensures Misses(dirs[0], name, exec) ==>
      ResolveIn(name, dirs[1..], exec) == ResolveIn(name, dirs, exec)
    ensures !Misses(dirs[0], name, exec) ==>
      Absolute(dirs[0]) && ResolveIn(name, dirs, exec).value == JoinPath(dirs[0], name)
  {
    NameIsPlain(name);
    JoinAbsolute(dirs[0], name);
    JoinKeepsAbsolute(dirs[0], name);
    hide JoinPath, SchedName, Absolute;
  }

  ghost predicate Misses(dir: string, name: string, exec: set<string>) {
    !Absolute(dir) || JoinPath(dir, name) !in exec
  }

  /** Where in the search path a name is found: the first directory that has it. */
  lemma {:induction false} FirstDir(name: string, dirs: seq<string>, exec: set<string>) returns (i: nat)
    requires SchedName(name) && ResolveIn(name, dirs, exec).Some?
    ensures i < |dirs| && Absolute(dirs[i]) && ResolveIn(name, dirs, exec).value == JoinPath(dirs[i], name)
    ensures forall j :: 0 <= j < i ==> Misses(dirs[j], name, exec)
  {
    hide *;
    SearchStep(name, dirs, exec);
    if Misses(dirs[0], name, exec) {
      var k := FirstDir(name, dirs[1..], exec);
      i := k + 1;
      forall j | 0 <= j < i ensures Misses(dirs[j], name, exec) {
        assert j > 0 ==> dirs[j] == dirs[1..][j - 1];
      }
    } else {
      i := 0;
    }
  }

  lemma JoinKeepsAbsolute(d: string, name: string)
    requires !Absolute(name)
    ensures Absolute(d) ==> Absolute(JoinPath(d, name))
  {
  }

  /**
   * A launch that a start accepts is resumed as it was, exactly if the first directory of the search path that
   * has the scheduler is fit.
   */
  lemma ResumesExactly(cat: Catalog, id: string, base: map<string, string>, content: string, dirs: seq<string>,
                       exec: set<string>)
    returns (i: nat)
    requires ValidCatalog(cat) && Plan(cat, id, dirs, exec).Some?
    requires Supported(content) && NoOverride(UnitEnvironment(base, content))
    ensures i < |dirs| && Absolute(dirs[i]) && JoinPath(dirs[i], PlannedName(cat, id)) in exec
    ensures forall j :: 0 <= j < i ==> Misses(dirs[j], PlannedName(cat, id), exec)
    ensures var l := Plan(cat, id, dirs, exec).value;
      var resumed := Resumable(cat, UnitEnvironment(base, Rendered(content, Set(l.0, l.1))), dirs, exec);
      ResumesAs(resumed, l.0, l.1) <==> FitDir(dirs[i])
  {
    var l, name := Plan(cat, id, dirs, exec).value, PlannedName(cat, id);
    PlanResolves(cat, id, dirs, exec);
    hide *;
    i := FirstDir(name, dirs, exec);
    FitsExactly(dirs[i], name);
    RoundTrip(cat, id, base, content, dirs, exec);
  }

  lemma PlanResolves(cat: Catalog, id: string, dirs: seq<string>, exec: set<string>)
    requires ValidCatalog(cat) && Plan(cat, id, dirs, exec).Some?
    ensures var name := PlannedName(cat, id);
      && SchedName(name) && ResolveIn(name, dirs, exec) == Some(Plan(cat, id, dirs, exec).value.0)
      && Plan(cat, id, dirs, exec).value.0 in exec
  {
    PlanIsWritten(cat, id, dirs, exec);
    GetIsThere(cat.recommended, id);
    NameIsPlain(PlannedName(cat, id));
  }

  /** With fit directories only, every launch that a start accepts comes back. */
  lemma AlwaysResumes(cat: Catalog, id: string, base: map<string, string>, content: string, dirs: seq<string>,
                      exec: set<string>)
    requires ValidCatalog(cat) && Plan(cat, id, dirs, exec).Some? && (forall d <- dirs :: FitDir(d))
    requires Supported(content) && NoOverride(UnitEnvironment(base, content))
    ensures var l := Plan(cat, id, dirs, exec).value;
      ResumesAs(Resumable(cat, UnitEnvironment(base, Rendered(content, Set(l.0, l.1))), dirs, exec), l.0, l.1)
  {
    hide *;
    var i := ResumesExactly(cat, id, base, content, dirs, exec);
    assert dirs[i] in dirs;
  }

  /** A resume refuses a file that names an invalid path. */
  lemma InvalidIsRefused(cat: Catalog, env: Environment, dirs: seq<string>, exec: set<string>)
    requires !ValidSched(Lookup(env, SCHEDULER_KEY))
    ensures Resumable(cat, env, dirs, exec) == None
  {
    hide ValidSched, Lookup;
  }

  /** A directory under /usr with a doubled slash: whatever the file held, the start succeeds and the resume refuses. */
  lemma DoubledSlash(base: map<string, string>, content: string)
    requires Supported(content) && NoOverride(UnitEnvironment(base, content))
    ensures var cat, dirs, exec := Catalog([], []), ["/usr//bin"], {"/usr//bin/scx_a"};
      && Plan(cat, "scx_a", dirs, exec) == Some(("/usr//bin/scx_a", []))
      && Resumable(cat, UnitEnvironment(base, Rendered(content, Set("/usr//bin/scx_a", []))), dirs, exec) == None
  {
    hide *;
    var path := "/usr//bin/scx_a";
    DoubledPlan();
    DoubledPath();
    PlanIsWritten(Catalog([], []), "scx_a", ["/usr//bin"], {path});
    WrittenIsSound(path, "scx_a", [], ["/usr//bin"], {path});
    Quiet(base, content, path, []);
    InvalidIsRefused(Catalog([], []), UnitEnvironment(base, Rendered(content, Set(path, []))), ["/usr//bin"], {path});
  }

  lemma DoubledPath()
    ensures var path := "/usr//bin/scx_a"; !ValidSched(path) && OneLine(path) && NoCR(path)
  {
    hide Components, SchedName;
    var path := "/usr//bin/scx_a";
    assert path[4] == '/' && path[5] == '/';
    assert DoubleSlash(path);
  }

  lemma DoubledPlan()
    ensures Plan(Catalog([], []), "scx_a", ["/usr//bin"], {"/usr//bin/scx_a"}) == Some(("/usr//bin/scx_a", []))
    ensures ValidCatalog(Catalog([], [])) && PlannedName(Catalog([], []), "scx_a") == "scx_a"
  {
    var name, path := "scx_a", "/usr//bin/scx_a";
    assert JoinPath("/usr//bin", name) == path;
    assert |name| == 5 && name !in NOT_SCHEDULERS;
    assert SchedName(name) && !Absolute(name);
    assert ResolveIn(name, ["/usr//bin"], {path}) == Some(path);
  }

  // ----- what a start and a resume come to -----

  /** Directory d is the first of the search path that has the name; d is their number if none has it. */
  ghost predicate FirstHas(d: nat, name: string, dirs: seq<string>, exec: set<string>) {
    && d <= |dirs| && (forall j :: 0 <= j < d ==> Misses(dirs[j], name, exec))
    && (d < |dirs| ==> !Misses(dirs[d], name, exec))
  }

  lemma {:induction false} Search(name: string, dirs: seq<string>, exec: set<string>) returns (d: nat)
    requires SchedName(name)
    ensures FirstHas(d, name, dirs, exec)
    ensures ResolveIn(name, dirs, exec) == if d < |dirs| then Some(JoinPath(dirs[d], name)) else None
  {
    if dirs == [] {
      d := 0;
    } else {
      NameIsPlain(name);
      JoinAbsolute(dirs[0], name);
      JoinKeepsAbsolute(dirs[0], name);
      hide JoinPath, SchedName, Absolute;
      if Misses(dirs[0], name, exec) {
        d := Search(name, dirs[1..], exec);
        d := d + 1;
        assert forall j :: 0 < j < |dirs| ==> dirs[j] == dirs[1..][j - 1];
      } else {
        d := 0;
      }
    }
  }

  /** The first profile of an id, or their number if there is none. */
  ghost predicate FirstOf(i: nat, id: string, profiles: seq<Profile>) {
    && i <= |profiles| && (forall j :: 0 <= j < i ==> profiles[j].id != id)
    && (i < |profiles| ==> profiles[i].id == id)
  }

  lemma {:induction false} GetFirst(profiles: seq<Profile>, id: string) returns (i: nat)
    ensures FirstOf(i, id, profiles)
    ensures Get(profiles, id) == if i < |profiles| then Some(profiles[i]) else None
  {
    if profiles == [] || profiles[0].id == id {
      i := 0;
    } else {
      i := GetFirst(profiles[1..], id);
      i := i + 1;
      assert forall j :: 0 < j < |profiles| ==> profiles[j] == profiles[1..][j - 1];
    }
  }

  /**
   * What a start launches: with the first profile of the id, if it names a scheduler, that scheduler with the options
   * of the profile, and else the scheduler of that name without options; from the first directory that has it. It is
   * refused exactly if no directory has it or the name may not be started.
   */
  lemma PlanExactly(cat: Catalog, id: string, dirs: seq<string>, exec: set<string>)
    returns (i: nat, name: string, d: nat)
    requires ValidCatalog(cat)
    ensures FirstOf(i, id, cat.recommended)
    ensures var custom := i < |cat.recommended| && cat.recommended[i].sched.Some?;
      && name == (if custom then cat.recommended[i].sched.value else id)
      && (SchedName(name) ==> FirstHas(d, name, dirs, exec))
      && Plan(cat, id, dirs, exec) ==
           if SchedName(name) && name !in NOT_SCHEDULERS && (custom || name !in cat.hidden) && d < |dirs|
           then Some((JoinPath(dirs[d], name), if custom then cat.recommended[i].args else []))
           else None
  {
    i := GetFirst(cat.recommended, id);
    var custom := i < |cat.recommended| && cat.recommended[i].sched.Some?;
    name := if custom then cat.recommended[i].sched.value else id;
    d := 0;
    assert custom ==> cat.recommended[i] in cat.recommended;
    if SchedName(name) {
      NameIsPlain(name);
      d := Search(name, dirs, exec);
    } else {
      NotAName(name);
    }
    hide FirstHas, JoinPath, SchedName, FirstOf;
  }

  lemma NotAName(name: string)
    requires !SchedName(name)
    ensures !ValidName(name)
  {
  }

  /** The profile launches the scheduler at this path with these options. */
  ghost predicate Launches(p: Profile, path: string, args: seq<string>, dirs: seq<string>, exec: set<string>) {
    && p.sched.Some? && p.args == args && SchedName(p.sched.value) && p.sched.value !in NOT_SCHEDULERS
    && exists d: nat :: d < |dirs| && FirstHas(d, p.sched.value, dirs, exec) && path == JoinPath(dirs[d], p.sched.value)
  }

  lemma OneFirst(c: nat, d: nat, name: string, dirs: seq<string>, exec: set<string>)
    requires FirstHas(c, name, dirs, exec) && FirstHas(d, name, dirs, exec)
    ensures c == d
  {
  }

  lemma LaunchIs(p: Profile, path: string, args: seq<string>, dirs: seq<string>, exec: set<string>)
    requires p.sched.Some? ==> ValidName(p.sched.value)
    ensures ProfileLaunch(p, dirs, exec) == Some((path, args)) <==> Launches(p, path, args, dirs, exec)
  {
    if p.sched.Some? {
      var name := p.sched.value;
      NameIsPlain(name);
      var d := Search(name, dirs, exec);
      forall c: nat | FirstHas(c, name, dirs, exec) ensures c == d {
        OneFirst(c, d, name, dirs, exec);
      }
      hide FirstHas, JoinPath, SchedName;
    }
  }

  /** The first profile that launches this, or their number if none does. */
  lemma {:induction false} MatchIs(profiles: seq<Profile>, path: string, args: seq<string>, dirs: seq<string>,
                                   exec: set<string>)
    returns (i: nat)
    requires forall p <- profiles :: p.sched.Some? ==> ValidName(p.sched.value)
    ensures i <= |profiles| && (forall j :: 0 <= j < i ==> !Launches(profiles[j], path, args, dirs, exec))
    ensures i < |profiles| ==> Launches(profiles[i], path, args, dirs, exec)
    ensures Matching(profiles, path, args, dirs, exec) == if i < |profiles| then Some(profiles[i].id) else None
  {
    hide Launches, ProfileLaunch, ValidName;
    if profiles == [] {
      i := 0;
    } else {
      LaunchIs(profiles[0], path, args, dirs, exec);
      if Launches(profiles[0], path, args, dirs, exec) {
        i := 0;
      } else {
        i := MatchIs(profiles[1..], path, args, dirs, exec);
        i := i + 1;
        assert forall j :: 0 < j < |profiles| ==> profiles[j] == profiles[1..][j - 1];
      }
    }
  }

  /** Where a configured scheduler is: at its path, if that is in a search directory, or in the first that has it. */
  ghost predicate IsAt(configured: string, path: string, dirs: seq<string>, exec: set<string>) {
    if Absolute(configured) then
      && path == configured && ValidSched(path) && path in exec
      && exists d <- dirs :: Absolute(d) && Components(path) == Components(d) + [SchedBase(path)]
    else
      && SchedName(configured)
      && exists d: nat :: d < |dirs| && FirstHas(d, configured, dirs, exec) && path == JoinPath(dirs[d], configured)
  }

  /** A valid path is in the search path exactly if it is an absolute directory of it with the scheduler's name. */
  lemma InDirsMeans(path: string, dirs: seq<string>)
    requires Absolute(path)
    ensures ValidSched(path) ==>
      (InDirs(path, dirs) <==> exists d <- dirs :: Absolute(d) && Components(path) == Components(d) + [SchedBase(path)])
  {
    if ValidSched(path) {
      var c := Components(path);
      assert SchedBase(path) == c[|c| - 1] && c == c[..|c| - 1] + [c[|c| - 1]];
      forall d | d in dirs
        ensures Components(d) == c[..|c| - 1] <==> c == Components(d) + [SchedBase(path)]
      {
        assert c == Components(d) + [SchedBase(path)] ==> c[..|c| - 1] == Components(d);
      }
      hide Components, SchedBase;
    }
  }

  lemma ResolvesTo(configured: string, dirs: seq<string>, exec: set<string>) returns (path: Option<string>)
    ensures ResolveScheduler(configured, dirs, exec) == path
    ensures path.Some? ==> IsAt(configured, path.value, dirs, exec)
    ensures path.None? ==> forall other :: !IsAt(configured, other, dirs, exec)
  {
    path := ResolveScheduler(configured, dirs, exec);
    if Absolute(configured) {
      InDirsMeans(configured, dirs);
      hide SchedBase, InDirs, Components, ValidSched;
    } else if SchedName(configured) {
      var d := Search(configured, dirs, exec);
      forall c: nat | FirstHas(c, configured, dirs, exec) ensures c == d {
        OneFirst(c, d, configured, dirs, exec);
      }
      hide FirstHas, JoinPath, SchedName;
    }
  }

  /**
   * What a resume accepts: a readable file without overrides that names a scheduler in the search path and options in
   * the written form, which are those of a profile that launches just this, or none, for a scheduler that is listed.
   */
  lemma ResumableExactly(cat: Catalog, env: Environment, dirs: seq<string>, exec: set<string>)
    returns (path: Option<string>, i: nat)
    requires ValidCatalog(cat)
    ensures var configured, raw := Lookup(env, SCHEDULER_KEY), Lookup(env, FLAGS_KEY);
      var args := SplitFlags(raw);
      && (path.Some? ==> IsAt(configured, path.value, dirs, exec))
      && (path.None? ==> forall other :: !IsAt(configured, other, dirs, exec))
      && i <= |cat.recommended|
      && (path.Some? ==>
            && (forall j :: 0 <= j < i ==> !Launches(cat.recommended[j], path.value, args, dirs, exec))
            && (i < |cat.recommended| ==> Launches(cat.recommended[i], path.value, args, dirs, exec)))
      && Resumable(cat, env, dirs, exec) ==
           if env.error || !NoOverride(env) || configured == "" || JoinWords(args) != raw || path.None? then None
           else if i < |cat.recommended| then
             var profile := Some(cat.recommended[i].id);
             Some(Resumed(SchedBase(path.value), path.value, args, profile, configured != path.value))
           else if args == [] && Listed(cat, SchedBase(path.value)) then
             Some(Resumed(SchedBase(path.value), path.value, [], None, configured != path.value))
           else None
  {
    path := ResolvesTo(Lookup(env, SCHEDULER_KEY), dirs, exec);
    i := 0;
    if path.Some? {
      i := MatchIs(cat.recommended, path.value, SplitFlags(Lookup(env, FLAGS_KEY)), dirs, exec);
    }
    hide Launches, IsAt, ResolveScheduler, SchedBase, Listed, JoinWords, SplitFlags, Matching, ValidCatalog;
  }

  // ----- names and options -----

  /** A scheduler is `scx_` and 1 to 60 more letters, digits, underscores and dashes. */
  lemma NameLimits(rest: string)
    ensures SchedName("scx_" + rest) <==>
      1 <= |rest| <= 60 && forall c <- rest :: 'a' <= c <= 'z' || 'A' <= c <= 'Z' || '0' <= c <= '9' || c in "_-"
    ensures SchedName(rest) ==> |rest| > 4 && rest[..4] == "scx_"
  {
    var name := "scx_" + rest;
    assert name[..4] == "scx_" && name[4..] == rest;
    assert forall c <- rest :: c in name;
    assert forall c <- name :: c in rest || c in "scx_";
  }

  /** An option has 1 to 256 characters, none of which a shell or the splitting at blanks would take apart. */
  lemma OptionLimits(arg: string)
    ensures ValidArg(arg) <==>
      && 1 <= |arg| <= 256
      && forall c <- arg :: 'a' <= c <= 'z' || 'A' <= c <= 'Z' || '0' <= c <= '9' || c in "-_=.,:/+"
    ensures ValidArg(arg) ==> forall c <- arg :: !White(c) && c !in "\"'\\$`;&|<>()*?[]{}~#!"
  {
  }
}
