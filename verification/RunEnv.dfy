/** Choosing which of the run's variables to apply to a session, and applying them. */
module RunEnv {
  import opened Wrappers
  import Text

  type Var = (string, string)

  /** A value in a process environment: text, or bytes that are not UTF-8. */
  datatype Value = Text(text: string) | Bytes(bytes: seq<bv8>)

  type Env = map<string, Value>

  datatype EnvFile = EnvFile(runUid: Option<nat>, env: seq<Var>)

  const IDENTITY := {
    "HOME", "PWD", "OLDPWD", "SHLVL", "USER", "LOGNAME", "SHELL", "HOSTNAME", "TERM", "IFS", "_",
    "_vk_env", "VIRTKIT_SSH_PATH"
  }

  predicate SteersExecution(name: string) {
    || name == "PATH" || "LD_" <= name
    || name == "GCONV_PATH" || name == "BASH_ENV" || name == "ENV"
  }

  /** The names that may pass from the file of a run: none that a session has of its own, and from another
      user's file none that steers which program or library is run. */
  predicate MayPass(name: string, own: bool) {
    && name !in {"HOME", "PWD", "OLDPWD", "SHLVL", "USER", "LOGNAME", "SHELL", "HOSTNAME", "TERM", "IFS", "_",
                 "_vk_env", "VIRTKIT_SSH_PATH"}
    && (own || (name !in {"PATH", "GCONV_PATH", "BASH_ENV", "ENV"} && (|name| < 3 || name[..3] != "LD_")))
  }

  // The search path.

  /** `entries`, then each of `more` it lacks, in order. */
  function Extended(entries: seq<string>, more: seq<string>): seq<string> {
    if more == [] then entries
    else
      var so := Extended(entries, more[..|more| - 1]);
      if more[|more| - 1] in so then so else so + [more[|more| - 1]]
  }

  function MergePath(run: string, current: Option<string>): string {
    var entries := Text.Split(run, ':');
    Text.Join(Extended(entries, if current.Some? then Text.Split(current.value, ':') else []), ':')
  }

  lemma {:induction false} ExtendedKeeps(entries: seq<string>, more: seq<string>)
    ensures entries <= Extended(entries, more)
    ensures forall e :: e in Extended(entries, more) <==> e in entries || e in more
  {
    if more != [] {
      var init := more[..|more| - 1];
      ExtendedKeeps(entries, init);
      assert more == init + [more[|more| - 1]];
    }
  }

  method Merge(run: string, current: Option<string>) returns (path: string)
    ensures path == MergePath(run, current)
  {
    var entries := Text.Split(run, ':');
    ghost var first := entries;
    var more := if current.Some? then Text.Split(current.value, ':') else [];
    for i := 0 to |more|
      invariant entries == Extended(first, more[..i])
    {
      assert more[..i + 1][..i] == more[..i];
      if more[i] !in entries {
        entries := entries + [more[i]];
      }
    }
    assert more[..|more|] == more;
    ExtendedKeeps(first, more);
    path := Text.Join(entries, ':');
  }

  lemma {:induction false} ExtendedFree(entries: seq<string>, more: seq<string>)
    requires forall e <- entries :: Text.Free(e, ':')
    requires forall e <- more :: Text.Free(e, ':')
    ensures forall e <- Extended(entries, more) :: Text.Free(e, ':')
  {
    ExtendedKeeps(entries, more);
  }

  /** What follows the run's own entries in `path`: each once, and none of the run's. */
  predicate Fresh(entries: seq<string>, path: seq<string>) {
    && entries <= path
    && forall i: nat | |entries| <= i < |path| :: path[i] !in path[..i]
  }

  lemma {:induction false} ExtendedFresh(entries: seq<string>, more: seq<string>)
    ensures Fresh(entries, Extended(entries, more))
  {
    if more != [] {
      var init := more[..|more| - 1];
      ExtendedFresh(entries, init);
      var (so, path) := (Extended(entries, init), Extended(entries, more));
      assert forall i: nat | i < |so| :: path[..i] == so[..i];
      assert path != so ==> path[..|so|] == so;
    }
  }

  /** Extending by a path that already extends the same entries gives that path back. */
  lemma {:induction false} ExtendedStable(entries: seq<string>, path: seq<string>, n: nat)
    requires Fresh(entries, path) && n <= |path|
    ensures Extended(entries, path[..n]) == if n <= |entries| then entries else path[..n]
  {
    if n > 0 {
      ExtendedStable(entries, path, n - 1);
      assert path[..n][..n - 1] == path[..n - 1];
      assert path[..n] == path[..n - 1] + [path[n - 1]];
      if n <= |entries| {
        assert path[n - 1] == entries[n - 1];
      } else if n - 1 == |entries| {
        assert path[..n - 1] == entries;
      }
    }
  }

  /** Merging the run's path into a path it was already merged into changes nothing. */
  lemma MergeIdempotent(run: string, current: Option<string>)
    ensures MergePath(run, Some(MergePath(run, current))) == MergePath(run, current)
  {
    var entries := Text.Split(run, ':');
    var more := if current.Some? then Text.Split(current.value, ':') else [];
    var path := Extended(entries, more);
    Text.SplitPartsFree(run, ':');
    if current.Some? {
      Text.SplitPartsFree(current.value, ':');
    }
    ExtendedKeeps(entries, more);
    ExtendedFree(entries, more);
    Text.SplitJoin(path, ':');
    ExtendedFresh(entries, more);
    ExtendedStable(entries, path, |path|);
    assert path[..|path|] == path;
    assert |path| == |entries| ==> path == entries;
  }

  /** The entries of `more` that `entries` lacks, in order and each once. */
  function Missing(entries: seq<string>, more: seq<string>): seq<string>
    decreases |more|
  {
    if more == [] then []
    else if more[0] in entries then Missing(entries, more[1..])
    else [more[0]] + Missing(entries + [more[0]], more[1..])
  }

  lemma {:induction false} MissingMore(entries: seq<string>, more: seq<string>, e: string)
    ensures var so := entries + Missing(entries, more);
            Missing(entries, more + [e]) == Missing(entries, more) + if e in so then [] else [e]
    decreases |more|
  {
    if more == [] {
      assert more + [e] == [e] && [e][1..] == [];
      Text.Unit(entries);
    } else {
      Text.TailPlus(more, [e]);
      if more[0] in entries {
        MissingMore(entries, more[1..], e);
      } else {
        var next := entries + [more[0]];
        MissingMore(next, more[1..], e);
        Text.Assoc(entries, [more[0]], Missing(next, more[1..]));
        Text.Assoc([more[0]], Missing(next, more[1..]),
                   if e in next + Missing(next, more[1..]) then [] else [e]);
      }
    }
  }

  lemma {:induction false} ExtendedIs(entries: seq<string>, more: seq<string>)
    ensures Extended(entries, more) == entries + Missing(entries, more)
  {
    if more == [] {
      Text.Unit(entries);
    } else {
      var (init, e) := (more[..|more| - 1], more[|more| - 1]);
      ExtendedIs(entries, init);
      MissingMore(entries, init, e);
      assert init + [e] == more;
      Text.Assoc(entries, Missing(entries, init), [e]);
    }
  }

  /** The merged path, entry by entry: the run's, then those of the caller's that it lacks. */
  lemma MergeIs(run: string, current: Option<string>)
    ensures var (entries, more) := (Text.Split(run, ':'), if current.Some? then Text.Split(current.value, ':') else []);
            Text.Split(MergePath(run, current), ':') == entries + Missing(entries, more)
  {
    var (entries, more) := (Text.Split(run, ':'), if current.Some? then Text.Split(current.value, ':') else []);
    Text.SplitPartsFree(run, ':');
    if current.Some? {
      Text.SplitPartsFree(current.value, ':');
    }
    ExtendedKeeps(entries, more);
    ExtendedFree(entries, more);
    Text.SplitJoin(Extended(entries, more), ':');
    ExtendedIs(entries, more);
  }

  /** The run's entries lead, and nothing of the caller's is lost. */
  lemma MergeKeeps(run: string, current: string)
    ensures var path := Text.Split(MergePath(run, Some(current)), ':');
            && Text.Split(run, ':') <= path
            && forall e :: e in path <==> e in Text.Split(run, ':') || e in Text.Split(current, ':')
  {
    var (entries, more) := (Text.Split(run, ':'), Text.Split(current, ':'));
    Text.SplitPartsFree(run, ':');
    Text.SplitPartsFree(current, ':');
    ExtendedKeeps(entries, more);
    ExtendedFree(entries, more);
    Text.SplitJoin(Extended(entries, more), ':');
  }

  // Choosing variables.

  function TextOf(env: Env, name: string): Option<string> {
    if name in env && env[name].Text? then Some(env[name].text) else None
  }

  /** The search path a login is given; none to replace a session path that is not text. */
  function LoginPath(v: string, env: Env): Option<string> {
    if "VIRTKIT_SSH_PATH" in env then TextOf(env, "VIRTKIT_SSH_PATH")
    else Some(MergePath(v, TextOf(env, "PATH")))
  }

  predicate Offered(file: EnvFile, euid: nat, name: string) {
    name !in IDENTITY && (file.runUid == Some(euid) || !SteersExecution(name))
  }

  lemma OfferedIs(file: EnvFile, euid: nat, name: string)
    ensures Offered(file, euid, name) <==> MayPass(name, file.runUid == Some(euid))
  {
  }

  /** What becomes of one variable of the file. */
  function Chosen(file: EnvFile, euid: nat, login: bool, env: Env, v: Var): Option<Var> {
    if !Offered(file, euid, v.0) then None
    else if login && v.0 == "PATH" then
      var path := LoginPath(v.1, env);
      if path.Some? then Some((v.0, path.value)) else None
    else if login && v.0 in env then None
    else Some(v)
  }

  function SelectFrom(file: EnvFile, euid: nat, login: bool, env: Env, vars: seq<Var>): seq<Var> {
    if vars == [] then []
    else
      var rest := SelectFrom(file, euid, login, env, vars[..|vars| - 1]);
      var chosen := Chosen(file, euid, login, env, vars[|vars| - 1]);
      if chosen.Some? then rest + [chosen.value] else rest
  }

  method Select(file: EnvFile, euid: nat, login: bool, env: Env) returns (out: seq<Var>)
    ensures out == SelectFrom(file, euid, login, env, file.env)
  {
    var trusted := file.runUid == Some(euid);
    out := [];
    for i := 0 to |file.env|
      invariant out == SelectFrom(file, euid, login, env, file.env[..i])
    {
      assert file.env[..i + 1][..i] == file.env[..i];
      var (k, v) := file.env[i];
      if k in IDENTITY {
        continue;
      }
      if !trusted && SteersExecution(k) {
        continue;
      }
      if login {
        if k == "PATH" {
          var path;
          if "VIRTKIT_SSH_PATH" in env {
            if env["VIRTKIT_SSH_PATH"].Bytes? {
              continue;
            }
            path := env["VIRTKIT_SSH_PATH"].text;
          } else {
            path := Merge(v, TextOf(env, "PATH"));
          }
          out := out + [(k, path)];
          continue;
        }
        if k in env {
          continue;
        }
      }
      out := out + [(k, v)];
    }
    assert file.env[..|file.env|] == file.env;
  }

  /** Exporting variables one after the other. */
  function Apply(vars: seq<Var>, env: Env): Env {
    if vars == [] then env
    else
      var last := vars[|vars| - 1];
      Apply(vars[..|vars| - 1], env)[last.0 := Text(last.1)]
  }

  lemma ApplyMore(vars: seq<Var>, v: Var, env: Env)
    ensures Apply(vars + [v], env) == Apply(vars, env)[v.0 := Text(v.1)]
  {
    assert (vars + [v])[..|vars|] == vars;
  }

  function Login(file: EnvFile, euid: nat, env: Env): Env {
    Apply(SelectFrom(file, euid, true, env, file.env), env)
  }

  // What a login leaves.

  /** What a name is bound to. */
  function Binding(env: Env, name: string): Option<Value> {
    if name in env then Some(env[name]) else None
  }

  function LastValue(vars: seq<Var>, name: string): Option<string> {
    if vars == [] then None
    else if vars[|vars| - 1].0 == name then Some(vars[|vars| - 1].1)
    else LastValue(vars[..|vars| - 1], name)
  }

  /** Apart from the search path, a login keeps every variable that was set, and sets each other one
      the file offers to the last value the file has for it. */
  lemma {:induction false} LoginBinds(file: EnvFile, euid: nat, env: Env, vars: seq<Var>, name: string)
    requires name != "PATH"
    ensures Binding(Apply(SelectFrom(file, euid, true, env, vars), env), name)
            == if name in env then Some(env[name])
               else if MayPass(name, file.runUid == Some(euid)) && LastValue(vars, name).Some?
                 then Some(Text(LastValue(vars, name).value))
               else None
  {
    OfferedIs(file, euid, name);
    if vars != [] {
      var (init, last) := (vars[..|vars| - 1], vars[|vars| - 1]);
      LoginBinds(file, euid, env, init, name);
      var chosen := Chosen(file, euid, true, env, last);
      if chosen.Some? {
        ApplyMore(SelectFrom(file, euid, true, env, init), chosen.value, env);
      }
    }
  }

  /** The search path a login sets: that of the file's last one, if it is offered and accepted. */
  function PathSet(file: EnvFile, euid: nat, env: Env, vars: seq<Var>): Option<string> {
    if Offered(file, euid, "PATH") && LastValue(vars, "PATH").Some? then LoginPath(LastValue(vars, "PATH").value, env)
    else None
  }

  predicate HasPath(env: Env, after: Env, chosen: Option<string>) {
    match chosen
    case Some(path) => "PATH" in after && after["PATH"] == Text(path)
    case None =>
      ("PATH" in after <==> "PATH" in env) && ("PATH" in env ==> after["PATH"] == env["PATH"])
  }

  lemma {:induction false} LoginSetsPath(file: EnvFile, euid: nat, env: Env, vars: seq<Var>)
    ensures HasPath(env, Apply(SelectFrom(file, euid, true, env, vars), env),
                    PathSet(file, euid, env, vars))
  {
    if vars != [] {
      var (init, last) := (vars[..|vars| - 1], vars[|vars| - 1]);
      LoginSetsPath(file, euid, env, init);
      var chosen := Chosen(file, euid, true, env, last);
      if chosen.Some? {
        ApplyMore(SelectFrom(file, euid, true, env, init), chosen.value, env);
      }
    }
  }

  /** The search path after a login. For another user, or without one in the file, it is as it was. For the
      run's user, a session path that was handed over takes its place, unless it is not text; else the file's
      last is merged with it. */
  lemma LoginSearchPath(file: EnvFile, euid: nat, env: Env)
    ensures var (after, last) := (Binding(Login(file, euid, env), "PATH"), LastValue(file.env, "PATH"));
            if file.runUid != Some(euid) || last.None? then after == Binding(env, "PATH")
            else if "VIRTKIT_SSH_PATH" in env then
              after == if env["VIRTKIT_SSH_PATH"].Text? then Some(env["VIRTKIT_SSH_PATH"]) else Binding(env, "PATH")
            else
              var (run, now) := (Text.Split(last.value, ':'), TextOf(env, "PATH"));
              && after.Some? && after.value.Text?
              && Text.Split(after.value.text, ':')
                 == run + Missing(run, if now.Some? then Text.Split(now.value, ':') else [])
  {
    LoginSetsPath(file, euid, env, file.env);
    OfferedIs(file, euid, "PATH");
    if LastValue(file.env, "PATH").Some? {
      MergeIs(LastValue(file.env, "PATH").value, TextOf(env, "PATH"));
    }
  }

  /** The path a second login sets is the one the first left. */
  lemma PathSettled(file: EnvFile, euid: nat, env: Env)
    ensures var once := Login(file, euid, env);
            HasPath(env, once, PathSet(file, euid, env, file.env))
            && PathSet(file, euid, once, file.env) == PathSet(file, euid, env, file.env)
  {
    var once := Login(file, euid, env);
    LoginSetsPath(file, euid, env, file.env);
    LoginBinds(file, euid, env, file.env, "VIRTKIT_SSH_PATH");
    if PathSet(file, euid, env, file.env).Some? && "VIRTKIT_SSH_PATH" !in env {
      MergeIdempotent(LastValue(file.env, "PATH").value, TextOf(env, "PATH"));
    }
  }

  lemma SecondLogin(file: EnvFile, euid: nat, env: Env, name: string)
    ensures var once := Login(file, euid, env);
            Binding(Login(file, euid, once), name) == Binding(once, name)
  {
    var once := Login(file, euid, env);
    if name == "PATH" {
      PathSettled(file, euid, env);
      LoginSetsPath(file, euid, once, file.env);
    } else {
      LoginBinds(file, euid, env, file.env, name);
      LoginBinds(file, euid, once, file.env, name);
    }
  }

  /** A second login changes nothing, for every file, user and environment. */
  lemma LoginIdempotent(file: EnvFile, euid: nat, env: Env)
    ensures Login(file, euid, Login(file, euid, env)) == Login(file, euid, env)
  {
    var once := Login(file, euid, env);
    forall name: string
      ensures Binding(Login(file, euid, once), name) == Binding(once, name)
    {
      SecondLogin(file, euid, env, name);
    }
    SameBindings(Login(file, euid, once), once);
  }

  lemma SameBindings(a: Env, b: Env)
    requires forall name: string :: Binding(a, name) == Binding(b, name)
    ensures a == b
  {
    forall name: string
      ensures name in a <==> name in b
      ensures name in a ==> a[name] == b[name]
    {
      assert Binding(a, name) == Binding(b, name);
    }
  }

  /** Whoever logs in or not, only names that may pass are chosen: none of the session's own, and of another
      user's file none that steers which program or library runs. */
  lemma {:induction false} OthersSteerNothing(file: EnvFile, euid: nat, login: bool, env: Env,
                                              vars: seq<Var>)
    ensures forall v <- SelectFrom(file, euid, login, env, vars) :: MayPass(v.0, file.runUid == Some(euid))
  {
    if vars != [] {
      OthersSteerNothing(file, euid, login, env, vars[..|vars| - 1]);
      OfferedIs(file, euid, vars[|vars| - 1].0);
    }
  }

  /** The variables of which `keep` holds, in order. */
  function Filtered(keep: Var -> bool, vars: seq<Var>): seq<Var> {
    if vars == [] then []
    else (if keep(vars[0]) then [vars[0]] else []) + Filtered(keep, vars[1..])
  }

  lemma {:induction false} FilteredMore(keep: Var -> bool, vars: seq<Var>, v: Var)
    ensures Filtered(keep, vars + [v]) == Filtered(keep, vars) + if keep(v) then [v] else []
  {
    if vars == [] {
      assert vars + [v] == [v];
    } else {
      Text.TailPlus(vars, [v]);
      FilteredMore(keep, vars[1..], v);
      Text.Assoc(if keep(vars[0]) then [vars[0]] else [], Filtered(keep, vars[1..]), if keep(v) then [v] else []);
    }
  }

  /** Outside a login, what is chosen is the file's list without what may not pass: order, repeated
      names and values as they are. */
  lemma {:induction false} OfferedChosen(file: EnvFile, euid: nat, env: Env, vars: seq<Var>)
    ensures SelectFrom(file, euid, false, env, vars)
            == Filtered((v: Var) => MayPass(v.0, file.runUid == Some(euid)), vars)
  {
    var keep := (v: Var) => MayPass(v.0, file.runUid == Some(euid));
    if vars != [] {
      OfferedIs(file, euid, vars[|vars| - 1].0);
      var (init, last) := (vars[..|vars| - 1], vars[|vars| - 1]);
      OfferedChosen(file, euid, env, init);
      FilteredMore(keep, init, last);
      assert vars == init + [last];
    }
  }
}
