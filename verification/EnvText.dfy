/** Printing variables for a shell or a program to read back. */
module EnvText {
  import opened Wrappers
  import opened RunEnv
  import Text

  // Writing shell commands.

  predicate Letter(c: char) {
    'a' <= c <= 'z' || 'A' <= c <= 'Z' || c == '_'
  }

  predicate NameChar(c: char) {
    Letter(c) || '0' <= c <= '9'
  }

  predicate IsShellName(name: string) {
    name != [] && Letter(name[0]) && forall c <- name :: NameChar(c)
  }

  /** The ASCII codes of letters, of digits and of `_`. */
  predicate Assignable(code: int, first: bool) {
    65 <= code <= 90 || 97 <= code <= 122 || code == 95 || (!first && 48 <= code <= 57)
  }

  /** A name a shell can assign: letters, digits and `_`, no digit first. */
  lemma ShellNameIs(name: string)
    ensures IsShellName(name) <==>
              && |name| > 0 && Assignable(name[0] as int, true)
              && forall k | 0 < k < |name| :: Assignable(name[k] as int, false)
  {
    if |name| > 0 {
      assert Letter(name[0]) <==> Assignable(name[0] as int, true);
      forall k | 0 <= k < |name|
        ensures NameChar(name[k]) <==> Assignable(name[k] as int, false)
      {
      }
      assert (forall c <- name :: NameChar(c)) <==> forall k | 0 <= k < |name| :: NameChar(name[k]);
    }
  }

  /** Each `'` leaves the quotes, is written escaped, and enters them again. */
  function Escaped(v: string): string {
    if v == [] then []
    else (if v[0] == '\'' then ['\'', '\\', '\'', '\''] else [v[0]]) + Escaped(v[1..])
  }

  function Line(v: Var): string {
    "export " + v.0 + "='" + Escaped(v.1) + "'\n"
  }

  predicate Printable(v: Var) {
    IsShellName(v.0) && '\0' !in v.1
  }

  function Lines(vars: seq<Var>): string {
    if vars == [] then [] else Line(vars[0]) + Lines(vars[1..])
  }

  /** All the lines, or nothing at all: one variable that cannot be written refuses the whole. */
  method RenderExport(vars: seq<Var>) returns (out: Option<string>)
    ensures out == if forall v <- vars :: Printable(v) then Some(Lines(vars)) else None
  {
    var text := "";
    for i := 0 to |vars|
      invariant text + Lines(vars[i..]) == Lines(vars)
      invariant forall v <- vars[..i] :: Printable(v)
    {
      if !IsShellName(vars[i].0) || '\0' in vars[i].1 {
        assert vars[i] in vars;
        return None;
      }
      Text.Assoc(text, Line(vars[i]), Lines(vars[i + 1..]));
      assert vars[i..][1..] == vars[i + 1..];
      text := text + Line(vars[i]);
    }
    Text.Unit(text);
    return Some(text);
  }

  // Reading them as a shell does: sections 2.2.1 and 2.2.2 of the POSIX.1-2017 Shell Command Language.

  /** Characters that mean something to the shell unless quoted; none of them is read here. */
  predicate Special(c: char) {
    c in "|&;<>()$`\" \t*?[#~=%!{}"
  }

  /** A word from inside (`quoted`) or outside single quotes: the text it stands for, and what follows.
      Inside, every character is itself up to the closing quote; outside, a backslash keeps the next
      character as itself, and with a line break is no character at all. */
  function Word(s: string, quoted: bool): (r: Option<(string, string)>)
    ensures r.Some? ==> |r.value.1| <= |s|
    decreases |s|
  {
    if s == [] then if quoted then None else Some(([], []))
    else if quoted then
      if s[0] == '\'' then Word(s[1..], false) else Then(s[0], Word(s[1..], true))
    else if s[0] == '\'' then Word(s[1..], true)
    else if s[0] == '\n' then Some(([], s))
    else if s[0] == '\\' then
      if |s| == 1 then None
      else if s[1] == '\n' then Word(s[2..], false)
      else Then(s[1], Word(s[2..], false))
    else if Special(s[0]) then None
    else Then(s[0], Word(s[1..], false))
  }

  function Then(c: char, rest: Option<(string, string)>): Option<(string, string)> {
    if rest.None? then None else Some(([c] + rest.value.0, rest.value.1))
  }

  /** The length of the name at the front of `s`. */
  function NameLength(s: string): (n: nat)
    ensures n <= |s|
  {
    if s == [] || !NameChar(s[0]) then 0 else 1 + NameLength(s[1..])
  }

  /** One `export NAME=word` command: its variable, and what follows. */
  function Command(s: string): (r: Option<(Var, string)>)
    ensures r.Some? ==> |r.value.1| < |s|
  {
    if !("export " <= s) then None
    else
      var rest := s[7..];
      var n := NameLength(rest);
      if !IsShellName(rest[..n]) || n == |rest| || rest[n] != '=' then None
      else
        var word := Word(rest[n + 1..], false);
        if word.None? then None else Some(((rest[..n], word.value.0), word.value.1))
  }

  /** The variables a script of such commands exports, in order. */
  function Exports(s: string): Option<seq<Var>>
    decreases |s|
  {
    if s == [] then Some([])
    else if s[0] == '\n' then Exports(s[1..])
    else
      var command := Command(s);
      if command.None? then None
      else
        var rest := Exports(command.value.1);
        if rest.None? then None else Some([command.value.0] + rest.value)
  }

  // The round trip.

  /** What stops a word: the end of the script, or of the line. */
  predicate Stops(rest: string) {
    rest == [] || rest[0] == '\n'
  }

  lemma WordEnds(rest: string)
    requires Stops(rest)
    ensures Word(['\''] + rest, true) == Some(([], rest))
  {
    assert (['\''] + rest)[1..] == rest;
  }

  lemma QuoteStep(s: string)
    ensures Word(['\'', '\\', '\'', '\''] + s, true) == Then('\'', Word(s, true))
  {
    var whole := ['\'', '\\', '\'', '\''] + s;
    var (outside, reentry) := (['\\', '\''] + (['\''] + s), ['\''] + s);
    assert whole[1..] == outside && outside[2..] == reentry && reentry[1..] == s;
    assert Word(reentry, false) == Word(s, true);
    assert Word(outside, false) == Then('\'', Word(reentry, false));
  }

  lemma PlainStep(c: char, s: string)
    requires c != '\''
    ensures Word([c] + s, true) == Then(c, Word(s, true))
  {
    assert ([c] + s)[1..] == s;
  }

  lemma {:induction false} EscapedReads(v: string, rest: string)
    requires Stops(rest)
    ensures Word(Escaped(v) + (['\''] + rest), true) == Some((v, rest))
  {
    var tail := ['\''] + rest;
    if v == [] {
      Text.Unit(tail);
      WordEnds(rest);
    } else {
      var head := if v[0] == '\'' then ['\'', '\\', '\'', '\''] else [v[0]];
      Text.Assoc(head, Escaped(v[1..]), tail);
      EscapedReads(v[1..], rest);
      if v[0] == '\'' {
        QuoteStep(Escaped(v[1..]) + tail);
      } else {
        PlainStep(v[0], Escaped(v[1..]) + tail);
      }
      Text.HeadTail(v);
    }
  }

  lemma {:induction false} NameReads(name: string, rest: string)
    requires forall c <- name :: NameChar(c)
    requires rest != [] && !NameChar(rest[0])
    ensures NameLength(name + rest) == |name|
  {
    if name == [] {
      Text.Unit(rest);
    } else {
      Text.TailPlus(name, rest);
      NameReads(name[1..], rest);
    }
  }

  /** A line without its line break. */
  function Body(v: Var): string {
    "export " + (v.0 + ("='" + (Escaped(v.1) + ['\''])))
  }

  lemma LineIsBody(v: Var)
    ensures Line(v) == Body(v) + ['\n']
  {
  }

  lemma WordReads(v: string, rest: string)
    requires Stops(rest)
    ensures Word(['\''] + (Escaped(v) + ['\''] + rest), false) == Some((v, rest))
  {
    EscapedReads(v, rest);
    Text.Assoc(Escaped(v), ['\''], rest);
    assert (['\''] + (Escaped(v) + ['\''] + rest))[1..] == Escaped(v) + ['\''] + rest;
  }

  /** One line reads back as its variable. */
  lemma BodyReads(v: Var, rest: string)
    requires Printable(v) && Stops(rest)
    ensures Command(Body(v) + rest) == Some((v, rest))
  {
    var word := ['\''] + (Escaped(v.1) + ['\''] + rest);
    var s := Body(v) + rest;
    assert s[7..] == v.0 + (['='] + word);
    NameReads(v.0, ['='] + word);
    WordReads(v.1, rest);
    var n := |v.0|;
    assert s[7..][..n] == v.0 && s[7..][n] == '=' && s[7..][n + 1..] == word;
  }

  /** Lines that may lack the last line break: the output itself, or what a command substitution,
      which drops trailing line breaks, makes of it. */
  function Script(vars: seq<Var>, ended: bool): string {
    if vars == [] then []
    else if |vars| == 1 then Body(vars[0]) + (if ended then ['\n'] else [])
    else Body(vars[0]) + (['\n'] + Script(vars[1..], ended))
  }

  lemma {:induction false} LinesAreScript(vars: seq<Var>)
    ensures Lines(vars) == Script(vars, true)
  {
    if vars != [] {
      LineIsBody(vars[0]);
      LinesAreScript(vars[1..]);
      Text.Assoc(Body(vars[0]), ['\n'], Lines(vars[1..]));
      Text.Unit(Line(vars[0]));
    }
  }

  lemma ExportsSkip(rest: string)
    ensures Exports(['\n'] + rest) == Exports(rest)
  {
    assert (['\n'] + rest)[1..] == rest;
  }

  lemma ExportsFirst(v: Var, rest: string)
    requires Printable(v) && Stops(rest) && Exports(rest).Some?
    ensures Exports(Body(v) + rest) == Some([v] + Exports(rest).value)
  {
    BodyReads(v, rest);
    assert (Body(v) + rest)[0] == 'e';
  }

  lemma {:induction false} ScriptReads(vars: seq<Var>, ended: bool)
    requires forall v <- vars :: Printable(v)
    ensures Exports(Script(vars, ended)) == Some(vars)
  {
    if |vars| == 1 {
      var rest := if ended then ['\n'] else [];
      assert Exports(rest) == Some([]);
      ExportsFirst(vars[0], rest);
      Text.HeadTail(vars);
    } else if |vars| > 1 {
      ScriptReads(vars[1..], ended);
      ExportsSkip(Script(vars[1..], ended));
      ExportsFirst(vars[0], ['\n'] + Script(vars[1..], ended));
      Text.HeadTail(vars);
    }
  }

  /** Evaluating what `render_export` prints gives back exactly the variables. */
  lemma ExportReadsBack(vars: seq<Var>)
    requires forall v <- vars :: Printable(v)
    ensures Exports(Lines(vars)) == Some(vars)
  {
    LinesAreScript(vars);
    ScriptReads(vars, true);
  }

  /** What `$(...)` makes of a command's output. */
  function Trimmed(s: string): string {
    if s != [] && s[|s| - 1] == '\n' then Trimmed(s[..|s| - 1]) else s
  }

  lemma {:induction false} ScriptTrimmed(vars: seq<Var>)
    ensures vars != [] ==> Script(vars, false) != []
                           && Script(vars, false)[|Script(vars, false)| - 1] == '\''
                           && Script(vars, true) == Script(vars, false) + ['\n']
  {
    if |vars| == 1 {
      assert Body(vars[0])[|Body(vars[0])| - 1] == '\'';
    } else if |vars| > 1 {
      ScriptTrimmed(vars[1..]);
      var (first, rest) := (Body(vars[0]), ['\n'] + Script(vars[1..], false));
      assert ['\n'] + Script(vars[1..], true) == rest + ['\n'];
      Text.Assoc(first, rest, ['\n']);
    }
  }

  /** So does evaluating it through a command substitution, as the login hook does, whatever line
      breaks the values themselves end in. */
  lemma HookReadsBack(vars: seq<Var>)
    requires forall v <- vars :: Printable(v)
    ensures Exports(Trimmed(Lines(vars))) == Some(vars)
  {
    LinesAreScript(vars);
    if vars == [] {
      assert Trimmed(Lines(vars)) == [];
    } else {
      ScriptTrimmed(vars);
      var s := Script(vars, false);
      assert (s + ['\n'])[..|s|] == s;
      assert Trimmed(s + ['\n']) == Trimmed(s) == s;
      ScriptReads(vars, false);
    }
  }

  // NUL-ended records.

  /** What the environment file may hold. */
  predicate ValidEntry(v: Var) {
    v.0 != [] && '=' !in v.0 && '\0' !in v.0 && '\0' !in v.1
  }

  function Record(v: Var): string {
    v.0 + ['='] + v.1 + ['\0']
  }

  function Records(vars: seq<Var>): string {
    if vars == [] then [] else Record(vars[0]) + Records(vars[1..])
  }

  method RenderPrint0(vars: seq<Var>) returns (out: string)
    ensures out == Records(vars)
  {
    out := "";
    for i := 0 to |vars|
      invariant out + Records(vars[i..]) == Records(vars)
    {
      assert vars[i..][1..] == vars[i + 1..];
      Text.Assoc(out, Record(vars[i]), Records(vars[i + 1..]));
      out := out + Record(vars[i]);
    }
    Text.Unit(out);
  }

  /** Reads records back: each ends at its NUL, and its name at its first `=`. */
  function Decode(s: string): Option<seq<Var>>
    decreases |s|
  {
    if s == [] then Some([])
    else
      var end := Text.IndexOf(s, '\0');
      var eq := Text.IndexOf(s[..end], '=');
      if end == |s| || eq == end then None
      else
        var rest := Decode(s[end + 1..]);
        if rest.None? then None else Some([(s[..eq], s[eq + 1..end])] + rest.value)
  }

  lemma RecordSplits(name: string, value: string, rest: string, s: string)
    requires s == name + ['='] + value + ['\0'] + rest
    requires '=' !in name && '\0' !in name && '\0' !in value
    ensures var n := |name| + 1 + |value|;
            && Text.IndexOf(s, '\0') == n && n < |s| && s[n + 1..] == rest
            && s[..n] == name + ['='] + value
  {
    var text := name + ['='] + value;
    Text.Assoc(text, ['\0'], rest);
    Text.IndexFound(text, '\0', rest);
  }

  lemma NameSplits(name: string, value: string, text: string)
    requires text == name + ['='] + value && '=' !in name
    ensures Text.IndexOf(text, '=') == |name| && text[..|name|] == name && text[|name| + 1..] == value
  {
    Text.Assoc(name, ['='], value);
    Text.IndexFound(name, '=', value);
  }

  lemma DecodeUnfolds(s: string, end: nat, eq: nat)
    requires Text.IndexOf(s, '\0') == end && end < |s| && Text.IndexOf(s[..end], '=') == eq && eq < end
    requires Decode(s[end + 1..]).Some?
    ensures Decode(s) == Some([(s[..eq], s[eq + 1..end])] + Decode(s[end + 1..]).value)
  {
  }

  lemma Cuts(s: string, text: string, eq: nat)
    requires eq < |text| <= |s| && s[..|text|] == text
    ensures s[..eq] == text[..eq] && s[eq + 1..|text|] == text[eq + 1..]
  {
    assert s[..eq] == s[..|text|][..eq] && s[eq + 1..|text|] == s[..|text|][eq + 1..];
  }

  lemma FirstDecodes(s: string, text: string, v: Var, rest: string)
    requires |text| < |s| && Text.IndexOf(s, '\0') == |text| && s[..|text|] == text && s[|text| + 1..] == rest
    requires |v.0| < |text| && Text.IndexOf(text, '=') == |v.0|
    requires text[..|v.0|] == v.0 && text[|v.0| + 1..] == v.1 && Decode(rest).Some?
    ensures Decode(s) == Some([v] + Decode(rest).value)
  {
    Cuts(s, text, |v.0|);
    DecodeUnfolds(s, |text|, |v.0|);
    SameVar((s[..|v.0|], s[|v.0| + 1..|text|]), v);
  }

  lemma SameVar(a: Var, b: Var)
    requires a.0 == b.0 && a.1 == b.1
    ensures [a] == [b]
  {
  }

  lemma TextDecodes(v: Var, rest: string, s: string, text: string)
    requires ValidEntry(v) && Decode(rest).Some? && text == v.0 + ['='] + v.1 && s == text + ['\0'] + rest
    ensures Decode(s) == Some([v] + Decode(rest).value)
  {
    RecordSplits(v.0, v.1, rest, s);
    NameSplits(v.0, v.1, text);
    FirstDecodes(s, text, v, rest);
  }

  lemma RecordDecodes(v: Var, rest: string)
    requires ValidEntry(v) && Decode(rest).Some?
    ensures Decode(Record(v) + rest) == Some([v] + Decode(rest).value)
  {
    TextDecodes(v, rest, Record(v) + rest, v.0 + ['='] + v.1);
  }

  /** The records decode to exactly the list, for all entries the environment file may hold. */
  lemma {:induction false} Print0ReadsBack(vars: seq<Var>)
    requires forall v <- vars :: ValidEntry(v)
    ensures Decode(Records(vars)) == Some(vars)
  {
    if vars != [] {
      Print0ReadsBack(vars[1..]);
      RecordDecodes(vars[0], Records(vars[1..]));
      Text.HeadTail(vars);
    }
  }

  // What is chosen from a valid file can be printed as records.

  lemma {:induction false} PartsWithout(s: string, sep: char, c: char)
    requires c !in s
    ensures forall part <- Text.Split(s, sep) :: Text.Free(part, c)
  {
    if s != [] {
      PartsWithout(s[1..], sep, c);
      assert Text.Split(s[1..], sep)[0] in Text.Split(s[1..], sep);
    }
  }

  lemma {:induction false} JoinedWithout(parts: seq<string>, sep: char, c: char)
    requires parts != [] && c != sep && forall part <- parts :: Text.Free(part, c)
    ensures c !in Text.Join(parts, sep)
  {
    assert parts[0] in parts;
    if |parts| > 1 {
      JoinedWithout(parts[1..], sep, c);
    }
  }

  lemma MergedWithout(run: string, current: Option<string>, c: char)
    requires c != ':' && c !in run && (current.Some? ==> c !in current.value)
    ensures c !in MergePath(run, current)
  {
    var entries := Text.Split(run, ':');
    var more := if current.Some? then Text.Split(current.value, ':') else [];
    PartsWithout(run, ':', c);
    if current.Some? {
      PartsWithout(current.value, ':', c);
    }
    ExtendedKeeps(entries, more);
    JoinedWithout(Extended(entries, more), ':', c);
  }

  /** No value of a process environment holds a NUL. */
  predicate NulFree(env: Env) {
    forall name <- env :: env[name].Text? ==> '\0' !in env[name].text
  }

  lemma {:induction false} ChosenValid(file: EnvFile, euid: nat, login: bool, env: Env, vars: seq<Var>)
    requires NulFree(env) && forall v <- vars :: ValidEntry(v)
    ensures forall v <- SelectFrom(file, euid, login, env, vars) :: ValidEntry(v)
  {
    if vars != [] {
      var last := vars[|vars| - 1];
      ChosenValid(file, euid, login, env, vars[..|vars| - 1]);
      assert ValidEntry(last);
      if last.0 == "PATH" {
        MergedWithout(last.1, TextOf(env, "PATH"), '\0');
      }
    }
  }

  /** Whatever valid file, user, mode and environment: a program that reads the printed records gets
      exactly the variables chosen for it. */
  lemma ChosenReadsBack(file: EnvFile, euid: nat, login: bool, env: Env)
    requires NulFree(env) && forall v <- file.env :: ValidEntry(v)
    ensures var chosen := SelectFrom(file, euid, login, env, file.env);
            Decode(Records(chosen)) == Some(chosen)
  {
    ChosenValid(file, euid, login, env, file.env);
    Print0ReadsBack(SelectFrom(file, euid, login, env, file.env));
  }
}
