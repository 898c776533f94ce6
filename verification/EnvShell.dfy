/**
 The env.sh payload: resolved environment variables printed as shell exports, and
 a reader of such scripts after POSIX.1-2017, Shell Command Language, sections
 2.2.1 (escape character) and 2.2.2 (single quotes). A `char` stands for a byte.
 */
module EnvShell {
  import opened Common
  import opened Ordering

  type Env = map<string, string>

  datatype Snapshot = Snapshot(plain: Env, secretRefs: Env, secrets: Env)

  datatype Source = Plain | Secrets

  datatype RenderError =
    | SnapshotRequired
    | UnresolvedSecretRefs
    | InvalidName(source: Source, key: string)
    | NulByte(source: Source, key: string)
    | DefinedTwice(key: string)

  const NUL: char := '\0'

  predicate NameStart(c: char)
  {
    c == '_' || 'A' <= c <= 'Z' || 'a' <= c <= 'z'
  }

  predicate NameChar(c: char)
  {
    NameStart(c) || '0' <= c <= '9'
  }

  /** A name in the sense of section 3.235 of POSIX.1-2017, Base Definitions. */
  predicate ValidName(name: string)
  {
    name != "" && NameStart(name[0]) && forall i :: 0 <= i < |name| ==> NameChar(name[i])
  }

  method IsValidEnvName(name: string) returns (ok: bool)
    ensures ok <==> ValidName(name)
    ensures ok <==> name != "" && forall i :: 0 <= i < |name| ==>
                      || name[i] == '_' || 'A' <= name[i] <= 'Z' || 'a' <= name[i] <= 'z'
                      || (i > 0 && '0' <= name[i] <= '9')
  {
    if name == "" {
      return false;
    }
    for i := 0 to |name|
      invariant i > 0 ==> NameStart(name[0])
      invariant forall j :: 0 <= j < i ==> NameChar(name[j])
    {
      var r := name[i];
      if r > 127 as char {
        return false;
      }
      if i == 0 {
        if r != '_' && (r < 'A' || r > 'Z') && (r < 'a' || r > 'z') {
          return false;
        }
        continue;
      }
      if r != '_' && (r < 'A' || r > 'Z') && (r < 'a' || r > 'z') && (r < '0' || r > '9') {
        return false;
      }
    }
    return true;
  }

  // ---------------------------------------------------------------------------
  // Printing
  // ---------------------------------------------------------------------------

  /** Every single quote becomes: close, escaped quote, open. */
  function EscapeQuotes(value: string): string
  {
    if value == "" then ""
    else (if value[0] == '\'' then "'\\''" else [value[0]]) + EscapeQuotes(value[1..])
  }

  function ShellSingleQuote(value: string): string
  {
    "'" + EscapeQuotes(value) + "'"
  }

  function Line(name: string, value: string): string
  {
    "export " + name + "=" + ShellSingleQuote(value) + "\n"
  }

  function Script(env: Env, names: seq<string>): string
    requires forall n :: n in names ==> n in env
  {
    if names == [] then "" else Line(names[0], env[names[0]]) + Script(env, names[1..])
  }

  /** `out` prints every variable of `env` once, in the order of the names. */
  ghost predicate Prints(out: string, env: Env)
  {
    exists names ::
      && SortedBy(names, ByText) && multiset(names) == multiset(env.Keys)
      && (forall n :: n in names ==> n in env)
      && out == Script(env, names)
  }

  /** What a shell can carry: valid names and values without NUL. */
  predicate Exportable(env: Env)
  {
    forall k :: k in env ==> ValidName(k) && NUL !in env[k]
  }

  predicate Renderable(s: Snapshot)
  {
    |s.secretRefs| == 0 && Exportable(s.plain) && Exportable(s.secrets) && s.plain.Keys !! s.secrets.Keys
  }

  function Values(s: Snapshot, source: Source): Env
  {
    if source.Plain? then s.plain else s.secrets
  }

  predicate Justified(e: RenderError, s: Option<Snapshot>)
  {
    match e
    case SnapshotRequired => s.None?
    case UnresolvedSecretRefs => s.Some? && |s.value.secretRefs| > 0
    case InvalidName(src, k) => s.Some? && k in Values(s.value, src) && !ValidName(k)
    case NulByte(src, k) => s.Some? && k in Values(s.value, src) && NUL in Values(s.value, src)[k]
    case DefinedTwice(k) => s.Some? && k in s.value.plain && k in s.value.secrets
  }

  method RenderEnvSH(snapshot: Option<Snapshot>) returns (r: Result<string, RenderError>)
    ensures r.Ok? <==> snapshot.Some? && Renderable(snapshot.value)
    ensures r.Ok? <==> && snapshot.Some? && snapshot.value.secretRefs == map[]
                       && (forall k :: k in snapshot.value.plain ==> ValidName(k) && '\0' !in snapshot.value.plain[k])
                       && (forall k :: k in snapshot.value.secrets ==>
                             ValidName(k) && '\0' !in snapshot.value.secrets[k])
                       && (forall k :: k in snapshot.value.plain ==> k !in snapshot.value.secrets)
    ensures r.Ok? ==> Prints(r.value, snapshot.value.plain + snapshot.value.secrets)
    ensures r.Err? ==> Justified(r.error, snapshot)
  {
    if snapshot.None? {
      return Err(SnapshotRequired);
    }
    var s := snapshot.value;
    if |s.secretRefs| > 0 {
      return Err(UnresolvedSecretRefs);
    }
    var plain := AddEnvValues(map[], s.plain, Plain);
    if plain.Err? {
      return Err(plain.error);
    }
    assert map[] + s.plain == s.plain;
    var all := AddEnvValues(plain.value, s.secrets, Secrets);
    if all.Err? {
      return Err(all.error);
    }
    var values := all.value;
    var keys := ToList(values.Keys);
    keys := Sort(keys, ByText);
    assert forall n :: n in keys ==> n in multiset(keys);
    var buf := WriteExports(values, keys);
    return Ok(buf);
  }

  method WriteExports(values: Env, keys: seq<string>) returns (buf: string)
    requires forall n :: n in keys ==> n in values
    ensures buf == Script(values, keys)
  {
    buf := "";
    for i := 0 to |keys|
      invariant buf == Script(values, keys[..i])
    {
      var key := keys[i];
      ScriptSnoc(values, keys[..i], key);
      assert keys[..i + 1] == keys[..i] + [key];
      ghost var quoted := ShellSingleQuote(values[key]);
      assert buf + Line(key, values[key]) == buf + "export " + key + "=" + quoted + "\n";
      buf := buf + "export " + key + "=" + ShellSingleQuote(values[key]) + "\n";
    }
    assert keys[..|keys|] == keys;
  }

  method AddEnvValues(dst: Env, src: Env, source: Source) returns (r: Result<Env, RenderError>)
    ensures r.Ok? <==> Exportable(src) && dst.Keys !! src.Keys
    ensures r.Ok? ==> r.value == dst + src
    ensures r.Err? ==> match r.error
                       case InvalidName(at, k) => at == source && k in src && !ValidName(k)
                       case NulByte(at, k) => at == source && k in src && NUL in src[k]
                       case DefinedTwice(k) => k in dst && k in src
                       case _ => false
  {
    hide ValidName;
    var out := dst;
    var todo := src.Keys;
    while todo != {}
      invariant todo <= src.Keys
      invariant out == dst + (map k | k in src.Keys - todo :: src[k])
      invariant forall k :: k in src.Keys - todo ==> ValidName(k) && NUL !in src[k] && k !in dst
    {
      var key :| key in todo;
      var valid := IsValidEnvName(key);
      if !valid {
        return Err(InvalidName(source, key));
      }
      if NUL in src[key] {
        return Err(NulByte(source, key));
      }
      if key in out {
        return Err(DefinedTwice(key));
      }
      todo := todo - {key};
      out := out[key := src[key]];
    }
    assert (map k | k in src.Keys - todo :: src[k]) == src;
    return Ok(out);
  }

  lemma {:induction false} ScriptSnoc(env: Env, names: seq<string>, last: string)
    requires last in env && forall n :: n in names ==> n in env
    ensures Script(env, names + [last]) == Script(env, names) + Line(last, env[last])
  {
    if names == [] {
      assert Script(env, []) == "";
      assert Script(env, [last][1..]) == "";
      assert Line(last, env[last]) + "" == Line(last, env[last]);
    } else {
      assert (names + [last])[1..] == names[1..] + [last];
      ScriptSnoc(env, names[1..], last);
      assert Line(names[0], env[names[0]]) + (Script(env, names[1..]) + Line(last, env[last]))
          == (Line(names[0], env[names[0]]) + Script(env, names[1..])) + Line(last, env[last]);
    }
  }

  // ---------------------------------------------------------------------------
  // Reading
  // ---------------------------------------------------------------------------

  /** Bytes that mean something to a shell outside quotes; the reader gives up on them. */
  predicate Special(c: char)
  {
    c in "|&;<>()$`\" \t*?[#~=%" || c == NUL
  }

  /** The rest of a word up to the newline that ends the command, and what follows it. */
  function ReadWord(s: string, quoted: bool): (r: Option<(string, string)>)
    ensures r.Some? ==> |r.value.1| <= |s| && NUL !in r.value.0
    decreases |s|
  {
    if s == "" then
      if quoted then None else Some(("", ""))
    else if s[0] == NUL then None
    else if quoted then
      if s[0] == '\'' then ReadWord(s[1..], false) else Cons(s[0], ReadWord(s[1..], true))
    else if s[0] == '\n' then Some(("", s[1..]))
    else if s[0] == '\'' then ReadWord(s[1..], true)
    else if s[0] == '\\' then
      if |s| == 1 || s[1] == NUL then None
      else if s[1] == '\n' then ReadWord(s[2..], false)
      else Cons(s[1], ReadWord(s[2..], false))
    else if Special(s[0]) then None
    else Cons(s[0], ReadWord(s[1..], false))
  }

  function Cons(c: char, r: Option<(string, string)>): Option<(string, string)>
  {
    if r.Some? then Some(([c] + r.value.0, r.value.1)) else None
  }

  function ReadName(s: string): (r: Option<(string, string)>)
    ensures r.Some? ==> |r.value.1| < |s|
  {
    if s == "" then None
    else if s[0] == '=' then Some(("", s[1..]))
    else Cons(s[0], ReadName(s[1..]))
  }

  const EXPORT := "export "

  function Read(script: string): Option<Env>
    decreases |script|
  {
    if script == "" then Some(map[])
    else if !(EXPORT <= script) then None
    else match ReadName(script[|EXPORT|..])
         case None => None
         case Some((name, rest)) =>
           if !ValidName(name) then None
           else match ReadWord(rest, false)
                case None => None
                case Some((value, more)) =>
                  match Read(more)
                  case None => None
                  case Some(env) => Some(map[name := value] + env)
  }

  lemma ReadPlainByte(c: char, rest: string)
    requires c != '\'' && c != NUL
    ensures ReadWord([c] + rest, true) == Cons(c, ReadWord(rest, true))
  {
    assert ([c] + rest)[1..] == rest;
  }

  lemma ReadEscapedQuote(rest: string)
    ensures ReadWord("'\\''" + rest, true) == Cons('\'', ReadWord(rest, true))
  {
    var s0, s1, s3 := "'\\''" + rest, "\\''" + rest, "'" + rest;
    assert s0[1..] == s1 && s1[2..] == s3 && s3[1..] == rest;
    assert ReadWord(s0, true) == ReadWord(s1, false);
    assert ReadWord(s1, false) == Cons('\'', ReadWord(s3, false));
    assert ReadWord(s3, false) == ReadWord(rest, true);
  }

  /** Inside quotes a reader takes back exactly the value that was escaped. */
  lemma {:induction false} ReadQuoted(value: string, tail: string)
    requires NUL !in value
    ensures ReadWord(EscapeQuotes(value) + ("'" + tail), true) == Prepend(value, ReadWord(tail, false))
  {
    var s := EscapeQuotes(value) + ("'" + tail);
    if value == "" {
      assert s == "'" + tail && s[1..] == tail;
      assert forall w: string :: "" + w == w;
    } else {
      var c := value[0];
      var rest := EscapeQuotes(value[1..]) + ("'" + tail);
      ReadQuoted(value[1..], tail);
      if c == '\'' {
        assert s == "'\\''" + rest;
        ReadEscapedQuote(rest);
      } else {
        assert s == [c] + rest;
        ReadPlainByte(c, rest);
      }
      assert forall w: string :: [c] + (value[1..] + w) == value + w;
    }
  }

  function Prepend(value: string, r: Option<(string, string)>): Option<(string, string)>
  {
    if r.Some? then Some((value + r.value.0, r.value.1)) else None
  }

  lemma {:induction false} ReadNameBack(name: string, rest: string)
    requires '=' !in name
    ensures ReadName(name + "=" + rest) == Some((name, rest))
  {
    var s := name + "=" + rest;
    if name != "" {
      assert s[1..] == name[1..] + "=" + rest;
      ReadNameBack(name[1..], rest);
      assert name == [name[0]] + name[1..];
    }
  }

  lemma ReadLineWord(value: string, more: string)
    requires NUL !in value
    ensures ReadWord(ShellSingleQuote(value) + "\n" + more, false) == Some((value, more))
  {
    var word := ShellSingleQuote(value) + "\n" + more;
    var end := "\n" + more;
    assert word[1..] == EscapeQuotes(value) + ("'" + end);
    assert end[1..] == more;
    ReadQuoted(value, end);
    assert value + "" == value;
  }

  lemma ReadLine(name: string, value: string, more: string)
    requires ValidName(name) && NUL !in value
    ensures Read(Line(name, value) + more) ==
            if Read(more).None? then None else Some(map[name := value] + Read(more).value)
  {
    var script := Line(name, value) + more;
    var word := ShellSingleQuote(value) + "\n" + more;
    assert script == EXPORT + (name + "=" + word);
    assert script[|EXPORT|..] == name + "=" + word;
    ReadNameBack(name, word);
    ReadLineWord(value, more);
  }

  lemma {:induction false} ReadScript(env: Env, names: seq<string>)
    requires Exportable(env) && forall n :: n in names ==> n in env
    ensures Read(Script(env, names)) == Some(Restrict(env, names))
  {
    if names == [] {
      assert Restrict(env, names) == map[];
    } else {
      ReadLine(names[0], env[names[0]], Script(env, names[1..]));
      ReadScript(env, names[1..]);
      RestrictSplits(env, names);
    }
  }

  function Restrict(env: Env, names: seq<string>): Env
    requires forall n :: n in names ==> n in env
  {
    map n | n in names :: env[n]
  }

  lemma RestrictSplits(env: Env, names: seq<string>)
    requires names != [] && forall n :: n in names ==> n in env
    ensures Restrict(env, names) == map[names[0] := env[names[0]]] + Restrict(env, names[1..])
  {
    assert names == [names[0]] + names[1..];
  }

  /** A reader never produces a name or a value that a shell could not hold. */
  lemma {:induction false} ReadIsExportable(script: string)
    ensures Read(script).Some? ==> Exportable(Read(script).value)
    decreases |script|
  {
    if script != "" && EXPORT <= script && ReadName(script[|EXPORT|..]).Some? {
      var (name, rest) := ReadName(script[|EXPORT|..]).value;
      if ReadWord(rest, false).Some? {
        ReadIsExportable(ReadWord(rest, false).value.1);
      }
    }
  }

  /**
   The round trip: a shell reading the printed script ends with exactly the printed
   variables, if and only if their names are valid and their values free of NUL.
   */
  lemma RoundTrip(out: string, env: Env)
    requires Prints(out, env)
    ensures Read(out) == Some(env) <==> Exportable(env)
  {
    hide Read, Script, SortedBy, ValidName;
    var names :| SortedBy(names, ByText) && multiset(names) == multiset(env.Keys) &&
                 (forall n :: n in names ==> n in env) && out == Script(env, names);
    if Exportable(env) {
      ReadScript(env, names);
      assert forall n :: n in env ==> n in multiset(names);
      assert Restrict(env, names) == env;
    }
    ReadIsExportable(out);
  }

  /** The output depends on the variables only, not on the order in which a map is walked. */
  lemma PrintingIsDeterministic(out: string, other: string, env: Env)
    requires Prints(out, env) && Prints(other, env)
    ensures out == other
  {
    var names :| SortedBy(names, ByText) && multiset(names) == multiset(env.Keys) &&
                 (forall n :: n in names ==> n in env) && out == Script(env, names);
    var others :| SortedBy(others, ByText) && multiset(others) == multiset(env.Keys) &&
                  (forall n :: n in others ==> n in env) && other == Script(env, others);
    assert forall x: string, y: string :: ByText(x) == ByText(y) ==> x == y by {
      forall x: string, y: string | ByText(x) == ByText(y) ensures x == y {
        assert ByText(x)[0] == x;
      }
    }
    SortedUnique(names, others, ByText);
  }

  /** Different exportable environments never print alike. */
  lemma PrintingIsInjective(out: string, env: Env, other: Env)
    requires Prints(out, env) && Prints(out, other) && Exportable(env) && Exportable(other)
    ensures env == other
  {
    RoundTrip(out, env);
    RoundTrip(out, other);
  }

  /** A value without quotes is printed as it stands, between quotes, as an export of its name. */
  lemma {:induction false} PlainValueVerbatim(value: string)
    requires '\'' !in value
    ensures EscapeQuotes(value) == value
  {
    if value != "" {
      PlainValueVerbatim(value[1..]);
      assert value == [value[0]] + value[1..];
    }
  }

  /** One variable, one line. */
  lemma OneVariablePrinted(out: string, name: string, value: string)
    requires Prints(out, map[name := value]) && '\'' !in value
    ensures out == "export " + name + "='" + value + "'\n"
  {
    var env := map[name := value];
    var names :| SortedBy(names, ByText) && multiset(names) == multiset(env.Keys) &&
                 (forall n :: n in names ==> n in env) && out == Script(env, names);
    hide SortedBy, Read, ValidName;
    assert |names| == |multiset(names)| == |env.Keys| == 1;
    ScriptOfOne(env, names);
    PlainValueVerbatim(value);
  }

  lemma ScriptOfOne(env: Env, names: seq<string>)
    requires |names| == 1 && names[0] in env
    ensures Script(env, names) == Line(names[0], env[names[0]])
  {
    assert names[1..] == [];
  }
}
