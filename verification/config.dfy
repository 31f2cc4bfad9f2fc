/** The directory settings (pkg/config/config.go): the four paths with
    their defaults, the expansion of a leading "~/" against the home
    directory, and how the configuration file is (and is meant to be)
    taken into account. */
module Config {
  import opened Wrappers
  import opened Text
  import opened Files

  /** The four path fields of Config.Dir, enumerated. */
  datatype Dir = Dir(codeDir: string, notesDir: string, datasource: string, markdownDir: string)

  /** The prefix that stands for the home directory. */
  const Tilde: string := "~/"

  /** The values the defaults library fills in. */
  const Defaults: Dir := Dir(Tilde + "algo/code", Tilde + "algo/notes", Tilde + "algo/db", Tilde + "algo/markdown")

  /** One field of ExpandHome: a value starting with "~/" becomes the home
      directory joined with the rest of the value. */
  function ExpandField(home: string, v: string): (r: string)
    ensures HasPrefix(v, Tilde) ==> HasPrefix(r, home + "/") && HasSuffix(r, v[2..])
    ensures HasPrefix(v, Tilde) ==> |r| == |home| + |v| - 1
  {
    if HasPrefix(v, Tilde) then PathJoin(home, v[2..]) else v
  }

  /** A value written with the tilde expands to the home directory, a
      slash and the rest. */
  lemma ExpandTilde(home: string, rest: string)
    ensures ExpandField(home, Tilde + rest) == home + "/" + rest
  {
    assert (Tilde + rest)[..2] == Tilde && (Tilde + rest)[2..] == rest;
  }

  /** A value that does not start with "~" is left alone. */
  lemma ExpandPlain(home: string, v: string)
    requires |v| == 0 || v[0] != '~'
    ensures ExpandField(home, v) == v
  {
    if |v| >= 2 { assert v[..2][0] == v[0]; }
  }

  /** `w` is what `v` expands to: after a leading "~/" the home directory,
      a slash and the rest; otherwise `v` unchanged. */
  predicate ExpandsTo(home: string, v: string, w: string)
  {
    if HasPrefix(v, Tilde) then w == home + "/" + v[2..] else w == v
  }

  /** Dir.ExpandHome: every field expanded on its own. */
  function ExpandHome(home: string, d: Dir): (r: Dir)
    ensures ExpandsTo(home, d.codeDir, r.codeDir) && ExpandsTo(home, d.notesDir, r.notesDir)
    ensures ExpandsTo(home, d.datasource, r.datasource) && ExpandsTo(home, d.markdownDir, r.markdownDir)
  {
    Dir(ExpandField(home, d.codeDir), ExpandField(home, d.notesDir),
        ExpandField(home, d.datasource), ExpandField(home, d.markdownDir))
  }

  // ---------------------------------------------------------------------
  // Properties of the expansion
  // ---------------------------------------------------------------------

  /** Only a leading "~/" is expanded: a bare "~", "~user/…", a relative
      or an absolute path is left as it is, and an expanded value is the
      home directory, a slash and the rest of the value. */
  lemma {:induction false} ExpandFieldExactly(home: string, v: string)
    ensures ExpandField(home, v) != v ==> HasPrefix(v, Tilde)
    ensures HasPrefix(v, Tilde) ==> ExpandField(home, v) == home + "/" + v[2..]
  {
  }

  /** The fields are expanded independently: each field of the result
      depends on that field alone. */
  lemma ExpandHomeFieldwise(home: string, d: Dir, e: Dir)
    ensures d.codeDir == e.codeDir ==> ExpandHome(home, d).codeDir == ExpandHome(home, e).codeDir
    ensures d.notesDir == e.notesDir ==> ExpandHome(home, d).notesDir == ExpandHome(home, e).notesDir
    ensures d.datasource == e.datasource ==> ExpandHome(home, d).datasource == ExpandHome(home, e).datasource
    ensures d.markdownDir == e.markdownDir ==> ExpandHome(home, d).markdownDir == ExpandHome(home, e).markdownDir
  {
  }

  /** With an absolute home directory, expanding twice is expanding once. */
  lemma ExpandHomeIdempotent(home: string, d: Dir)
    requires HasPrefix(home, "/")
    ensures ExpandHome(home, ExpandHome(home, d)) == ExpandHome(home, d)
  {
    forall v: string ensures ExpandField(home, ExpandField(home, v)) == ExpandField(home, v) {
      if HasPrefix(v, Tilde) {
        var r := ExpandField(home, v);
        assert r[0] == home[0] == '/';
      }
    }
  }

  /** The defaults all land below the home directory. */
  lemma DefaultsUnderHome(home: string)
    ensures ExpandHome(home, Defaults)
      == Dir(home + "/algo/code", home + "/algo/notes", home + "/algo/db", home + "/algo/markdown")
  {
    ExpandTilde(home, "algo/code");
    ExpandTilde(home, "algo/notes");
    ExpandTilde(home, "algo/db");
    ExpandTilde(home, "algo/markdown");
  }

  // ---------------------------------------------------------------------
  // Loading
  // ---------------------------------------------------------------------

  /** The keys of the `[dir]` table a configuration file sets; an absent
      key keeps its default. */
  datatype Settings = Settings(
    codeDir: Option<string>,
    notesDir: Option<string>,
    datasource: Option<string>,
    markdownDir: Option<string>)

  /** What reading `<home>/algo/algo.toml` gives: no file, a file that does
      not decode, or the settings it holds. */
  datatype ConfigFile = Missing | Malformed | Parsed(settings: Settings)

  /** Why loading the configuration stops the program. */
  datatype ConfigError = UnmarshalFailed

  function Pick(v: Option<string>, fallback: string): (r: string)
    ensures v.Some? ==> r == v.value
    ensures v.None? ==> r == fallback
  {
    if v.Some? then v.value else fallback
  }

  /** toml.Unmarshal into a filled-in Dir: the keys present replace their
      fields, the others stay. */
  function Overlay(d: Dir, s: Settings): (r: Dir)
  {
    Dir(Pick(s.codeDir, d.codeDir), Pick(s.notesDir, d.notesDir),
        Pick(s.datasource, d.datasource), Pick(s.markdownDir, d.markdownDir))
  }

  /** The settings of empty input: no key at all. */
  const NoSettings: Settings := Settings(None, None, None, None)

  /** initConfig as written: the file is decoded only when reading it
      failed, and then what is decoded is the empty data of the failed
      read; a file that was read is never decoded. Whatever the file
      holds, the result is the expanded defaults. */
  function LoadAsWritten(home: string, file: ConfigFile): (r: Dir)
    ensures r == ExpandHome(home, Defaults)
  {
    assert Overlay(Defaults, NoSettings) == Defaults;
    var d := if file.Missing? then Overlay(Defaults, NoSettings) else Defaults;
    ExpandHome(home, d)
  }

  /** initConfig as evidently intended: a file that was read is decoded
      over the defaults (failing when it does not decode), a missing file
      leaves the defaults, and the result is expanded. */
  function Load(home: string, file: ConfigFile): (r: Result<Dir, ConfigError>)
    ensures r.Err? <==> file.Malformed?
    ensures file.Missing? ==> r == Ok(ExpandHome(home, Defaults))
    ensures file.Parsed? ==> r == Ok(ExpandHome(home, Overlay(Defaults, file.settings)))
  {
    match file
    case Missing => Ok(ExpandHome(home, Defaults))
    case Malformed => Err(UnmarshalFailed)
    case Parsed(s) => Ok(ExpandHome(home, Overlay(Defaults, s)))
  }

  /** A file that moves the markdown directory to an absolute path: the
      code as written keeps the default below the home directory, the
      intended loading follows the file. */
  lemma FileIgnoredExample(home: string, v: string)
    requires |v| > 0 && v[0] == '/'
    ensures var file := Parsed(Settings(None, None, None, Some(v)));
      && LoadAsWritten(home, file).markdownDir == home + "/algo/markdown"
      && Load(home, file).value.markdownDir == v
  {
    DefaultsUnderHome(home);
    ExpandPlain(home, v);
  }

  /** The intended loading honours every key the file sets, expanded like
      the defaults, and keeps the expanded default for every key it
      leaves out. */
  lemma LoadHonoursFile(home: string, s: Settings)
    ensures Load(home, Parsed(s)).Ok?
    ensures var d := Load(home, Parsed(s)).value;
      && d.codeDir == ExpandField(home, Pick(s.codeDir, Defaults.codeDir))
      && d.notesDir == ExpandField(home, Pick(s.notesDir, Defaults.notesDir))
      && d.datasource == ExpandField(home, Pick(s.datasource, Defaults.datasource))
      && d.markdownDir == ExpandField(home, Pick(s.markdownDir, Defaults.markdownDir))
  {
  }
}
