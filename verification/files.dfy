/** The filesystem and the `path/filepath` helpers the program touches, as
    plain values: a map from path to contents plus the set of paths the
    process is not allowed to write or remove. */
module Files {
  import opened Wrappers
  import opened Text

  datatype Fs = Fs(files: map<string, string>, locked: set<string>)

  /** os.ReadFile: the contents, or None when there is no such file. */
  function ReadFile(fs: Fs, path: string): (r: Option<string>)
    ensures r.Some? <==> path in fs.files
    ensures r.Some? ==> r.value == fs.files[path]
  {
    if path in fs.files then Some(fs.files[path]) else None
  }

  /** os.WriteFile: replaces the file's contents, or None when the path is
      not writable. */
  function WriteFile(fs: Fs, path: string, data: string): (r: Option<Fs>)
    ensures r.Some? <==> path !in fs.locked
    ensures r.Some? ==> ReadFile(r.value, path) == Some(data)
    ensures r.Some? ==> forall q :: q != path ==> ReadFile(r.value, q) == ReadFile(fs, q)
    ensures r.Some? ==> r.value.locked == fs.locked
  {
    if path in fs.locked then None else Some(fs.(files := fs.files[path := data]))
  }

  /** What os.Remove can report. */
  datatype RemoveOutcome = Removed(fs: Fs) | Absent | Refused

  /** os.Remove: a missing file is reported as Absent (os.IsNotExist), a
      protected one as Refused, anything else is deleted. */
  function RemoveFile(fs: Fs, path: string): (r: RemoveOutcome)
    ensures r.Absent? <==> path !in fs.files
    ensures r.Refused? <==> path in fs.files && path in fs.locked
    ensures r.Removed? ==> ReadFile(r.fs, path) == None
    ensures r.Removed? ==> forall q :: q != path ==> ReadFile(r.fs, q) == ReadFile(fs, q)
  {
    if path !in fs.files then Absent
    else if path in fs.locked then Refused
    else Removed(fs.(files := fs.files - {path}))
  }

  /** filepath.Ext on a slash-separated path: the suffix from the last '.'
      of the final element, or "" when that element has no '.'. */
  function Ext(path: string): string
  {
    if |path| == 0 then ""
    else
      var c := path[|path| - 1];
      if c == '/' then ""
      else if c == '.' then "."
      else
        var e := Ext(path[..|path| - 1]);
        if e == "" then "" else e + [c]
  }

  /** filepath.Join(dir, name) for a directory and a plain file name; the
      lexical clean-up filepath.Join also performs is not modelled. */
  function PathJoin(dir: string, name: string): string
  {
    dir + "/" + name
  }

  /** An extension is a suffix of the path, and is either empty or a dot
      followed by characters that are neither dots nor slashes. */
  lemma {:induction false} ExtShape(path: string)
    ensures |Ext(path)| <= |path| && Ext(path) == path[|path| - |Ext(path)|..]
    ensures Ext(path) == "" || (Ext(path)[0] == '.' && '.' !in Ext(path)[1..] && '/' !in Ext(path))
  {
    if |path| > 0 {
      var c := path[|path| - 1];
      var init := path[..|path| - 1];
      if c != '/' && c != '.' {
        ExtShape(init);
        var e := Ext(init);
        if e != "" {
          assert (e + [c])[1..] == e[1..] + [c];
          assert path == init + [c];
        }
      }
    }
  }

  /** A file name with an extension keeps that extension whatever is put
      in front of it. */
  lemma {:induction false} ExtAppend(a: string, b: string)
    requires Ext(b) != ""
    ensures Ext(a + b) == Ext(b)
  {
    assert |b| > 0;
    var ab := a + b;
    assert ab[..|ab| - 1] == a + b[..|b| - 1];
    assert ab[|ab| - 1] == b[|b| - 1];
    var c := b[|b| - 1];
    if c != '.' {
      ExtAppend(a, b[..|b| - 1]);
    }
  }

  /** The extension of `stem + e` is `e` whenever `e` is a dot followed by
      text without dots or slashes: Ext recovers what was appended. */
  lemma {:induction false} ExtOfSuffix(stem: string, e: string)
    requires |e| >= 1 && e[0] == '.' && '.' !in e[1..] && '/' !in e[1..]
    ensures Ext(stem + e) == e
  {
    if |e| == 1 {
      var p := stem + e;
      assert p[|p| - 1] == '.';
    } else {
      var p := stem + e;
      var e' := e[..|e| - 1];
      assert e'[1..] == e[1..|e| - 1];
      assert forall i :: 1 <= i < |e'| ==> e'[i] == e[1..][i - 1];
      ExtOfSuffix(stem, e');
      assert p[..|p| - 1] == stem + e';
      assert p[|p| - 1] == e[1..][|e| - 2];
      assert e' + [p[|p| - 1]] == e;
    }
  }
}
