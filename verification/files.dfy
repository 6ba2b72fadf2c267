/** Project files and their relative pathnames (file.go). */
module Files {
  import opened Text

  /** A file of a project: its name, the directory path relative to the project, and whether it is a directory. */
  datatype File = File(name: string, path: string, isDir: bool)

  /** The path is absent: empty or just the separator. */
  predicate NoPath(f: File, sep: char) {
    f.path == "" || f.path == [sep]
  }

  /**
   `File.Pathname`: the name alone when there is no path; otherwise
   path, separator and name with every leading separator removed.
   */
  function Pathname(f: File, sep: char): (r: string)
    ensures NoPath(f, sep) ==> r == f.name
    ensures !NoPath(f, sep) ==>
      var full := f.path + [sep] + f.name;
      && |r| <= |full|
      && r == full[|full| - |r|..]
      && (forall k :: 0 <= k < |full| - |r| ==> full[k] == sep)
      && (|r| == 0 || r[0] != sep)
  {
    if NoPath(f, sep) then f.name else TrimLeft(f.path + [sep] + f.name, sep)
  }

  /** A path that does not start with the separator is kept whole. */
  lemma RelativePathKept(f: File, sep: char)
    requires |f.path| > 0 && f.path[0] != sep && f.path != [sep]
    ensures Pathname(f, sep) == f.path + [sep] + f.name
  {
  }

  /**
   Leading separators on a path that names a directory do not matter:
   `/subdir` and `subdir` give the same pathname.
   */
  lemma LeadingSeparatorsIgnored(f: File, n: nat, sep: char)
    requires exists k :: 0 <= k < |f.path| && f.path[k] != sep
    ensures Pathname(File(f.name, Repeat(sep, n) + f.path, f.isDir), sep) == Pathname(f, sep)
  {
    var g := File(f.name, Repeat(sep, n) + f.path, f.isDir);
    var k :| 0 <= k < |f.path| && f.path[k] != sep;
    var full := f.path + [sep] + f.name;
    assert g.path[n + k] == f.path[k];
    assert |g.path| >= 2 || g.path[0] != sep;
    assert !NoPath(g, sep);
    assert !NoPath(f, sep) by {
      assert |f.path| >= 2 || f.path[0] != sep;
    }
    var rep := Repeat(sep, n);
    calc {
      g.path + [sep] + g.name;
      (rep + f.path) + [sep] + f.name;
      { assert f.path + [sep] + f.name == f.path + ([sep] + f.name); }
      rep + full;
    }
    TrimLeftIgnoresLeading(n, full, sep);
  }

  /** The table of cases the tests list, with `/` as separator. */
  lemma PathnameExamples()
    ensures Pathname(File("testing.txt", "", false), '/') == "testing.txt"
    ensures Pathname(File("testing.txt", "/", false), '/') == "testing.txt"
    ensures Pathname(File("testing.txt", "subdir", false), '/') == "subdir/testing.txt"
    ensures Pathname(File("testing.txt", "/subdir", false), '/') == "subdir/testing.txt"
  {
    SubdirPathname();
    LeadingSeparatorsIgnored(File("testing.txt", "subdir", false), 1, '/');
    assert Repeat('/', 1) + "subdir" == "/subdir";
  }

  /** The `subdir` case: path, separator and name. */
  lemma SubdirPathname()
    ensures Pathname(File("testing.txt", "subdir", false), '/') == "subdir/testing.txt"
  {
    RelativePathKept(File("testing.txt", "subdir", false), '/');
    assert "subdir" + ['/'] + "testing.txt" == "subdir/testing.txt";
  }
}
