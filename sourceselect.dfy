/** Which inputs src/codesystem/main.py analyses: the code-file test applied to every file
    of a cloned repository, and the choice between a repository URL and a local file. */
module SourceSelect {
  import opened PurePath

  /** The extensions `get_code_files` accepts, compared case-sensitively. */
  const CodeExtensions: set<string> := {
    ".py", ".js", ".java", ".cpp", ".c", ".h", ".hpp", ".cs", ".rb", ".go", ".rs", ".php"
  }

  /** `Path(path).suffix in code_extensions`. */
  predicate IsCodeFile(path: string) {
    Suffix(Name(path)) in CodeExtensions
  }

  /** Every accepted extension is a dot followed by letters, with no further dot. */
  lemma ExtensionsAreSuffixes(ext: string)
    requires ext in CodeExtensions
    ensures |ext| >= 2 && ext[0] == '.' && '.' !in ext[1..]
  {
  }

  /** Any entry `f` that the walk finds under `dir` is selected exactly when the suffix of
      its own name is one of the accepted extensions; a name without a dot (`Makefile`) is
      never selected. */
  lemma WalkedFileSelected(dir: string, f: string)
    requires '/' !in f && f != "" && f != "."
    ensures IsCodeFile(dir + "/" + f) <==> Suffix(f) in CodeExtensions
    ensures '.' !in f ==> !IsCodeFile(dir + "/" + f)
  {
    NameOfChild(dir, f);
    StemSuffixSplit(f);
    if Suffix(f) != [] {
      assert f[|Stem(f)|] == Suffix(f)[0] == '.';
    }
  }

  /** A file found under `dir` is selected exactly when its own name has one of the
      accepted extensions after a non-empty stem. */
  lemma CodeFileInDirectory(dir: string, stem: string, ext: string)
    requires '/' !in stem + ext && stem != ""
    requires |ext| >= 2 && ext[0] == '.' && '.' !in ext[1..]
    ensures IsCodeFile(dir + "/" + stem + ext) <==> ext in CodeExtensions
  {
    var f := stem + ext;
    assert f != "." by {
      assert |f| >= 3;
    }
    assert dir + "/" + stem + ext == dir + "/" + f;
    NameOfChild(dir, f);
    SuffixOfDotted(stem, ext);
  }

  /** A file whose whole name is an extension (a hidden file such as `.py`) has no suffix,
      so it is never selected. */
  lemma HiddenFileSkipped(dir: string)
    ensures !IsCodeFile(dir + "/.py")
  {
    NameOfChild(dir, ".py");
    assert dir + "/" + ".py" == dir + "/.py";
    assert ".py"[1..] == "py";
    DotFileHasNoSuffix(".py");
    assert Suffix(Name(dir + "/.py")) == "";
    assert "" !in CodeExtensions;
  }

  /** `main.py` is selected wherever it is found. */
  lemma PythonFileSelected(dir: string)
    ensures IsCodeFile(dir + "/main.py")
  {
    CodeFileInDirectory(dir, "main", ".py");
    assert dir + "/" + "main" + ".py" == dir + "/main.py";
  }

  /** The test is case-sensitive: `main.PY` is not selected. */
  lemma ExtensionCaseMatters(dir: string)
    ensures !IsCodeFile(dir + "/main.PY")
  {
    var ext := ".PY";
    assert ext !in CodeExtensions;
    CodeFileInDirectory(dir, "main", ext);
    assert dir + "/" + "main" + ext == dir + "/main.PY";
  }

  /** What the command-line argument is taken to be. */
  datatype Source = Repository(url: string) | LocalFile(path: string)

  /** The schemes that mark a repository URL. */
  const RepositorySchemes: seq<string> := ["http://", "https://", "git://"]

  /** `input_path.startswith(('http://', 'https://', 'git://'))`. */
  predicate IsRepositoryUrl(s: string) {
    "http://" <= s || "https://" <= s || "git://" <= s
  }

  /** The dispatch at the end of main.py: a URL with one of the three schemes is cloned,
      anything else is read as a file path; the argument is passed on unchanged. */
  function InputSource(arg: string): (r: Source)
    ensures r.Repository? <==> exists k :: 0 <= k < |RepositorySchemes| && RepositorySchemes[k] <= arg
    ensures r == Repository(arg) || r == LocalFile(arg)
  {
    if IsRepositoryUrl(arg) then
      var k := if "http://" <= arg then 0 else if "https://" <= arg then 1 else 2;
      assert RepositorySchemes[k] <= arg;
      Repository(arg)
    else LocalFile(arg)
  }

  /** Each of the three schemes, followed by anything, is cloned as a repository, and an
      argument that starts with none of them is read as that file path. */
  lemma SchemeDecidesSource(k: nat, rest: string, arg: string)
    requires k < |RepositorySchemes|
    ensures InputSource(RepositorySchemes[k] + rest) == Repository(RepositorySchemes[k] + rest)
    ensures !("http://" <= arg) && !("https://" <= arg) && !("git://" <= arg)
      ==> InputSource(arg) == LocalFile(arg)
  {
  }

  /** The scheme test is case-sensitive and needs the `//`: `HTTP://`, `ftp://` and
      `git@host:` addresses are taken for file paths. */
  lemma SchemeExamples(rest: string)
    ensures InputSource("https://" + rest).Repository?
    ensures InputSource("HTTP://" + rest).LocalFile?
    ensures InputSource("ftp://" + rest).LocalFile?
    ensures InputSource("git@" + rest).LocalFile?
  {
    assert "https://" <= "https://" + rest;
    assert ("HTTP://" + rest)[0] == 'H';
    assert ("ftp://" + rest)[0] == 'f';
    assert ("git@" + rest)[3] == '@';
  }
}
