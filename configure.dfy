/**
  Locating and loading the jobs document (src/configure/mod.rs). Which files
  exist, what they contain and what the JSON and YAML parsers make of a text
  are oracles; the candidate loop, the extension mapping and the dispatch to a
  parser are modelled.
 */
module Configure {
  import W = Wrappers
  import opened SerdeJson
  import opened ConfigErrors

  /** `fs::metadata(path).is_ok()` and `fs::read_to_string(path)` (with the I/O error's text). */
  datatype FileSystem = FileSystem(present: string -> bool, read: string -> W.Result<string, string>)

  /** `serde_json::from_str::<Value>` and `serde_yaml::from_str::<Value>` (with the parser error's text). */
  datatype Parsers = Parsers(json: string -> W.Result<Value, string>, yaml: string -> W.Result<Value, string>)

  /** The content of the jobs file, tagged by its format. */
  datatype FileContent = Json(content: string) | Yaml(content: string) | Yml(content: string) | None

  /** The candidate files, in the order they are examined. */
  const Files: seq<string> := ["./jobs.json", "./jobs.yaml", "./jobs.yml"]

  /** The position of the last `c` in `s`, or -1. */
  function LastIndexOf(s: string, c: char): (r: int)
    ensures -1 <= r < |s|
    ensures r >= 0 ==> s[r] == c
    ensures forall j :: r < j < |s| ==> s[j] != c
    decreases |s|
  {
    if s == [] then -1
    else if s[|s| - 1] == c then |s| - 1
    else LastIndexOf(s[..|s| - 1], c)
  }

  /**
    The path without what the last component skips over: trailing '/'
    separators and trailing "/." (current-directory) components.
   */
  function Trimmed(path: string): (t: string)
    ensures |t| <= |path| && path[..|t|] == t
    ensures t == [] || t[|t| - 1] != '/'
    ensures |t| >= 2 ==> !(t[|t| - 2] == '/' && t[|t| - 1] == '.')
    decreases |path|
  {
    if |path| >= 1 && path[|path| - 1] == '/' then Trimmed(path[..|path| - 1])
    else if |path| >= 2 && path[|path| - 2] == '/' && path[|path| - 1] == '.' then Trimmed(path[..|path| - 2])
    else path
  }

  /**
    `Path::file_name`: the last component of the path once trailing
    separators and "." components are skipped, unless that component is
    empty (a root) or one of the special names "." and "..".
   */
  function FileName(path: string): (r: W.Option<string>)
    ensures r.Some? ==> '/' !in r.value && r.value != "" && r.value != "." && r.value != ".."
    ensures r.Some? ==> var t := Trimmed(path); |r.value| <= |t| && t[|t| - |r.value|..] == r.value
  {
    var t := Trimmed(path);
    var name := t[LastIndexOf(t, '/') + 1..];
    if name == "" || name == "." || name == ".." then W.None else W.Some(name)
  }

  /** The names "", "." and "..", which are no file name. */
  predicate DotName(name: string)
  {
    || |name| == 0
    || (|name| == 1 && name[0] == '.')
    || (|name| == 2 && name[0] == '.' && name[1] == '.')
  }

  /** `DotName` is the three names spelt out. */
  lemma DotNameIs(name: string)
    ensures DotName(name) <==> name == "" || name == "." || name == ".."
  {
    if |name| == 1 && name[0] == '.' {
      assert name == ".";
    } else if |name| == 2 && name[0] == '.' && name[1] == '.' {
      assert name == "..";
    }
  }

  /**
    A trimmed path whose last component is "", "." or "..": it is empty or
    ".", or it ends in ".." preceded by a separator or by nothing.
   */
  predicate EndsInDots(t: string)
  {
    || |t| == 0
    || (|t| == 1 && t[0] == '.')
    || (|t| >= 2 && t[|t| - 2] == '.' && t[|t| - 1] == '.' && (|t| == 2 || t[|t| - 3] == '/'))
  }

  /**
    `FileName` is the whole last component of the trimmed path (it starts
    the path or follows a '/'), and there is none exactly when that
    component is "", "." or "..".
   */
  lemma FileNameIsLastComponent(path: string)
    ensures FileName(path).Some? ==> var t, n := Trimmed(path), FileName(path).value;
      |n| == |t| || t[|t| - |n| - 1] == '/'
    ensures FileName(path).None? <==> EndsInDots(Trimmed(path))
  {
    var t := Trimmed(path);
    var k := LastIndexOf(t, '/');
    var name := t[k + 1..];
    assert FileName(path) == if name == "" || name == "." || name == ".." then W.None else W.Some(name);
    assert FileName(path).None? <==> DotName(name) by {
      DotNameIs(name);
    }
    assert DotName(name) <==> EndsInDots(t) by {
      DotNameTail(t, k);
      DotTailEndsInDots(t, k);
    }
  }

  /** The component after position `k` is a `DotName`, stated on the characters of `t`. */
  lemma DotNameTail(t: string, k: int)
    requires -1 <= k < |t|
    ensures DotName(t[k + 1..]) <==> DotTail(t, k)
  {
    var n := t[k + 1..];
    if |n| == 1 {
      assert n[0] == t[|t| - 1];
    } else if |n| == 2 {
      assert n[0] == t[|t| - 2] && n[1] == t[|t| - 1];
    }
  }

  /** The characters after position `k` are none, ".", or "..". */
  predicate DotTail(t: string, k: int)
    requires -1 <= k < |t|
  {
    var m := |t| - k - 1;
    m == 0 || (m == 1 && t[|t| - 1] == '.') || (m == 2 && t[|t| - 2] == '.' && t[|t| - 1] == '.')
  }

  /** When no '/' follows `k` in a trimmed path, the characters after `k` are a dot name exactly when the path `EndsInDots`. */
  lemma DotTailEndsInDots(t: string, k: int)
    requires t == [] || t[|t| - 1] != '/'
    requires |t| >= 2 ==> !(t[|t| - 2] == '/' && t[|t| - 1] == '.')
    requires -1 <= k < |t| && (k >= 0 ==> t[k] == '/') && forall j :: k < j < |t| ==> t[j] != '/'
    ensures DotTail(t, k) <==> EndsInDots(t)
  {
  }

  /**
    `Path::extension` of a file name: what follows its last '.', provided
    that dot is not the name's first character.
   */
  function ExtensionOf(name: string): (r: W.Option<string>)
    ensures r.Some? ==> '.' !in r.value && |r.value| + 1 < |name| && name[|name| - |r.value| - 1..] == "." + r.value
  {
    var i := LastIndexOf(name, '.');
    if i <= 0 then W.None
    else
      var ext := name[i + 1..];
      assert name[i..] == "." + ext;
      W.Some(ext)
  }

  /** `get_file_extension` (`Path::extension`): the extension of the file name, if the path has one. */
  function FileExtension(path: string): (r: W.Option<string>)
    ensures r.Some? ==> '.' !in r.value && '/' !in r.value
    ensures r.Some? ==> var t := Trimmed(path); |r.value| < |t| && t[|t| - |r.value| - 1..] == "." + r.value
  {
    var name := FileName(path);
    if name.None? then W.None
    else
      var r := ExtensionOf(name.value);
      if r.Some? then
        ExtensionInPath(Trimmed(path), name.value, r.value);
        r
      else r
  }

  /** The extension of a suffix of `t` that holds no '/' is itself a suffix of `t`, after a dot. */
  lemma ExtensionInPath(t: string, name: string, ext: string)
    requires '/' !in name && |name| <= |t| && t[|t| - |name|..] == name
    requires |ext| + 1 < |name| && name[|name| - |ext| - 1..] == "." + ext
    ensures '/' !in ext && |ext| < |t| && t[|t| - |ext| - 1..] == "." + ext
  {
    SuffixOfSuffix(t, name, |name| - |ext| - 1);
    forall j | 0 <= j < |ext|
      ensures ext[j] != '/'
    {
      assert ext[j] == ("." + ext)[j + 1] == name[|name| - |ext| + j];
    }
  }

  /** A suffix of a suffix of `t` is a suffix of `t`. */
  lemma SuffixOfSuffix(t: string, name: string, i: nat)
    requires |name| <= |t| && t[|t| - |name|..] == name && i <= |name|
    ensures t[|t| - (|name| - i)..] == name[i..]
  {
    assert t[|t| - |name|..][i..] == t[|t| - (|name| - i)..];
  }

  /** A trailing separator or "." component is trimmed away. */
  lemma TrimmedSkips(path: string)
    ensures Trimmed(path + "/") == Trimmed(path)
    ensures Trimmed(path + "/.") == Trimmed(path)
  {
    var p1, p2 := path + "/", path + "/.";
    assert p1[..|p1| - 1] == path;
    assert p2[..|p2| - 2] == path;
    assert p2[|p2| - 1] == '.' && p2[|p2| - 2] == '/';
  }

  /** A name has an extension exactly when it has a '.' after its first character. */
  lemma ExtensionOfHasDot(name: string)
    ensures ExtensionOf(name).Some? <==> exists i :: 0 < i < |name| && name[i] == '.'
  {
    var i := LastIndexOf(name, '.');
    if i > 0 {
      assert name[i] == '.';
    }
  }

  /**
    `get_file_extension` is `Some` exactly when the path has a file name
    with a '.' after its first character, as `Path::extension` promises.
   */
  lemma FileExtensionHasDot(path: string)
    ensures FileExtension(path).Some? <==>
      FileName(path).Some? && exists i :: 0 < i < |FileName(path).value| && FileName(path).value[i] == '.'
  {
    if FileName(path).Some? {
      ExtensionOfHasDot(FileName(path).value);
    }
  }

  /** Trimming removes only separators and "." characters from the end. */
  lemma {:induction false} TrimmedRemoves(path: string)
    ensures forall j :: |Trimmed(path)| <= j < |path| ==> path[j] == '/' || path[j] == '.'
    decreases |path|
  {
    if |path| >= 1 && path[|path| - 1] == '/' {
      TrimmedRemoves(path[..|path| - 1]);
    } else if |path| >= 2 && path[|path| - 2] == '/' && path[|path| - 1] == '.' {
      TrimmedRemoves(path[..|path| - 2]);
    }
  }

  /** A path that ends in neither a separator nor a "." component is its own trimmed form. */
  lemma TrimmedKeeps(path: string)
    requires path == [] || path[|path| - 1] != '/'
    requires |path| >= 2 ==> !(path[|path| - 2] == '/' && path[|path| - 1] == '.')
    ensures Trimmed(path) == path
  {
  }

  /** Trailing separators and "." components do not change the extension: `a.yaml/` and `a.yaml/.` are `yaml` files. */
  lemma TrailingComponentsSkipped(path: string)
    ensures FileExtension(path + "/") == FileExtension(path)
    ensures FileExtension(path + "/.") == FileExtension(path)
  {
    TrimmedSkips(path);
    assert FileName(path + "/") == FileName(path);
    assert FileName(path + "/.") == FileName(path);
  }

  /** A candidate name `./jobs.<ext>` has the extension `ext`. */
  lemma JobsFileExtension(path: string, ext: string)
    requires path == "./jobs." + ext
    requires ext != "" && '.' !in ext && '/' !in ext
    ensures FileExtension(path) == W.Some(ext)
  {
    assert path[|path| - 1] == ext[|ext| - 1];
    assert Trimmed(path) == path;
    assert path[1] == '/';
    assert forall j :: 1 < j < |path| ==> path[j] != '/' by {
      forall j | 1 < j < |path| ensures path[j] != '/' {
        if j >= 7 { assert path[j] == ext[j - 7]; }
      }
    }
    var name := path[2..];
    assert name == "jobs." + ext;
    assert name[4] == '.';
    assert forall j :: 4 < j < |name| ==> name[j] != '.' by {
      forall j | 4 < j < |name| ensures name[j] != '.' {
        assert name[j] == ext[j - 5];
      }
    }
    assert name[5..] == ext;
  }

  /** The extensions of the three candidates, in the same order. */
  const Extensions: seq<string> := ["json", "yaml", "yml"]

  /** Each candidate carries its own extension: "json", "yaml", "yml". */
  lemma CandidateExtension(k: nat)
    requires k < |Files|
    ensures FileExtension(Files[k]) == W.Some(Extensions[k])
  {
    if k == 0 {
      JobsFileExtension(Files[0], "json");
    } else if k == 1 {
      JobsFileExtension(Files[1], "yaml");
    } else {
      JobsFileExtension(Files[2], "yml");
    }
  }

  /**
    `FileContent::from`: "yaml" and "yml" select their variants; "json", any
    other extension and no extension at all select `Json`. The content is kept
    as it is.
   */
  function From(content: string, file: string): (fc: FileContent)
    ensures !fc.None? && fc.content == content
    ensures fc.Yaml? <==> FileExtension(file) == W.Some("yaml")
    ensures fc.Yml? <==> FileExtension(file) == W.Some("yml")
    ensures fc.Json? <==> FileExtension(file) != W.Some("yaml") && FileExtension(file) != W.Some("yml")
  {
    match FileExtension(file)
    case Some("json") => Json(content)
    case Some("yaml") => Yaml(content)
    case Some("yml") => Yml(content)
    case _ => Json(content)
  }

  /** The first candidate that exists, or `|files|` when none does. */
  function FirstPresent(files: seq<string>, present: string -> bool): (k: nat)
    ensures k <= |files|
    ensures k < |files| ==> present(files[k])
    ensures forall j :: 0 <= j < k ==> !present(files[j])
    decreases |files|
  {
    if files == [] then 0
    else if present(files[0]) then 0
    else 1 + FirstPresent(files[1..], present)
  }

  /** A position that is present and has nothing present before it is the first present one. */
  lemma FirstPresentIs(files: seq<string>, present: string -> bool, k: nat)
    requires k <= |files|
    requires k < |files| ==> present(files[k])
    requires forall j :: 0 <= j < k ==> !present(files[j])
    ensures FirstPresent(files, present) == k
  {
  }

  /**
    What `get_jobs_file_content` returns for the candidates `files`: the first
    existing file is read (a read failure is reported at once); a second
    existing file is an error; no existing file is an error.
   */
  function SelectFile(files: seq<string>, fs: FileSystem): (r: W.Result<FileContent, ConfigError>)
    ensures r.Success? ==> !r.value.None?
    ensures r.Failure? ==> r.error.NoJobsFile? || r.error.MultipleJobsFiles? || (r.error.ReadFailed? && r.error.path in files)
    ensures r.Failure? && r.error.ReadFailed? ==> fs.read(r.error.path) == W.Failure(r.error.reason)
  {
    var f := FirstPresent(files, fs.present);
    if f == |files| then W.Failure(NoJobsFile)
    else
      match fs.read(files[f])
      case Failure(e) => W.Failure(ReadFailed(files[f], e))
      case Success(text) =>
        if FirstPresent(files[f + 1..], fs.present) < |files| - f - 1 then W.Failure(MultipleJobsFiles)
        else W.Success(From(text, files[f]))
  }

  /** `get_jobs_file_content`: examine the fixed candidates. */
  method GetJobsFileContent(fs: FileSystem) returns (r: W.Result<FileContent, ConfigError>)
    ensures r == SelectFile(Files, fs)
  {
    r := ExamineCandidates(Files, fs);
  }

  /** The loop of `get_jobs_file_content` over the candidates `files`, counting the ones that exist. */
  method ExamineCandidates(files: seq<string>, fs: FileSystem) returns (r: W.Result<FileContent, ConfigError>)
    ensures r == SelectFile(files, fs)
  {
    var content := None;
    var count := 0;
    ghost var first := 0;
    for i := 0 to |files|
      invariant count <= 1
      invariant count == 0 ==> forall j :: 0 <= j < i ==> !fs.present(files[j])
      invariant count == 1 ==> first < i && fs.present(files[first])
      invariant count == 1 ==> forall j :: 0 <= j < i && j != first ==> !fs.present(files[j])
      invariant count == 1 ==> fs.read(files[first]).Success?
      invariant count == 1 ==> content == From(fs.read(files[first]).value, files[first])
    {
      if fs.present(files[i]) {
        if count > 0 {
          SelectSecond(files, fs, first, i);
          return W.Failure(MultipleJobsFiles);
        }
        var text := fs.read(files[i]);
        if text.Failure? {
          SelectReadFailed(files, fs, i);
          return W.Failure(ReadFailed(files[i], text.error));
        }
        content := From(text.value, files[i]);
        count := count + 1;
        first := i;
      }
    }
    if count == 0 {
      NoCandidateIsError(files, fs);
      return W.Failure(NoJobsFile);
    }
    SelectOnly(files, fs, first);
    return W.Success(content);
  }

  /** The first existing candidate cannot be read: its read error. */
  lemma SelectReadFailed(files: seq<string>, fs: FileSystem, i: nat)
    requires i < |files| && fs.present(files[i]) && fs.read(files[i]).Failure?
    requires forall j :: 0 <= j < i ==> !fs.present(files[j])
    ensures SelectFile(files, fs) == W.Failure(ReadFailed(files[i], fs.read(files[i]).error))
  {
    FirstPresentIs(files, fs.present, i);
  }

  /** A second existing candidate after a readable first one: the "Multiple" error. */
  lemma SelectSecond(files: seq<string>, fs: FileSystem, first: nat, i: nat)
    requires first < i < |files| && fs.present(files[first]) && fs.present(files[i])
    requires fs.read(files[first]).Success?
    requires forall j :: 0 <= j < first ==> !fs.present(files[j])
    ensures SelectFile(files, fs) == W.Failure(MultipleJobsFiles)
  {
    FirstPresentIs(files, fs.present, first);
    assert files[first + 1..][i - first - 1] == files[i];
  }

  /** Exactly one existing candidate, and it is readable: its content. */
  lemma SelectOnly(files: seq<string>, fs: FileSystem, first: nat)
    requires first < |files| && fs.present(files[first]) && fs.read(files[first]).Success?
    requires forall j :: 0 <= j < |files| && j != first ==> !fs.present(files[j])
    ensures SelectFile(files, fs) == W.Success(From(fs.read(files[first]).value, files[first]))
  {
    FirstPresentIs(files, fs.present, first);
    FirstPresentIs(files[first + 1..], fs.present, |files| - first - 1);
  }

  /**
    The `get_configure` match: JSON content goes to the JSON parser, YAML and
    YML content to the YAML parser, a parse failure names the file of that
    variant, and `None` is the "no file" error.
   */
  function ParseContent(fc: FileContent, parsers: Parsers): (r: W.Result<Value, ConfigError>)
    ensures fc.None? ==> r == W.Failure(NoJobsFile)
    ensures fc.Json? ==> r == (match parsers.json(fc.content)
                              case Success(v) => W.Success(v)
                              case Failure(e) => W.Failure(ParseFailed("jobs.json", e)))
    ensures fc.Yaml? ==> r == (match parsers.yaml(fc.content)
                              case Success(v) => W.Success(v)
                              case Failure(e) => W.Failure(ParseFailed("jobs.yaml", e)))
    ensures fc.Yml? ==> r == (match parsers.yaml(fc.content)
                             case Success(v) => W.Success(v)
                             case Failure(e) => W.Failure(ParseFailed("jobs.yml", e)))
  {
    match fc
    case Json(c) => Parsed(parsers.json(c), "jobs.json")
    case Yaml(c) => Parsed(parsers.yaml(c), "jobs.yaml")
    case Yml(c) => Parsed(parsers.yaml(c), "jobs.yml")
    case None => W.Failure(NoJobsFile)
  }

  /** A parser's answer, its error tagged with the file it came from. */
  function Parsed(p: W.Result<Value, string>, file: string): W.Result<Value, ConfigError>
  {
    match p
    case Success(v) => W.Success(v)
    case Failure(e) => W.Failure(ParseFailed(file, e))
  }

  /** What `get_configure` returns when the candidates are `files`. */
  function ConfigureFrom(files: seq<string>, fs: FileSystem, parsers: Parsers): W.Result<Value, ConfigError>
  {
    match SelectFile(files, fs)
    case Failure(e) => W.Failure(e)
    case Success(fc) => ParseContent(fc, parsers)
  }

  /** What `get_configure` returns. */
  function ConfigureOf(fs: FileSystem, parsers: Parsers): W.Result<Value, ConfigError>
  {
    ConfigureFrom(Files, fs, parsers)
  }

  /** `get_configure`: select the jobs file, then parse it. */
  method GetConfigure(fs: FileSystem, parsers: Parsers) returns (r: W.Result<Value, ConfigError>)
    ensures r == ConfigureOf(fs, parsers)
  {
    var fileContent := GetJobsFileContent(fs);
    if fileContent.Failure? {
      return W.Failure(fileContent.error);
    }
    match fileContent.value
    case Json(c) =>
      var p := parsers.json(c);
      if p.Failure? { return W.Failure(ParseFailed("jobs.json", p.error)); }
      r := W.Success(p.value);
    case Yaml(c) =>
      var p := parsers.yaml(c);
      if p.Failure? { return W.Failure(ParseFailed("jobs.yaml", p.error)); }
      r := W.Success(p.value);
    case Yml(c) =>
      var p := parsers.yaml(c);
      if p.Failure? { return W.Failure(ParseFailed("jobs.yml", p.error)); }
      r := W.Success(p.value);
    case None =>
      return W.Failure(NoJobsFile);
  }

  /**
    The errors `get_configure` can return, for any candidate list: a
    selection error, whose read errors carry the failed read's reason, or a
    parse error naming one of the three files. The "no file" error means that
    no candidate exists: the `FileContent::None` arm is never reached.
   */
  lemma ConfigureFromErrors(files: seq<string>, fs: FileSystem, parsers: Parsers)
    ensures var r := ConfigureFrom(files, fs, parsers);
      && (r.Failure? ==> FileError(r.error))
      && (r.Failure? && r.error.ReadFailed? ==> r.error.path in files && fs.read(r.error.path) == W.Failure(r.error.reason))
      && (r.Failure? && r.error.ParseFailed? ==> r.error.file in {"jobs.json", "jobs.yaml", "jobs.yml"})
      && (r.Failure? && r.error.NoJobsFile? ==> forall k :: 0 <= k < |files| ==> !fs.present(files[k]))
  {
    var sel := SelectFile(files, fs);
    if sel.Success? {
      var fc := sel.value;
      assert ConfigureFrom(files, fs, parsers) == ParseContent(fc, parsers);
      match fc
      case Json(c) => assert ParseContent(fc, parsers) == Parsed(parsers.json(c), "jobs.json");
      case Yaml(c) => assert ParseContent(fc, parsers) == Parsed(parsers.yaml(c), "jobs.yaml");
      case Yml(c) => assert ParseContent(fc, parsers) == Parsed(parsers.yaml(c), "jobs.yml");
    } else {
      assert ConfigureFrom(files, fs, parsers) == W.Failure(sel.error);
      if sel.error.NoJobsFile? {
        assert FirstPresent(files, fs.present) == |files|;
      }
    }
  }

  /** The same, for the three fixed candidates. */
  lemma ConfigureErrors(fs: FileSystem, parsers: Parsers)
    ensures var r := ConfigureOf(fs, parsers);
      && (r.Failure? ==> FileError(r.error))
      && (r.Failure? && r.error.ReadFailed? ==> r.error.path in Files && fs.read(r.error.path) == W.Failure(r.error.reason))
      && (r.Failure? && r.error.ParseFailed? ==> r.error.file in {"jobs.json", "jobs.yaml", "jobs.yml"})
      && (r.Failure? && r.error.NoJobsFile? ==> forall k :: 0 <= k < |Files| ==> !fs.present(Files[k]))
  {
    ConfigureFromErrors(Files, fs, parsers);
  }

  /** No existing candidate: "No 'jobs' file found." */
  lemma NoCandidateIsError(files: seq<string>, fs: FileSystem)
    requires forall k :: 0 <= k < |files| ==> !fs.present(files[k])
    ensures SelectFile(files, fs) == W.Failure(NoJobsFile)
  {
    FirstPresentIs(files, fs.present, |files|);
  }

  /**
    Two existing candidates: the "Multiple 'jobs' files" error, once the first
    of them has been read. If that read fails, its failure is what is
    reported, whatever follows it.
   */
  lemma TwoCandidatesIsError(files: seq<string>, fs: FileSystem, i: nat, j: nat)
    requires i < j < |files| && fs.present(files[i]) && fs.present(files[j])
    ensures var f := FirstPresent(files, fs.present);
      f <= i &&
      SelectFile(files, fs) == (match fs.read(files[f])
                                case Failure(e) => W.Failure(ReadFailed(files[f], e))
                                case Success(_) => W.Failure(MultipleJobsFiles))
  {
    var f := FirstPresent(files, fs.present);
    if f < j {
      assert files[f + 1..][j - f - 1] == files[j];
    }
  }

  /**
    Selection succeeds exactly when one candidate exists and it can be read;
    the result is then that file's content, unchanged, tagged by its extension.
   */
  lemma SelectSucceedsIffOne(files: seq<string>, fs: FileSystem)
    ensures SelectFile(files, fs).Success? <==>
      exists k :: 0 <= k < |files| && fs.present(files[k]) && fs.read(files[k]).Success? &&
        forall j :: 0 <= j < |files| && j != k ==> !fs.present(files[j])
    ensures forall k :: (0 <= k < |files| && fs.present(files[k]) && fs.read(files[k]).Success? &&
                         (forall j :: 0 <= j < |files| && j != k ==> !fs.present(files[j]))) ==>
                        SelectFile(files, fs) == W.Success(From(fs.read(files[k]).value, files[k]))
  {
    var f := FirstPresent(files, fs.present);
    forall k | 0 <= k < |files| && fs.present(files[k]) && fs.read(files[k]).Success? &&
        (forall j :: 0 <= j < |files| && j != k ==> !fs.present(files[j]))
      ensures SelectFile(files, fs) == W.Success(From(fs.read(files[k]).value, files[k]))
    {
      FirstPresentIs(files, fs.present, k);
      FirstPresentIs(files[k + 1..], fs.present, |files| - k - 1);
    }
    if SelectFile(files, fs).Success? {
      assert f < |files| && fs.read(files[f]).Success?;
      forall j | 0 <= j < |files| && j != f ensures !fs.present(files[j]) {
        if f < j {
          assert files[f + 1..][j - f - 1] == files[j];
        }
      }
    }
  }

  /**
    Over the fixed candidates, a successful selection is tagged `Json`, `Yaml`
    or `Yml` according to which of "./jobs.json", "./jobs.yaml", "./jobs.yml"
    exists; it is never `None`.
   */
  lemma SelectedFormat(fs: FileSystem)
    requires SelectFile(Files, fs).Success?
    ensures var fc, k := SelectFile(Files, fs).value, FirstPresent(Files, fs.present);
      && k < |Files| && !fc.None?
      && fc.content == fs.read(Files[k]).value
      && (fc.Json? <==> k == 0)
      && (fc.Yaml? <==> k == 1)
      && (fc.Yml? <==> k == 2)
  {
    var k := FirstPresent(Files, fs.present);
    SelectedFrom(Files, fs);
    var fc := SelectFile(Files, fs).value;
    assert fc == From(fs.read(Files[k]).value, Files[k]);
    CandidateExtension(k);
    if k == 0 {
      assert FileExtension(Files[k]) == W.Some("json");
    } else if k == 1 {
      assert FileExtension(Files[k]) == W.Some("yaml");
    } else {
      assert FileExtension(Files[k]) == W.Some("yml");
    }
  }

  /** A successful selection is the first existing candidate's content, tagged by its extension. */
  lemma SelectedFrom(files: seq<string>, fs: FileSystem)
    requires SelectFile(files, fs).Success?
    ensures var k := FirstPresent(files, fs.present);
      && k < |files| && fs.read(files[k]).Success?
      && SelectFile(files, fs).value == From(fs.read(files[k]).value, files[k])
  {
  }
}
