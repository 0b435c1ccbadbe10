/** The file system the rule store works against, and the JSON document format
    it writes, both kept abstract.

    A file holds either a well-formed rule document, in which each of the two
    top-level keys ("filter_rules", "rdr_rules") may be present or absent, or
    text that is not a document; the byte-level JSON encoding is not modelled.
    Every file-system failure the Go code can meet (permission denied, I/O
    errors) is represented by a fixed set of faulty paths: any operation that
    touches one of them fails before it changes anything. A second fixed set
    holds the paths on which a write fails part-way: `os.WriteFile` has
    already truncated the file when the write or the close fails, so the
    file is left holding `Torn` and the write still returns an error. */
module Storage {
  import opened Wrappers
  import opened Rules

  type Path = string

  /** What a file holds. */
  datatype FileContent =
    | Document(filterRules: Option<seq<FirewallRule>>, rdrRules: Option<seq<PortForwardingRule>>)
    | NotJson(text: string)

  /** The errors the store returns, after Go's error values. */
  datatype Error =
    | HomeDirUnknown                                    // os.UserHomeDir failed
    | PathError(op: string, path: Path, notExist: bool)  // *fs.PathError; notExist is os.IsNotExist
    | LinkError(op: string, oldPath: Path, newPath: Path) // *os.LinkError from os.Rename
    | SyntaxError                                        // json.Unmarshal on text that is no document
    | InvalidRuleIndex                                   // errors.New("invalid rule index")
    | Wrapped(context: string, cause: Error)             // fmt.Errorf("<context>: %w", cause)

  /** `os.IsNotExist`. */
  predicate IsNotExist(e: Error) {
    e.PathError? && e.notExist
  }

  /** `json.MarshalIndent` of a document: both keys are written. */
  function Marshal(c: Config): FileContent {
    Document(Some(c.filterRules), Some(c.rdrRules))
  }

  /** `json.Unmarshal(data, into)`: decoding happens INTO the existing
      document, so a key the file lacks keeps the value `into` had. Text that
      is not a document is a syntax error and leaves `into` as it was. */
  function Unmarshal(data: FileContent, into: Config): Result<Config, Error> {
    match data
    case NotJson(_) => Err(SyntaxError)
    case Document(filter, rdr) =>
      Ok(Config(filter.GetOr(into.filterRules), rdr.GetOr(into.rdrRules)))
  }

  /** What is written is what is read back, whatever the decoding started from. */
  lemma UnmarshalMarshal(c: Config, into: Config)
    ensures Unmarshal(Marshal(c), into) == Ok(c)
  {
  }

  /** The directory part of a path up to and including its last '/'. */
  function DirPrefix(p: Path): (r: Path)
    ensures |r| <= |p| && r == p[..|r|]
    ensures r != [] ==> r[|r| - 1] == '/'
    ensures '/' !in p[|r|..]
  {
    if p == [] then []
    else if p[|p| - 1] == '/' then p
    else
      var r := DirPrefix(p[..|p| - 1]);
      assert p[|r|..] == p[..|p| - 1][|r|..] + [p[|p| - 1]];
      r
  }

  /** `filepath.Dir`: all but the last element; "." for a bare file name. The
      lexical clean-up of `filepath.Clean` other than dropping the trailing
      separator is not modelled. */
  function Dir(p: Path): Path {
    var d := DirPrefix(p);
    if d == [] then "." else if d == "/" then d else d[..|d| - 1]
  }

  /** `getDefaultConfigPath`: `<home>/.config/pf-tui/rules.json`. */
  function DefaultPath(home: Option<Path>): Result<Path, Error> {
    match home
    case None => Err(HomeDirUnknown)
    case Some(h) => Ok(h + "/.config/pf-tui/rules.json")
  }

  /** What a write that fails part-way leaves behind: the file was truncated
      when it was opened and holds at most part of the data, which is not a
      document. */
  const Torn: FileContent := NotJson("")

  /** The backup name `ImportConfigFile` renames the old document to. */
  function BackupPath(p: Path): Path {
    p + ".bak"
  }

  /** The file system: the files present, the paths on which every
      operation fails, and the paths on which a write fails part-way. */
  class Disk {
    var files: map<Path, FileContent>
    const faulty: set<Path>
    const torn: set<Path>

    constructor (files: map<Path, FileContent>, faulty: set<Path>, torn: set<Path>)
      ensures this.files == files && this.faulty == faulty && this.torn == torn
    {
      this.files := files;
      this.faulty := faulty;
      this.torn := torn;
    }

    /** `os.Stat`, reduced to its error. */
    method Stat(p: Path) returns (err: Option<Error>)
      ensures p in faulty ==> err == Some(PathError("stat", p, false))
      ensures p !in faulty && p !in files ==> err == Some(PathError("stat", p, true))
      ensures p !in faulty && p in files ==> err == None
    {
      if p in faulty {
        err := Some(PathError("stat", p, false));
      } else if p !in files {
        err := Some(PathError("stat", p, true));
      } else {
        err := None;
      }
    }

    /** `os.ReadFile`. */
    method ReadFile(p: Path) returns (r: Result<FileContent, Error>)
      ensures p in faulty ==> r == Err(PathError("open", p, false))
      ensures p !in faulty && p !in files ==> r == Err(PathError("open", p, true))
      ensures p !in faulty && p in files ==> r == Ok(files[p])
    {
      if p in faulty {
        r := Err(PathError("open", p, false));
      } else if p !in files {
        r := Err(PathError("open", p, true));
      } else {
        r := Ok(files[p]);
      }
    }

    /** `os.WriteFile`: opens with create and truncate, then writes. A
        failed open changes nothing; a write that fails after the open leaves
        the file truncated or partly written. */
    method WriteFile(p: Path, data: FileContent) returns (err: Option<Error>)
      modifies this
      ensures p in faulty ==> err == Some(PathError("open", p, false)) && files == old(files)
      ensures p !in faulty && p in torn ==> err == Some(PathError("write", p, false)) && files == old(files)[p := Torn]
      ensures p !in faulty && p !in torn ==> err == None && files == old(files)[p := data]
    {
      if p in faulty {
        err := Some(PathError("open", p, false));
      } else if p in torn {
        err := Some(PathError("write", p, false));
        files := files[p := Torn];
      } else {
        err := None;
        files := files[p := data];
      }
    }

    /** `os.Rename`: moves the content of `oldPath` to `newPath`, replacing
        whatever `newPath` held. */
    method Rename(oldPath: Path, newPath: Path) returns (err: Option<Error>)
      modifies this
      ensures oldPath in faulty || newPath in faulty || oldPath !in old(files) ==>
        err == Some(LinkError("rename", oldPath, newPath)) && files == old(files)
      ensures oldPath !in faulty && newPath !in faulty && oldPath in old(files) ==>
        err == None && files == (old(files) - {oldPath})[newPath := old(files)[oldPath]]
    {
      if oldPath in faulty || newPath in faulty || oldPath !in files {
        err := Some(LinkError("rename", oldPath, newPath));
      } else {
        err := None;
        files := (files - {oldPath})[newPath := files[oldPath]];
      }
    }

    /** `os.MkdirAll`: directories are not tracked; only failure is. */
    method MkdirAll(d: Path) returns (err: Option<Error>)
      ensures d in faulty ==> err == Some(PathError("mkdir", d, false))
      ensures d !in faulty ==> err == None
    {
      if d in faulty {
        err := Some(PathError("mkdir", d, false));
      } else {
        err := None;
      }
    }
  }
}
