/** What the rule store's operations do to the in-memory document and to the
    files, as functions from a state to an outcome. The methods of
    `Firewall.FirewallManager` are proved to have exactly these effects; the
    lemmas below state what the store promises across several operations. */
module Store {
  import opened Wrappers
  import opened Rules
  import opened Lists
  import opened Storage

  /** What the store cannot change: the user's home directory (if the OS can
      tell it), the paths on which every file operation fails, and the paths
      on which a write fails part-way (see `Storage.Disk`). */
  datatype Env = Env(home: Option<Path>, faulty: set<Path>, torn: set<Path>)

  /** The in-memory document and the files. */
  datatype State = State(config: Config, files: map<Path, FileContent>)

  /** The state after an operation and the error it returned, if any. */
  datatype Outcome = Outcome(state: State, err: Option<Error>)

  // ---------------------------------------------------------------------
  // Load, save, export and import
  // ---------------------------------------------------------------------

  /** `LoadConfig`: read the default file into the document. A missing file
      yields the empty document and no error; an unreadable or malformed file
      is an error that leaves the document as it was. Loading never writes. */
  function LoadOutcome(env: Env, s: State): (o: Outcome)
    ensures o.state.files == s.files
    ensures o.err.Some? ==> o.state == s
    ensures env.home.Some? ==> var p := DefaultPath(env.home).value;
      && (p !in env.faulty && p !in s.files ==> o == Outcome(State(EmptyConfig, s.files), None))
      && (p !in env.faulty && p in s.files && s.files[p].NotJson? ==> o == Outcome(s, Some(SyntaxError)))
      && (p in env.faulty ==> o.err == Some(PathError("open", p, false)))
    ensures env.home.None? ==> o == Outcome(s, Some(HomeDirUnknown))
  {
    match DefaultPath(env.home)
    case Err(e) => Outcome(s, Some(e))
    case Ok(p) =>
      if p in env.faulty then Outcome(s, Some(PathError("open", p, false)))
      else if p !in s.files then Outcome(State(EmptyConfig, s.files), None)
      else
        match Unmarshal(s.files[p], s.config)
        case Err(e) => Outcome(s, Some(e))
        case Ok(c) => Outcome(State(c, s.files), None)
  }

  /** `SaveConfigAs(p)`: create the directory of `p`, then write the document
      to `p`. On success exactly the file `p` changes and holds the
      document. A failure before the write changes nothing; a write that
      fails part-way leaves `p` torn and every other file as it was. */
  function SaveAsOutcome(env: Env, s: State, p: Path): (o: Outcome)
    ensures o.state.config == s.config
    ensures o.err.None? <==> Dir(p) !in env.faulty && p !in env.faulty && p !in env.torn
    ensures o.err.None? ==> o.state.files == s.files[p := Marshal(s.config)]
    ensures Dir(p) in env.faulty || p in env.faulty ==> o.err.Some? && o.state == s
    ensures Dir(p) !in env.faulty && p !in env.faulty && p in env.torn ==>
      o == Outcome(State(s.config, s.files[p := Torn]), Some(PathError("write", p, false)))
  {
    if Dir(p) in env.faulty then Outcome(s, Some(PathError("mkdir", Dir(p), false)))
    else if p in env.faulty then Outcome(s, Some(PathError("open", p, false)))
    else if p in env.torn then Outcome(State(s.config, s.files[p := Torn]), Some(PathError("write", p, false)))
    else Outcome(State(s.config, s.files[p := Marshal(s.config)]), None)
  }

  /** `SaveConfig`: `SaveConfigAs` on the default path. A failed save changes
      at most the default file, and then only by leaving it torn. */
  function SaveOutcome(env: Env, s: State): (o: Outcome)
    ensures o.state.config == s.config
    ensures o.err.Some? ==>
      (o.state.files == s.files
       || (env.home.Some? && o.state.files == s.files[DefaultPath(env.home).value := Torn]))
    ensures o.err.None? ==> env.home.Some? && o.state.files == s.files[DefaultPath(env.home).value := Marshal(s.config)]
  {
    match DefaultPath(env.home)
    case Err(e) => Outcome(s, Some(e))
    case Ok(p) => SaveAsOutcome(env, s, p)
  }

  /** The files after the backup step of an import: the default file, when
      present, is renamed to `<default>.bak`. */
  function BackedUp(files: map<Path, FileContent>, p: Path): (r: map<Path, FileContent>)
    ensures p in files ==> p !in r || p == BackupPath(p)
    ensures p in files ==> BackupPath(p) in r && r[BackupPath(p)] == files[p]
    ensures p !in files ==> r == files
    ensures forall q :: q != p && q != BackupPath(p) ==> (q in r <==> q in files) && (q in r ==> r[q] == files[q])
  {
    if p in files then (files - {p})[BackupPath(p) := files[p]] else files
  }

  /** `ImportConfigFile(src)`: back up the default file if it exists, copy
      the content of `src` verbatim to the default path, then load it. The
      backup happens before `src` is read, so a failed read leaves the
      default file renamed away. */
  function ImportOutcome(env: Env, s: State, src: Path): Outcome {
    match DefaultPath(env.home)
    case Err(e) => Outcome(s, Some(e))
    case Ok(p) =>
      if p in env.faulty then Outcome(s, Some(PathError("stat", p, false)))
      else if p in s.files && BackupPath(p) in env.faulty then
        Outcome(s, Some(Wrapped("failed to create backup", LinkError("rename", p, BackupPath(p)))))
      else
        var files := BackedUp(s.files, p);
        if src in env.faulty || src !in files then
          Outcome(State(s.config, files),
                  Some(Wrapped("failed to read import file", PathError("open", src, src !in env.faulty))))
        else if Dir(p) in env.faulty then
          Outcome(State(s.config, files), Some(PathError("mkdir", Dir(p), false)))
        else if p in env.torn then
          Outcome(State(s.config, files[p := Torn]),
                  Some(Wrapped("failed to write new config file", PathError("write", p, false))))
        else
          LoadOutcome(env, State(s.config, files[p := files[src]]))
  }

  // ---------------------------------------------------------------------
  // Edits: reload, change one list, save
  // ---------------------------------------------------------------------

  /** The edits the rule store offers on a reloaded document. */
  datatype Change =
    | AddFilter(rule: FirewallRule)
    | UpdateFilter(index: int, rule: FirewallRule)
    | DeleteFilter(index: int)
    | AddRdr(rdr: PortForwardingRule)
    | UpdateRdr(index: int, rdr: PortForwardingRule)
    | DeleteRdr(index: int)

  /** The list an edit addresses. */
  predicate OnFilterList(ch: Change) {
    ch.AddFilter? || ch.UpdateFilter? || ch.DeleteFilter?
  }

  /** The length of the list an edit addresses. */
  function TargetLength(ch: Change, c: Config): nat {
    if OnFilterList(ch) then |c.filterRules| else |c.rdrRules|
  }

  /** The document after an edit, or `None` when its index is invalid for the
      list it addresses. Only that list changes. */
  function Apply(ch: Change, c: Config): (r: Option<Config>)
    ensures r.None? <==> !ch.AddFilter? && !ch.AddRdr? && !(0 <= ch.index < TargetLength(ch, c))
    ensures r.Some? && OnFilterList(ch) ==> r.value.rdrRules == c.rdrRules
    ensures r.Some? && !OnFilterList(ch) ==> r.value.filterRules == c.filterRules
  {
    match ch
    case AddFilter(x) => Some(c.(filterRules := c.filterRules + [x]))
    case UpdateFilter(i, x) =>
      if 0 <= i < |c.filterRules| then Some(c.(filterRules := c.filterRules[i := x])) else None
    case DeleteFilter(i) =>
      if 0 <= i < |c.filterRules| then Some(c.(filterRules := RemoveAt(c.filterRules, i))) else None
    case AddRdr(x) => Some(c.(rdrRules := c.rdrRules + [x]))
    case UpdateRdr(i, x) =>
      if 0 <= i < |c.rdrRules| then Some(c.(rdrRules := c.rdrRules[i := x])) else None
    case DeleteRdr(i) =>
      if 0 <= i < |c.rdrRules| then Some(c.(rdrRules := RemoveAt(c.rdrRules, i))) else None
  }

  /** What an edit does to the filter list: an add appends at the end; an
      update on a valid index changes that position only; a delete on a
      valid index drops that position, keeping earlier rules and shifting
      later ones down by one. */
  lemma FilterEdits(ch: Change, c: Config)
    requires OnFilterList(ch) && Apply(ch, c).Some?
    ensures var xs, ys := c.filterRules, Apply(ch, c).value.filterRules;
      && (ch.AddFilter? ==> |ys| == |xs| + 1 && ys[..|xs|] == xs && ys[|xs|] == ch.rule)
      && (ch.UpdateFilter? ==>
            |ys| == |xs| && ys[ch.index] == ch.rule
            && forall k :: 0 <= k < |xs| && k != ch.index ==> ys[k] == xs[k])
      && (ch.DeleteFilter? ==>
            |ys| == |xs| - 1
            && (forall k :: 0 <= k < ch.index ==> ys[k] == xs[k])
            && (forall k :: ch.index <= k < |ys| ==> ys[k] == xs[k + 1]))
  {
    if ch.AddFilter? {
      assert Apply(ch, c).value.filterRules[..|c.filterRules|] == c.filterRules;
    }
  }

  /** The same for the rdr list. */
  lemma RdrEdits(ch: Change, c: Config)
    requires !OnFilterList(ch) && Apply(ch, c).Some?
    ensures var xs, ys := c.rdrRules, Apply(ch, c).value.rdrRules;
      && (ch.AddRdr? ==> |ys| == |xs| + 1 && ys[..|xs|] == xs && ys[|xs|] == ch.rdr)
      && (ch.UpdateRdr? ==>
            |ys| == |xs| && ys[ch.index] == ch.rdr
            && forall k :: 0 <= k < |xs| && k != ch.index ==> ys[k] == xs[k])
      && (ch.DeleteRdr? ==>
            |ys| == |xs| - 1
            && (forall k :: 0 <= k < ch.index ==> ys[k] == xs[k])
            && (forall k :: ch.index <= k < |ys| ==> ys[k] == xs[k + 1]))
  {
    if ch.AddRdr? {
      assert Apply(ch, c).value.rdrRules[..|c.rdrRules|] == c.rdrRules;
    }
  }

  /** `Add*`, `Update*`, `Delete*`: reload the default file, apply the edit to
      the reloaded document, save. A failed reload is returned with nothing
      changed or saved; an invalid index is returned after the reload,
      without saving. */
  function EditOutcome(env: Env, s: State, ch: Change): Outcome {
    var loaded := LoadOutcome(env, s);
    if loaded.err.Some? then loaded
    else
      match Apply(ch, loaded.state.config)
      case None => Outcome(loaded.state, Some(InvalidRuleIndex))
      case Some(c) => SaveOutcome(env, State(c, loaded.state.files))
  }

  // ---------------------------------------------------------------------
  // Properties
  // ---------------------------------------------------------------------

  /** Loading again after a load changes nothing: either the first load
      failed and the second fails the same way, or the document already
      matches the file. */
  lemma LoadIdempotent(env: Env, s: State)
    ensures var o := LoadOutcome(env, s); LoadOutcome(env, o.state) == o
  {
  }

  /** A successful save is read back by the next load: the store's file and
      its document agree. */
  lemma SaveThenLoad(env: Env, s: State)
    requires SaveOutcome(env, s).err.None?
    ensures var saved := SaveOutcome(env, s).state;
      LoadOutcome(env, saved) == Outcome(saved, None)
  {
    UnmarshalMarshal(s.config, s.config);
  }

  /** A successful edit leaves the file and the document in agreement, and
      the document is the RELOADED document with the edit applied (not the
      in-memory one the edit started from). */
  lemma EditPersists(env: Env, s: State, ch: Change)
    requires EditOutcome(env, s, ch).err.None?
    ensures var o := EditOutcome(env, s, ch);
      && Apply(ch, LoadOutcome(env, s).state.config) == Some(o.state.config)
      && LoadOutcome(env, o.state) == Outcome(o.state, None)
  {
    var loaded := LoadOutcome(env, s);
    var c := Apply(ch, loaded.state.config).value;
    SaveThenLoad(env, State(c, loaded.state.files));
  }

  /** An edit that fails before its save (a failed reload or an invalid
      index) writes nothing. An edit whose save fails changes at most the
      default file, and then only by leaving it torn. */
  lemma EditFailureFiles(env: Env, s: State, ch: Change)
    requires EditOutcome(env, s, ch).err.Some?
    ensures var loaded := LoadOutcome(env, s);
      loaded.err.Some? || Apply(ch, loaded.state.config).None? ==> EditOutcome(env, s, ch).state.files == s.files
    ensures var files := EditOutcome(env, s, ch).state.files;
      files == s.files || (env.home.Some? && files == s.files[DefaultPath(env.home).value := Torn])
  {
  }

  /** A save that fails part-way loses the stored rules: the default file no
      longer holds a document, so the next load fails with a syntax error and
      keeps the document in memory. */
  lemma TornSaveUnreadable(env: Env, s: State)
    requires env.home.Some?
    requires var p := DefaultPath(env.home).value;
      p !in env.faulty && Dir(p) !in env.faulty && p in env.torn
    ensures var p := DefaultPath(env.home).value;
      var o := SaveOutcome(env, s);
      && o.err == Some(PathError("write", p, false))
      && LoadOutcome(env, o.state) == Outcome(o.state, Some(SyntaxError))
  {
  }

  /** An update or delete with an index outside the reloaded list returns
      "invalid rule index" and saves nothing, whatever the in-memory list
      held before the reload. */
  lemma InvalidIndexNotSaved(env: Env, s: State, ch: Change)
    requires !ch.AddFilter? && !ch.AddRdr?
    requires LoadOutcome(env, s).err.None?
    requires var n := TargetLength(ch, LoadOutcome(env, s).state.config); ch.index < 0 || ch.index >= n
    ensures EditOutcome(env, s, ch) == Outcome(LoadOutcome(env, s).state, Some(InvalidRuleIndex))
  {
  }

  /** Exporting the document and importing the exported file gives the same
      document back, and keeps the previous default file as the backup. */
  lemma ExportThenImport(env: Env, s: State, dst: Path)
    requires env.home.Some?
    requires var p := DefaultPath(env.home).value; dst != p && dst != BackupPath(p)
    requires SaveAsOutcome(env, s, dst).err.None?
    requires ImportOutcome(env, SaveAsOutcome(env, s, dst).state, dst).err.None?
    ensures var p := DefaultPath(env.home).value;
      var o := ImportOutcome(env, SaveAsOutcome(env, s, dst).state, dst);
      && o.state.config == s.config
      && o.state.files[p] == Marshal(s.config)
      && (p in s.files ==> o.state.files[BackupPath(p)] == s.files[p])
  {
    UnmarshalMarshal(s.config, s.config);
  }

  /** When an import succeeds, the old default file is the backup, the
      default file holds the source's content verbatim, and the document is
      that content decoded. */
  lemma ImportBacksUp(env: Env, s: State, src: Path)
    requires env.home.Some?
    requires var p := DefaultPath(env.home).value; src != p && src != BackupPath(p)
    requires ImportOutcome(env, s, src).err.None?
    ensures var p := DefaultPath(env.home).value;
      var o := ImportOutcome(env, s, src);
      && src in s.files
      && (p in s.files ==> o.state.files[BackupPath(p)] == s.files[p])
      && o.state.files[p] == s.files[src]
      && Unmarshal(s.files[src], s.config) == Ok(o.state.config)
  {
  }

  /** Importing the default file itself loses it: the rename to the backup
      happens first, so the read of the source finds nothing. */
  lemma ImportOwnFile(env: Env, s: State)
    requires env.home.Some?
    requires var p := DefaultPath(env.home).value;
      p in s.files && p !in env.faulty && BackupPath(p) !in env.faulty
    ensures var p := DefaultPath(env.home).value;
      var o := ImportOutcome(env, s, p);
      && o.err == Some(Wrapped("failed to read import file", PathError("open", p, true)))
      && p !in o.state.files && o.state.files[BackupPath(p)] == s.files[p]
  {
  }

  /** A source that is not a rule document is still copied over the default
      file before the load rejects it; the previous default file survives as
      the backup. */
  lemma ImportUnvalidated(env: Env, s: State, src: Path)
    requires env.home.Some?
    requires var p := DefaultPath(env.home).value;
      && p !in env.faulty && BackupPath(p) !in env.faulty && Dir(p) !in env.faulty && p !in env.torn
      && src !in env.faulty && src != p && src != BackupPath(p)
    requires src in s.files && s.files[src].NotJson?
    ensures var p := DefaultPath(env.home).value;
      var o := ImportOutcome(env, s, src);
      && o.err == Some(SyntaxError)
      && o.state.files[p] == s.files[src]
      && (p in s.files ==> o.state.files[BackupPath(p)] == s.files[p])
      && o.state.config == s.config
  {
  }
}
