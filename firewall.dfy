/** `FirewallManager`: the owned rule document, the store operations that
    load, edit and save it through the file system, the in-memory reordering
    of either list, and the compiler to pf.conf text. Each method is proved
    to have the effect the functions of `Store` (for the store) and `PfConf`
    (for the compiler) give it. */
module Firewall {
  import opened Wrappers
  import opened GoStrings
  import opened Rules
  import opened Lists
  import opened Storage
  import opened Store
  import PfConf

  class FirewallManager {
    /** The document the manager holds (`fm.Config`). */
    var config: Config
    /** The file system the document is loaded from and saved to. */
    const disk: Disk
    /** The user's home directory, as `os.UserHomeDir` reports it. */
    const home: Option<Path>

    /** `NewFirewallManager`: both lists empty. */
    constructor (disk: Disk, home: Option<Path>)
      ensures config == EmptyConfig && this.disk == disk && this.home == home
    {
      config := EmptyConfig;
      this.disk := disk;
      this.home := home;
    }

    /** What the manager cannot change. */
    function Env(): Env {
      Store.Env(home, disk.faulty, disk.torn)
    }

    /** The manager's document and the files, as one state. */
    function Current(): State
      reads this, disk
    {
      State(config, disk.files)
    }

    // -------------------------------------------------------------------
    // Load, save, import
    // -------------------------------------------------------------------

    /** `LoadConfig`. */
    method LoadConfig() returns (err: Option<Error>)
      modifies this
      ensures Outcome(Current(), err) == LoadOutcome(Env(), old(Current()))
    {
      match DefaultPath(home) {
        case Err(e) =>
          err := Some(e);
        case Ok(path) =>
          var data := disk.ReadFile(path);
          match data {
            case Err(e) =>
              if IsNotExist(e) {
                config := EmptyConfig;
                err := None;
              } else {
                err := Some(e);
              }
            case Ok(d) =>
              match Unmarshal(d, config) {
                case Err(e) =>
                  err := Some(e);
                case Ok(c) =>
                  config := c;
                  err := None;
              }
          }
      }
    }

    /** `SaveConfigAs(path)`. Marshalling a `Config` cannot fail. */
    method SaveConfigAs(path: Path) returns (err: Option<Error>)
      modifies disk
      ensures Outcome(Current(), err) == SaveAsOutcome(Env(), old(Current()), path)
    {
      err := disk.MkdirAll(Dir(path));
      if err.None? {
        var data := Marshal(config);
        err := disk.WriteFile(path, data);
      }
    }

    /** `SaveConfig`. */
    method SaveConfig() returns (err: Option<Error>)
      modifies disk
      ensures Outcome(Current(), err) == SaveOutcome(Env(), old(Current()))
    {
      match DefaultPath(home) {
        case Err(e) =>
          err := Some(e);
        case Ok(path) =>
          err := SaveConfigAs(path);
      }
    }

    /** `ImportConfigFile(sourcePath)`. */
    method ImportConfigFile(sourcePath: Path) returns (err: Option<Error>)
      modifies this, disk
      ensures Outcome(Current(), err) == ImportOutcome(Env(), old(Current()), sourcePath)
    {
      match DefaultPath(home) {
        case Err(e) =>
          err := Some(e);
        case Ok(defaultPath) =>
          var statErr := disk.Stat(defaultPath);
          match statErr {
            case None =>
              var backupPath := BackupPath(defaultPath);
              var renameErr := disk.Rename(defaultPath, backupPath);
              match renameErr {
                case Some(e) =>
                  err := Some(Wrapped("failed to create backup", e));
                  return;
                case None =>
              }
            case Some(e) =>
              if !IsNotExist(e) {
                err := Some(e);
                return;
              }
          }
          var data := disk.ReadFile(sourcePath);
          match data {
            case Err(e) =>
              err := Some(Wrapped("failed to read import file", e));
            case Ok(d) =>
              err := disk.MkdirAll(Dir(defaultPath));
              if err.None? {
                var writeErr := disk.WriteFile(defaultPath, d);
                match writeErr {
                  case Some(e) =>
                    err := Some(Wrapped("failed to write new config file", e));
                  case None =>
                    err := LoadConfig();
                }
              }
          }
      }
    }

    // -------------------------------------------------------------------
    // Edits
    // -------------------------------------------------------------------

    /** `AddFirewallRule`. */
    method AddFirewallRule(rule: FirewallRule) returns (err: Option<Error>)
      modifies this, disk
      ensures Outcome(Current(), err) == EditOutcome(Env(), old(Current()), AddFilter(rule))
    {
      err := LoadConfig();
      if err.Some? {
        return;
      }
      config := config.(filterRules := config.filterRules + [rule]);
      err := SaveConfig();
    }

    /** `UpdateFirewallRule`. */
    method UpdateFirewallRule(index: int, rule: FirewallRule) returns (err: Option<Error>)
      modifies this, disk
      ensures Outcome(Current(), err) == EditOutcome(Env(), old(Current()), UpdateFilter(index, rule))
    {
      err := LoadConfig();
      if err.Some? {
        return;
      }
      if index < 0 || index >= |config.filterRules| {
        return Some(InvalidRuleIndex);
      }
      config := config.(filterRules := config.filterRules[index := rule]);
      err := SaveConfig();
    }

    /** `DeleteFirewallRule`. */
    method DeleteFirewallRule(index: int) returns (err: Option<Error>)
      modifies this, disk
      ensures Outcome(Current(), err) == EditOutcome(Env(), old(Current()), DeleteFilter(index))
    {
      err := LoadConfig();
      if err.Some? {
        return;
      }
      if index < 0 || index >= |config.filterRules| {
        return Some(InvalidRuleIndex);
      }
      var xs := config.filterRules;
      config := config.(filterRules := xs[..index] + xs[index + 1..]);
      err := SaveConfig();
    }

    /** `AddPortForwardingRule`. */
    method AddPortForwardingRule(rule: PortForwardingRule) returns (err: Option<Error>)
      modifies this, disk
      ensures Outcome(Current(), err) == EditOutcome(Env(), old(Current()), AddRdr(rule))
    {
      err := LoadConfig();
      if err.Some? {
        return;
      }
      config := config.(rdrRules := config.rdrRules + [rule]);
      err := SaveConfig();
    }

    /** `UpdatePortForwardingRule`. */
    method UpdatePortForwardingRule(index: int, rule: PortForwardingRule) returns (err: Option<Error>)
      modifies this, disk
      ensures Outcome(Current(), err) == EditOutcome(Env(), old(Current()), UpdateRdr(index, rule))
    {
      err := LoadConfig();
      if err.Some? {
        return;
      }
      if index < 0 || index >= |config.rdrRules| {
        return Some(InvalidRuleIndex);
      }
      config := config.(rdrRules := config.rdrRules[index := rule]);
      err := SaveConfig();
    }

    /** `DeletePortForwardingRule`. */
    method DeletePortForwardingRule(index: int) returns (err: Option<Error>)
      modifies this, disk
      ensures Outcome(Current(), err) == EditOutcome(Env(), old(Current()), DeleteRdr(index))
    {
      err := LoadConfig();
      if err.Some? {
        return;
      }
      if index < 0 || index >= |config.rdrRules| {
        return Some(InvalidRuleIndex);
      }
      var xs := config.rdrRules;
      config := config.(rdrRules := xs[..index] + xs[index + 1..]);
      err := SaveConfig();
    }

    // -------------------------------------------------------------------
    // Reordering (in memory only)
    // -------------------------------------------------------------------

    /** `MoveFirewallRule`: the filter list becomes `Moved`; nothing else
        changes and nothing is saved. */
    method MoveFirewallRule(from: int, to: int)
      modifies this
      ensures config == old(config).(filterRules := Moved(old(config.filterRules), from, to))
    {
      var xs := config.filterRules;
      if from < 0 || from >= |xs| || to < 0 || to >= |xs| {
        return;
      }
      if from == to {
        return;
      }
      var rule := xs[from];
      var tmp := xs[..from] + xs[from + 1..];
      var final := tmp[..to] + [rule] + tmp[to..];
      config := config.(filterRules := final);
    }

    /** `MovePortForwardingRule`: the same on the rdr list. */
    method MovePortForwardingRule(from: int, to: int)
      modifies this
      ensures config == old(config).(rdrRules := Moved(old(config.rdrRules), from, to))
    {
      var xs := config.rdrRules;
      if from < 0 || from >= |xs| || to < 0 || to >= |xs| {
        return;
      }
      if from == to {
        return;
      }
      var rule := xs[from];
      var tmp := xs[..from] + xs[from + 1..];
      var final := tmp[..to] + [rule] + tmp[to..];
      config := config.(rdrRules := final);
    }
  
    // -------------------------------------------------------------------
    // Compiler
    // -------------------------------------------------------------------

    /** `GeneratePfConf`: the pf.conf text for the document, built in a
        string builder: first the loop over the rdr rules, then the loop
        over the filter rules. It is the text `PfConf.PfConf` specifies. */
    method GeneratePfConf() returns (text: string)
      ensures text == PfConf.PfConf(config)
    {
      var rdrText := RdrLines(config.rdrRules);
      var filterText := FilterLines(config.filterRules);
      text := rdrText + filterText;
    }
  }

  /** The first loop of `GeneratePfConf`: every rdr rule's text, in order. */
  method RdrLines(rules: seq<PortForwardingRule>) returns (builder: string)
    ensures builder == PfConf.RdrSection(rules)
  {
    builder := "";
    for i := 0 to |rules|
      invariant builder == PfConf.RdrSection(rules[..i])
    {
      var entry := RdrEntry(rules[i]);
      PfConf.ConcatMapPrefix(PfConf.RdrText, rules, i);
      builder := builder + entry;
    }
    assert rules[..|rules|] == rules;
  }

  /** The second loop of `GeneratePfConf`: every filter rule's text, in order. */
  method FilterLines(rules: seq<FirewallRule>) returns (builder: string)
    ensures builder == PfConf.FilterSection(rules)
  {
    builder := "";
    for i := 0 to |rules|
      invariant builder == PfConf.FilterSection(rules[..i])
    {
      var entry := FilterEntry(rules[i]);
      PfConf.ConcatMapPrefix(PfConf.FilterText, rules, i);
      builder := builder + entry;
    }
    assert rules[..|rules|] == rules;
  }

  /** The text `GeneratePfConf` writes for one port-forwarding rule. Each
      `fmt.Sprintf` whose format is words separated by single spaces is
      written as the join of those words. */
  method RdrEntry(rule: PortForwardingRule) returns (entry: string)
    ensures entry == PfConf.RdrText(rule)
  {
    entry := "";
    if rule.description != "" {
      entry := "# " + rule.description + "\n";
    }
    var words: seq<string>;
    if rule.iface == "any" {
      words := ["rdr", "proto", rule.protocol, "from", "any", "to", rule.externalIP,
                "port", rule.externalPort, "->", rule.internalIP, "port", rule.internalPort];
    } else {
      var toPart := rule.externalIP;
      if toPart == "any" {
        toPart := "(" + rule.iface + ")";
      }
      words := ["rdr", "on", rule.iface, "proto", rule.protocol, "from", "any", "to", toPart,
                "port", rule.externalPort, "->", rule.internalIP, "port", rule.internalPort];
    }
    assert words == PfConf.RdrWords(rule);
    entry := entry + Join(words, " ") + "\n";
  }

  /** The text `GeneratePfConf` writes for one filter rule: the comment, then
      one statement per protocol token. */
  method FilterEntry(rule: FirewallRule) returns (entry: string)
    ensures entry == PfConf.FilterText(rule)
  {
    entry := "";
    if rule.description != "" {
      entry := "# " + rule.description + "\n";
    }
    var protocols: seq<string>;
    if rule.protocol == "any" && rule.port != "any" {
      protocols := ["tcp", "udp"];
    } else {
      protocols := Split(rule.protocol, ',');
    }
    assert protocols == PfConf.ProtocolTokens(rule);
    for k := 0 to |protocols|
      invariant entry == PfConf.Comment(rule.description) + PfConf.FilterStatements(rule, protocols[..k])
    {
      var proto := TrimSpace(protocols[k]);
      var parts := StatementParts(rule, proto);
      var line := Join(parts, " ") + "\n";
      PfConf.FilterStatementsPrefix(rule, protocols, k);
      PfConf.Regroup(PfConf.Comment(rule.description), PfConf.FilterStatements(rule, protocols[..k]), line);
      entry := entry + line;
    }
    assert protocols[..|protocols|] == protocols;
  }

  /** The words of one filter statement, appended to `parts` in the order
      `GeneratePfConf` appends them; they are the words of the clauses
      `PfConf.Clauses` selects. */
  method StatementParts(rule: FirewallRule, proto: string) returns (parts: seq<string>)
    ensures parts == PfConf.Words(PfConf.Clauses(rule, proto))
  {
    parts := HeadParts(rule);
    parts := AppendBodyParts(parts, rule, proto);
    ghost var bodyParts := parts;
    ghost var t: seq<PfConf.Clause> := [];
    if rule.keepState {
      parts := parts + ["keep state"];
      PfConf.WordsSnoc(t, PfConf.KeepState);
      t := t + [PfConf.KeepState];
    }
    assert t == PfConf.Tail(rule) && parts == bodyParts + PfConf.Words(t);
    PfConf.WordsAppend(PfConf.Head(rule), PfConf.Body(rule, proto));
    PfConf.WordsAppend(PfConf.Head(rule) + PfConf.Body(rule, proto), t);
  }

  /** The first words of a filter statement: action, direction, `quick`,
      `on <interface>`. */
  method HeadParts(rule: FirewallRule) returns (parts: seq<string>)
    ensures parts == PfConf.Words(PfConf.Head(rule))
  {
    ghost var h: seq<PfConf.Clause> := [];
    parts := [];
    parts := parts + [rule.action];
    PfConf.WordsSnoc(h, PfConf.Action(rule.action));
    h := h + [PfConf.Action(rule.action)];
    parts := parts + [rule.direction];
    PfConf.WordsSnoc(h, PfConf.Direction(rule.direction));
    h := h + [PfConf.Direction(rule.direction)];
    if rule.quick {
      parts := parts + ["quick"];
      PfConf.WordsSnoc(h, PfConf.Quick);
      h := h + [PfConf.Quick];
    }
    if rule.iface != "any" {
      parts := parts + ["on", rule.iface];
      PfConf.WordsSnoc(h, PfConf.On(rule.iface));
      h := h + [PfConf.On(rule.iface)];
    }
    assert h == PfConf.Head(rule);
  }

  /** `parts` followed by the middle words of a filter statement: `all`, or
      the protocol, address and port words. */
  method AppendBodyParts(parts0: seq<string>, rule: FirewallRule, proto: string) returns (parts: seq<string>)
    ensures parts == parts0 + PfConf.Words(PfConf.Body(rule, proto))
  {
    parts := parts0;
    ghost var b: seq<PfConf.Clause> := [];
    assert parts == parts0 + PfConf.Words(b);
    if proto == "any" && rule.source == "any" && rule.destination == "any" && rule.port == "any" {
      parts := parts + ["all"];
      PfConf.WordsSnoc(b, PfConf.All);
      PfConf.Regroup(parts0, PfConf.Words(b), PfConf.Render(PfConf.All));
      b := b + [PfConf.All];
    } else {
      if proto != "any" {
        parts := parts + ["proto", proto];
        PfConf.WordsSnoc(b, PfConf.Proto(proto));
        PfConf.Regroup(parts0, PfConf.Words(b), PfConf.Render(PfConf.Proto(proto)));
        b := b + [PfConf.Proto(proto)];
      }
      assert parts == parts0 + PfConf.Words(b);
      if rule.source != "any" || rule.destination != "any" {
        parts := parts + ["from", rule.source, "to", rule.destination];
        PfConf.WordsSnoc(b, PfConf.FromTo(rule.source, rule.destination));
        PfConf.Regroup(parts0, PfConf.Words(b), PfConf.Render(PfConf.FromTo(rule.source, rule.destination)));
        b := b + [PfConf.FromTo(rule.source, rule.destination)];
      } else if rule.source == "any" && rule.destination == "any" && rule.port != "any" {
        parts := parts + ["from", "any", "to", "any"];
        PfConf.WordsSnoc(b, PfConf.FromTo("any", "any"));
        PfConf.Regroup(parts0, PfConf.Words(b), PfConf.Render(PfConf.FromTo("any", "any")));
        b := b + [PfConf.FromTo("any", "any")];
      }
      assert parts == parts0 + PfConf.Words(b);
      if rule.port != "any" && (proto == "tcp" || proto == "udp") {
        var portStr := rule.port;
        if Contains(portStr, ",") || Contains(portStr, "-") || Contains(portStr, ":") {
          portStr := ReplaceChar(portStr, '-', ':');
          portStr := "{" + portStr + "}";
        }
        assert portStr == PfConf.FormatPort(rule.port);
        parts := parts + ["port", portStr];
        PfConf.WordsSnoc(b, PfConf.Port(portStr));
        PfConf.Regroup(parts0, PfConf.Words(b), PfConf.Render(PfConf.Port(portStr)));
        b := b + [PfConf.Port(portStr)];
      }
    }
    assert b == PfConf.Body(rule, proto);
  }
}
