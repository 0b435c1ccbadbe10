# pf-tui rule store, pf.conf compiler and live-rule parser in Dafny

pf-tui is a terminal front end for the macOS / OpenBSD packet filter (pf). It
keeps a JSON document with two ordered rule lists: filter rules and
port-forwarding (rdr) rules. It compiles that document to pf.conf text and
reads the rules pf has loaded back into filter rules. This project models and
proves properties of that core:

- **Rule store** (`FirewallManager` in `firewall.go`). `Firewall.FirewallManager`
  is a class with the document as a field and the file system as a `Storage.Disk`
  object. Its methods follow the Go code step by step:
  - Load, Save, SaveAs and Import;
  - Add, Update and Delete for both lists, each reloading the file first;
  - Move for both lists.

  Each method is proved to have exactly the effect a function in `Store` gives
  it. The lemmas in `Store` then state what the store promises across calls: a
  save is read back by the next load; a bad index saves nothing; an import
  keeps a backup; and so on. The file system is a map from path to content plus
  two fixed sets of paths: faulty paths, on which every operation fails before
  it changes anything, and torn paths, on which a write truncates the file and
  then fails (as `os.WriteFile` can). A file holds either a rule document (each
  key present or absent) or text that is not a document.
- **Compiler** (`GeneratePfConf`). `PfConf` specifies the output text. A filter
  statement is specified as the pf clauses it is made of, so which clauses a rule
  gets is stated on its own (`ClauseSelection`). The builder loops in
  `Firewall.GeneratePfConf`, `RdrLines`, `FilterLines`, `FilterEntry` and
  `StatementParts` are proved to produce exactly `PfConf.PfConf`.
- **Live-rule parser** (`ParseLiveRules` in `pf.go`). `LiveRules.ParseLiveRules`
  and `ScanParts` are the two loops, proved equal to the recursive scan `Scan`.
  `Keywords`, `LastValue` and `Seen` give an independent account of which
  fields are read as keywords and which value each attribute ends up with.
  `ScanMeaning` proves the two accounts agree.
- **pf.go text judgements** (`PfText`):
  - the ALTQ line filter of `GetCurrentRules`;
  - the reading of the `Status:` line in `GetPfStatus`;
  - the computation in `SetupPfConf` of which anchor lines pf.conf lacks, and
    the new pf.conf content.

  Command output and command failure are parameters.

Go's `fmt.Sprintf` with a format made of space-separated `%s` words (the rdr
statement) gives the same text as `strings.Join` of those words with `" "`, so
the rdr statement is specified as `Join(RdrWords(r), " ")`.

`ImportConfigFile` renames the default file to `.bak` before it reads the
import source. So a failed read, or importing the default file itself, leaves
the default file renamed away (`Store.ImportOwnFile`).

## Model

| member | source | states |
|---|---|---|
| Firewall.FirewallManager.constructor | firewall.go:50-57 | a new manager holds a document with both lists empty |
| Firewall.FirewallManager.LoadConfig | firewall.go:80-108 | the new document, files and error are exactly `Store.LoadOutcome` of the old state |
| Firewall.FirewallManager.SaveConfigAs | firewall.go:188-209 | the new files and error are exactly `Store.SaveAsOutcome`: mkdir of the directory, then write of the document |
| Firewall.FirewallManager.SaveConfig | firewall.go:158-185 | the new files and error are exactly `Store.SaveOutcome` on the default path |
| Firewall.FirewallManager.ImportConfigFile | firewall.go:111-154 | the new state and error are exactly `Store.ImportOutcome`: stat, rename to `.bak`, read the source, mkdir, write verbatim, load |
| Firewall.FirewallManager.AddFirewallRule | firewall.go:212-219 | the outcome is `Store.EditOutcome` of `AddFilter`: reload, append, save |
| Firewall.FirewallManager.UpdateFirewallRule | firewall.go:222-232 | the outcome is `Store.EditOutcome` of `UpdateFilter`: reload, bounds check against the reloaded list, replace, save |
| Firewall.FirewallManager.DeleteFirewallRule | firewall.go:235-245 | the outcome is `Store.EditOutcome` of `DeleteFilter`: reload, bounds check, remove the position, save |
| Firewall.FirewallManager.AddPortForwardingRule | firewall.go:271-278 | the outcome is `Store.EditOutcome` of `AddRdr` |
| Firewall.FirewallManager.UpdatePortForwardingRule | firewall.go:281-291 | the outcome is `Store.EditOutcome` of `UpdateRdr` |
| Firewall.FirewallManager.DeletePortForwardingRule | firewall.go:294-304 | the outcome is `Store.EditOutcome` of `DeleteRdr` |
| Firewall.FirewallManager.MoveFirewallRule | firewall.go:248-268 | only the filter list changes, and it becomes `Lists.Moved` of the old list; nothing is saved |
| Firewall.FirewallManager.MovePortForwardingRule | firewall.go:307-327 | only the rdr list changes, and it becomes `Lists.Moved` of the old list; nothing is saved |
| Firewall.FirewallManager.GeneratePfConf | firewall.go:330-415 | the built text is `PfConf.PfConf` of the document: all rdr statements, then all filter statements |
| Firewall.RdrLines | firewall.go:334-354 | the loop over the rdr rules builds `PfConf.RdrSection` of the list |
| Firewall.FilterLines | firewall.go:357-412 | the loop over the filter rules builds `PfConf.FilterSection` of the list |
| Firewall.RdrEntry | firewall.go:335-353 | one rdr rule's text is `PfConf.RdrText`: comment line when described, then the statement |
| Firewall.FilterEntry | firewall.go:358-411 | one filter rule's text is `PfConf.FilterText`: comment line, then one statement line per trimmed protocol token |
| Firewall.StatementParts | firewall.go:371-408 | the `parts` slice of one statement is the words of `PfConf.Clauses` for the rule and token |
| Firewall.HeadParts | firewall.go:372-379 | the first parts are the words of `PfConf.Head` |
| Firewall.AppendBodyParts | firewall.go:381-404 | the body parts appended are the words of `PfConf.Body` |
| Store.LoadOutcome | firewall.go:80-108 | loading never writes; a missing file gives the empty document and no error; a malformed or unreadable file is an error that leaves the document as it was; no home directory is an error |
| Store.SaveAsOutcome | firewall.go:188-209 | the save succeeds exactly when the directory is not faulty and the file is neither faulty nor torn; on success only that file changes and it holds the document; a failed mkdir or open changes nothing; a write that fails part-way leaves that file torn and every other file as it was; the document never changes |
| Store.SaveOutcome | firewall.go:158-185 | on success the default file holds the document; a failed save changes at most the default file, and then only by leaving it torn; the document never changes |
| Store.BackedUp | firewall.go:118-128 | the default file, when present, is moved to `<default>.bak`; every other file is untouched |
| Store.Apply | firewall.go:212-304 | an edit is rejected exactly when it is an update or delete with an index outside the list it addresses; the other list never changes |
| Store.FilterEdits | firewall.go:212-245 | add appends at the end; update changes only its position; delete drops its position, keeps earlier rules and shifts later ones down by one |
| Store.RdrEdits | firewall.go:271-304 | the same three facts for the rdr list |
| Store.LoadIdempotent | firewall.go:80-108 | a second load gives the same outcome as the first |
| Store.SaveThenLoad | firewall.go:158-185 | after a successful save, a load succeeds and leaves the state as it is |
| Store.EditPersists | firewall.go:222-232 | a successful edit applies to the RELOADED document and leaves file and document in agreement |
| Store.EditFailureFiles | firewall.go:212-304 | an edit that fails at its reload or its index check writes nothing; an edit that fails at its save changes at most the default file, and then only by leaving it torn |
| Store.TornSaveUnreadable | firewall.go:177-180 | a save whose write fails part-way returns the write error, and the next load rejects the default file with a syntax error: the stored rules are lost |
| Store.InvalidIndexNotSaved | firewall.go:226-228 | an update or delete whose index is outside the reloaded list returns "invalid rule index" with the reloaded document and saves nothing |
| Store.ExportThenImport | firewall.go:111-154 | importing an exported file gives back the same document and keeps the previous default file as the backup |
| Store.ImportBacksUp | firewall.go:118-153 | after a successful import the old default file is the backup, the default file holds the source verbatim, and the document is the source decoded |
| Store.ImportOwnFile | firewall.go:119-135 | importing the default file itself renames it away first, then fails to read it: the error is "failed to read import file", and the only copy left is the backup |
| Store.ImportUnvalidated | firewall.go:119-153 | a source that is not a rule document is still copied over the default file before the load reports a syntax error, and the previous default file survives as `<default>.bak` |
| Storage.UnmarshalMarshal | firewall.go:101 | decoding what was written gives the written document back, whatever the decode starts from |
| Lists.RemoveAt | firewall.go:243 | removing a position keeps earlier elements and shifts later ones down by one |
| Lists.Moved | firewall.go:248-267 | out-of-range or equal indices leave the list unchanged; otherwise the length is kept, the moved element lands at `to`, removing it again gives the old list without `from`, and the multiset of elements is unchanged |
| Lists.MovedShifts | firewall.go:259-267 | after a real move, elements outside the range between the two indices stay, and the elements inside shift by one towards `from` |
| Lists.MoveBack | firewall.go:248-267 | moving back from `to` to `from` undoes a move |
| PfConf.RdrWords | firewall.go:339-352 | the rdr statement has an `on` clause exactly when the interface is not `any`; the redirected address is `(<iface>)` exactly when the interface is concrete and the external IP is `any`, otherwise the external IP verbatim; the ports and internal address are in place |
| PfConf.FormatPort | firewall.go:394-401 | a port containing `,`, `-` or `:` is wrapped in braces, with every `-` turned into `:` and every other character kept; any other port is unchanged |
| PfConf.SinglePortExample | firewall.go:398 | a single port such as `22` is written as it is |
| PfConf.ProtocolTokens | firewall.go:362-367 | protocol `any` with a concrete port gives exactly `tcp` and `udp`; otherwise the comma-separated pieces, which join back to the protocol field |
| PfConf.AnyProtocolExpansion | firewall.go:362-369 | a rule with protocol `any` and a concrete port compiles to its comment, then a TCP statement line, then a UDP statement line |
| PfConf.TcpUdpDiffer | firewall.go:369-411 | the TCP and UDP statements of a rule differ only in their `proto` clause |
| PfConf.Clauses | firewall.go:371-373 | every statement starts with the action, then the direction |
| PfConf.HeadSelection | firewall.go:372-379 | `quick` is present exactly for quick rules, `on <iface>` exactly for a concrete interface, and nothing else is in the head |
| PfConf.BodySelection | firewall.go:381-404 | `all` alone exactly when token, addresses and port are all `any`; otherwise `proto` exactly for a concrete token, `from … to …` exactly when an address or the port is concrete, and `port` exactly for tcp or udp with a concrete port |
| PfConf.ClauseSelection | firewall.go:371-408 | the whole statement has each optional clause exactly under its condition, and `keep state` exactly for rules that keep state, always last |
| PfConf.ConcatMapAppend | firewall.go:334-412 | compiling a list is compiling its two halves one after the other: rules come out in list order |
| LiveRules.ParseLiveRules | pf.go:190-237 | the loop over the lines returns `Parse` of the output: the rules of the rule lines in line order, or the first line whose scan runs off the end |
| LiveRules.ScanParts | pf.go:202-232 | the keyword loop with its mutable index yields `Scan` from field 2 of the base rule |
| LiveRules.BaseRule | pf.go:202-206 | a parsed rule starts with action and direction from fields 0 and 1, and every other attribute at its zero value (empty or false, not `any`) |
| LiveRules.KeywordsShape | pf.go:209-232 | the keyword positions from a start field stay inside the line; each is the previous plus one, or plus two after a value keyword or `keep`; the step from the last leaves the line |
| LiveRules.ConsumedNotKeyword | pf.go:213-230 | a field consumed as a value, or skipped after `keep`, is never itself read as a keyword |
| LiveRules.ScanFlags | pf.go:209-232 | action, direction and description are not changed by the scan; `quick` and keep-state are set exactly when their keyword is read |
| LiveRules.ScanValue | pf.go:213-227 | each value attribute is the field after the LAST keyword naming it, or stays as it was when no keyword names it |
| LiveRules.ScanMeaning | pf.go:202-232 | every attribute of a completed scan, as the two lemmas above give it |
| LiveRules.ScanPanics | pf.go:213-227 | the scan fails exactly when the last keyword position is the last field and holds a value keyword (the Go code indexes past the end there) |
| LiveRules.FirstPanicWins | pf.go:193-236 | once a line fails, later lines are never read and that failure is the result |
| LiveRules.ParseLinesAppend | pf.go:193-235 | parsing two blocks of lines gives the rules of the first followed by those of the second, or the first failure |
| LiveRules.OneLine | pf.go:194-206 | a blank line or one with fewer than four fields gives no rule; a rule line gives exactly one rule, with its first two fields as action and direction |
| LiveRules.ParseJoined | pf.go:192-200 | a one-line output made of at least four non-empty, space-free words joined by single spaces is a rule line whose fields are exactly those words |
| LiveRules.ExampleLine | pf.go:190-237 | the output `pass in proto tcp from any to any port 22 keep state` (its twelve words joined by single spaces) parses to exactly one rule: a TCP rule on port 22 that keeps state, with interface and description empty |
| PfText.GetCurrentRules | pf.go:120-135 | a failed command is an error; otherwise the result is the output's lines without those containing `ALTQ`, joined by newlines |
| PfText.KeptAppend | pf.go:128-134 | the filter works line by line, so kept lines keep their relative order |
| PfText.KeptExactly | pf.go:128-134 | a line is kept exactly when it is an input line that does not contain `ALTQ` |
| PfText.KeptIdempotent | pf.go:128-134 | filtering the kept lines again changes nothing |
| PfText.CurrentRulesIdempotent | pf.go:120-135 | filtering the result of `GetCurrentRules` again gives the same text: no ALTQ line is left |
| PfText.GetPfStatus | pf.go:138-163 | on command failure: `Disabled` when the output mentions "pf not running", an error otherwise; on success: `Enabled` exactly when some line starts with `Status:` and its trimmed remainder starts with `Enabled`, `Disabled` otherwise |
| PfText.StatusLine | pf.go:155-160 | the per-line test decides exactly `EnabledLine` |
| PfText.StatusAppend | pf.go:153-162 | output in two blocks reports enabled exactly when one block does: the status line may sit anywhere |
| PfText.StatusLineReading | pf.go:155-160 | a `Status: <text>` line is enabled exactly when the text starts with `Enabled` |
| PfText.OtherLinesIgnored | pf.go:155 | no line that does not start with `Status:` counts as enabled |
| PfText.MissingAsWritten | pf.go:48-50 | an anchor line counts as missing exactly when it does not occur anywhere in the file's text |
| PfText.SetupPfConf | pf.go:30-82 | a failed read is an error; nothing is appended when no anchor line is judged missing; otherwise the header and exactly the missing lines, in the order rdr-anchor, anchor, load anchor, are appended unless the append fails |
| PfText.SetupSettlesAsWritten | pf.go:47-68 | after the setup every anchor line occurs in the file, so a second run appends nothing |
| PfText.AnchorInsideRdrAnchor | pf.go:37-38 | the anchor line occurs inside the rdr-anchor line |
| PfText.MissingForRdrAnchorOnly | pf.go:47-50 | for a file holding only the rdr-anchor line, only the load-anchor line is judged missing |
| PfText.AnchorLineNeverAdded | pf.go:47-66 | for that file the anchor line is not a line of the file, is not appended, and is still not a line afterwards |
| PfText.MissingLines | pf.go:47-50 | corrected check: an anchor line is missing exactly when it is not one of the file's lines |
| PfText.SetupAddsEveryLine | pf.go:47-68 | corrected setup: afterwards every anchor line is a line of pf.conf, the old lines are still in place, and a second run appends nothing |

## Left out

- tui.go (the Bubble Tea screens), main.go (flags, sudo check, start-up) and logging.go (log rotation, cleanup goroutine): user interface and plumbing around the core.
- `RunSudoCmd`, `ApplyRules`, `EnablePf`, `DisablePf`, `GetPfInfo`, the launch-daemon plist and `launchctl` calls, `sudo tee`: process I/O. Only the text handling of command output is modelled, with the output and whether the command failed as parameters.
- The `testMode` short cuts, which return canned strings.
- `GetConfigPath` (firewall.go:67-78, called from the screens in tui.go) and `EnsureConfigDirExists` (firewall.go:417, called once at start-up from main.go:18) only create the configuration directory. None of the modelled methods calls them.
- The JSON byte format: a file is modelled as a document with each key present or absent, or as text that is not a document (`json.Unmarshal` syntax error).
- Storage.Unmarshal: does not model Go decoding a JSON array into the existing slice's backing array, where an element object that lacks a key keeps the old element's value at that position. It also does not model partial decoding before a type error. Only the whole-key rule is modelled: a missing key keeps the old list.
- Storage.Dir: models `filepath.Dir` as cutting at the last `/` only; the rest of `filepath.Clean` (`..`, repeated separators) is not modelled.
- File permissions (0644, 0755) and which errors the OS reports: every failure is a faulty path. `MkdirAll` does not track directories.
- `json.MarshalIndent` errors: they cannot happen for a document of strings and booleans.
- Storage.Disk.WriteFile: a write that fails part-way is modelled as leaving `Torn`, text that is not a document. What exactly a partial write leaves is not modelled. A close that fails after a complete write, which leaves the new data in place and still returns an error, is not modelled either.
- Storage.DefaultPath: builds the path by appending `/.config/pf-tui/rules.json` to the home directory. Go's `filepath.Join` (firewall.go:64) also cleans the result, so a home of `/` gives `/.config/...` in Go and `//.config/...` here.
- Paths are compared as strings, so two spellings of one file (`a//b` and `a/b`, a symbolic link) count as two files. For example, `Store.ImportOwnFile` shows its data loss only when the source is spelled exactly as the default path.
- Firewall.FirewallManager.DeleteFirewallRule: `append(xs[:i], xs[i+1:]...)` and Move's `tmp` shift the elements of the slice's backing array in place. Another holder of the old slice would see that; the model uses values, so the aliasing is not captured. The same holds for the rdr list.
- LiveRules.ParseLiveRules: the Go code panics with an index out of range on a value keyword in the last field; here that is the explicit result `Err(IndexOutOfRange(line))`.
- `ParseLiveRules` is not the inverse of the compiler (an `any` rule with a port compiles to two statements), and no round trip between them is claimed.

## Findings

| source | as written | input that shows it | evidently intended | confidence | as-written member | corrected member |
|---|---|---|---|---|---|---|
| pf.go:48-50 | `strings.Contains(content, anchorLine)` tests whether `anchor "pf-tui"` occurs anywhere in pf.conf. It always occurs inside `rdr-anchor "pf-tui"` and inside the load-anchor line, so the anchor line is judged present whenever either of those is | a pf.conf whose only line is `rdr-anchor "pf-tui"`: only the load-anchor line is appended, and pf.conf never gets the `anchor "pf-tui"` line that evaluates the anchor's filter rules | append every anchor line that is not a line of pf.conf | not executed | PfText.AnchorLineNeverAdded | PfText.SetupAddsEveryLine |
