/** The text judgements `pf.go` makes around its `pfctl` and `cat` calls:
    the ALTQ filter of `GetCurrentRules`, the reading of the `Status:` line in
    `GetPfStatus`, and the check in `SetupPfConf` for which anchor lines
    `/etc/pf.conf` still lacks. The commands themselves are not run here: their
    output and whether they failed are parameters. */
module PfText {
  import opened Wrappers
  import opened GoStrings

  /** Why one of these operations fails. */
  datatype PfError =
    | CommandFailed   // the error `RunSudoCmd` returned
    | ReadFailed      // "failed to read /etc/pf.conf"
    | AppendFailed    // "failed to append to /etc/pf.conf"

  // ---------------------------------------------------------------------
  // GetCurrentRules
  // ---------------------------------------------------------------------

  /** The lines that do not mention ALTQ, in their original order. */
  function Kept(lines: seq<string>): seq<string> {
    if lines == [] then []
    else
      var r := Kept(lines[..|lines| - 1]);
      var last := lines[|lines| - 1];
      if Contains(last, "ALTQ") then r else r + [last]
  }

  /** `GetCurrentRules` as a function of the command's output. */
  function CurrentRules(out: string): string {
    Join(Kept(Split(out, '\n')), "\n")
  }

  /** `GetCurrentRules`: a failed command is an error; otherwise the output
      without its ALTQ lines. */
  method GetCurrentRules(out: string, failed: bool) returns (r: Result<string, PfError>)
    ensures failed ==> r == Err(CommandFailed)
    ensures !failed ==> r == Ok(CurrentRules(out))
  {
    if failed {
      return Err(CommandFailed);
    }
    var filteredRules: seq<string> := [];
    var lines := Split(out, '\n');
    for n := 0 to |lines|
      invariant filteredRules == Kept(lines[..n])
    {
      assert lines[..n + 1][..n] == lines[..n];
      if !Contains(lines[n], "ALTQ") {
        filteredRules := filteredRules + [lines[n]];
      }
    }
    assert lines[..|lines|] == lines;
    r := Ok(Join(filteredRules, "\n"));
  }

  /** Filtering distributes over concatenation, so the kept lines keep their
      relative order. */
  lemma {:induction false} KeptAppend(a: seq<string>, b: seq<string>)
    ensures Kept(a + b) == Kept(a) + Kept(b)
  {
    if b == [] {
      assert a + b == a;
    } else {
      KeptAppend(a, b[..|b| - 1]);
      assert (a + b)[..|a + b| - 1] == a + b[..|b| - 1];
    }
  }

  /** Exactly the lines without ALTQ are kept. */
  lemma {:induction false} KeptExactly(lines: seq<string>, x: string)
    ensures x in Kept(lines) <==> x in lines && !Contains(x, "ALTQ")
  {
    if lines != [] {
      var init := lines[..|lines| - 1];
      KeptExactly(init, x);
      assert lines == init + [lines[|lines| - 1]];
    }
  }

  /** Filtering a second time changes nothing. */
  lemma {:induction false} KeptIdempotent(lines: seq<string>)
    ensures Kept(Kept(lines)) == Kept(lines)
  {
    if lines != [] {
      var init := lines[..|lines| - 1];
      var last := lines[|lines| - 1];
      KeptIdempotent(init);
      if !Contains(last, "ALTQ") {
        KeptAppend(Kept(init), [last]);
        assert [last][..0] == [];
      }
    }
  }

  /** The result of `GetCurrentRules` has no ALTQ line left in it: running the
      filter over its own result gives the same text. */
  lemma CurrentRulesIdempotent(out: string)
    ensures CurrentRules(CurrentRules(out)) == CurrentRules(out)
  {
    var lines := Split(out, '\n');
    var kept := Kept(lines);
    if kept == [] {
      assert Split("", '\n') == [""];
      assert Kept([""]) == Kept([][..0]) + [""];
    } else {
      forall k | 0 <= k < |kept| ensures '\n' !in kept[k] {
        KeptExactly(lines, kept[k]);
      }
      SplitJoin(kept, '\n');
      KeptIdempotent(lines);
    }
  }

  // ---------------------------------------------------------------------
  // GetPfStatus
  // ---------------------------------------------------------------------

  /** What `GetPfStatus` reports. */
  datatype PfStatus = Enabled | Disabled

  /** A `Status:` line whose trimmed remainder starts with `Enabled`. */
  predicate EnabledLine(line: string) {
    HasPrefix(line, "Status:") && HasPrefix(TrimSpace(TrimPrefix(line, "Status:")), "Enabled")
  }

  /** Some line of `pfctl -s info` output is an enabled status line. */
  predicate ReportsEnabled(out: string) {
    AnyEnabled(Split(out, '\n'))
  }

  /** Some line is an enabled status line. */
  predicate AnyEnabled(lines: seq<string>) {
    exists k :: 0 <= k < |lines| && EnabledLine(lines[k])
  }

  /** `GetPfStatus`: when the command fails, an output mentioning
      "pf not running" means disabled and anything else is an error; when it
      succeeds, the status is enabled exactly when some line says so. */
  method GetPfStatus(out: string, failed: bool) returns (r: Result<PfStatus, PfError>)
    ensures failed ==> r == if Contains(out, "pf not running") then Ok(Disabled) else Err(CommandFailed)
    ensures !failed ==> r == Ok(if ReportsEnabled(out) then Enabled else Disabled)
  {
    if failed {
      if Contains(out, "pf not running") {
        return Ok(Disabled);
      }
      return Err(CommandFailed);
    }
    var lines := Split(out, '\n');
    for n := 0 to |lines|
      invariant forall k :: 0 <= k < n ==> !EnabledLine(lines[k])
    {
      var enabled := StatusLine(lines[n]);
      if enabled {
        return Ok(Enabled);
      }
    }
    r := Ok(Disabled);
  }

  /** The test the loop of `GetPfStatus` makes on one line. */
  method StatusLine(line: string) returns (enabled: bool)
    ensures enabled == EnabledLine(line)
  {
    enabled := false;
    if HasPrefix(line, "Status:") {
      var status := TrimSpace(TrimPrefix(line, "Status:"));
      if HasPrefix(status, "Enabled") {
        enabled := true;
      }
    }
  }

  /** Output made of two blocks of lines reports enabled exactly when one of
      the blocks does: where the status line sits does not matter. */
  lemma StatusAppend(a: string, b: string)
    ensures ReportsEnabled(a + "\n" + b) <==> ReportsEnabled(a) || ReportsEnabled(b)
  {
    SplitAppend(a, b, '\n');
    AnyEnabledAppend(Split(a, '\n'), Split(b, '\n'));
  }

  /** Some line of `la + lb` is enabled exactly when one of `la` or `lb` has one. */
  lemma AnyEnabledAppend(la: seq<string>, lb: seq<string>)
    ensures AnyEnabled(la + lb) <==> AnyEnabled(la) || AnyEnabled(lb)
  {
    var l := la + lb;
    if AnyEnabled(la) {
      var k :| 0 <= k < |la| && EnabledLine(la[k]);
      assert l[k] == la[k];
    }
    if AnyEnabled(lb) {
      var k :| 0 <= k < |lb| && EnabledLine(lb[k]);
      assert l[|la| + k] == lb[k];
    }
    if AnyEnabled(l) {
      var k :| 0 <= k < |l| && EnabledLine(l[k]);
      if k < |la| {
        assert la[k] == l[k];
      } else {
        assert lb[k - |la|] == l[k];
      }
    }
  }

  /** A `Status: <word>...` line, as pfctl prints it, is enabled exactly when
      what follows the space starts with `Enabled`. */
  lemma StatusLineReading(rest: string)
    requires rest != [] && !IsSpace(rest[0]) && !IsSpace(rest[|rest| - 1])
    ensures EnabledLine("Status: " + rest) <==> HasPrefix(rest, "Enabled")
  {
    assert "Status: " + rest == "Status:" + " " + rest;
    TrimOneSpace("Status:", rest);
  }

  /** Only a line starting with `Status:` counts. */
  lemma OtherLinesIgnored(line: string)
    requires !HasPrefix(line, "Status:")
    ensures !EnabledLine(line)
  {
  }

  /** After a prefix and one space, a word that starts and ends with a
      non-space character is what remains once trimmed. */
  lemma TrimOneSpace(prefix: string, e: string)
    requires e != [] && !IsSpace(e[0]) && !IsSpace(e[|e| - 1])
    ensures TrimSpace(TrimPrefix(prefix + " " + e, prefix)) == e
  {
    var s := prefix + " " + e;
    assert s[..|prefix|] == prefix;
    assert s[|prefix|..] == " " + e;
    var on := " " + e;
    assert on[1..] == e;
    assert LeadingSpaces(e) == 0;
    assert LeadingSpaces(on) == 1;
    assert TrailingSpaces(e) == 0;
  }

  // ---------------------------------------------------------------------
  // SetupPfConf
  // ---------------------------------------------------------------------

  const AnchorName: string := "pf-tui"
  const AnchorFile: string := "/etc/pf.anchors/pf-tui"
  const RdrAnchorLine: string := "rdr-anchor \"" + AnchorName + "\""
  const AnchorLine: string := "anchor \"" + AnchorName + "\""
  const LoadAnchorLine: string := "load anchor \"" + AnchorName + "\" from \"" + AnchorFile + "\""
  const HeaderLine: string := "# pf-tui anchor point"

  /** None of the lines the setup writes has a newline in it. */
  lemma SingleLines()
    ensures '\n' !in RdrAnchorLine && '\n' !in AnchorLine && '\n' !in LoadAnchorLine && '\n' !in HeaderLine
  {
  }

  /** The lines `SetupPfConf` needs in pf.conf, in the order it appends them. */
  function AnchorLines(): seq<string> {
    [RdrAnchorLine, AnchorLine, LoadAnchorLine]
  }

  /** Lines, each followed by a newline. */
  function Block(lines: seq<string>): string {
    if lines == [] then "" else lines[0] + "\n" + Block(lines[1..])
  }

  /** What is appended for the given missing lines: nothing when none is
      missing, otherwise a blank line, the header comment and the lines. */
  function Appendix(missing: seq<string>): string {
    if missing == [] then "" else "\n" + Block([HeaderLine] + missing)
  }

  /** The anchor lines that the Go code judges missing: those that do not occur
      ANYWHERE in the file's text, in the fixed order. */
  function MissingAsWritten(content: string): (r: seq<string>)
    ensures forall l :: l in r <==> l in AnchorLines() && !Contains(content, l)
  {
    (if !Contains(content, RdrAnchorLine) then [RdrAnchorLine] else [])
    + (if !Contains(content, AnchorLine) then [AnchorLine] else [])
    + (if !Contains(content, LoadAnchorLine) then [LoadAnchorLine] else [])
  }

  /** `SetupPfConf` on the text `cat /etc/pf.conf` printed: the new content
      of pf.conf. `readFailed` and `appendFailed` are the failures of the
      `cat` and `tee -a` commands. */
  method SetupPfConf(content: string, readFailed: bool, appendFailed: bool) returns (r: Result<string, PfError>)
    ensures readFailed ==> r == Err(ReadFailed)
    ensures !readFailed && MissingAsWritten(content) == [] ==> r == Ok(content)
    ensures !readFailed && MissingAsWritten(content) != [] ==>
      r == if appendFailed then Err(AppendFailed) else Ok(content + Appendix(MissingAsWritten(content)))
  {
    if readFailed {
      return Err(ReadFailed);
    }
    var hasRdrAnchor := Contains(content, RdrAnchorLine);
    var hasAnchor := Contains(content, AnchorLine);
    var hasLoadAnchor := Contains(content, LoadAnchorLine);
    if hasRdrAnchor && hasAnchor && hasLoadAnchor {
      return Ok(content);
    }
    ghost var missing: seq<string> := [];
    var toAppend := "\n" + HeaderLine + "\n";
    assert toAppend == "\n" + Block([HeaderLine] + missing);
    if !hasRdrAnchor {
      toAppend := AppendLine(toAppend, [HeaderLine] + missing, RdrAnchorLine);
      assert [HeaderLine] + missing + [RdrAnchorLine] == [HeaderLine] + (missing + [RdrAnchorLine]);
      missing := missing + [RdrAnchorLine];
    }
    if !hasAnchor {
      toAppend := AppendLine(toAppend, [HeaderLine] + missing, AnchorLine);
      assert [HeaderLine] + missing + [AnchorLine] == [HeaderLine] + (missing + [AnchorLine]);
      missing := missing + [AnchorLine];
    }
    if !hasLoadAnchor {
      toAppend := AppendLine(toAppend, [HeaderLine] + missing, LoadAnchorLine);
      assert [HeaderLine] + missing + [LoadAnchorLine] == [HeaderLine] + (missing + [LoadAnchorLine]);
      missing := missing + [LoadAnchorLine];
    }
    assert missing == MissingAsWritten(content);
    if appendFailed {
      return Err(AppendFailed);
    }
    r := Ok(content + toAppend);
  }

  /** One `WriteString(line + "\n")` on the builder holding the block of
      `written`. */
  method AppendLine(builder: string, ghost written: seq<string>, line: string) returns (b: string)
    requires builder == "\n" + Block(written)
    ensures b == "\n" + Block(written + [line])
  {
    b := builder + (line + "\n");
    BlockSnoc(written, line);
  }

  /** The block of one more line. */
  lemma {:induction false} BlockSnoc(lines: seq<string>, l: string)
    ensures Block(lines + [l]) == Block(lines) + (l + "\n")
  {
    if lines != [] {
      BlockSnoc(lines[1..], l);
      assert (lines + [l])[1..] == lines[1..] + [l];
    }
  }

  /** Splitting a block gives its lines and the empty piece after the last
      newline. */
  lemma {:induction false} BlockSplit(lines: seq<string>)
    requires forall k :: 0 <= k < |lines| ==> '\n' !in lines[k]
    ensures Split(Block(lines), '\n') == lines + [""]
  {
    if lines == [] {
      assert Split("", '\n') == [""];
    } else {
      BlockSplit(lines[1..]);
      SplitAround(lines[0], Block(lines[1..]), '\n');
      assert lines[0] + "\n" + Block(lines[1..]) == lines[0] + ['\n'] + Block(lines[1..]);
      assert lines == [lines[0]] + lines[1..];
    }
  }

  /** Text in either half of a concatenation occurs in the whole. */
  lemma ContainsAppend(a: string, b: string, sub: string)
    ensures Contains(a, sub) ==> Contains(a + b, sub)
    ensures Contains(b, sub) ==> Contains(a + b, sub)
  {
    if Contains(a, sub) {
      var i :| 0 <= i <= |a| - |sub| && OccursAt(a, sub, i);
      assert (a + b)[i..i + |sub|] == a[i..i + |sub|];
      assert OccursAt(a + b, sub, i);
    }
    if Contains(b, sub) {
      var i :| 0 <= i <= |b| - |sub| && OccursAt(b, sub, i);
      assert (a + b)[|a| + i..|a| + i + |sub|] == b[i..i + |sub|];
      assert OccursAt(a + b, sub, |a| + i);
    }
  }

  /** Every line of a block occurs in it. */
  lemma {:induction false} BlockContains(lines: seq<string>, k: nat)
    requires k < |lines|
    ensures Contains(Block(lines), lines[k])
  {
    var rest := Block(lines[1..]);
    if k == 0 {
      assert OccursAt(lines[0], lines[0], 0);
      ContainsAppend(lines[0], "\n" + rest, lines[0]);
      assert lines[0] + "\n" + rest == lines[0] + ("\n" + rest);
    } else {
      BlockContains(lines[1..], k - 1);
      ContainsAppend(lines[0] + "\n", rest, lines[k]);
    }
  }

  /** As written, running the setup a second time appends nothing: every
      anchor line then occurs somewhere in the file. */
  lemma SetupSettlesAsWritten(content: string)
    ensures var after := content + Appendix(MissingAsWritten(content));
      && (forall l :: l in AnchorLines() ==> Contains(after, l))
      && MissingAsWritten(after) == []
  {
    var missing := MissingAsWritten(content);
    var appended := Appendix(missing);
    var after := content + appended;
    forall l | l in AnchorLines() ensures Contains(after, l) {
      if l in missing {
        var k :| 0 <= k < |missing| && missing[k] == l;
        BlockContains([HeaderLine] + missing, k + 1);
        ContainsAppend("\n", Block([HeaderLine] + missing), l);
        ContainsAppend(content, appended, l);
      } else {
        ContainsAppend(content, appended, l);
      }
    }
  }

  /** The anchor line occurs inside the rdr-anchor line. */
  lemma AnchorInsideRdrAnchor()
    ensures Contains(RdrAnchorLine, AnchorLine)
  {
    assert RdrAnchorLine == "rdr-" + AnchorLine;
    assert OccursAt(AnchorLine, AnchorLine, 0);
    ContainsAppend("rdr-", AnchorLine, AnchorLine);
  }

  /** As written, a file holding only the rdr-anchor line is judged to lack
      only the load-anchor line. */
  lemma MissingForRdrAnchorOnly()
    ensures MissingAsWritten(RdrAnchorLine) == [LoadAnchorLine]
  {
    AnchorInsideRdrAnchor();
    assert OccursAt(RdrAnchorLine, RdrAnchorLine, 0);
    assert |LoadAnchorLine| > |RdrAnchorLine|;
  }

  /** The discrepancy: a pf.conf whose only line is the rdr-anchor line lacks
      the anchor line, yet the Go code appends only the load-anchor line, and
      afterwards the anchor line is still not a line of the file. */
  lemma AnchorLineNeverAdded()
    ensures !HasLine(RdrAnchorLine, AnchorLine)
    ensures AnchorLine !in MissingAsWritten(RdrAnchorLine)
    ensures !HasLine(RdrAnchorLine + Appendix(MissingAsWritten(RdrAnchorLine)), AnchorLine)
  {
    SingleLines();
    SplitNoSeparator(RdrAnchorLine, '\n');
    MissingForRdrAnchorOnly();
    var lines := [HeaderLine, LoadAnchorLine];
    AfterRdrAnchorOnly(lines);
    assert |AnchorLine| != |RdrAnchorLine| && |AnchorLine| != |HeaderLine| && |AnchorLine| != |LoadAnchorLine|;
  }

  /** The lines of the file after the as-written setup of a file holding only
      the rdr-anchor line. */
  lemma AfterRdrAnchorOnly(lines: seq<string>)
    requires lines == [HeaderLine, LoadAnchorLine]
    ensures Split(RdrAnchorLine + Appendix([LoadAnchorLine]), '\n') == [RdrAnchorLine] + lines + [""]
  {
    SingleLines();
    BlockSplit(lines);
    SplitAround(RdrAnchorLine, Block(lines), '\n');
    assert RdrAnchorLine + Appendix([LoadAnchorLine]) == RdrAnchorLine + ['\n'] + Block(lines);
  }

  // The corrected check: whole lines, not substrings.

  /** `line` is one of the lines of `content`. */
  predicate HasLine(content: string, line: string) {
    line in Split(content, '\n')
  }

  /** The anchor lines that are not lines of the file, in the fixed order. */
  function MissingLines(content: string): (r: seq<string>)
    ensures forall l :: l in r <==> l in AnchorLines() && !HasLine(content, l)
  {
    (if !HasLine(content, RdrAnchorLine) then [RdrAnchorLine] else [])
    + (if !HasLine(content, AnchorLine) then [AnchorLine] else [])
    + (if !HasLine(content, LoadAnchorLine) then [LoadAnchorLine] else [])
  }

  /** What the corrected setup appends to `content`. */
  function SetupAppendix(content: string): string {
    Appendix(MissingLines(content))
  }

  /** With whole-line matching, after the setup every anchor line is a line of
      pf.conf, the lines already there stay in place, and a second run appends
      nothing. */
  lemma SetupAddsEveryLine(content: string)
    ensures var after := content + SetupAppendix(content);
      && (forall l :: l in AnchorLines() ==> HasLine(after, l))
      && Split(content, '\n') <= Split(after, '\n')
      && SetupAppendix(after) == ""
  {
    var missing := MissingLines(content);
    var after := content + SetupAppendix(content);
    if missing != [] {
      var lines := [HeaderLine] + missing;
      SingleLines();
      assert forall k :: 0 <= k < |lines| ==> '\n' !in lines[k];
      BlockSplit(lines);
      SplitAppend(content, Block(lines), '\n');
      assert after == content + ['\n'] + Block(lines);
      var split := Split(after, '\n');
      assert split == Split(content, '\n') + (lines + [""]);
      forall l | l in AnchorLines() ensures HasLine(after, l) {
        if l in missing {
          assert l in lines;
        }
      }
    } else {
      assert after == content;
    }
    var again := MissingLines(after);
    if again != [] {
      assert again[0] in again;
    }
  }
}
