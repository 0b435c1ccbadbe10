/** `ParseLiveRules`: the best-effort reading of `pfctl -s rules` output back
    into filter rules. Each line with at least four whitespace-separated
    fields becomes one rule: field 0 is the action, field 1 the direction,
    and the remaining fields are scanned left to right for keywords.

    The scan is specified by `Scan`; `Keywords`, `LastValue` and `Seen`
    give an independent account of which fields the scan reads as keywords
    and what each rule attribute ends up as, and `ScanMeaning` proves the two
    agree. A value keyword in the last field makes the Go code index past the
    end of the field list and panic; here that is the explicit result
    `Err(IndexOutOfRange(line))`. */
module LiveRules {
  import opened Wrappers
  import opened GoStrings
  import opened Rules

  /** The failure the Go scan can run into: a value keyword with no
      field after it, on the given line. */
  datatype Panic = IndexOutOfRange(line: string)

  /** A keyword whose value is the next field. */
  predicate IsValueKeyword(f: string) {
    f == "on" || f == "proto" || f == "from" || f == "to" || f == "port"
  }

  /** How far the scan moves past the keyword at `i`: a value keyword and
      `keep` also skip the field after them. */
  function Step(fields: seq<string>, i: nat): (n: nat)
    requires i < |fields|
    ensures n == 1 || n == 2
  {
    if IsValueKeyword(fields[i]) || fields[i] == "keep" then 2 else 1
  }

  /** The rule with the attribute that value keyword `kw` names set to `v`. */
  function SetValue(rule: FirewallRule, kw: string, v: string): FirewallRule
    requires IsValueKeyword(kw)
  {
    if kw == "on" then rule.(iface := v)
    else if kw == "proto" then rule.(protocol := v)
    else if kw == "from" then rule.(source := v)
    else if kw == "to" then rule.(destination := v)
    else rule.(port := v)
  }

  /** The scan of `fields` from position `i` with the rule built so far:
      `quick` sets the flag, a value keyword sets its attribute from the next
      field (or fails when there is none), `keep` sets the keep-state flag
      and skips the next field unchecked, anything else is ignored. */
  function Scan(fields: seq<string>, i: nat, rule: FirewallRule): Option<FirewallRule>
    decreases |fields| - i
  {
    if i >= |fields| then Some(rule)
    else if fields[i] == "quick" then Scan(fields, i + 1, rule.(quick := true))
    else if IsValueKeyword(fields[i]) then
      if i + 1 < |fields| then Scan(fields, i + 2, SetValue(rule, fields[i], fields[i + 1]))
      else None
    else if fields[i] == "keep" then Scan(fields, i + 2, rule.(keepState := true))
    else Scan(fields, i + 1, rule)
  }

  /** A line with something other than spaces and at least four fields. */
  predicate IsRuleLine(line: string) {
    TrimSpace(line) != "" && |Fields(line)| >= 4
  }

  /** The rule a rule line starts from: every attribute at its zero value
      except action and direction. */
  function BaseRule(fields: seq<string>): (r: FirewallRule)
    requires |fields| >= 2
    ensures r.action == fields[0] && r.direction == fields[1]
    ensures r.(action := "", direction := "") == ZeroRule
  {
    ZeroRule.(action := fields[0], direction := fields[1])
  }

  /** The rules one line contributes: none for a blank or short line, one for
      a rule line whose scan completes. */
  function ParseLine(line: string): Result<seq<FirewallRule>, Panic> {
    if !IsRuleLine(line) then Ok([])
    else
      var fields := Fields(line);
      match Scan(fields, 2, BaseRule(fields))
      case None => Err(IndexOutOfRange(line))
      case Some(r) => Ok([r])
  }

  /** The rules of a sequence of lines, in line order; the first line whose
      scan fails is the result. */
  function ParseLines(lines: seq<string>): Result<seq<FirewallRule>, Panic> {
    if lines == [] then Ok([])
    else
      match ParseLines(lines[..|lines| - 1])
      case Err(p) => Err(p)
      case Ok(rules) =>
        match ParseLine(lines[|lines| - 1])
        case Err(p) => Err(p)
        case Ok(more) => Ok(rules + more)
  }

  /** `ParseLiveRules` as a function of the command output. */
  function Parse(output: string): Result<seq<FirewallRule>, Panic> {
    ParseLines(Split(output, '\n'))
  }

  // ---------------------------------------------------------------------
  // An independent account of the scan
  // ---------------------------------------------------------------------

  /** The positions the scan reads as keywords, starting at `i`: each
      position is the previous one plus its `Step`, so the field after a
      value keyword or `keep` is never itself read as a keyword. */
  function Keywords(fields: seq<string>, i: nat): (ps: seq<nat>)
    ensures Inside(fields, ps)
    ensures i < |fields| <==> ps != []
    ensures ps != [] ==> ps[0] == i
    decreases |fields| - i
  {
    if i >= |fields| then [] else [i] + Keywords(fields, i + Step(fields, i))
  }

  /** The keyword positions start at `i` and stay inside `fields`; each is the
      previous one plus its `Step`, and the step from the last one leaves the
      line. */
  lemma {:induction false} KeywordsShape(fields: seq<string>, i: nat)
    ensures var ps := Keywords(fields, i);
      && (forall k :: 0 <= k < |ps| ==> i <= ps[k] < |fields|)
      && (forall k :: 0 <= k < |ps| - 1 ==> ps[k + 1] == ps[k] + Step(fields, ps[k]))
      && (ps != [] ==> ps[|ps| - 1] + Step(fields, ps[|ps| - 1]) >= |fields|)
    decreases |fields| - i
  {
    if i < |fields| {
      var next := i + Step(fields, i);
      var ps, rest := Keywords(fields, i), Keywords(fields, next);
      KeywordsShape(fields, next);
      assert ps == [i] + rest;
      forall k | 0 <= k < |ps| - 1 ensures ps[k + 1] == ps[k] + Step(fields, ps[k]) {
        if k > 0 {
          assert ps[k] == rest[k - 1] && ps[k + 1] == rest[k];
        }
      }
    }
  }

  /** All positions lie inside `fields`. */
  predicate Inside(fields: seq<string>, ps: seq<nat>) {
    forall k :: 0 <= k < |ps| ==> ps[k] < |fields|
  }

  /** The field after the LAST of the positions `ps` holding keyword `kw`, if
      there is such a position with a field after it. */
  function LastValue(fields: seq<string>, ps: seq<nat>, kw: string): Option<string>
    requires Inside(fields, ps)
  {
    if ps == [] then None
    else
      match LastValue(fields, ps[1..], kw)
      case Some(v) => Some(v)
      case None =>
        if fields[ps[0]] == kw && ps[0] + 1 < |fields| then Some(fields[ps[0] + 1]) else None
  }

  /** Some position in `ps` holds keyword `kw`. */
  predicate Seen(fields: seq<string>, ps: seq<nat>, kw: string)
    requires Inside(fields, ps)
  {
    exists k :: 0 <= k < |ps| && fields[ps[k]] == kw
  }

  // ---------------------------------------------------------------------
  // The source's loops
  // ---------------------------------------------------------------------

  /** `ParseLiveRules`: the loop over the lines. */
  method ParseLiveRules(output: string) returns (result: Result<seq<FirewallRule>, Panic>)
    ensures result == Parse(output)
  {
    var rules: seq<FirewallRule> := [];
    var lines := Split(output, '\n');
    for n := 0 to |lines|
      invariant ParseLines(lines[..n]) == Ok(rules)
    {
      var line := lines[n];
      assert lines[..n + 1][..n] == lines[..n];
      if TrimSpace(line) == "" {
        assert rules + [] == rules;
        continue;
      }
      var parts := Fields(line);
      if |parts| < 4 {
        assert rules + [] == rules;
        continue;
      }
      var scanned := ScanParts(parts);
      match scanned {
        case None =>
          FirstPanicWins(lines, n + 1);
          return Err(IndexOutOfRange(line));
        case Some(rule) =>
          rules := rules + [rule];
      }
    }
    assert lines[..|lines|] == lines;
    result := Ok(rules);
  }

  /** The body of the line loop for a rule line: the loop with the index `i`
      that the keyword cases advance. `None` is the Go code's panic. */
  method ScanParts(parts: seq<string>) returns (result: Option<FirewallRule>)
    requires |parts| >= 4
    ensures result == Scan(parts, 2, BaseRule(parts))
  {
    var rule := ZeroRule;
    rule := rule.(action := parts[0]);
    rule := rule.(direction := parts[1]);
    var i := 2;
    while i < |parts|
      invariant 2 <= i
      invariant Scan(parts, 2, BaseRule(parts)) == Scan(parts, i, rule)
      decreases |parts| - i
    {
      var f := parts[i];
      if f == "quick" {
        rule := rule.(quick := true);
      } else if IsValueKeyword(f) {
        i := i + 1;
        if i >= |parts| {
          return None;
        }
        if f == "on" {
          rule := rule.(iface := parts[i]);
        } else if f == "proto" {
          rule := rule.(protocol := parts[i]);
        } else if f == "from" {
          rule := rule.(source := parts[i]);
        } else if f == "to" {
          rule := rule.(destination := parts[i]);
        } else {
          rule := rule.(port := parts[i]);
        }
      } else if f == "keep" {
        i := i + 1;
        rule := rule.(keepState := true);
      }
      i := i + 1;
    }
    result := Some(rule);
  }

  // ---------------------------------------------------------------------
  // Properties
  // ---------------------------------------------------------------------

  /** Once a line fails, the whole parse fails with that line: later lines
      are never read. */
  lemma {:induction false} FirstPanicWins(lines: seq<string>, k: nat)
    requires k <= |lines| && ParseLines(lines[..k]).Err?
    ensures ParseLines(lines) == ParseLines(lines[..k])
    decreases |lines| - k
  {
    if k < |lines| {
      assert lines[..k + 1][..k] == lines[..k];
      FirstPanicWins(lines, k + 1);
    } else {
      assert lines[..k] == lines;
    }
  }

  /** A field consumed as the value of a keyword (or skipped after `keep`)
      is never itself read as a keyword. */
  lemma ConsumedNotKeyword(fields: seq<string>, i: nat, k: nat, m: nat)
    requires var ps := Keywords(fields, i); k < |ps| && m < |ps|
    requires var ps := Keywords(fields, i); Step(fields, ps[k]) == 2
    ensures var ps := Keywords(fields, i); ps[m] != ps[k] + 1
  {
    var ps := Keywords(fields, i);
    KeywordsShape(fields, i);
    KeywordsIncrease(fields, i);
    if m > k {
      assert ps[k + 1] == ps[k] + 2;
      assert k + 1 == m || ps[k + 1] < ps[m];
    }
  }

  /** Each position is greater than every one before it. */
  predicate Increasing(ps: seq<nat>) {
    forall a, b :: 0 <= a < b < |ps| ==> ps[a] < ps[b]
  }

  /** The keyword positions increase strictly. */
  lemma KeywordsIncrease(fields: seq<string>, i: nat)
    ensures Increasing(Keywords(fields, i))
  {
    KeywordsShape(fields, i);
    StepsIncrease(Keywords(fields, i));
  }

  /** Positions that grow from each to the next grow throughout. */
  lemma {:induction false} StepsIncrease(ps: seq<nat>)
    requires forall k :: 0 <= k < |ps| - 1 ==> ps[k] < ps[k + 1]
    ensures Increasing(ps)
  {
    if ps != [] {
      var rest := ps[1..];
      StepsIncrease(rest);
      forall a, b | 0 <= a < b < |ps| ensures ps[a] < ps[b] {
        if a > 0 {
          assert ps[a] == rest[a - 1] && ps[b] == rest[b - 1];
        } else if b > 1 {
          assert ps[1] == rest[0] && ps[b] == rest[b - 1];
        }
      }
    }
  }

  /** The attribute value keyword `kw` names. */
  function Attribute(rule: FirewallRule, kw: string): string
    requires IsValueKeyword(kw)
  {
    if kw == "on" then rule.iface
    else if kw == "proto" then rule.protocol
    else if kw == "from" then rule.source
    else if kw == "to" then rule.destination
    else rule.port
  }

  /** What a completed scan yields for the flags and the fields no keyword
      sets: action, direction and description are untouched; `quick` and
      keep-state are set exactly when their keyword is read. */
  lemma {:induction false} ScanFlags(fields: seq<string>, i: nat, rule: FirewallRule)
    requires Scan(fields, i, rule).Some?
    ensures var r, ps := Scan(fields, i, rule).value, Keywords(fields, i);
      && r.action == rule.action && r.direction == rule.direction && r.description == rule.description
      && r.quick == (rule.quick || Seen(fields, ps, "quick"))
      && r.keepState == (rule.keepState || Seen(fields, ps, "keep"))
    decreases |fields| - i
  {
    if i < |fields| {
      var f := fields[i];
      var next := i + Step(fields, i);
      var rest := Keywords(fields, next);
      SeenCons(fields, i, rest, "quick");
      SeenCons(fields, i, rest, "keep");
      assert Keywords(fields, i) == [i] + rest;
      ScanStep(fields, i, rule);
      ScanFlags(fields, next, Advance(fields, i, rule));
      AdvanceFlags(fields, i, rule);
    }
  }

  /** A step sets `quick` exactly on `quick` and keep-state exactly on `keep`,
      and never touches action, direction or description. */
  lemma AdvanceFlags(fields: seq<string>, i: nat, rule: FirewallRule)
    requires i < |fields|
    ensures var r := Advance(fields, i, rule);
      && r.action == rule.action && r.direction == rule.direction && r.description == rule.description
      && r.quick == (rule.quick || fields[i] == "quick")
      && r.keepState == (rule.keepState || fields[i] == "keep")
  {
  }

  /** What a completed scan yields for a value attribute: the field after the
      last keyword naming it, or its value before the scan when no keyword
      names it. */
  lemma {:induction false} ScanValue(fields: seq<string>, i: nat, rule: FirewallRule, kw: string)
    requires IsValueKeyword(kw)
    requires Scan(fields, i, rule).Some?
    ensures Attribute(Scan(fields, i, rule).value, kw)
      == LastValue(fields, Keywords(fields, i), kw).GetOr(Attribute(rule, kw))
    decreases |fields| - i
  {
    if i < |fields| {
      var next := i + Step(fields, i);
      var rest := Keywords(fields, next);
      assert Keywords(fields, i) == [i] + rest;
      ScanStep(fields, i, rule);
      ScanValue(fields, next, Advance(fields, i, rule), kw);
      AttributeAdvance(fields, i, rule, kw);
      LastValueCons(fields, i, rest, kw);
    }
  }

  /** The rule after the scan has read the keyword at `i` (when a value
      keyword has a field after it). */
  function Advance(fields: seq<string>, i: nat, rule: FirewallRule): FirewallRule
    requires i < |fields|
  {
    var f := fields[i];
    if f == "quick" then rule.(quick := true)
    else if IsValueKeyword(f) && i + 1 < |fields| then SetValue(rule, f, fields[i + 1])
    else if f == "keep" then rule.(keepState := true)
    else rule
  }

  /** One step of a scan that does not fail at `i`. */
  lemma ScanStep(fields: seq<string>, i: nat, rule: FirewallRule)
    requires i < |fields| && Scan(fields, i, rule).Some?
    ensures Scan(fields, i, rule) == Scan(fields, i + Step(fields, i), Advance(fields, i, rule))
  {
  }

  /** A step changes value attribute `kw` only when it reads `kw` with a
      field after it. */
  lemma AttributeAdvance(fields: seq<string>, i: nat, rule: FirewallRule, kw: string)
    requires i < |fields| && IsValueKeyword(kw)
    ensures Attribute(Advance(fields, i, rule), kw) ==
      if fields[i] == kw && i + 1 < |fields| then fields[i + 1] else Attribute(rule, kw)
  {
    if IsValueKeyword(fields[i]) && i + 1 < |fields| {
      AttributeSet(rule, fields[i], fields[i + 1], kw);
    }
  }

  /** `LastValue` over a first position and the rest: a later occurrence
      wins over the first. */
  lemma LastValueCons(fields: seq<string>, p: nat, rest: seq<nat>, kw: string)
    requires p < |fields| && Inside(fields, rest)
    ensures Inside(fields, [p] + rest)
    ensures LastValue(fields, [p] + rest, kw) ==
      if LastValue(fields, rest, kw).Some? then LastValue(fields, rest, kw)
      else if fields[p] == kw && p + 1 < |fields| then Some(fields[p + 1])
      else None
  {
    assert ([p] + rest)[1..] == rest;
  }

  /** Setting one value attribute leaves the others as they were. */
  lemma AttributeSet(rule: FirewallRule, kw: string, v: string, other: string)
    requires IsValueKeyword(kw) && IsValueKeyword(other)
    ensures Attribute(SetValue(rule, kw, v), other) == if kw == other then v else Attribute(rule, other)
  {
  }

  /** The whole of a completed scan, attribute by attribute. */
  lemma ScanMeaning(fields: seq<string>, i: nat, rule: FirewallRule)
    requires Scan(fields, i, rule).Some?
    ensures var r, ps := Scan(fields, i, rule).value, Keywords(fields, i);
      && r.action == rule.action && r.direction == rule.direction && r.description == rule.description
      && r.quick == (rule.quick || Seen(fields, ps, "quick"))
      && r.keepState == (rule.keepState || Seen(fields, ps, "keep"))
      && r.iface == LastValue(fields, ps, "on").GetOr(rule.iface)
      && r.protocol == LastValue(fields, ps, "proto").GetOr(rule.protocol)
      && r.source == LastValue(fields, ps, "from").GetOr(rule.source)
      && r.destination == LastValue(fields, ps, "to").GetOr(rule.destination)
      && r.port == LastValue(fields, ps, "port").GetOr(rule.port)
  {
    ScanFlags(fields, i, rule);
    ScanValue(fields, i, rule, "on");
    ScanValue(fields, i, rule, "proto");
    ScanValue(fields, i, rule, "from");
    ScanValue(fields, i, rule, "to");
    ScanValue(fields, i, rule, "port");
  }

  /** `Seen` over a first position and the rest. */
  lemma SeenCons(fields: seq<string>, p: nat, rest: seq<nat>, kw: string)
    requires p < |fields| && Inside(fields, rest)
    ensures Inside(fields, [p] + rest)
    ensures Seen(fields, [p] + rest, kw) <==> fields[p] == kw || Seen(fields, rest, kw)
  {
    var ps := [p] + rest;
    if Seen(fields, rest, kw) {
      var k :| 0 <= k < |rest| && fields[rest[k]] == kw;
      assert fields[ps[k + 1]] == kw;
    }
    if fields[p] == kw {
      assert fields[ps[0]] == kw;
    }
    if Seen(fields, ps, kw) && fields[p] != kw {
      var k :| 0 <= k < |ps| && fields[ps[k]] == kw;
      assert fields[rest[k - 1]] == kw;
    }
  }

  /** The scan fails exactly when the last field it reads as a keyword is a
      value keyword in the last position of the line. */
  lemma {:induction false} ScanPanics(fields: seq<string>, i: nat, rule: FirewallRule)
    ensures var ps := Keywords(fields, i);
      Scan(fields, i, rule).None? <==>
        ps != [] && ps[|ps| - 1] == |fields| - 1 && IsValueKeyword(fields[|fields| - 1])
    decreases |fields| - i
  {
    if i < |fields| {
      var ps := Keywords(fields, i);
      var next := i + Step(fields, i);
      KeywordsShape(fields, i);
      KeywordsShape(fields, next);
      assert ps[1..] == Keywords(fields, next);
      var f := fields[i];
      if f == "quick" {
        ScanPanics(fields, next, rule.(quick := true));
      } else if IsValueKeyword(f) {
        if i + 1 < |fields| {
          ScanPanics(fields, next, SetValue(rule, f, fields[i + 1]));
        }
      } else if f == "keep" {
        ScanPanics(fields, next, rule.(keepState := true));
      } else {
        ScanPanics(fields, next, rule);
      }
    }
  }

  /** The lines of a text written one after the other: the rules of the
      first part followed by those of the second, or the first failure. */
  lemma {:induction false} ParseLinesAppend(a: seq<string>, b: seq<string>)
    ensures ParseLines(a + b) ==
      match ParseLines(a)
      case Err(p) => Err(p)
      case Ok(x) =>
        match ParseLines(b)
        case Err(p) => Err(p)
        case Ok(y) => Ok(x + y)
    decreases |b|
  {
    if b == [] {
      assert a + b == a;
      match ParseLines(a) {
        case Err(_) =>
        case Ok(x) => assert x + [] == x;
      }
    } else {
      assert (a + b)[..|a + b| - 1] == a + b[..|b| - 1];
      ParseLinesAppend(a, b[..|b| - 1]);
      match ParseLines(a) {
        case Err(_) =>
        case Ok(x) =>
          match ParseLines(b[..|b| - 1]) {
            case Err(_) =>
            case Ok(y) =>
              match ParseLine(b[|b| - 1]) {
                case Err(_) =>
                case Ok(z) =>
                  assert x + y + z == x + (y + z);
              }
          }
      }
    }
  }

  /** One line on its own: no rule for a blank or short line, exactly one for
      a rule line, with the line's first two fields as action and direction. */
  lemma OneLine(line: string)
    ensures !IsRuleLine(line) ==> ParseLines([line]) == Ok([])
    ensures IsRuleLine(line) && ParseLines([line]).Ok? ==>
      var rs := ParseLines([line]).value;
      |rs| == 1 && rs[0].action == Fields(line)[0] && rs[0].direction == Fields(line)[1]
  {
    assert [line][..0] == [];
    if IsRuleLine(line) && ParseLines([line]).Ok? {
      var fields := Fields(line);
      ScanMeaning(fields, 2, BaseRule(fields));
    }
  }

  /** The line `pass in proto tcp from any to any port 22 keep state`, as
      `pfctl -sr` prints it (its words joined by single spaces), is read as one
      TCP rule for port 22 that keeps state; attributes no keyword names stay
      empty. */
  lemma ExampleLine()
    ensures var line := Join(["pass", "in", "proto", "tcp", "from", "any", "to", "any", "port", "22", "keep", "state"], " ");
      Parse(line) == Ok([FirewallRule("pass", "in", false, "", "tcp", "any", "any", "22", true, "")])
  {
    var fields := ExampleWords();
    ParseJoined(fields);
    ExampleScan();
  }

  /** A line made of at least four field words joined by single spaces is
      read as the scan of exactly those words. */
  lemma ParseJoined(words: seq<string>)
    requires |words| >= 4
    requires forall k :: 0 <= k < |words| ==> words[k] != [] && NoSpace(words[k]) && '\n' !in words[k]
    ensures Parse(Join(words, " ")) == ParseLine(Join(words, " "))
    ensures Fields(Join(words, " ")) == words && IsRuleLine(Join(words, " "))
  {
    var line := Join(words, " ");
    FieldsJoin(words);
    FieldsNotBlank(line);
    JoinWithout(words, " ", '\n');
    SplitNoSeparator(line, '\n');
    OneLineParse(line);
  }

  /** The rules of a one-line output are those of its line. */
  lemma OneLineParse(line: string)
    requires '\n' !in line
    ensures Parse(line) == ParseLine(line)
  {
    SplitNoSeparator(line, '\n');
    assert [line][..0] == [];
    assert ParseLines([]) == Ok([]);
    if ParseLine(line).Ok? {
      assert [] + ParseLine(line).value == ParseLine(line).value;
    }
    assert ParseLines([line]) == ParseLine(line);
  }

  /** The words of the example line are fields: non-empty, with no space and
      no line break. */
  lemma ExampleWords() returns (fields: seq<string>)
    ensures fields == ["pass", "in", "proto", "tcp", "from", "any", "to", "any", "port", "22", "keep", "state"]
    ensures forall k :: 0 <= k < |fields| ==> fields[k] != [] && NoSpace(fields[k]) && '\n' !in fields[k]
  {
    fields := ["pass", "in", "proto", "tcp", "from", "any", "to", "any", "port", "22", "keep", "state"];
  }

  /** The scan of the example line's fields. */
  lemma ExampleScan()
    ensures var fields := ["pass", "in", "proto", "tcp", "from", "any", "to", "any", "port", "22", "keep", "state"];
      Scan(fields, 2, BaseRule(fields))
        == Some(FirewallRule("pass", "in", false, "", "tcp", "any", "any", "22", true, ""))
  {
  }
}
