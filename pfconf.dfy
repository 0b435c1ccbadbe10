/** What `GeneratePfConf` produces: the pf.conf text for a rule document.

    The text is specified here as functions; the loop that builds it in a
    string builder is `Firewall.FirewallManager.GeneratePfConf`, proved equal
    to `PfConf` below. A filter statement is specified by the pf clauses it is
    made of (`Clauses`), each rendered to its words, so that which clauses a
    rule gets can be stated and proved on their own. */
module PfConf {
  import opened GoStrings
  import opened Rules

  // ---------------------------------------------------------------------
  // Redirect (rdr) statements
  // ---------------------------------------------------------------------

  /** The `# <description>` line that precedes a rule with a description. */
  function Comment(description: string): string {
    if description == "" then "" else "# " + description + "\n"
  }

  /** The words of the rdr statement for one port-forwarding rule. A rule on
      every interface has no `on` clause and redirects traffic for its external
      address as written; a rule on one interface redirects traffic for
      `(<interface>)`, the interface's own address, when the external address
      is the wildcard. */
  function RdrWords(r: PortForwardingRule): (w: seq<string>)
    ensures |w| == (if r.iface == Any then 13 else 15)
    ensures w[0] == "rdr"
    ensures (w[1] == "on") <==> r.iface != Any
    ensures r.iface != Any ==> w[2] == r.iface
    ensures w[|w| - 11] == r.protocol
    ensures w[|w| - 7] == (if r.iface != Any && r.externalIP == Any then "(" + r.iface + ")" else r.externalIP)
    ensures w[|w| - 5] == r.externalPort && w[|w| - 3] == r.internalIP && w[|w| - 1] == r.internalPort
  {
    var target := if r.iface != Any && r.externalIP == Any then "(" + r.iface + ")" else r.externalIP;
    ["rdr"] + (if r.iface == Any then [] else ["on", r.iface])
      + ["proto", r.protocol, "from", "any", "to", target, "port", r.externalPort,
         "->", r.internalIP, "port", r.internalPort]
  }

  /** The text one port-forwarding rule compiles to. */
  function RdrText(r: PortForwardingRule): string {
    Comment(r.description) + Join(RdrWords(r), " ") + "\n"
  }

  // ---------------------------------------------------------------------
  // Filter statements
  // ---------------------------------------------------------------------

  /** One clause of a pf filter statement. */
  datatype Clause =
    | Action(action: string)
    | Direction(direction: string)
    | Quick
    | On(iface: string)
    | All
    | Proto(protocol: string)
    | FromTo(source: string, destination: string)
    | Port(ports: string)
    | KeepState

  /** The words a clause is written as. */
  function Render(c: Clause): seq<string> {
    match c
    case Action(a) => [a]
    case Direction(d) => [d]
    case Quick => ["quick"]
    case On(i) => ["on", i]
    case All => ["all"]
    case Proto(p) => ["proto", p]
    case FromTo(s, d) => ["from", s, "to", d]
    case Port(p) => ["port", p]
    case KeepState => ["keep state"]
  }

  /** The words of a sequence of clauses, in order. */
  function Words(cs: seq<Clause>): seq<string> {
    if cs == [] then [] else Render(cs[0]) + Words(cs[1..])
  }

  /** A port field that names a list or a range. */
  predicate IsListOrRange(port: string) {
    Contains(port, ",") || Contains(port, "-") || Contains(port, ":")
  }

  /** How a port field is written after `port`: a list or range is wrapped in
      braces with every `-` turned into pf's range separator `:`; anything else
      is written as it is. */
  function FormatPort(port: string): (r: string)
    ensures IsListOrRange(port) <==> (',' in port || '-' in port || ':' in port)
    ensures IsListOrRange(port) ==>
      |r| == |port| + 2 && r[0] == '{' && r[|r| - 1] == '}' && '-' !in r
      && forall k :: 0 <= k < |port| ==> r[k + 1] == if port[k] == '-' then ':' else port[k]
    ensures !IsListOrRange(port) ==> r == port
  {
    ContainsOneChar(port, ',');
    ContainsOneChar(port, '-');
    ContainsOneChar(port, ':');
    if IsListOrRange(port) then "{" + ReplaceChar(port, '-', ':') + "}" else port
  }

  /** The statement has nothing to match on: protocol, both addresses and the
      port are all the wildcard. */
  predicate IsAllForm(r: FirewallRule, proto: string) {
    proto == Any && r.source == Any && r.destination == Any && r.port == Any
  }

  /** The clauses of the filter statement for rule `r` and one protocol token:
      the head (action, direction, `quick`, `on`), the body (`all`, or the
      protocol, address and port clauses) and `keep state`. Which clauses a
      statement gets is stated by `ClauseSelection`. */
  function Clauses(r: FirewallRule, proto: string): (cs: seq<Clause>)
    ensures |cs| >= 3 && cs[0] == Action(r.action) && cs[1] == Direction(r.direction)
  {
    Head(r) + Body(r, proto) + Tail(r)
  }

  /** Action, direction, `quick` and `on <interface>`. */
  function Head(r: FirewallRule): seq<Clause> {
    var h := [Action(r.action), Direction(r.direction)];
    var h := if r.quick then h + [Quick] else h;
    if r.iface != Any then h + [On(r.iface)] else h
  }

  /** `all`, or the protocol, address and port clauses. */
  function Body(r: FirewallRule, proto: string): seq<Clause> {
    if IsAllForm(r, proto) then [All]
    else
      var b := if proto != Any then [Proto(proto)] else [];
      var b :=
        if r.source != Any || r.destination != Any then b + [FromTo(r.source, r.destination)]
        else if r.source == Any && r.destination == Any && r.port != Any then b + [FromTo(Any, Any)]
        else b;
      if r.port != Any && (proto == "tcp" || proto == "udp") then b + [Port(FormatPort(r.port))] else b
  }

  /** `keep state` when the rule keeps state. */
  function Tail(r: FirewallRule): seq<Clause> {
    if r.keepState then [KeepState] else []
  }

  /** The protocol tokens a filter rule is written for, before trimming: a
      wildcard protocol with a concrete port stands for TCP and UDP (pf cannot
      match a port without a transport protocol); otherwise the comma-separated
      pieces of the protocol field. */
  function ProtocolTokens(r: FirewallRule): (ts: seq<string>)
    ensures |ts| >= 1
    ensures r.protocol == Any && r.port != Any ==> ts == ["tcp", "udp"]
    ensures !(r.protocol == Any && r.port != Any) ==>
      Join(ts, ",") == r.protocol && forall k :: 0 <= k < |ts| ==> ',' !in ts[k]
  {
    if r.protocol == Any && r.port != Any then ["tcp", "udp"]
    else
      JoinSplit(r.protocol, ',');
      Split(r.protocol, ',')
  }

  /** One filter statement: its words joined by single spaces. */
  function Statement(r: FirewallRule, proto: string): string {
    Join(Words(Clauses(r, proto)), " ")
  }

  /** The statements for the given protocol tokens, one line each, in order. */
  function FilterStatements(r: FirewallRule, protos: seq<string>): string {
    if protos == [] then ""
    else
      var line := Statement(r, TrimSpace(protos[|protos| - 1])) + "\n";
      FilterStatements(r, protos[..|protos| - 1]) + line
  }

  /** The text one filter rule compiles to. */
  function FilterText(r: FirewallRule): string {
    Comment(r.description) + FilterStatements(r, ProtocolTokens(r))
  }

  // ---------------------------------------------------------------------
  // The whole file
  // ---------------------------------------------------------------------

  /** The texts of a list of items, one after the other, in list order. */
  function ConcatMap<T>(text: T -> string, xs: seq<T>): string {
    if xs == [] then ""
    else ConcatMap(text, xs[..|xs| - 1]) + text(xs[|xs| - 1])
  }

  /** The rdr statements of a list of port-forwarding rules, in list order. */
  function RdrSection(rules: seq<PortForwardingRule>): string {
    ConcatMap(RdrText, rules)
  }

  /** The filter statements of a list of filter rules, in list order. */
  function FilterSection(rules: seq<FirewallRule>): string {
    ConcatMap(FilterText, rules)
  }

  /** The pf.conf text for a document: every rdr rule, then every filter rule. */
  function PfConf(c: Config): string {
    RdrSection(c.rdrRules) + FilterSection(c.filterRules)
  }

  // ---------------------------------------------------------------------
  // Properties
  // ---------------------------------------------------------------------

  /** A one-character needle occurs exactly when the character does. */
  lemma ContainsOneChar(s: string, c: char)
    ensures Contains(s, [c]) <==> c in s
  {
    if c in s {
      var i :| 0 <= i < |s| && s[i] == c;
      assert OccursAt(s, [c], i);
    }
    if Contains(s, [c]) {
      var i :| 0 <= i <= |s| - 1 && OccursAt(s, [c], i);
      assert s[i] == s[i..i + 1][0];
    }
  }

  /** The words of clauses written one after the other. */
  lemma {:induction false} WordsAppend(a: seq<Clause>, b: seq<Clause>)
    ensures Words(a + b) == Words(a) + Words(b)
  {
    if a != [] {
      calc {
        Words(a + b);
        { assert (a + b)[1..] == a[1..] + b; }
        Render(a[0]) + Words(a[1..] + b);
        { WordsAppend(a[1..], b); }
        Render(a[0]) + Words(a[1..]) + Words(b);
      }
    } else {
      assert a + b == b;
    }
  }

  /** The words of clauses followed by one more clause. */
  lemma WordsSnoc(cs: seq<Clause>, c: Clause)
    ensures Words(cs + [c]) == Words(cs) + Render(c)
  {
    WordsAppend(cs, [c]);
  }

  /** The head of a statement: action and direction, then `quick` exactly for
      quick rules and `on <interface>` exactly for a rule bound to one
      interface; nothing else. */
  lemma HeadSelection(r: FirewallRule)
    ensures var h := Head(r);
      && (Quick in h <==> r.quick)
      && (On(r.iface) in h <==> r.iface != Any)
      && (forall k :: 0 <= k < |h| ==> h[k].Action? || h[k].Direction? || h[k] == Quick || h[k] == On(r.iface))
  {
  }

  /** The body of a statement: `all` alone exactly when protocol, addresses
      and port are all the wildcard. Otherwise `proto` exactly for a concrete
      protocol; `from <source> to <destination>` exactly when an address or the
      port is concrete (with both addresses the wildcard this is the filler
      `from any to any`); `port` exactly for TCP or UDP with a concrete port. */
  lemma BodySelection(r: FirewallRule, proto: string)
    ensures var b := Body(r, proto);
      && (IsAllForm(r, proto) ==> b == [All])
      && (All in b <==> IsAllForm(r, proto))
      && (Proto(proto) in b <==> proto != Any)
      && (FromTo(r.source, r.destination) in b <==> (r.source != Any || r.destination != Any || r.port != Any))
      && (Port(FormatPort(r.port)) in b <==> (r.port != Any && (proto == "tcp" || proto == "udp")))
      && (forall k :: 0 <= k < |b| ==>
            b[k] == All || b[k] == Proto(proto) || b[k] == FromTo(r.source, r.destination)
            || b[k] == Port(FormatPort(r.port)))
  {
  }

  /** Which clauses a whole filter statement has: the head and body
      selections above, and `keep state` exactly for rules that keep state,
      always as the last clause. */
  lemma ClauseSelection(r: FirewallRule, proto: string)
    ensures var cs := Clauses(r, proto);
      && (Quick in cs <==> r.quick)
      && (On(r.iface) in cs <==> r.iface != Any)
      && (All in cs <==> IsAllForm(r, proto))
      && (Proto(proto) in cs <==> proto != Any)
      && (FromTo(r.source, r.destination) in cs <==> (r.source != Any || r.destination != Any || r.port != Any))
      && (Port(FormatPort(r.port)) in cs <==> (r.port != Any && (proto == "tcp" || proto == "udp")))
      && (KeepState in cs <==> r.keepState)
      && (r.keepState ==> cs[|cs| - 1] == KeepState)
  {
    var h, b, t := Head(r), Body(r, proto), Tail(r);
    HeadSelection(r);
    BodySelection(r, proto);
    assert Clauses(r, proto) == h + b + t;
    assert KeepState !in h && KeepState !in b;
    assert All !in h && All !in t;
  }

  /** Concatenation regrouped. */
  lemma Regroup<T>(a: seq<T>, b: seq<T>, c: seq<T>)
    ensures (a + b) + c == a + (b + c)
  {
  }

  /** One more item of a list adds its text at the end. */
  lemma ConcatMapPrefix<T>(text: T -> string, xs: seq<T>, i: nat)
    requires i < |xs|
    ensures ConcatMap(text, xs[..i + 1]) == ConcatMap(text, xs[..i]) + text(xs[i])
  {
    assert xs[..i + 1][..i] == xs[..i];
  }

  /** One more protocol token adds its statement line at the end. */
  lemma FilterStatementsPrefix(r: FirewallRule, protos: seq<string>, i: nat)
    requires i < |protos|
    ensures FilterStatements(r, protos[..i + 1]) == FilterStatements(r, protos[..i]) + (Statement(r, TrimSpace(protos[i])) + "\n")
  {
    assert protos[..i + 1][..i] == protos[..i];
  }

  /** Compiling a list is compiling its two halves one after the other: rules
      come out in list order and no rule's text depends on its neighbours. */
  lemma {:induction false} ConcatMapAppend<T>(text: T -> string, a: seq<T>, b: seq<T>)
    ensures ConcatMap(text, a + b) == ConcatMap(text, a) + ConcatMap(text, b)
    decreases |b|
  {
    if b != [] {
      var last := b[|b| - 1];
      calc {
        ConcatMap(text, a + b);
        { assert (a + b)[..|a + b| - 1] == a + b[..|b| - 1]; }
        ConcatMap(text, a + b[..|b| - 1]) + text(last);
        { ConcatMapAppend(text, a, b[..|b| - 1]); }
        ConcatMap(text, a) + ConcatMap(text, b[..|b| - 1]) + text(last);
      }
    } else {
      assert a + b == a;
    }
  }

  /** A wildcard protocol with a concrete port is written as two statements,
      TCP then UDP. */
  lemma AnyProtocolExpansion(r: FirewallRule)
    requires r.protocol == Any && r.port != Any
    ensures FilterText(r) == Comment(r.description) + (Statement(r, "tcp") + "\n") + (Statement(r, "udp") + "\n")
  {
    assert ProtocolTokens(r) == ["tcp", "udp"];
    TwoStatements(r, "tcp", "udp");
    TransportNamesTrimmed();
  }

  /** The transport protocol names have no spaces to trim. */
  lemma TransportNamesTrimmed()
    ensures TrimSpace("tcp") == "tcp" && TrimSpace("udp") == "udp"
  {
    assert NoSpace("tcp") && NoSpace("udp");
  }

  /** The statements for two protocol tokens: one line each, in order. */
  lemma TwoStatements(r: FirewallRule, a: string, b: string)
    ensures FilterStatements(r, [a, b]) == (Statement(r, TrimSpace(a)) + "\n") + (Statement(r, TrimSpace(b)) + "\n")
  {
    var la, lb := Statement(r, TrimSpace(a)) + "\n", Statement(r, TrimSpace(b)) + "\n";
    assert [a, b][..1] == [a];
    assert [a][..0] == [];
    assert FilterStatements(r, [a]) == "" + la == la;
    assert FilterStatements(r, [a, b]) == FilterStatements(r, [a]) + lb;
  }

  /** The TCP and UDP statements of one rule differ only in their `proto`
      clause. */
  lemma TcpUdpDiffer(r: FirewallRule)
    ensures var t, u := Clauses(r, "tcp"), Clauses(r, "udp");
      |t| == |u| && forall k :: 0 <= k < |t| ==> t[k] == u[k] || (t[k] == Proto("tcp") && u[k] == Proto("udp"))
  {
  }

  /** A single port is written as it is. */
  lemma SinglePortExample()
    ensures FormatPort("22") == "22"
  {
    assert ',' !in "22" && '-' !in "22" && ':' !in "22";
  }
}
