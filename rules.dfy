/** The rule document: filter rules and port-forwarding (rdr) rules, both kept
    as free strings exactly as the JSON file and the interactive screens hold
    them. The word "any" is the wildcard for interfaces, protocols, addresses
    and ports. */
module Rules {

  /** One filter rule (`FirewallRule`). */
  datatype FirewallRule = FirewallRule(
    action: string,        // "pass" or "block"
    direction: string,     // "in" or "out"
    quick: bool,
    iface: string,         // an interface name or "any"
    protocol: string,      // one token, a comma-separated list, or "any"
    source: string,        // an address, a subnet or "any"
    destination: string,
    port: string,          // a port, a comma list, a hyphen range, or "any"
    keepState: bool,
    description: string)

  /** One redirect rule (`PortForwardingRule`). */
  datatype PortForwardingRule = PortForwardingRule(
    iface: string,
    protocol: string,
    externalIP: string,
    externalPort: string,
    internalIP: string,
    internalPort: string,
    description: string)

  /** The whole document (`Config`): list order is rule order. */
  datatype Config = Config(filterRules: seq<FirewallRule>, rdrRules: seq<PortForwardingRule>)

  /** The wildcard word. */
  const Any := "any"

  /** A filter rule with every field at Go's zero value. */
  const ZeroRule := FirewallRule("", "", false, "", "", "", "", "", false, "")

  /** The document a first run starts from: both lists empty. */
  const EmptyConfig := Config([], [])
}
