/** `EnvironmentBuilder.security_group_rules` (botoform/builders.py): each
    security group's configured rules become the `IpPermissions` list of one
    `authorize_ingress` call. The VPC's security-group lookup is a map from
    the configured group name to the group's id, and `get_port_range` from
    `botoform.util` is a function parameter. */
module Permissions {
  import opened Wrappers

  /** One configured rule `[source, protocol, ports]`. */
  datatype Rule = Rule(source: string, protocol: string, ports: string)

  /** What `get_port_range(ports, protocol)` returns. */
  datatype PortRange = PortRange(fromPort: int, toPort: int)

  /** `UserIdGroupPairs: [{GroupId}]` or `IpRanges: [{CidrIp}]`. */
  datatype Peer = GroupPair(groupId: string) | IpRange(cidrIp: string)

  /** One entry of `IpPermissions`. */
  datatype Permission = Permission(protocol: string, fromPort: int, toPort: int, peer: Peer)

  /** One `authorize_ingress` call on the group with id `groupId`. */
  datatype Ingress = Ingress(groupId: string, permissions: seq<Permission>)

  /** A security group's name with its rules, in configuration order. */
  datatype GroupRules = GroupRules(name: string, rules: seq<Rule>)

  /** The permission the builder makes of one rule: a source that names a
      known security group is granted by group id, any other source is taken
      as a CIDR block. */
  function PermissionFor(rule: Rule, groups: map<string, string>,
                         portRange: (string, string) -> PortRange): Permission
  {
    var range := portRange(rule.ports, rule.protocol);
    Permission(rule.protocol, range.fromPort, range.toPort,
               if rule.source in groups then GroupPair(groups[rule.source]) else IpRange(rule.source))
  }

  /** The permissions of a whole rule list, one per rule, in rule order. */
  function PermissionsFor(rules: seq<Rule>, groups: map<string, string>,
                          portRange: (string, string) -> PortRange): seq<Permission>
  {
    seq(|rules|, i requires 0 <= i < |rules| => PermissionFor(rules[i], groups, portRange))
  }

  /** The inner loop of `security_group_rules`: the `permissions` list it
      accumulates for one group. */
  method GroupPermissions(rules: seq<Rule>, groups: map<string, string>,
                          portRange: (string, string) -> PortRange)
    returns (permissions: seq<Permission>)
    ensures |permissions| == |rules|
    ensures forall i :: 0 <= i < |rules| ==>
              permissions[i].protocol == rules[i].protocol &&
              permissions[i].fromPort == portRange(rules[i].ports, rules[i].protocol).fromPort &&
              permissions[i].toPort == portRange(rules[i].ports, rules[i].protocol).toPort
    ensures forall i :: 0 <= i < |rules| ==>
              (permissions[i].peer.GroupPair? <==> rules[i].source in groups)
    ensures forall i :: 0 <= i < |rules| && rules[i].source in groups ==>
              permissions[i].peer.groupId == groups[rules[i].source]
    ensures forall i :: 0 <= i < |rules| && rules[i].source !in groups ==>
              permissions[i].peer.cidrIp == rules[i].source
    ensures permissions == PermissionsFor(rules, groups, portRange)
  {
    permissions := [];
    for i := 0 to |rules|
      invariant permissions == PermissionsFor(rules[..i], groups, portRange)
    {
      var rule := rules[i];
      var range := portRange(rule.ports, rule.protocol);
      var peer := if rule.source in groups then GroupPair(groups[rule.source]) else IpRange(rule.source);
      permissions := permissions + [Permission(rule.protocol, range.fromPort, range.toPort, peer)];
    }
    assert rules[..|rules|] == rules;
  }

  /** The group names whose lookup answers a given id. */
  ghost function NamesWithId(groups: map<string, string>, id: string): set<string>
  {
    set n | n in groups && groups[n] == id
  }

  /** Different names look up different groups. */
  ghost predicate Injective(groups: map<string, string>)
  {
    forall a, b :: a in groups && b in groups && a != b ==> groups[a] != groups[b]
  }

  /** Reads the rule's source back from a permission: a CIDR block names
      itself; a group pair names the group that has that id. */
  ghost function SourceOf(p: Permission, groups: map<string, string>): string
  {
    match p.peer
    case IpRange(cidr) => cidr
    case GroupPair(id) => if NamesWithId(groups, id) != {} then var n :| n in NamesWithId(groups, id); n else ""
  }

  /** The permission list loses nothing of the rules: when the lookup gives
      each group its own id, every rule's source, protocol and port range can
      be read back from its permission. */
  lemma {:induction false} PermissionsKeepRules(rules: seq<Rule>, groups: map<string, string>,
                                                portRange: (string, string) -> PortRange, i: nat)
    requires Injective(groups) && i < |rules|
    ensures SourceOf(PermissionsFor(rules, groups, portRange)[i], groups) == rules[i].source
    ensures PermissionsFor(rules, groups, portRange)[i].protocol == rules[i].protocol
    ensures PermissionsFor(rules, groups, portRange)[i].fromPort
            == portRange(rules[i].ports, rules[i].protocol).fromPort
    ensures PermissionsFor(rules, groups, portRange)[i].toPort
            == portRange(rules[i].ports, rules[i].protocol).toPort
  {
    var source := rules[i].source;
    if source in groups {
      assert NamesWithId(groups, groups[source]) == {source};
    }
  }

  /** How `security_group_rules` ends: the `authorize_ingress` calls made,
      and, if it stopped early, the group whose lookup returned None (so
      `sg.authorize_ingress` raised AttributeError). */
  datatype RulesOutcome = RulesOutcome(calls: seq<Ingress>, missing: Option<string>)

  /** `security_group_rules`: one `authorize_ingress` per configured group,
      in configuration order, until a group the lookup does not know. */
  method AuthorizeRules(cfg: seq<GroupRules>, groups: map<string, string>,
                        portRange: (string, string) -> PortRange)
    returns (out: RulesOutcome)
    ensures |out.calls| <= |cfg|
    ensures forall i :: 0 <= i < |out.calls| ==>
              cfg[i].name in groups &&
              out.calls[i] == Ingress(groups[cfg[i].name], PermissionsFor(cfg[i].rules, groups, portRange))
    ensures out.missing.None? <==> |out.calls| == |cfg|
    ensures out.missing.Some? ==>
              cfg[|out.calls|].name !in groups && out.missing.value == cfg[|out.calls|].name
    ensures (forall i :: 0 <= i < |cfg| ==> cfg[i].name in groups) ==> out.missing.None?
  {
    var calls: seq<Ingress> := [];
    for i := 0 to |cfg|
      invariant |calls| == i
      invariant forall j :: 0 <= j < i ==>
                  cfg[j].name in groups &&
                  calls[j] == Ingress(groups[cfg[j].name], PermissionsFor(cfg[j].rules, groups, portRange))
    {
      var permissions := GroupPermissions(cfg[i].rules, groups, portRange);
      if cfg[i].name !in groups {
        return RulesOutcome(calls, Some(cfg[i].name));
      }
      calls := calls + [Ingress(groups[cfg[i].name], permissions)];
    }
    out := RulesOutcome(calls, None);
  }
}
