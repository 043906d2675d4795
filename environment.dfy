/** The stages of `EnvironmentBuilder` (botoform/builders.py) that change
    the VPC's resources in place: security groups, key pairs, route tables and
    instance tags. `Vpc` stands for the provider's view of one VPC: the
    `create_*` and `update_tags` calls become updates of its fields. */
module Environment {
  import opened Wrappers
  import opened Naming
  import opened GetOrCreate
  import opened Routing
  import opened Tagging

  /** The configuration list the caller passes to `key_pairs`, which the
      builder extends in place. */
  class NameList {
    var items: seq<string>

    constructor(items: seq<string>)
      ensures this.items == items
    {
      this.items := items;
    }
  }

  class Vpc {
    /** The VPC's Name tag, `self.evpc.name`. */
    const name: string
    /** Ids of the VPC's internet gateways, `self.evpc.internet_gateways`. */
    const gateways: seq<string>
    /** The route tables; the first is the VPC's main route table. */
    var routeTables: seq<RouteTable>
    /** Names of the VPC's security groups (each created under its long name). */
    var securityGroups: set<string>
    /** Names of the account's key pairs. */
    var keyPairs: set<string>
    /** Tags of every resource, by resource id. */
    var tags: Tags

    ghost predicate Valid()
      reads this
    {
      routeTables != []
    }

    constructor(name: string, gateways: seq<string>, main: RouteTable)
      ensures Valid()
      ensures this.name == name && this.gateways == gateways && routeTables == [main]
      ensures securityGroups == {} && keyPairs == {} && tags == map[]
    {
      this.name := name;
      this.gateways := gateways;
      routeTables := [main];
      securityGroups := {};
      keyPairs := {};
      tags := map[];
    }

    /** `security_groups`: creates, in configuration order, each group whose
        lookup finds nothing, under the name `<vpc>-<sg_name>`. Returns the
        names it created. */
    method SecurityGroups(names: seq<string>) returns (created: seq<string>)
      requires Valid()
      modifies this
      ensures Valid()
      ensures created == Created(old(securityGroups), LongNames(name, names))
      ensures securityGroups == old(securityGroups) + (set x | x in created)
      ensures securityGroups == old(securityGroups) + (set x | x in LongNames(name, names))
      ensures routeTables == old(routeTables) && keyPairs == old(keyPairs) && tags == old(tags)
    {
      var longnames := LongNames(name, names);
      created := [];
      for i := 0 to |names|
        invariant created == Created(old(securityGroups), longnames[..i])
        invariant securityGroups == old(securityGroups) + (set x | x in created)
        invariant routeTables == old(routeTables) && keyPairs == old(keyPairs) && tags == old(tags)
      {
        ghost var prefix := longnames[..i];
        assert longnames[..i + 1][..i] == prefix;
        var longname := LongName(name, names[i]);
        assert longname == longnames[i];
        assert longname in securityGroups <==> longname in old(securityGroups) || longname in prefix by {
          CreatedFresh(old(securityGroups), prefix);
        }
        if longname !in securityGroups {
          securityGroups := securityGroups + {longname};
          created := created + [longname];
        }
      }
      assert longnames[..|names|] == longnames;
      CreatedFresh(old(securityGroups), longnames);
    }

    /** `key_pairs`: appends 'default' to the caller's list, then creates each
        listed key pair the account lacks. Returns the names it created. */
    method KeyPairs(cfg: NameList) returns (created: seq<string>)
      requires Valid()
      modifies this, cfg
      ensures Valid()
      ensures cfg.items == old(cfg.items) + ["default"]
      ensures created == Created(old(keyPairs), cfg.items)
      ensures keyPairs == old(keyPairs) + (set x | x in cfg.items)
      ensures routeTables == old(routeTables) && securityGroups == old(securityGroups) && tags == old(tags)
    {
      cfg.items := cfg.items + ["default"];
      var names := cfg.items;
      created := [];
      for i := 0 to |names|
        invariant cfg.items == names
        invariant created == Created(old(keyPairs), names[..i])
        invariant keyPairs == old(keyPairs) + (set x | x in created)
        invariant routeTables == old(routeTables) && securityGroups == old(securityGroups) && tags == old(tags)
      {
        ghost var prefix := names[..i];
        assert names[..i + 1][..i] == prefix;
        assert names[i] in keyPairs <==> names[i] in old(keyPairs) || names[i] in prefix by {
          CreatedFresh(old(keyPairs), prefix);
        }
        if names[i] !in keyPairs {
          keyPairs := keyPairs + {names[i]};
          created := created + [names[i]];
        }
      }
      assert names[..|names|] == names;
      CreatedFresh(old(keyPairs), names);
    }

    /** The inner loop of `route_tables`: adds the table's internet-gateway
        routes to table `t`, or stops with IndexError at the first one when
        the VPC has no internet gateway. */
    method AddGatewayRoutes(t: nat, routes: seq<(string, string)>) returns (failed: bool)
      requires Valid() && t < |routeTables|
      modifies this
      ensures Valid()
      ensures failed <==> gateways == [] && HasGatewayTarget(routes)
      ensures gateways == [] ==> routeTables == old(routeTables)
      ensures gateways != [] ==>
                routeTables == old(routeTables)[t := old(routeTables)[t].(
                  routes := old(routeTables)[t].routes + GatewayRoutes(routes, gateways[0]))]
      ensures securityGroups == old(securityGroups) && keyPairs == old(keyPairs) && tags == old(tags)
    {
      assert old(routeTables)[t].(routes := old(routeTables)[t].routes + []) == old(routeTables)[t];
      for j := 0 to |routes|
        invariant !HasGatewayTarget(routes[..j]) ==> routeTables == old(routeTables)
        invariant gateways == [] ==> !HasGatewayTarget(routes[..j])
        invariant gateways != [] ==>
                    routeTables == old(routeTables)[t := old(routeTables)[t].(
                      routes := old(routeTables)[t].routes + GatewayRoutes(routes[..j], gateways[0]))]
        invariant securityGroups == old(securityGroups) && keyPairs == old(keyPairs) && tags == old(tags)
      {
        var (destination, target) := routes[j];
        assert routes[..j + 1][..j] == routes[..j] && routes[..j + 1][j] == routes[j];
        if Lower(target) == "internet_gateway" {
          if gateways == [] {
            assert routes[j] == routes[..j + 1][j];
            assert HasGatewayTarget(routes) by {
              assert IsGatewayTarget(routes[j].1);
            }
            return true;
          }
          ghost var added := GatewayRoutes(routes[..j], gateways[0]);
          var table := routeTables[t];
          assert table.routes == old(routeTables)[t].routes + added;
          routeTables := routeTables[t := table.(routes := table.routes + [Route(destination, gateways[0])])];
          assert routeTables[t].routes == old(routeTables)[t].routes + (added + [Route(destination, gateways[0])]);
          assert routeTables == old(routeTables)[t := old(routeTables)[t].(
                   routes := old(routeTables)[t].routes + (added + [Route(destination, gateways[0])]))];
        }
        assert gateways != [] ==>
                 GatewayRoutes(routes[..j + 1], gateways[0]) == GatewayRoutes(routes[..j], gateways[0]) +
                   if IsGatewayTarget(target) then [Route(destination, gateways[0])] else [];
        assert HasGatewayTarget(routes[..j + 1]) ==> HasGatewayTarget(routes[..j]) || IsGatewayTarget(target);
      }
      assert routes[..|routes|] == routes;
      failed := false;
    }

    /** The get-or-create step of `route_tables`: the table tagged
        `longname`, else the main table retagged when `main`, else a new table
        tagged `longname`. Returns its index. */
    method GetRouteTable(longname: string, main: bool) returns (t: nat)
      requires Valid()
      modifies this
      ensures Valid()
      ensures (routeTables, t) == WithTable(old(routeTables), longname, main)
      ensures securityGroups == old(securityGroups) && keyPairs == old(keyPairs) && tags == old(tags)
    {
      var found := FindTable(routeTables, longname);
      if found.Some? {
        t := found.value;
      } else if main {
        routeTables := routeTables[0 := routeTables[0].(name := Some(longname))];
        t := 0;
      } else {
        routeTables := routeTables + [RouteTable(Some(longname), [])];
        t := |routeTables| - 1;
      }
    }

    /** `route_tables`: for each entry in configuration order, finds the table
        tagged `<vpc>-<name>` or gets one (the main table when the entry says
        `main`, a new one otherwise) and tags it, then adds its
        internet-gateway routes. Returns the table whose route raised
        IndexError, if one did. */
    method RouteTables(cfg: seq<RouteTableConfig>) returns (failedAt: Option<string>)
      requires Valid()
      modifies this
      ensures Valid()
      ensures RouteRun(routeTables, failedAt) == RunRouteTables(old(routeTables), name, gateways, cfg)
      ensures securityGroups == old(securityGroups) && keyPairs == old(keyPairs) && tags == old(tags)
    {
      for i := 0 to |cfg|
        invariant Valid()
        invariant RouteRun(routeTables, None) == RunRouteTables(old(routeTables), name, gateways, cfg[..i])
        invariant securityGroups == old(securityGroups) && keyPairs == old(keyPairs) && tags == old(tags)
      {
        assert cfg[..i + 1][..i] == cfg[..i] && cfg[..i + 1][i] == cfg[i];
        ghost var before := routeTables;
        var e := cfg[i];
        var longname := LongName(name, e.name);
        var t := GetRouteTable(longname, e.main);
        var failed := AddGatewayRoutes(t, e.routes);
        assert RouteRun(routeTables, if failed then Some(longname) else None) == ApplyEntry(before, name, gateways, e);
        if failed {
          FailureSticks(old(routeTables), name, gateways, cfg, i + 1);
          return Some(longname);
        }
      }
      assert cfg[..|cfg|] == cfg;
      failedAt := None;
    }

    /** The inner loop of `tag_instances`: Name = `hostname` on each volume. */
    method NameVolumes(volumes: seq<string>, hostname: string)
      requires Valid()
      modifies this
      ensures Valid()
      ensures tags == TagVolumes(old(tags), volumes, hostname)
      ensures routeTables == old(routeTables) && securityGroups == old(securityGroups) && keyPairs == old(keyPairs)
    {
      for j := 0 to |volumes|
        invariant tags == TagVolumes(old(tags), volumes[..j], hostname)
        invariant routeTables == old(routeTables) && securityGroups == old(securityGroups) && keyPairs == old(keyPairs)
      {
        assert volumes[..j + 1][..j] == volumes[..j];
        tags := UpdateTags(tags, volumes[j], map["Name" := hostname]);
      }
      assert volumes[..|volumes|] == volumes;
    }

    /** `tag_instances`: Name = hostname and role = `role` on each instance,
        Name = hostname on each of its volumes. */
    method TagInstances(role: string, instances: seq<Instance>)
      requires Valid()
      modifies this
      ensures Valid()
      ensures tags == TagAll(old(tags), name, role, instances)
      ensures routeTables == old(routeTables) && securityGroups == old(securityGroups) && keyPairs == old(keyPairs)
    {
      for i := 0 to |instances|
        invariant tags == TagAll(old(tags), name, role, instances[..i])
        invariant routeTables == old(routeTables) && securityGroups == old(securityGroups) && keyPairs == old(keyPairs)
      {
        ghost var before := tags;
        var inst := instances[i];
        var hostname := name + "-" + role + "-" + LStrip(inst.id, {'i', '-'});
        assert hostname == Hostname(name, role, inst.id);
        tags := UpdateTags(tags, inst.id, map["Name" := hostname, "role" := role]);
        NameVolumes(inst.volumes, hostname);
        assert tags == TagInstance(before, name, role, inst);
        assert instances[..i + 1][..i] == instances[..i] && instances[..i + 1][i] == inst;
      }
      assert instances[..|instances|] == instances;
    }
  }
}
