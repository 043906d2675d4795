/** `EnvironmentBuilder.route_tables` (botoform/builders.py): get or create a
    route table per configured name, then add the configured routes whose
    target is the internet gateway. The VPC's route tables are a list whose
    first entry is the main route table; a table is found by its Name tag.
    These are the value-level definitions the `Environment.Vpc` methods are
    proved against. */
module Routing {
  import opened Wrappers
  import opened Naming

  /** A route `create_route` added: destination CIDR and gateway id. */
  datatype Route = Route(destination: string, gatewayId: string)

  /** A route table: its Name tag, if any, and the routes added to it. */
  datatype RouteTable = RouteTable(name: Option<string>, routes: seq<Route>)

  /** One `route_cfg` entry: the short name, `data.get('main', False) == True`
      and the `[destination, target]` pairs of `data.get('routes', [])`. */
  datatype RouteTableConfig = RouteTableConfig(name: string, main: bool, routes: seq<(string, string)>)

  /** Where the stage ended: `failedAt` names the route table whose
      internet-gateway route raised IndexError because the VPC has no
      internet gateway. */
  datatype RouteRun = RouteRun(tables: seq<RouteTable>, failedAt: Option<string>)

  /** `get_route_table(longname)`: the first table tagged `name`. */
  function FindTable(tables: seq<RouteTable>, name: string): (r: Option<nat>)
    ensures r.None? <==> forall i :: 0 <= i < |tables| ==> tables[i].name != Some(name)
    ensures r.Some? ==> r.value < |tables| && tables[r.value].name == Some(name)
    ensures r.Some? ==> forall i :: 0 <= i < r.value ==> tables[i].name != Some(name)
  {
    if tables == [] then None
    else if tables[0].name == Some(name) then Some(0)
    else match FindTable(tables[1..], name)
      case None => None
      case Some(i) => Some(i + 1)
  }

  /** `target.lower() == 'internet_gateway'`: the target names the
      internet gateway in any mix of letter cases. */
  predicate IsGatewayTarget(target: string)
    ensures IsGatewayTarget(target) <==>
              |target| == |GatewayWord| &&
              forall i :: 0 <= i < |GatewayWord| ==> target[i] == GatewayWord[i] || target[i] == GatewayWordUpper[i]
  {
    GatewayLetters(target);
    Lower(target) == GatewayWord
  }

  const GatewayWord: string := "internet_gateway"
  const GatewayWordUpper: string := "INTERNET_GATEWAY"

  /** `LowerChar` maps exactly a letter and its capital to the letter, and
      only '_' itself to '_'. */
  lemma LowerCharIs(c: char, l: char, u: char)
    requires ('a' <= l <= 'z' && u as int == l as int - 32) || (l == u == '_')
    ensures LowerChar(c) == l <==> c == l || c == u
  {
  }

  lemma GatewayLetters(target: string)
    ensures Lower(target) == GatewayWord <==>
              |target| == |GatewayWord| &&
              forall i :: 0 <= i < |GatewayWord| ==> target[i] == GatewayWord[i] || target[i] == GatewayWordUpper[i]
  {
    if |target| == |GatewayWord| {
      forall i | 0 <= i < |GatewayWord|
        ensures LowerChar(target[i]) == GatewayWord[i] <==> target[i] == GatewayWord[i] || target[i] == GatewayWordUpper[i]
      {
        LowerCharIs(target[i], GatewayWord[i], GatewayWordUpper[i]);
      }
      if forall i :: 0 <= i < |GatewayWord| ==> target[i] == GatewayWord[i] || target[i] == GatewayWordUpper[i] {
        assert forall i :: 0 <= i < |GatewayWord| ==> Lower(target)[i] == GatewayWord[i];
      }
    }
  }

  predicate HasGatewayTarget(routes: seq<(string, string)>)
  {
    exists j :: 0 <= j < |routes| && IsGatewayTarget(routes[j].1)
  }

  /** The routes added to a table from its configured pairs: one per pair
      that targets the internet gateway, in configured order, all through
      `gateway`. Other targets are passed over. */
  function GatewayRoutes(routes: seq<(string, string)>, gateway: string): (r: seq<Route>)
    ensures |r| <= |routes|
    ensures r == [] <==> !HasGatewayTarget(routes)
    ensures forall k :: 0 <= k < |r| ==> r[k].gatewayId == gateway
  {
    if routes == [] then []
    else
      var init := routes[..|routes| - 1];
      var last := routes[|routes| - 1];
      var prev := GatewayRoutes(init, gateway);
      if IsGatewayTarget(last.1) then prev + [Route(last.0, gateway)]
      else
        assert HasGatewayTarget(routes) ==> HasGatewayTarget(init) by {
          if HasGatewayTarget(routes) {
            var j :| 0 <= j < |routes| && IsGatewayTarget(routes[j].1);
            assert init[j] == routes[j];
          }
        }
        prev
  }

  /** Every added route comes from a pair that targets the internet gateway. */
  lemma {:induction false} GatewayRoutesSound(routes: seq<(string, string)>, gateway: string)
    ensures forall k :: 0 <= k < |GatewayRoutes(routes, gateway)| ==>
              exists j :: 0 <= j < |routes| && IsGatewayTarget(routes[j].1) &&
                          routes[j].0 == GatewayRoutes(routes, gateway)[k].destination
  {
    if routes != [] {
      var init := routes[..|routes| - 1];
      GatewayRoutesSound(init, gateway);
      var prev := GatewayRoutes(init, gateway);
      var r := GatewayRoutes(routes, gateway);
      forall k | 0 <= k < |r|
        ensures exists j :: 0 <= j < |routes| && IsGatewayTarget(routes[j].1) && routes[j].0 == r[k].destination
      {
        if k < |prev| {
          assert r[k] == prev[k];
          var j :| 0 <= j < |init| && IsGatewayTarget(init[j].1) && init[j].0 == prev[k].destination;
          assert routes[j] == init[j];
        } else {
          assert routes[|routes| - 1].0 == r[k].destination;
        }
      }
    } else {
      assert GatewayRoutes(routes, gateway) == [];
    }
  }

  /** Every pair that targets the internet gateway adds its route. */
  lemma {:induction false} GatewayRoutesComplete(routes: seq<(string, string)>, gateway: string)
    ensures forall j :: 0 <= j < |routes| && IsGatewayTarget(routes[j].1) ==>
              Route(routes[j].0, gateway) in GatewayRoutes(routes, gateway)
  {
    if routes != [] {
      var init := routes[..|routes| - 1];
      var last := routes[|routes| - 1];
      GatewayRoutesComplete(init, gateway);
      var prev := GatewayRoutes(init, gateway);
      assert forall x :: x in prev ==> x in prev + [Route(last.0, gateway)];
      forall j | 0 <= j < |routes| && IsGatewayTarget(routes[j].1)
        ensures Route(routes[j].0, gateway) in GatewayRoutes(routes, gateway)
      {
        if j < |init| {
          assert routes[j] == init[j];
        }
      }
    }
  }

  /** The filter is applied pair by pair, in configured order: one route
      for each internet-gateway pair, none for any other. */
  lemma {:induction false} GatewayRoutesAppend(a: seq<(string, string)>, b: seq<(string, string)>, gateway: string)
    ensures GatewayRoutes(a + b, gateway) == GatewayRoutes(a, gateway) + GatewayRoutes(b, gateway)
    ensures |a| == 1 ==>
              GatewayRoutes(a, gateway) == if IsGatewayTarget(a[0].1) then [Route(a[0].0, gateway)] else []
    decreases |b|
  {
    if |a| == 1 {
      assert a[..0] == [];
    }
    if b == [] {
      assert a + b == a;
    } else {
      var init := b[..|b| - 1];
      GatewayRoutesAppend(a, init, gateway);
      assert (a + b)[..|a + b| - 1] == a + init;
      assert (a + b)[|a + b| - 1] == b[|b| - 1];
    }
  }

  /** The get-or-create step for one table: the tagged table if there is one;
      otherwise the main table, retagged, when the entry says `main`, or a new
      table tagged `longname` at the end. Returns the tables and the index of
      the one the routes go into. */
  function WithTable(tables: seq<RouteTable>, longname: string, main: bool): (r: (seq<RouteTable>, nat))
    requires tables != []
    ensures r.1 < |r.0| && r.0[r.1].name == Some(longname)
    ensures |r.0| == |tables| + (if FindTable(tables, longname).None? && !main then 1 else 0)
    ensures forall j :: 0 <= j < |tables| ==> r.0[j].routes == tables[j].routes
    ensures !main ==> forall j :: 0 <= j < |tables| ==> r.0[j].name == tables[j].name
    ensures FindTable(tables, longname).Some? ==> r.0 == tables && r.1 == FindTable(tables, longname).value
    ensures FindTable(tables, longname).None? && main ==>
              r.1 == 0 && forall j :: 0 < j < |tables| ==> r.0[j].name == tables[j].name
    ensures FindTable(tables, longname).None? && !main ==> r.1 == |tables| && r.0[r.1].routes == []
  {
    match FindTable(tables, longname)
    case Some(i) => (tables, i)
    case None =>
      if main then (tables[0 := tables[0].(name := Some(longname))], 0)
      else (tables + [RouteTable(Some(longname), [])], |tables|)
  }

  /** One iteration of the outer loop of `route_tables`. */
  function ApplyEntry(tables: seq<RouteTable>, vpc: string, gateways: seq<string>,
                      e: RouteTableConfig): (r: RouteRun)
    requires tables != []
    ensures |tables| <= |r.tables| <= |tables| + 1
    ensures forall j :: 0 <= j < |tables| ==> tables[j].routes <= r.tables[j].routes
  {
    var longname := LongName(vpc, e.name);
    var (t, i) := WithTable(tables, longname, e.main);
    if gateways == [] then
      RouteRun(t, if HasGatewayTarget(e.routes) then Some(longname) else None)
    else
      RouteRun(t[i := t[i].(routes := t[i].routes + GatewayRoutes(e.routes, gateways[0]))], None)
  }

  /** After one entry, `get_route_table(longname)` finds the table the entry
      used; when the VPC has an internet gateway, the entry does not fail and
      that table holds a route through the first gateway for every pair that
      targets the internet gateway. */
  lemma EntryRoutes(tables: seq<RouteTable>, vpc: string, gateways: seq<string>, e: RouteTableConfig)
    requires tables != []
    ensures FindTable(ApplyEntry(tables, vpc, gateways, e).tables, LongName(vpc, e.name)) ==
            Some(WithTable(tables, LongName(vpc, e.name), e.main).1)
    ensures gateways != [] ==>
              ApplyEntry(tables, vpc, gateways, e).failedAt.None? &&
              forall j :: 0 <= j < |e.routes| && IsGatewayTarget(e.routes[j].1) ==>
                Route(e.routes[j].0, gateways[0]) in
                  ApplyEntry(tables, vpc, gateways, e).tables[WithTable(tables, LongName(vpc, e.name), e.main).1].routes
  {
    var longname := LongName(vpc, e.name);
    var (t, i) := WithTable(tables, longname, e.main);
    var r := ApplyEntry(tables, vpc, gateways, e);
    assert forall j :: 0 <= j < |t| ==> r.tables[j].name == t[j].name;
    FindTableAt(r.tables, longname, i);
    if gateways != [] {
      GatewayRoutesComplete(e.routes, gateways[0]);
      assert forall x :: x in GatewayRoutes(e.routes, gateways[0]) ==> x in r.tables[i].routes;
    }
  }

  /** A table tagged `name` with no tagged table before it is the one
      `get_route_table` finds. */
  lemma FindTableAt(tables: seq<RouteTable>, name: string, i: nat)
    requires i < |tables| && tables[i].name == Some(name)
    requires forall j :: 0 <= j < i ==> tables[j].name != Some(name)
    ensures FindTable(tables, name) == Some(i)
  {
  }

  /** `route_tables` over the configured entries, in iteration order,
      stopping at the first IndexError. */
  function RunRouteTables(tables: seq<RouteTable>, vpc: string, gateways: seq<string>,
                          cfg: seq<RouteTableConfig>): (r: RouteRun)
    requires tables != []
    ensures r.tables != []
  {
    if cfg == [] then RouteRun(tables, None)
    else
      var prev := RunRouteTables(tables, vpc, gateways, cfg[..|cfg| - 1]);
      if prev.failedAt.Some? then prev
      else ApplyEntry(prev.tables, vpc, gateways, cfg[|cfg| - 1])
  }

  /** The stage fails exactly when the VPC has no internet gateway and some
      configured route targets one. */
  lemma {:induction false} FailsOnlyWithoutGateway(tables: seq<RouteTable>, vpc: string,
                                                   gateways: seq<string>, cfg: seq<RouteTableConfig>)
    requires tables != []
    ensures RunRouteTables(tables, vpc, gateways, cfg).failedAt.Some? <==>
            gateways == [] && exists k :: 0 <= k < |cfg| && HasGatewayTarget(cfg[k].routes)
  {
    if cfg != [] {
      var init := cfg[..|cfg| - 1];
      FailsOnlyWithoutGateway(tables, vpc, gateways, init);
      assert forall k :: 0 <= k < |init| ==> init[k] == cfg[k];
    }
  }

  /** The stage never removes a table or a route: it adds at most one table
      per entry and only appends routes to the tables it finds. */
  lemma {:induction false} RouteTablesGrow(tables: seq<RouteTable>, vpc: string,
                                           gateways: seq<string>, cfg: seq<RouteTableConfig>)
    requires tables != []
    ensures |tables| <= |RunRouteTables(tables, vpc, gateways, cfg).tables| <= |tables| + |cfg|
    ensures forall j :: 0 <= j < |tables| ==>
              tables[j].routes <= RunRouteTables(tables, vpc, gateways, cfg).tables[j].routes
  {
    if cfg != [] {
      var init := cfg[..|cfg| - 1];
      var prev := RunRouteTables(tables, vpc, gateways, init);
      RouteTablesGrow(tables, vpc, gateways, init);
      if prev.failedAt.None? {
        var e := cfg[|cfg| - 1];
        var (t, i) := WithTable(prev.tables, LongName(vpc, e.name), e.main);
        assert |t| <= |prev.tables| + 1;
        assert forall j :: 0 <= j < |prev.tables| ==> prev.tables[j].routes <= t[j].routes;
      }
    }
  }

  /** A step for an entry that is not the main table leaves the table
      `get_route_table(name)` finds where it was and keeps its routes. */
  lemma {:induction false} EntryKeepsTable(tables: seq<RouteTable>, vpc: string, gateways: seq<string>,
                                           e: RouteTableConfig, name: string)
    requires tables != [] && FindTable(tables, name).Some?
    requires !e.main
    ensures FindTable(ApplyEntry(tables, vpc, gateways, e).tables, name) == FindTable(tables, name)
    ensures tables[FindTable(tables, name).value].routes <=
            ApplyEntry(tables, vpc, gateways, e).tables[FindTable(tables, name).value].routes
  {
    var r := ApplyEntry(tables, vpc, gateways, e);
    var (t, i) := WithTable(tables, LongName(vpc, e.name), e.main);
    var j := FindTable(tables, name).value;
    assert forall m :: 0 <= m < |tables| ==> r.tables[m].name == t[m].name == tables[m].name;
    FindTableAt(r.tables, name, j);
  }

  /** When only the first configured table may be the main one and the stage
      did not fail, every internet-gateway route an entry configures ends up,
      through the VPC's first gateway, in the table tagged with that entry's
      long name. */
  lemma {:induction false} GatewayRoutesLand(tables: seq<RouteTable>, vpc: string,
                                             gateways: seq<string>, cfg: seq<RouteTableConfig>, k: nat)
    requires tables != [] && k < |cfg|
    requires forall m :: 0 < m < |cfg| ==> !cfg[m].main
    requires RunRouteTables(tables, vpc, gateways, cfg).failedAt.None?
    ensures FindTable(RunRouteTables(tables, vpc, gateways, cfg).tables, LongName(vpc, cfg[k].name)).Some?
    ensures forall j :: 0 <= j < |cfg[k].routes| && IsGatewayTarget(cfg[k].routes[j].1) ==>
              gateways != [] &&
              Route(cfg[k].routes[j].0, gateways[0]) in
                RunRouteTables(tables, vpc, gateways, cfg).tables[
                  FindTable(RunRouteTables(tables, vpc, gateways, cfg).tables, LongName(vpc, cfg[k].name)).value].routes
  {
    var init := cfg[..|cfg| - 1];
    var prev := RunRouteTables(tables, vpc, gateways, init);
    var last := cfg[|cfg| - 1];
    var longname := LongName(vpc, cfg[k].name);
    assert prev.failedAt.None?;
    if gateways == [] {
      FailsOnlyWithoutGateway(tables, vpc, gateways, cfg);
      assert !HasGatewayTarget(cfg[k].routes);
    }
    if k == |cfg| - 1 {
      EntryRoutes(prev.tables, vpc, gateways, last);
    } else {
      GatewayRoutesLand(tables, vpc, gateways, init, k);
      assert init[k] == cfg[k];
      EntryKeepsTable(prev.tables, vpc, gateways, last, longname);
      if gateways != [] {
        var i := FindTable(prev.tables, longname).value;
        var after := ApplyEntry(prev.tables, vpc, gateways, last).tables;
        forall j | 0 <= j < |cfg[k].routes| && IsGatewayTarget(cfg[k].routes[j].1)
          ensures Route(cfg[k].routes[j].0, gateways[0]) in after[i].routes
        {
          InPrefix(Route(cfg[k].routes[j].0, gateways[0]), prev.tables[i].routes, after[i].routes);
        }
      }
    }
  }

  /** What a list holds, a list that extends it holds too. */
  lemma InPrefix(x: Route, a: seq<Route>, b: seq<Route>)
    requires x in a && a <= b
    ensures x in b
  {
    var n :| 0 <= n < |a| && a[n] == x;
    assert b[n] == x;
  }




  /** After an IndexError the stage has stopped: later entries change nothing. */
  lemma {:induction false} FailureSticks(tables: seq<RouteTable>, vpc: string, gateways: seq<string>,
                                         cfg: seq<RouteTableConfig>, k: nat)
    requires tables != [] && k <= |cfg|
    requires RunRouteTables(tables, vpc, gateways, cfg[..k]).failedAt.Some?
    ensures RunRouteTables(tables, vpc, gateways, cfg) == RunRouteTables(tables, vpc, gateways, cfg[..k])
    decreases |cfg| - k
  {
    if k < |cfg| {
      assert cfg[..|cfg| - 1][..k] == cfg[..k];
      FailureSticks(tables, vpc, gateways, cfg[..|cfg| - 1], k);
    } else {
      assert cfg[..k] == cfg;
    }
  }
}
