# botoform EnvironmentBuilder: decision logic, modelled in Dafny

botoform builds an AWS VPC environment from a configuration file.
`EnvironmentBuilder` (botoform/builders.py) runs the stages of that build in a fixed order.
This project models the decisions those stages make.

The provider (EC2) and botoform's VPC wrapper are replaced by plain values:
- what a lookup would answer becomes an input (a map, a set or a list);
- what a `create_*` or `update_tags` call would do becomes the change it makes to the state of a `Vpc` object, or a record in a result.

Modules:

- `Sequences`: Python's `sorted(..., key=...)` as a stable sort, and the `Distinct` predicate.
- `Naming`: the string operations the builder relies on.
  - `'{}-{}'.format(vpc, name)` long names.
  - `name.split('-')[-1]`.
  - `str.lstrip`/`str.strip`.
  - `int()` on a decimal string.
  - ASCII `lower()`.
  - The instance hostname.
- `LaunchPlanner`: `instance_role`, which decides how many instances of a role to launch into each of its subnets.
  - The planner is modelled as written.
  - A corrected planner sits beside it: it launches nothing once the role has its count, and subtracts the role's instances only once.
- `SubnetPlacement`: `subnets`.
  - The CIDR blocks from the allocator are bucketed by size, then popped.
  - Each subnet gets an availability zone, taken from its letter or its name.
- `Permissions`: `security_group_rules`, which builds the `IpPermissions` lists of `authorize_ingress`.
- `GetOrCreate`: the look-up-then-create loops of `security_groups` and `key_pairs`.
- `Routing`: `route_tables`.
  - Get or create a table per configured name.
  - Add the routes that target the internet gateway.
- `Tagging`: `tag_instances`, which sets the Name/role tags on instances and the Name tag on their volumes.
- `Environment`: the class `Vpc`. Its methods perform four stages in place: `security_groups`, `key_pairs`, `route_tables` and `tag_instances`. Each is proved against the value-level definition above.
  - `instance_role`, `subnets` and `security_group_rules` are not methods of `Vpc`. `LaunchPlanner.PlanRole`, `SubnetPlacement.CreateSubnets` and `Permissions.AuthorizeRules` return records of what those stages would create or authorize.

Python 2 semantics are kept where they matter:
- `/` on ints floors;
- `sorted` is stable;
- `list.pop()` takes the last element;
- a negative list index counts from the end;
- dictionaries are iterated in one fixed order, so a configuration dictionary is a sequence of entries.

The model follows the code as written, including two places where it defeats its own comments:
- The comment at line 306 ("for now we exit early") says a role that already has its instances is left alone. The code reaches that branch only to raise TypeError at line 307.
- The comment at line 310 says `needed_count` is the number of additional instances needed to reach `desired_count`. The loop then subtracts each subnet's own role instances from its share a second time (line 323), so the role falls short of `desired_count`.
- The per-subnet count is never clamped. Any non-zero count, negative ones included, is passed to `create_instances` as MinCount and MaxCount. The corrected planner avoids negative counts by subtracting the role's instances once, not by clamping.

## Model

| member | source | states |
|---|---|---|
| `LaunchPlanner.PlanRole` | botoform/builders.py:270-347 | The outcome depends on the inputs as follows. A KeyError when the AMI has no image in the region. No launch when the role lists no subnets. The TypeError of line 307 whenever existing >= desired. Otherwise the launches are the per-subnet plan over the subnets in visiting order. With no role instances in the listed subnets, they add up to desired - existing. |
| `LaunchPlanner.PlanBatches` | botoform/builders.py:311-330 | The loop over the sorted subnets builds exactly the per-subnet plan: the floor share, one more for each of the first `needed % n`, minus the subnet's own role instances, and no batch for a zero count. |
| `LaunchPlanner.NoneInSubnetsTotal` | botoform/builders.py:311-330 | With no role instance in any listed subnet, the plan launches exactly `needed_count`. |
| `LaunchPlanner.ShareSumClosed` | botoform/builders.py:312-326 | The first k subnets receive k floor shares, plus one for each of them among the first `needed % n`. |
| `LaunchPlanner.SharesAddUp` | botoform/builders.py:311-326 | The floor shares plus the handed-out remainder add up to exactly `needed_count`. |
| `LaunchPlanner.PlannedTotal` | botoform/builders.py:317-347 | The launched counts of the first k subnets equal their shares minus their own role instances. |
| `LaunchPlanner.LaunchTotal` | botoform/builders.py:311-347 | The whole plan launches `needed_count` minus the role's instances already in the listed subnets. |
| `LaunchPlanner.Planned` | botoform/builders.py:317-330 | No planned launch has count 0. Every launch uses the role's image. There are at most as many launches as subnets. |
| `LaunchPlanner.PlannedSubnets` | botoform/builders.py:317-345 | Every planned launch is its own subnet's, with that subnet's non-zero count, and the launches' subnets strictly increase in visiting order, so no subnet gets two launches. |
| `LaunchPlanner.PlannedKeepsNonZero` | botoform/builders.py:323-345 | Every subnet whose count is non-zero, negative ones included, gets a launch of exactly that count (MinCount = MaxCount). |
| `LaunchPlanner.PlannedBalanced` | botoform/builders.py:311-326 | With no role instances in the subnets, each launch is the floor share or one more. Exactly min(k, needed % n) launches get the one more. |
| `LaunchPlanner.PlannedWithinShare` | botoform/builders.py:311-326 | With no role instances in the subnets, each launch is the floor share or one more. |
| `LaunchPlanner.PlannedExtraCount` | botoform/builders.py:311-326 | With no role instances in the subnets, exactly min(k, needed % n) launches get the floor share plus one. |
| `LaunchPlanner.ExtraGoesToLeastLoaded` | botoform/builders.py:295-326 | If a subnet receives an extra instance from the remainder, so does every subnet holding fewer instances. |
| `LaunchPlanner.IntendedPlan` | botoform/builders.py:305-330 | The corrected planner never raises the TypeError of line 307. It launches only while existing < desired, and makes at most as many launches as there are subnets. |
| `LaunchPlanner.UncountedPlanTotal` | botoform/builders.py:311-326 | Without the second subtraction, the launches add up to exactly what is needed. |
| `LaunchPlanner.UncountedPlanPositive` | botoform/builders.py:311-330 | Without the second subtraction, every launch is positive. |
| `LaunchPlanner.PositiveWhenNoneInSubnets` | botoform/builders.py:311-330 | When no listed subnet holds a role instance, every launch is positive. |
| `LaunchPlanner.IntendedPlanReachesDesired` | botoform/builders.py:305-330 | The corrected planner launches nothing once existing >= desired. Otherwise it brings the role to exactly `desired`, with positive counts only. |
| `LaunchPlanner.IntendedPlanTotal` | botoform/builders.py:311-330 | When the corrected planner launches, existing plus the launched counts equals `desired`. |
| `LaunchPlanner.IntendedPlanPositive` | botoform/builders.py:311-330 | When the corrected planner launches, every count is positive. |
| `LaunchPlanner.DoubleCountStalls` | botoform/builders.py:311-330 | Two subnets each holding one role instance, desired 4: the plan as written launches nothing, so the role stays at 2. |
| `LaunchPlanner.NegativeCountRequested` | botoform/builders.py:311-345 | One subnet holding 3 role instances, desired 4: the plan as written requests a batch with MinCount = MaxCount = -2. |
| `Sequences.Insert` | botoform/builders.py:296-299 | Inserting into a sorted list keeps it sorted and adds exactly the new element. |
| `Sequences.LowerBoundKept` | botoform/builders.py:296-299 | Helper for Insert: a lower bound of every element stays in front after the insertion. |
| `Sequences.SortBy` | botoform/builders.py:296-299 | `sorted(key=...)` returns a permutation of its input in ascending key order. |
| `Sequences.InsertWithKey` | botoform/builders.py:296-299 | Insertion keeps the relative order of the elements that share a key. |
| `Sequences.SortByStable` | botoform/builders.py:296-299 | The sort is stable: the elements with any one key keep their input order. |
| `Naming.LastField` | botoform/builders.py:149 | `split('-')[-1]` holds no '-'. It is at most as long as the name, and it is preceded by a '-' when shorter. |
| `Naming.LastFieldIsSuffix` | botoform/builders.py:149 | The last field is a suffix of the name. |
| `Naming.LastFieldAfterDash` | botoform/builders.py:149 | The last field of `prefix + "-" + field` is `field` whenever `field` has no '-'. |
| `Naming.LStripSpec` | botoform/builders.py:361 | `lstrip(chars)` drops exactly the longest prefix made of `chars`. The result is a suffix that does not start with one of them. |
| `Naming.RStripSpec` | botoform/builders.py:149 | `rstrip(chars)` drops exactly the longest suffix made of `chars`. |
| `Naming.ParseDigits` | botoform/builders.py:149 | `int()` of a plain digit string is its decimal value. |
| `Naming.ParseInt` | botoform/builders.py:149 | `int()` accepts exactly the strings that, once surrounding whitespace is stripped, are one or more ASCII digits, or a sign, optional whitespace and one or more digits. Every other string raises ValueError. A negative result needs a '-' in the string. |
| `Naming.SpacedDigitsStrip` | botoform/builders.py:149 | "Optional whitespace, then digits" holds exactly when `lstrip` of the whitespace leaves a non-empty run of digits. |
| `Naming.ParseIntValue` | botoform/builders.py:149 | An accepted literal is worth its digits read in decimal, negated after a '-'. |
| `Naming.SpaceAfterSign` | botoform/builders.py:149 | `int()` skips whitespace between the sign and the digits, as well as around the number: `"+ 1"` is 1 and `" - 12 "` is -12. |
| `Naming.HostnameShape` | botoform/builders.py:361-362 | The hostname is `<vpc>-<role>-` followed by a tail of the instance id that starts with neither 'i' nor '-'. |
| `Naming.HostnameOfInstanceId` | botoform/builders.py:361-362 | The hostname of instance `i-<hex>` is `<vpc>-<role>-<hex>`. |
| `SubnetPlacement.RequestedSizes` | botoform/builders.py:134 | The requested sizes are the configured subnets' sizes, one each, in ascending order. |
| `SubnetPlacement.Place` | botoform/builders.py:143-152 | A placed subnet has the long name `<vpc>-<name>` and the configured public flag. Its CIDR is one the allocator returned. Its zone is the region plus the letter when a letter is given, and one of the region's zones otherwise. |
| `SubnetPlacement.BucketOffered` | botoform/builders.py:139-141 | Every CIDR in a bucket is one the allocator returned. |
| `SubnetPlacement.ZoneFor` | botoform/builders.py:145-150 | Without a zone letter, a successfully chosen zone is one of the region's zones. |
| `SubnetPlacement.FillBuckets` | botoform/builders.py:139-141 | A size has a bucket exactly when the allocator paired a CIDR with it. The bucket holds those CIDRs in allocator order. |
| `SubnetPlacement.CreateSubnets` | botoform/builders.py:132-166 | Subnets are created in configuration order, each with the zone chosen and the CIDR popped for it. The stage stops at the first KeyError, IndexError or ValueError, and names it. |
| `SubnetPlacement.StagedPlacements` | botoform/builders.py:143-166 | The stage's outcome read placement by placement: the k-th created subnet is the k-th placement, and a failure is the placement right after the created ones. |
| `SubnetPlacement.CreateInOrder` | botoform/builders.py:143-166 | The loop over the configured subnets creates what `Stage` gives for the placements of all of them, in order, stopping at the first failure. |
| `SubnetPlacement.CreateNext` | botoform/builders.py:144-166 | One iteration chooses the zone and pops the CIDR exactly as `Place` says. On success the remaining buckets are those after one more pop of that size. |
| `SubnetPlacement.PlacementsAt` | botoform/builders.py:143-152 | The k-th placement computed in turn is that of the k-th configured subnet. |
| `SubnetPlacement.StageSpec` | botoform/builders.py:143-166 | A stage creates the leading run of successful placements. Its failure, if any, is the first failed placement. |
| `SubnetPlacement.StageStops` | botoform/builders.py:143-166 | After the first failure, later placements change nothing. |
| `SubnetPlacement.PopOutcome` | botoform/builders.py:152 | One `pop()`: KeyError for a size without a bucket, IndexError for an emptied bucket, otherwise the bucket's last CIDR. It also gives the buckets that remain. |
| `SubnetPlacement.UsedStep` | botoform/builders.py:143-152 | Each created subnet consumes one CIDR of its own size. |
| `SubnetPlacement.BucketLength` | botoform/builders.py:139-141 | A bucket holds as many CIDRs as there were requests of its size. |
| `SubnetPlacement.BucketSlot` | botoform/builders.py:139-141 | Every CIDR in a bucket was allocated for a request of that bucket's size. |
| `SubnetPlacement.BucketDistinct` | botoform/builders.py:139-141 | Distinct CIDRs from the allocator give buckets without repeats. |
| `SubnetPlacement.UsedBelowTotal` | botoform/builders.py:134-152 | Fewer subnets of a size come before a subnet than there are subnets of that size in total. |
| `SubnetPlacement.UsedGrows` | botoform/builders.py:143-152 | A later subnet of the same size pops from a shorter bucket. |
| `SubnetPlacement.EveryRequestGetsACidr` | botoform/builders.py:134-152 | When the allocator returns a CIDR for every request, no subnet fails on a missing or empty bucket. Only the zone choice can fail. |
| `SubnetPlacement.CreatedCidrsDistinct` | botoform/builders.py:134-152 | Distinct CIDRs from the allocator give every created subnet its own CIDR. |
| `SubnetPlacement.CidrFromOwnSize` | botoform/builders.py:134-152 | Each created subnet's CIDR was allocated for a request of that subnet's own size. |
| `SubnetPlacement.ZoneFromNameSuffix` | botoform/builders.py:145-150 | With no zone letter, a name ending in `-<n>` gets zone n counting from 1. `-0` gives the last zone. n beyond the zones raises IndexError. |
| `SubnetPlacement.DigitsHaveNoDash` | botoform/builders.py:149 | A run of digits holds no '-'. |
| `SubnetPlacement.SuffixOneIsFirstZone` | botoform/builders.py:145-150 | A name ending `-1` with no zone letter gets the first zone. |
| `SubnetPlacement.ZoneSuffixRejected` | botoform/builders.py:148-149 | With no zone letter, a name whose last field is not an integer literal raises ValueError. |
| `SubnetPlacement.PlainNameRejected` | botoform/builders.py:148-149 | With no zone letter, the name `web` raises ValueError. |
| `SubnetPlacement.LetterSuffixRejected` | botoform/builders.py:148-149 | With no zone letter, the name `db-a` raises ValueError. |
| `Permissions.GroupPermissions` | botoform/builders.py:208-225 | There is one permission per rule, in rule order, each with the rule's protocol and port range. Its peer is the group id when the source names a known group, and `CidrIp = source` otherwise. |
| `Permissions.PermissionsKeepRules` | botoform/builders.py:208-225 | When the groups have distinct ids, each rule's source, protocol and ports can be read back from its permission. |
| `Permissions.AuthorizeRules` | botoform/builders.py:206-232 | There is one `authorize_ingress` per configured group, in order, carrying that group's permissions. The stage stops with AttributeError at the first group the lookup does not find, and only there. |
| `GetOrCreate.Created` | botoform/builders.py:188-201 | A get-or-create loop creates at most one resource per configured name. Every name it creates is configured and did not exist. |
| `GetOrCreate.CreatedFresh` | botoform/builders.py:188-201 | A get-or-create loop creates each missing configured name exactly once. Afterwards every configured name exists. |
| `GetOrCreate.CreatedOnce` | botoform/builders.py:188-201 | No name is created twice. |
| `GetOrCreate.CreatedCovers` | botoform/builders.py:188-201 | Afterwards the existing names are exactly the old ones plus the configured ones. |
| `GetOrCreate.CreatedIdempotent` | botoform/builders.py:188-201 | Running the loop a second time creates nothing. |
| `GetOrCreate.CreatedSubset` | botoform/builders.py:235-239 | When every configured name already exists, nothing is created. |
| `Routing.FindTable` | botoform/builders.py:109 | `get_route_table` returns the first table with the Name tag, or None exactly when no table has it. |
| `Routing.IsGatewayTarget` | botoform/builders.py:125 | A target counts as the internet gateway exactly when it spells `internet_gateway` with each letter in either case. |
| `Routing.GatewayRoutes` | botoform/builders.py:122-130 | All added routes go through the same gateway, at most one per pair. There are none exactly when no pair targets the internet gateway. |
| `Routing.GatewayRoutesSound` | botoform/builders.py:122-130 | Every added route comes from a pair that targets the internet gateway. |
| `Routing.GatewayRoutesComplete` | botoform/builders.py:122-130 | Every pair that targets the internet gateway adds its route. |
| `Routing.GatewayRoutesAppend` | botoform/builders.py:122-130 | Pairs are handled one at a time, in configured order: the routes for `a + b` are those for `a` followed by those for `b`. A single pair adds its one route when it targets the internet gateway, and nothing otherwise. |
| `Routing.WithTable` | botoform/builders.py:108-117 | The table used carries the long name afterwards, and no routes are lost. A table found by name is used unchanged, and it is the first table with that name. Otherwise a main entry retags the main table (index 0) and leaves every other name alone. A non-main entry appends a new table with no routes and uses it. |
| `Routing.ApplyEntry` | botoform/builders.py:107-130 | One route-table entry adds at most one table and removes no route from an existing table. Where its routes go is stated by `Routing.EntryRoutes`. |
| `Routing.EntryRoutes` | botoform/builders.py:107-130 | After one entry, `get_route_table` finds the table the entry used. When the VPC has an internet gateway, the entry does not fail, and every pair that targets the gateway has its route, through the first gateway, in that table. |
| `Routing.RunRouteTables` | botoform/builders.py:105-130 | The stage never leaves the VPC without a table. Growth, failure and the configured names are stated by `Routing.RouteTablesGrow`, `Routing.FailsOnlyWithoutGateway`, `Routing.FailureSticks` and `Routing.GatewayRoutesLand`. |
| `Routing.FailsOnlyWithoutGateway` | botoform/builders.py:122-130 | The stage raises IndexError exactly when the VPC has no internet gateway and some route targets one. |
| `Routing.RouteTablesGrow` | botoform/builders.py:105-130 | The stage adds at most one table per entry. It only appends routes and never removes a table or a route. |
| `Routing.FindTableAt` | botoform/builders.py:109 | A table with the Name tag and none before it is the one `get_route_table` returns. |
| `Routing.EntryKeepsTable` | botoform/builders.py:108-130 | After an entry that is not main, `get_route_table` still finds the same table for every name it found before, and that table keeps its routes. |
| `Routing.GatewayRoutesLand` | botoform/builders.py:105-130 | Suppose only the first entry may be main and the stage does not fail. Then every configured long name has a table. Every pair of an entry that targets the internet gateway has its route, through the VPC's first gateway, in the table tagged with that entry's long name. |
| `Routing.FailureSticks` | botoform/builders.py:122-130 | After the IndexError, no later entry changes anything. |
| `Tagging.UpdateTags` | botoform/builders.py:364 | `update_tags` sets the given keys on one resource, keeps that resource's other tags, and leaves every other resource alone. |
| `Tagging.TagVolumesKeys` | botoform/builders.py:366-368 | The volume loop adds exactly the volumes to the tagged resources. |
| `Tagging.TagVolumesKeep` | botoform/builders.py:366-368 | The volume loop leaves the tags of every other resource unchanged. |
| `Tagging.TagVolumesNamed` | botoform/builders.py:366-368 | After the volume loop, every volume has Name = hostname. |
| `Tagging.TagInstanceEffect` | botoform/builders.py:360-368 | One instance gets Name = hostname and role = role, and its volumes get Name = hostname. Other resources are untouched. |
| `Tagging.TagInstanceKeys` | botoform/builders.py:360-368 | Tagging one instance adds exactly the instance and its volumes to the tagged resources. |
| `Tagging.TagInstanceKeeps` | botoform/builders.py:360-368 | Tagging one instance leaves the tags of every resource other than it and its volumes unchanged. |
| `Tagging.TagAll` | botoform/builders.py:352-368 | Exactly the instances and their volumes gain tags. Every other resource keeps exactly the tags it had. |
| `Tagging.ResourcesMembers` | botoform/builders.py:352-368 | The resources tagged are exactly the instances and the volumes of each instance. |
| `Tagging.EveryInstanceTagged` | botoform/builders.py:352-368 | When instances and volumes are distinct resources, every instance ends up with its own hostname and the role. |
| `Tagging.EveryVolumeTagged` | botoform/builders.py:352-368 | Under the same condition, every volume ends up named with its instance's hostname. |
| `Environment.Vpc.SecurityGroups` | botoform/builders.py:188-201 | Creates the missing `<vpc>-<name>` groups in configuration order, each once. Afterwards every configured group exists. Nothing else changes. |
| `Environment.Vpc.KeyPairs` | botoform/builders.py:235-239 | Appends 'default' to the caller's list in place, then creates each listed key pair that is missing. Afterwards every listed key pair exists. |
| `Environment.Vpc.AddGatewayRoutes` | botoform/builders.py:122-130 | Appends the table's internet-gateway routes through the first gateway. With no gateway it raises IndexError exactly when a route targets one, and changes nothing. |
| `Environment.Vpc.GetRouteTable` | botoform/builders.py:108-117 | The get-or-create step changes the route tables exactly as `Routing.WithTable` says and uses the table it names. |
| `Environment.Vpc.RouteTables` | botoform/builders.py:105-130 | The new route tables and the failure point are those of `Routing.RunRouteTables`. |
| `Environment.Vpc.NameVolumes` | botoform/builders.py:366-368 | The volume loop changes the tags exactly as `Tagging.TagVolumes` says, and nothing else. |
| `Environment.Vpc.TagInstances` | botoform/builders.py:352-368 | The new tags are those of `Tagging.TagAll`. |

## Left out

- The provider calls themselves are not modelled. They are foreign calls. Each is represented by the state change it causes or by a returned record:
  - `create_vpc`, `create_subnet`, `create_route_table`, `create_route`, `create_security_group`, `create_key_pair`, `create_instances`, `authorize_ingress`, `update_tags`;
  - `modify_attribute`, `map_public_ip_on_launch`, EIP allocation.
- `EnrichedVPC` is not part of this model. Its lookups are inputs:
  - `get_role` counts;
  - `get_subnet`;
  - `collection_len` of each subnet;
  - `get_security_group`, as a map from configured name to group id;
  - `azones` and `internet_gateways`.
- `Environment.Vpc.SecurityGroups`: the lookup by configured name is assumed to find the group created under its long name. `security_group_rules` relies on that right after this stage, and `get_security_group` is not part of this model.
- `allocate`, `get_port_range` and `make_tag_dict` are not part of this model.
  - The allocator's CIDR list is an input.
  - `get_port_range` is a function parameter.
  - A subnet's name is carried with it.
- `uuid4` client tokens (line 319) are left out. They are random and only give the provider idempotency.
- These are left out because they are logging, blocking waits or the fixed order of stages:
  - `apply_all` and `_apply_all`;
  - the `Log` calls;
  - `wait_until_running` and locking.
- `build_vpc`, `internet_gateway`, `endpoints` and `associate_route_tables_with_subnets` are provider plumbing. They are left out.
- `instance_roles` and EIP roles are left out: they are orchestration. `instance_roles` would pass the None returned by `instance_role`'s early exits to `tag_instances`. `LaunchPlanner.PlanRole` reports those exits as outcomes.
- `LaunchPlanner.PlanRole` does not model the `key_pair.name` AttributeError (line 342) when the key pair is missing. The key pair is not an input.
- `LaunchPlanner.PlanRole` assumes every name in the role's `subnets` list resolves to a subnet. `map(get_subnet, ...)` could yield None, which the code does not handle.
- `Naming.ParseDigits` covers decimal digit strings only. `Naming.ParseInt` adds what Python 2 `int()` accepts around them: whitespace around the number, one sign, and whitespace between the sign and the digits. Non-ASCII digits and `long` overflow are not modelled.
- `Naming.Lower` lowercases ASCII letters only, as Python 2 `str.lower()` does on byte strings.
- `Routing.RunRouteTables` appends a route even when the table already holds one for the same destination. The provider's RouteAlreadyExists error on a rerun is not modelled.
- `Routing.GatewayRoutesLand` assumes that only the first entry may be main. A later main entry retags the main table, which may drop a Name tag an earlier entry relied on.
- `Tagging.EveryInstanceTagged` assumes the instances and volumes are distinct resources, as the provider guarantees.
- `Tagging.EveryVolumeTagged` makes the same assumption.

## Findings

| source | as written | input that shows it | evidently intended | confidence | as-written member | corrected member |
|---|---|---|---|---|---|---|
| botoform/builders.py:305-308 | When the role already has its count, the log line adds an int to a str and raises TypeError before `return None`. | existing_count = 3, desired_count = 2, any subnets | Log the counts and launch nothing. | high, not executed | `LaunchPlanner.PlanRole` | `LaunchPlanner.IntendedPlanReachesDesired` |
| botoform/builders.py:311-330 | The role's existing instances are subtracted twice: once in `needed_count` (all of the VPC) and again per subnet (`existing_in_subnet`). The role launches too few instances and may request a negative count. | desired 4, two subnets each holding 1 role instance: nothing is launched, on every rerun. desired 4, one subnet holding 3: a batch with MinCount = MaxCount = -2 is requested. | Split `desired - existing` over the subnets, so the role reaches exactly `desired` with positive counts. | medium, not executed | `LaunchPlanner.DoubleCountStalls` | `LaunchPlanner.IntendedPlanReachesDesired` |
