/** `EnvironmentBuilder.instance_role` (botoform/builders.py): how many
    instances of one role the builder launches into each subnet the role
    lists. The cloud is replaced by its answers: the subnets come with their
    total instance count and their count of this role's instances, and the
    role's count across the whole VPC is a parameter. Each planned launch
    stands for one `create_instances` call with MinCount = MaxCount = count. */
module LaunchPlanner {
  import opened Wrappers
  import opened Sequences

  /** A subnet the role lists: its Name tag, `collection_len(sn.instances)`
      and the number of this role's instances already in it. */
  datatype Subnet = Subnet(name: string, instances: nat, roleInstances: nat)

  /** One `create_instances` call into `subnet`. */
  datatype Launch = Launch(subnet: string, image: string, count: int)

  datatype PlanOutcome =
    | UnknownImage          // `self.amis[ami][region]` raised KeyError
    | NoSubnets             // the role lists no subnets: warning, returns None
    | ScaleDownTypeError    // `existing_count + ' ' + desired_count` raised TypeError
    | Satisfied             // nothing to launch (the corrected planner only)
    | Launches(batches: seq<Launch>)

  /** `self.amis[role_data['ami']][region_name]`. */
  function ImageFor(amis: map<string, map<string, string>>, ami: string, region: string): Option<string>
  {
    if ami in amis && region in amis[ami] then Some(amis[ami][region]) else None
  }

  /** The sort key: the subnet's total instance count. */
  function Load(s: Subnet): int
  {
    s.instances
  }

  /** The order the builder visits subnets in: ascending load, ties in the
      role's configured order. */
  function VisitOrder(subnets: seq<Subnet>): seq<Subnet>
  {
    SortBy(subnets, Load)
  }

  /** The share of `needed` that the `i`-th visited of `n` subnets receives
      before its own instances are subtracted: the floor share, plus one for
      the first `needed % n` subnets. */
  function Share(needed: nat, n: nat, i: nat): int
    requires n > 0
  {
    needed / n + if i < needed % n then 1 else 0
  }

  /** The count computed for the `i`-th visited subnet (line 323-326). */
  function CountFor(order: seq<Subnet>, needed: nat, i: nat): int
    requires i < |order|
  {
    Share(needed, |order|, i) - order[i].roleInstances
  }

  /** The launches planned for the first `k` visited subnets: a subnet whose
      count is exactly zero is skipped, every other count is launched as is.
      So no launch has count 0, all carry the role's image, and there is at
      most one per subnet. */
  function Planned(order: seq<Subnet>, image: string, needed: nat, k: nat): (r: seq<Launch>)
    requires k <= |order|
    ensures |r| <= k
    ensures forall b :: b in r ==> b.count != 0 && b.image == image
  {
    if k == 0 then []
    else
      var c := CountFor(order, needed, k - 1);
      Planned(order, image, needed, k - 1)
        + (if c == 0 then [] else [Launch(order[k - 1].name, image, c)])
  }

  /** The number of instances a plan launches. */
  function Total(bs: seq<Launch>): int
  {
    if bs == [] then 0 else Total(bs[..|bs| - 1]) + bs[|bs| - 1].count
  }

  /** The role's instances already in the first `k` visited subnets. */
  function RoleSum(order: seq<Subnet>, k: nat): nat
    requires k <= |order|
  {
    if k == 0 then 0 else RoleSum(order, k - 1) + order[k - 1].roleInstances
  }

  /** The sum of the first `k` shares. */
  function ShareSum(needed: nat, n: nat, k: nat): int
    requires n > 0
  {
    if k == 0 then 0 else ShareSum(needed, n, k - 1) + Share(needed, n, k - 1)
  }

  /** `instance_role` from the AMI lookup to the last `create_instances`. */
  method PlanRole(amis: map<string, map<string, string>>, region: string, ami: string,
                  desired: int, existing: nat, subnets: seq<Subnet>)
    returns (r: PlanOutcome)
    ensures ImageFor(amis, ami, region).None? <==> r == UnknownImage
    ensures ImageFor(amis, ami, region).Some? && subnets == [] ==> r == NoSubnets
    ensures ImageFor(amis, ami, region).Some? && subnets != [] && existing >= desired ==>
              r == ScaleDownTypeError
    ensures ImageFor(amis, ami, region).Some? && subnets != [] && existing < desired ==>
              r == Launches(Planned(VisitOrder(subnets), ImageFor(amis, ami, region).value,
                                    desired - existing, |subnets|))
    ensures r.Launches? && (forall s :: s in subnets ==> s.roleInstances == 0) ==>
              Total(r.batches) == desired - existing
  {
    var image := ImageFor(amis, ami, region);
    if image.None? {
      return UnknownImage;
    }
    if |subnets| == 0 {
      return NoSubnets;
    }
    if existing >= desired {
      return ScaleDownTypeError;
    }
    var batches := PlanBatches(VisitOrder(subnets), image.value, desired - existing);
    r := Launches(batches);
    NoneInSubnetsTotal(subnets, image.value, desired - existing);
  }

  /** The loop of lines 317-347 over the subnets in visiting order: each
      subnet's floor share, plus one while `needed_remainder` lasts, minus its
      own role instances; a count of 0 is skipped. */
  method PlanBatches(order: seq<Subnet>, image: string, needed: nat) returns (batches: seq<Launch>)
    requires |order| > 0
    ensures batches == Planned(order, image, needed, |order|)
  {
    var n := |order|;
    var perSubnet := needed / n;
    var remainder := needed % n;
    batches := [];
    for i := 0 to n
      invariant remainder == if i < needed % n then needed % n - i else 0
      invariant batches == Planned(order, image, needed, i)
    {
      var count := perSubnet - order[i].roleInstances;
      if remainder != 0 {
        remainder := remainder - 1;
        count := count + 1;
      }
      if count != 0 {
        batches := batches + [Launch(order[i].name, image, count)];
      }
    }
  }

  /** With none of the role's instances in its subnets, the plan launches
      exactly what is needed. */
  lemma {:induction false} NoneInSubnetsTotal(subnets: seq<Subnet>, image: string, needed: nat)
    requires subnets != []
    ensures (forall s :: s in subnets ==> s.roleInstances == 0) ==>
              Total(Planned(VisitOrder(subnets), image, needed, |subnets|)) == needed
  {
    var order := VisitOrder(subnets);
    if forall s :: s in subnets ==> s.roleInstances == 0 {
      forall i | 0 <= i < |order| ensures order[i].roleInstances == 0 {
        assert order[i] in multiset(subnets);
      }
      LaunchTotal(order, image, needed);
      RoleSumZero(order, |order|);
    }
  }

  lemma {:induction false} ShareSumClosed(needed: nat, n: nat, k: nat)
    requires 0 < n && k <= n
    ensures ShareSum(needed, n, k) == k * (needed / n) + if k < needed % n then k else needed % n
  {
    if k > 0 {
      ShareSumClosed(needed, n, k - 1);
    }
  }

  /** The shares of all `n` subnets add up to `needed`. */
  lemma {:induction false} SharesAddUp(needed: nat, n: nat)
    requires 0 < n
    ensures ShareSum(needed, n, n) == needed
  {
    ShareSumClosed(needed, n, n);
  }

  lemma {:induction false} PlannedTotal(order: seq<Subnet>, image: string, needed: nat, k: nat)
    requires 0 < |order| && k <= |order|
    ensures Total(Planned(order, image, needed, k))
            == ShareSum(needed, |order|, k) - RoleSum(order, k)
  {
    if k > 0 {
      PlannedTotal(order, image, needed, k - 1);
      var prev := Planned(order, image, needed, k - 1);
      var c := CountFor(order, needed, k - 1);
      if c != 0 {
        assert (prev + [Launch(order[k - 1].name, image, c)])[..|prev|] == prev;
      } else {
        assert prev + [] == prev;
      }
    }
  }

  /** The planned counts add up to what is still needed less the role's
      instances already in the listed subnets: these are subtracted twice,
      once in `existing_count` and once per subnet. */
  lemma {:induction false} LaunchTotal(order: seq<Subnet>, image: string, needed: nat)
    requires 0 < |order|
    ensures Total(Planned(order, image, needed, |order|)) == needed - RoleSum(order, |order|)
  {
    PlannedTotal(order, image, needed, |order|);
    SharesAddUp(needed, |order|);
  }

  lemma {:induction false} RoleSumZero(order: seq<Subnet>, k: nat)
    requires k <= |order|
    requires forall i :: 0 <= i < |order| ==> order[i].roleInstances == 0
    ensures RoleSum(order, k) == 0
  {
    if k > 0 {
      RoleSumZero(order, k - 1);
    }
  }

  /** Every non-zero count, negative ones included, is launched unchanged
      into its own subnet. */
  lemma {:induction false} PlannedKeepsNonZero(order: seq<Subnet>, image: string, needed: nat, k: nat, i: nat)
    requires i < k <= |order|
    requires CountFor(order, needed, i) != 0
    ensures Launch(order[i].name, image, CountFor(order, needed, i)) in Planned(order, image, needed, k)
  {
    var prev := Planned(order, image, needed, k - 1);
    var c := CountFor(order, needed, k - 1);
    var added: seq<Launch> := if c == 0 then [] else [Launch(order[k - 1].name, image, c)];
    assert Planned(order, image, needed, k) == prev + added;
    if i < k - 1 {
      PlannedKeepsNonZero(order, image, needed, k - 1, i);
      assert Launch(order[i].name, image, CountFor(order, needed, i)) in prev;
    } else {
      assert added == [Launch(order[i].name, image, CountFor(order, needed, i))];
    }
  }


  /** The converse: every planned launch is that of its own visited subnet,
      with that subnet's non-zero count, and the subnets of the launches are
      strictly increasing in visiting order, so no subnet gets two launches. */
  lemma {:induction false} PlannedSubnets(order: seq<Subnet>, image: string, needed: nat, k: nat)
    returns (idx: seq<nat>)
    requires k <= |order|
    ensures |idx| == |Planned(order, image, needed, k)|
    ensures forall j :: 0 <= j < |idx| ==>
              idx[j] < k && CountFor(order, needed, idx[j]) != 0 &&
              Planned(order, image, needed, k)[j] == Launch(order[idx[j]].name, image, CountFor(order, needed, idx[j]))
    ensures forall a, b :: 0 <= a < b < |idx| ==> idx[a] < idx[b]
  {
    if k == 0 {
      idx := [];
    } else {
      var prev := PlannedSubnets(order, image, needed, k - 1);
      var before := Planned(order, image, needed, k - 1);
      var c := CountFor(order, needed, k - 1);
      if c == 0 {
        assert Planned(order, image, needed, k) == before + [];
        assert before + [] == before;
        idx := prev;
      } else {
        var p := Planned(order, image, needed, k);
        assert p == before + [Launch(order[k - 1].name, image, c)];
        idx := prev + [k - 1];
        forall j | 0 <= j < |idx|
          ensures idx[j] < k && CountFor(order, needed, idx[j]) != 0 &&
                  p[j] == Launch(order[idx[j]].name, image, CountFor(order, needed, idx[j]))
        {
          if j < |prev| {
            assert idx[j] == prev[j] && p[j] == before[j];
          }
        }
        forall a, b | 0 <= a < b < |idx| ensures idx[a] < idx[b] {
          assert idx[a] == prev[a] < k - 1;
        }
      }
    }
  }

  /** The number of planned launches of exactly `c` instances. */
  function CountOf(bs: seq<Launch>, c: int): nat
  {
    if bs == [] then 0
    else CountOf(bs[..|bs| - 1], c) + if bs[|bs| - 1].count == c then 1 else 0
  }

  /** With none of the role's instances in the listed subnets, every launch
      is the floor share or one more, and exactly `needed % n` launches get
      the one more. */
  lemma {:induction false} PlannedBalanced(order: seq<Subnet>, image: string, needed: nat, k: nat)
    requires 0 < |order| && k <= |order|
    requires forall i :: 0 <= i < |order| ==> order[i].roleInstances == 0
    ensures forall b :: b in Planned(order, image, needed, k)
              ==> needed / |order| <= b.count <= needed / |order| + 1
    ensures CountOf(Planned(order, image, needed, k), needed / |order| + 1)
            == if k < needed % |order| then k else needed % |order|
  {
    PlannedWithinShare(order, image, needed, k);
    PlannedExtraCount(order, image, needed, k);
  }

  lemma {:induction false} PlannedWithinShare(order: seq<Subnet>, image: string, needed: nat, k: nat)
    requires 0 < |order| && k <= |order|
    requires forall i :: 0 <= i < |order| ==> order[i].roleInstances == 0
    ensures forall b :: b in Planned(order, image, needed, k)
              ==> needed / |order| <= b.count <= needed / |order| + 1
  {
    if k > 0 {
      PlannedWithinShare(order, image, needed, k - 1);
      var c := CountFor(order, needed, k - 1);
      assert needed / |order| <= c <= needed / |order| + 1;
      assert Planned(order, image, needed, k)
             == Planned(order, image, needed, k - 1) + if c == 0 then [] else [Launch(order[k - 1].name, image, c)];
    }
  }

  lemma {:induction false} PlannedExtraCount(order: seq<Subnet>, image: string, needed: nat, k: nat)
    requires 0 < |order| && k <= |order|
    requires forall i :: 0 <= i < |order| ==> order[i].roleInstances == 0
    ensures CountOf(Planned(order, image, needed, k), needed / |order| + 1)
            == if k < needed % |order| then k else needed % |order|
  {
    if k > 0 {
      PlannedExtraCount(order, image, needed, k - 1);
      var q, m := needed / |order|, needed % |order|;
      var prev := Planned(order, image, needed, k - 1);
      var c := CountFor(order, needed, k - 1);
      var before := CountOf(prev, q + 1);
      var now := CountOf(Planned(order, image, needed, k), q + 1);
      if c != 0 {
        var next := prev + [Launch(order[k - 1].name, image, c)];
        assert Planned(order, image, needed, k) == next;
        assert next[..|prev|] == prev;
        assert now == before + if c == q + 1 then 1 else 0;
      } else {
        assert Planned(order, image, needed, k) == prev + [];
        assert prev + [] == prev;
        assert now == before;
      }
      if k - 1 < m {
        assert c == q + 1;
      } else {
        assert c == q;
      }
    }
  }

  /** The extra instance of the remainder never skips a less loaded subnet:
      if a subnet gets one more than the floor share, so does every subnet
      holding fewer instances. */
  lemma {:induction false} ExtraGoesToLeastLoaded(subnets: seq<Subnet>, needed: nat, i: nat, j: nat)
    requires i < |subnets| && j < |subnets|
    requires Load(VisitOrder(subnets)[i]) < Load(VisitOrder(subnets)[j])
    requires Share(needed, |subnets|, j) > needed / |subnets|
    ensures Share(needed, |subnets|, i) > needed / |subnets|
  {
    var order := VisitOrder(subnets);
    assert SortedBy(order, Load);
  }

  // A corrected planner: the per-subnet shares of what is still needed,
  // without subtracting the role's instances a second time, and no launch at
  // all once the role has its count, as the comment at line 306 of
  // botoform/builders.py ("for now we exit early") says.

  /** The subnets with their role instances not subtracted again. */
  function Uncounted(order: seq<Subnet>): (r: seq<Subnet>)
    ensures |r| == |order|
    ensures forall i :: 0 <= i < |r| ==> r[i].name == order[i].name && r[i].roleInstances == 0
  {
    seq(|order|, i requires 0 <= i < |order| => order[i].(roleInstances := 0))
  }

  /** The corrected `instance_role`: it never raises the TypeError, and it
      launches only while the role is short of `desired`, at most once per
      subnet. */
  function IntendedPlan(amis: map<string, map<string, string>>, region: string, ami: string,
                        desired: int, existing: nat, subnets: seq<Subnet>): (r: PlanOutcome)
    ensures r != ScaleDownTypeError
    ensures r.Launches? ==> existing < desired && |r.batches| <= |subnets|
  {
    var image := ImageFor(amis, ami, region);
    if image.None? then UnknownImage
    else if subnets == [] then NoSubnets
    else if existing >= desired then Satisfied
    else Launches(Planned(Uncounted(VisitOrder(subnets)), image.value, desired - existing, |subnets|))
  }

  /** Without the second subtraction the shares launch exactly what is
      needed. */
  lemma {:induction false} UncountedPlanTotal(order: seq<Subnet>, image: string, needed: nat)
    requires 0 < |order|
    ensures Total(Planned(Uncounted(order), image, needed, |order|)) == needed
  {
    var u := Uncounted(order);
    LaunchTotal(u, image, needed);
    RoleSumZero(u, |u|);
  }

  /** Without the second subtraction every launch is positive. */
  lemma {:induction false} UncountedPlanPositive(order: seq<Subnet>, image: string, needed: nat)
    requires 0 < |order|
    ensures forall b :: b in Planned(Uncounted(order), image, needed, |order|) ==> b.count > 0
  {
    PositiveWhenNoneInSubnets(Uncounted(order), image, needed, |order|);
  }

  lemma {:induction false} PositiveWhenNoneInSubnets(order: seq<Subnet>, image: string, needed: nat, k: nat)
    requires 0 < |order| && k <= |order|
    requires forall i :: 0 <= i < |order| ==> order[i].roleInstances == 0
    ensures forall b :: b in Planned(order, image, needed, k) ==> b.count > 0
  {
    if k > 0 {
      PositiveWhenNoneInSubnets(order, image, needed, k - 1);
      var c := CountFor(order, needed, k - 1);
      assert c == Share(needed, |order|, k - 1) >= 0;
      assert Planned(order, image, needed, k)
             == Planned(order, image, needed, k - 1) + if c == 0 then [] else [Launch(order[k - 1].name, image, c)];
    }
  }



  /** The intended planner brings the role to exactly its desired count with
      positive launches only, and launches nothing once the count is met. */
  lemma {:induction false} IntendedPlanReachesDesired(amis: map<string, map<string, string>>, region: string, ami: string,
                                   desired: int, existing: nat, subnets: seq<Subnet>)
    ensures var r := IntendedPlan(amis, region, ami, desired, existing, subnets);
            && (ImageFor(amis, ami, region).Some? && subnets != [] && existing >= desired ==> r == Satisfied)
            && (r.Launches? ==> existing + Total(r.batches) == desired)
            && (r.Launches? ==> forall b :: b in r.batches ==> b.count > 0)
  {
    IntendedPlanTotal(amis, region, ami, desired, existing, subnets);
    IntendedPlanPositive(amis, region, ami, desired, existing, subnets);
  }

  /** When the intended planner launches, it launches exactly what is still
      needed. */
  lemma {:induction false} IntendedPlanTotal(amis: map<string, map<string, string>>, region: string, ami: string,
                                             desired: int, existing: nat, subnets: seq<Subnet>)
    ensures var r := IntendedPlan(amis, region, ami, desired, existing, subnets);
            r.Launches? ==> existing + Total(r.batches) == desired
  {
    var image := ImageFor(amis, ami, region);
    if image.Some? && subnets != [] && existing < desired {
      var order := VisitOrder(subnets);
      assert |order| == |subnets|;
      UncountedPlanTotal(order, image.value, desired - existing);
    }
  }

  /** When the intended planner launches, every launch is positive. */
  lemma {:induction false} IntendedPlanPositive(amis: map<string, map<string, string>>, region: string, ami: string,
                                                desired: int, existing: nat, subnets: seq<Subnet>)
    ensures var r := IntendedPlan(amis, region, ami, desired, existing, subnets);
            r.Launches? ==> forall b :: b in r.batches ==> b.count > 0
  {
    var image := ImageFor(amis, ami, region);
    if image.Some? && subnets != [] && existing < desired {
      var order := VisitOrder(subnets);
      assert |order| == |subnets|;
      UncountedPlanPositive(order, image.value, desired - existing);
    }
  }

  // Two inputs on which the planner as written misses the desired count.

  /** A role wanting 4 instances with one already in each of its two subnets
      (2 in the VPC) gets no launch at all, and stays at 2 on every rerun. */
  lemma {:induction false} DoubleCountStalls()
    ensures var subnets := [Subnet("a", 1, 1), Subnet("b", 1, 1)];
            Planned(VisitOrder(subnets), "ami-1", 4 - 2, |subnets|) == []
  {
    var subnets := [Subnet("a", 1, 1), Subnet("b", 1, 1)];
    assert VisitOrder(subnets) == subnets;
  }

  /** A role wanting 4 instances with 3 already in its one subnet gets a
      launch with MinCount = MaxCount = -2. */
  lemma {:induction false} NegativeCountRequested()
    ensures var subnets := [Subnet("a", 3, 3)];
            Planned(VisitOrder(subnets), "ami-1", 4 - 3, |subnets|) == [Launch("a", "ami-1", -2)]
  {
    var subnets := [Subnet("a", 3, 3)];
    assert VisitOrder(subnets) == subnets;
  }
}
