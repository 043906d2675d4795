/** `EnvironmentBuilder.subnets` (botoform/builders.py): which CIDR block and
    which availability zone each configured subnet is created with. The
    allocator's answer for the sorted sizes is an input, and so are the
    region's availability zones; `create_subnet` and the tagging calls
    become the records of the subnets created. */
module SubnetPlacement {
  import opened Wrappers
  import opened Sequences
  import opened Naming

  type Cidr = string

  /** One entry of the `subnets` configuration, in dictionary order. */
  datatype SubnetConfig = SubnetConfig(
    name: string,
    size: int,
    zoneLetter: Option<string>,
    description: Option<string>,
    public: bool)

  /** What `create_subnet`, `update_tags` and `map_public_ip_on_launch` are
      given for one subnet. */
  datatype CreatedSubnet = CreatedSubnet(
    longname: string,
    cidr: Cidr,
    zone: string,
    description: string,
    mapPublicIp: bool)

  datatype PlacementError =
    | ZoneSuffixNotInteger(name: string)  // int() raised ValueError
    | ZoneIndexOutOfRange(index: int)     // azones[index] raised IndexError
    | NoBucketForSize(size: int)          // subnets[size] raised KeyError
    | BucketExhausted(size: int)          // pop() from an empty list raised IndexError

  /** The subnets created before the stage stopped, and why it stopped. */
  datatype SubnetsOutcome = SubnetsOutcome(created: seq<CreatedSubnet>, failure: Option<PlacementError>)

  function Sizes(cfg: seq<SubnetConfig>): (r: seq<int>)
    ensures |r| == |cfg|
    ensures forall i :: 0 <= i < |cfg| ==> r[i] == cfg[i].size
  {
    seq(|cfg|, i requires 0 <= i < |cfg| => cfg[i].size)
  }

  function Identity(x: int): int
  {
    x
  }

  /** `sorted([x['size'] for x in subnet_cfg.values()])`: what the allocator
      is asked for. */
  function RequestedSizes(cfg: seq<SubnetConfig>): (r: seq<int>)
    ensures |r| == |cfg|
    ensures SortedBy(r, Identity)
    ensures multiset(r) == multiset(Sizes(cfg))
  {
    SortBy(Sizes(cfg), Identity)
  }

  /** How many (size, cidr) pairs `zip` forms. */
  function Paired(sizes: seq<int>, cidrs: seq<Cidr>): nat
  {
    if |sizes| <= |cidrs| then |sizes| else |cidrs|
  }

  /** The list `subnets[size]` after the first `k` pairs went through
      `setdefault(size, []).append(cidr)`: the CIDRs paired with `size`, in
      allocator order. */
  function Bucket(sizes: seq<int>, cidrs: seq<Cidr>, size: int, k: nat): seq<Cidr>
    requires k <= |sizes| && k <= |cidrs|
  {
    if k == 0 then []
    else Bucket(sizes, cidrs, size, k - 1) + if sizes[k - 1] == size then [cidrs[k - 1]] else []
  }

  /** How many of the first `k` configured subnets have size `size`: the
      number of pops from that bucket before the `k`-th subnet. */
  function Used(cfg: seq<SubnetConfig>, k: nat, size: int): nat
    requires k <= |cfg|
  {
    multiset(Sizes(cfg)[..k])[size]
  }

  /** The availability zone of a subnet (lines 145-150): the region name and
      the configured letter, or else the zone numbered by the last
      '-'-separated field of the subnet's name, counting from 1, with
      Python's negative indexing for the field 0. */
  function ZoneFor(region: string, azones: seq<string>, name: string, letter: Option<string>)
    : (r: Result<string, PlacementError>)
    ensures letter.None? && r.Success? ==> r.value in azones
  {
    match letter
    case Some(l) => Success(region + l)
    case None =>
      match ParseInt(LastField(name))
      case None => Failure(ZoneSuffixNotInteger(name))
      case Some(n) =>
        var index := n - 1;
        if -|azones| <= index < |azones| then
          Success(azones[if index < 0 then |azones| + index else index])
        else Failure(ZoneIndexOutOfRange(index))
  }

  /** What happens to the `k`-th configured subnet once the ones before it
      were created: its zone is chosen first, then the last CIDR still in the
      bucket of its size is popped. */
  function Place(vpc: string, region: string, azones: seq<string>, cfg: seq<SubnetConfig>,
                 sizes: seq<int>, cidrs: seq<Cidr>, k: nat): (r: Result<CreatedSubnet, PlacementError>)
    requires k < |cfg|
    ensures r.Success? ==> r.value.longname == LongName(vpc, cfg[k].name) && r.value.mapPublicIp == cfg[k].public
    ensures r.Success? ==> r.value.cidr in cidrs
    ensures r.Success? && cfg[k].zoneLetter.Some? ==> r.value.zone == region + cfg[k].zoneLetter.value
    ensures r.Success? && cfg[k].zoneLetter.None? ==> r.value.zone in azones
  {
    var sn := cfg[k];
    match ZoneFor(region, azones, sn.name, sn.zoneLetter)
    case Failure(e) => Failure(e)
    case Success(zone) =>
      var bucket := Bucket(sizes, cidrs, sn.size, Paired(sizes, cidrs));
      var used := Used(cfg, k, sn.size);
      if bucket == [] then Failure(NoBucketForSize(sn.size))
      else if used >= |bucket| then Failure(BucketExhausted(sn.size))
      else
        BucketOffered(sizes, cidrs, sn.size, Paired(sizes, cidrs), |bucket| - 1 - used);
        Success(CreatedSubnet(
          LongName(vpc, sn.name),
          bucket[|bucket| - 1 - used],
          zone,
          match sn.description case Some(d) => d case None => "",
          sn.public))
  }

  /** The placements of the first `k` configured subnets, each computed as
      if all the ones before it had been created. */
  function Placements(vpc: string, region: string, azones: seq<string>, cfg: seq<SubnetConfig>,
                      sizes: seq<int>, cidrs: seq<Cidr>, k: nat): (r: seq<Result<CreatedSubnet, PlacementError>>)
    requires k <= |cfg|
    ensures |r| == k
  {
    if k == 0 then []
    else Placements(vpc, region, azones, cfg, sizes, cidrs, k - 1) + [Place(vpc, region, azones, cfg, sizes, cidrs, k - 1)]
  }

  lemma {:induction false} PlacementsAt(vpc: string, region: string, azones: seq<string>, cfg: seq<SubnetConfig>,
                                        sizes: seq<int>, cidrs: seq<Cidr>, k: nat)
    requires k <= |cfg|
    ensures forall j :: 0 <= j < k ==>
              Placements(vpc, region, azones, cfg, sizes, cidrs, k)[j] == Place(vpc, region, azones, cfg, sizes, cidrs, j)
  {
    if k > 0 {
      PlacementsAt(vpc, region, azones, cfg, sizes, cidrs, k - 1);
    }
  }

  lemma {:induction false} PlacementsPrefix(vpc: string, region: string, azones: seq<string>, cfg: seq<SubnetConfig>,
                                            sizes: seq<int>, cidrs: seq<Cidr>, k: nat, n: nat)
    requires k <= n <= |cfg|
    ensures Placements(vpc, region, azones, cfg, sizes, cidrs, n)[..k] == Placements(vpc, region, azones, cfg, sizes, cidrs, k)
    decreases n
  {
    if k < n {
      var prev := Placements(vpc, region, azones, cfg, sizes, cidrs, n - 1);
      PlacementsPrefix(vpc, region, azones, cfg, sizes, cidrs, k, n - 1);
      assert Placements(vpc, region, azones, cfg, sizes, cidrs, n)[..k] == prev[..k];
    } else {
      assert Placements(vpc, region, azones, cfg, sizes, cidrs, n)[..k] == Placements(vpc, region, azones, cfg, sizes, cidrs, n);
    }
  }

  /** A stage that computes `results` in turn: the successes are created
      until the first failure, which stops it. */
  function Stage(results: seq<Result<CreatedSubnet, PlacementError>>): SubnetsOutcome
  {
    if results == [] then SubnetsOutcome([], None)
    else
      var prev := Stage(results[..|results| - 1]);
      if prev.failure.Some? then prev
      else match results[|results| - 1]
        case Failure(e) => SubnetsOutcome(prev.created, Some(e))
        case Success(c) => SubnetsOutcome(prev.created + [c], None)
  }

  /** What such a stage creates is the leading run of successes, and its
      failure, if any, is the result that ends the run. */
  lemma {:induction false} StageSpec(results: seq<Result<CreatedSubnet, PlacementError>>)
    ensures var r := Stage(results);
            && |r.created| <= |results|
            && (forall j :: 0 <= j < |r.created| ==> results[j] == Success(r.created[j]))
            && (r.failure.None? ==> |r.created| == |results|)
            && (r.failure.Some? ==> |r.created| < |results| && results[|r.created|] == Failure(r.failure.value))
  {
    if results != [] {
      var init := results[..|results| - 1];
      StageSpec(init);
      assert forall j :: 0 <= j < |init| ==> init[j] == results[j];
    }
  }

  /** Once a result failed, the stage has stopped: later results change
      nothing. */
  lemma {:induction false} StageStops(results: seq<Result<CreatedSubnet, PlacementError>>, k: nat)
    requires k <= |results| && Stage(results[..k]).failure.Some?
    ensures Stage(results) == Stage(results[..k])
    decreases |results|
  {
    if k < |results| {
      var init := results[..|results| - 1];
      assert init[..k] == results[..k];
      StageStops(init, k);
    } else {
      assert results[..k] == results;
    }
  }

  /** The buckets after the first `k` configured subnets each popped the
      last CIDR of their size's bucket. */
  ghost predicate Popped(cfg: seq<SubnetConfig>, sizes: seq<int>, cidrs: seq<Cidr>,
                         buckets: map<int, seq<Cidr>>, k: nat)
    requires k <= |cfg|
  {
    forall s ::
      && (s in buckets <==> Bucket(sizes, cidrs, s, Paired(sizes, cidrs)) != [])
      && (s in buckets ==>
            var full := Bucket(sizes, cidrs, s, Paired(sizes, cidrs));
            Used(cfg, k, s) <= |full| && buckets[s] == full[..|full| - Used(cfg, k, s)])
  }

  /** The subnets stage: bucket the allocator's CIDRs by size, then create the
      configured subnets in order, stopping at the first exception. */
  method CreateSubnets(vpc: string, region: string, azones: seq<string>,
                       cfg: seq<SubnetConfig>, cidrs: seq<Cidr>)
    returns (out: SubnetsOutcome)
    ensures |out.created| <= |cfg|
    ensures forall k :: 0 <= k < |out.created| ==>
              Place(vpc, region, azones, cfg, RequestedSizes(cfg), cidrs, k) == Success(out.created[k])
    ensures out.failure.None? ==> |out.created| == |cfg|
    ensures out.failure.Some? ==>
              |out.created| < |cfg| &&
              Place(vpc, region, azones, cfg, RequestedSizes(cfg), cidrs, |out.created|) == Failure(out.failure.value)
  {
    var sizes := RequestedSizes(cfg);
    var buckets := FillBuckets(sizes, cidrs);
    assert Popped(cfg, sizes, cidrs, buckets, 0);
    out := CreateInOrder(vpc, region, azones, cfg, sizes, cidrs, buckets);
    StagedPlacements(vpc, region, azones, cfg, sizes, cidrs, out);
  }

  /** The outcome of the stage, read back placement by placement. */
  lemma {:induction false} StagedPlacements(vpc: string, region: string, azones: seq<string>,
                                            cfg: seq<SubnetConfig>, sizes: seq<int>, cidrs: seq<Cidr>,
                                            out: SubnetsOutcome)
    requires out == Stage(Placements(vpc, region, azones, cfg, sizes, cidrs, |cfg|))
    ensures |out.created| <= |cfg|
    ensures forall k :: 0 <= k < |out.created| ==>
              Place(vpc, region, azones, cfg, sizes, cidrs, k) == Success(out.created[k])
    ensures out.failure.None? ==> |out.created| == |cfg|
    ensures out.failure.Some? ==>
              |out.created| < |cfg| &&
              Place(vpc, region, azones, cfg, sizes, cidrs, |out.created|) == Failure(out.failure.value)
  {
    StageSpec(Placements(vpc, region, azones, cfg, sizes, cidrs, |cfg|));
    PlacementsAt(vpc, region, azones, cfg, sizes, cidrs, |cfg|);
  }

  /** The second loop of the stage, over buckets filled from `sizes` and
      `cidrs`. */
  method CreateInOrder(vpc: string, region: string, azones: seq<string>, cfg: seq<SubnetConfig>,
                       sizes: seq<int>, cidrs: seq<Cidr>, filled: map<int, seq<Cidr>>)
    returns (out: SubnetsOutcome)
    requires Popped(cfg, sizes, cidrs, filled, 0)
    ensures out == Stage(Placements(vpc, region, azones, cfg, sizes, cidrs, |cfg|))
  {
    var buckets := filled;
    var created: seq<CreatedSubnet> := [];
    ghost var results := [];
    for k := 0 to |cfg|
      invariant results == Placements(vpc, region, azones, cfg, sizes, cidrs, k)
      invariant SubnetsOutcome(created, None) == Stage(results)
      invariant Popped(cfg, sizes, cidrs, buckets, k)
    {
      var placed, next := CreateNext(vpc, region, azones, cfg, sizes, cidrs, buckets, k);
      results := results + [placed];
      assert results[..k] == Placements(vpc, region, azones, cfg, sizes, cidrs, k);
      if placed.Failure? {
        out := SubnetsOutcome(created, Some(placed.error));
        PlacementsPrefix(vpc, region, azones, cfg, sizes, cidrs, k + 1, |cfg|);
        StageStops(Placements(vpc, region, azones, cfg, sizes, cidrs, |cfg|), k + 1);
        return;
      }
      buckets := next;
      created := created + [placed.value];
    }
    out := SubnetsOutcome(created, None);
  }

  /** The body of the second loop for the `k`-th subnet: choose its zone,
      then pop the last CIDR of its size's bucket. */
  method CreateNext(vpc: string, region: string, azones: seq<string>, cfg: seq<SubnetConfig>,
                    sizes: seq<int>, cidrs: seq<Cidr>, buckets: map<int, seq<Cidr>>, k: nat)
    returns (placed: Result<CreatedSubnet, PlacementError>, next: map<int, seq<Cidr>>)
    requires k < |cfg| && Popped(cfg, sizes, cidrs, buckets, k)
    ensures placed == Place(vpc, region, azones, cfg, sizes, cidrs, k)
    ensures placed.Success? ==> Popped(cfg, sizes, cidrs, next, k + 1)
  {
    next := buckets;
    var sn := cfg[k];
    var zone := ZoneFor(region, azones, sn.name, sn.zoneLetter);
    if zone.Failure? {
      return Failure(zone.error), next;
    }
    PopOutcome(vpc, region, azones, cfg, sizes, cidrs, buckets, k);
    if sn.size !in buckets {
      return Failure(NoBucketForSize(sn.size)), next;
    }
    var bucket := buckets[sn.size];
    if bucket == [] {
      return Failure(BucketExhausted(sn.size)), next;
    }
    var cidr := bucket[|bucket| - 1];
    next := buckets[sn.size := bucket[..|bucket| - 1]];
    var description := match sn.description case Some(d) => d case None => "";
    placed := Success(CreatedSubnet(LongName(vpc, sn.name), cidr, zone.value, description, sn.public));
  }

  /** One step of the second loop, stated over the buckets: which error the
      pop raises, or which CIDR it yields and what the buckets become. */
  lemma {:induction false} PopOutcome(vpc: string, region: string, azones: seq<string>,
                                      cfg: seq<SubnetConfig>, sizes: seq<int>, cidrs: seq<Cidr>,
                                      buckets: map<int, seq<Cidr>>, k: nat)
    requires k < |cfg| && Popped(cfg, sizes, cidrs, buckets, k)
    requires ZoneFor(region, azones, cfg[k].name, cfg[k].zoneLetter).Success?
    ensures cfg[k].size !in buckets ==>
              Place(vpc, region, azones, cfg, sizes, cidrs, k) == Failure(NoBucketForSize(cfg[k].size))
    ensures cfg[k].size in buckets && buckets[cfg[k].size] == [] ==>
              Place(vpc, region, azones, cfg, sizes, cidrs, k) == Failure(BucketExhausted(cfg[k].size))
    ensures cfg[k].size in buckets && buckets[cfg[k].size] != [] ==>
              var bucket := buckets[cfg[k].size];
              && Popped(cfg, sizes, cidrs, buckets[cfg[k].size := bucket[..|bucket| - 1]], k + 1)
              && Place(vpc, region, azones, cfg, sizes, cidrs, k) == Success(CreatedSubnet(
                   LongName(vpc, cfg[k].name),
                   bucket[|bucket| - 1],
                   ZoneFor(region, azones, cfg[k].name, cfg[k].zoneLetter).value,
                   match cfg[k].description case Some(d) => d case None => "",
                   cfg[k].public))
  {
    var size := cfg[k].size;
    UsedStep(cfg, k);
    if size in buckets && buckets[size] != [] {
      var bucket := buckets[size];
      var full := Bucket(sizes, cidrs, size, Paired(sizes, cidrs));
      assert bucket[|bucket| - 1] == full[|full| - 1 - Used(cfg, k, size)];
      var next := buckets[size := bucket[..|bucket| - 1]];
      forall s ensures (s in next <==> Bucket(sizes, cidrs, s, Paired(sizes, cidrs)) != [])
                    && (s in next ==>
                          var f := Bucket(sizes, cidrs, s, Paired(sizes, cidrs));
                          Used(cfg, k + 1, s) <= |f| && next[s] == f[..|f| - Used(cfg, k + 1, s)]) {
        if s == size {
          assert bucket[..|bucket| - 1] == full[..|full| - Used(cfg, k + 1, s)];
        }
      }
    }
  }

  /** The first loop of the stage: `subnets.setdefault(size, []).append(cidr)`
      over `zip(sizes, cidrs)`. A size gets a bucket exactly when some pair
      carries it. */
  method FillBuckets(sizes: seq<int>, cidrs: seq<Cidr>) returns (buckets: map<int, seq<Cidr>>)
    ensures forall s :: s in buckets <==> Bucket(sizes, cidrs, s, Paired(sizes, cidrs)) != []
    ensures forall s :: s in buckets ==> buckets[s] == Bucket(sizes, cidrs, s, Paired(sizes, cidrs))
  {
    buckets := map[];
    for i := 0 to Paired(sizes, cidrs)
      invariant forall s :: s in buckets <==> Bucket(sizes, cidrs, s, i) != []
      invariant forall s :: s in buckets ==> buckets[s] == Bucket(sizes, cidrs, s, i)
    {
      var size := sizes[i];
      var before := buckets;
      buckets := buckets[size := (if size in buckets then buckets[size] else []) + [cidrs[i]]];
      forall s ensures (s in buckets <==> Bucket(sizes, cidrs, s, i + 1) != [])
                    && (s in buckets ==> buckets[s] == Bucket(sizes, cidrs, s, i + 1)) {
        if s == size {
          assert Bucket(sizes, cidrs, s, i + 1) == Bucket(sizes, cidrs, s, i) + [cidrs[i]];
        } else {
          assert Bucket(sizes, cidrs, s, i + 1) == Bucket(sizes, cidrs, s, i) + [];
          assert s in buckets <==> s in before;
        }
      }
    }
  }

  lemma {:induction false} UsedStep(cfg: seq<SubnetConfig>, k: nat)
    requires k < |cfg|
    ensures forall s :: Used(cfg, k + 1, s) == Used(cfg, k, s) + if cfg[k].size == s then 1 else 0
  {
    assert Sizes(cfg)[..k + 1] == Sizes(cfg)[..k] + [cfg[k].size];
  }

  lemma {:induction false} BucketLength(sizes: seq<int>, cidrs: seq<Cidr>, size: int, k: nat)
    requires k <= |sizes| && k <= |cidrs|
    ensures |Bucket(sizes, cidrs, size, k)| == multiset(sizes[..k])[size]
  {
    if k > 0 {
      BucketLength(sizes, cidrs, size, k - 1);
      assert sizes[..k] == sizes[..k - 1] + [sizes[k - 1]];
    }
  }

  /** Every CIDR in the bucket of `size` was paired with `size`: the `t`-th
      one comes from the allocator's position `j`. */
  lemma {:induction false} BucketSlot(sizes: seq<int>, cidrs: seq<Cidr>, size: int, k: nat, t: nat)
    returns (j: nat)
    requires k <= |sizes| && k <= |cidrs| && t < |Bucket(sizes, cidrs, size, k)|
    ensures j < k && sizes[j] == size && cidrs[j] == Bucket(sizes, cidrs, size, k)[t]
  {
    if t < |Bucket(sizes, cidrs, size, k - 1)| {
      j := BucketSlot(sizes, cidrs, size, k - 1, t);
    } else {
      j := k - 1;
    }
  }

  /** Every CIDR in a bucket is one the allocator returned. */
  lemma {:induction false} BucketOffered(sizes: seq<int>, cidrs: seq<Cidr>, size: int, k: nat, t: nat)
    requires k <= |sizes| && k <= |cidrs| && t < |Bucket(sizes, cidrs, size, k)|
    ensures Bucket(sizes, cidrs, size, k)[t] in cidrs
  {
    var j := BucketSlot(sizes, cidrs, size, k, t);
  }

  /** Distinct CIDRs from the allocator give a bucket without repeats. */
  lemma {:induction false} BucketDistinct(sizes: seq<int>, cidrs: seq<Cidr>, size: int, k: nat)
    requires k <= |sizes| && k <= |cidrs| && Distinct(cidrs)
    ensures Distinct(Bucket(sizes, cidrs, size, k))
  {
    if k > 0 {
      BucketDistinct(sizes, cidrs, size, k - 1);
      var prev := Bucket(sizes, cidrs, size, k - 1);
      if sizes[k - 1] == size {
        forall t | 0 <= t < |prev| ensures prev[t] != cidrs[k - 1] {
          var j := BucketSlot(sizes, cidrs, size, k - 1, t);
        }
      }
    }
  }

  lemma {:induction false} UsedBelowTotal(cfg: seq<SubnetConfig>, k: nat)
    requires k < |cfg|
    ensures Used(cfg, k, cfg[k].size) < multiset(Sizes(cfg))[cfg[k].size]
  {
    var all := Sizes(cfg);
    assert all == all[..k] + [cfg[k].size] + all[k + 1..];
  }

  lemma {:induction false} UsedGrows(cfg: seq<SubnetConfig>, k1: nat, k2: nat)
    requires k1 < k2 <= |cfg|
    ensures Used(cfg, k1, cfg[k1].size) < Used(cfg, k2, cfg[k1].size)
  {
    var all := Sizes(cfg);
    assert all[..k2] == all[..k1] + [cfg[k1].size] + all[k1 + 1..k2];
  }

  /** When the allocator returns a block for every request, no configured
      subnet finds its size's bucket missing or empty: only the zone choice
      can still fail. */
  lemma {:induction false} EveryRequestGetsACidr(vpc: string, region: string, azones: seq<string>,
                                                 cfg: seq<SubnetConfig>, cidrs: seq<Cidr>, k: nat)
    requires k < |cfg| <= |cidrs|
    ensures Place(vpc, region, azones, cfg, RequestedSizes(cfg), cidrs, k).Success?
         || Place(vpc, region, azones, cfg, RequestedSizes(cfg), cidrs, k).error.ZoneSuffixNotInteger?
         || Place(vpc, region, azones, cfg, RequestedSizes(cfg), cidrs, k).error.ZoneIndexOutOfRange?
  {
    var sizes := RequestedSizes(cfg);
    var size := cfg[k].size;
    assert Paired(sizes, cidrs) == |sizes| && sizes[..|sizes|] == sizes;
    BucketLength(sizes, cidrs, size, |sizes|);
    UsedBelowTotal(cfg, k);
  }

  /** Distinct CIDRs from the allocator give every created subnet its own
      CIDR. */
  lemma {:induction false} CreatedCidrsDistinct(vpc: string, region: string, azones: seq<string>,
                                                cfg: seq<SubnetConfig>, cidrs: seq<Cidr>, k1: nat, k2: nat)
    requires Distinct(cidrs) && k1 < k2 < |cfg|
    requires Place(vpc, region, azones, cfg, RequestedSizes(cfg), cidrs, k1).Success?
    requires Place(vpc, region, azones, cfg, RequestedSizes(cfg), cidrs, k2).Success?
    ensures Place(vpc, region, azones, cfg, RequestedSizes(cfg), cidrs, k1).value.cidr
            != Place(vpc, region, azones, cfg, RequestedSizes(cfg), cidrs, k2).value.cidr
  {
    var sizes := RequestedSizes(cfg);
    var p := Paired(sizes, cidrs);
    var s1, s2 := cfg[k1].size, cfg[k2].size;
    var b1, b2 := Bucket(sizes, cidrs, s1, p), Bucket(sizes, cidrs, s2, p);
    var t1, t2 := |b1| - 1 - Used(cfg, k1, s1), |b2| - 1 - Used(cfg, k2, s2);
    if s1 == s2 {
      UsedGrows(cfg, k1, k2);
      BucketDistinct(sizes, cidrs, s1, p);
      assert t2 < t1;
    } else {
      var j1 := BucketSlot(sizes, cidrs, s1, p, t1);
      var j2 := BucketSlot(sizes, cidrs, s2, p, t2);
      if j1 < j2 {
        assert cidrs[j1] != cidrs[j2];
      } else {
        assert j1 != j2;
        assert cidrs[j2] != cidrs[j1];
      }
    }
  }

  /** Each created subnet's CIDR is one the allocator returned for a request
      of that subnet's own size. */
  lemma {:induction false} CidrFromOwnSize(vpc: string, region: string, azones: seq<string>,
                                           cfg: seq<SubnetConfig>, cidrs: seq<Cidr>, k: nat)
    returns (j: nat)
    requires k < |cfg|
    requires Place(vpc, region, azones, cfg, RequestedSizes(cfg), cidrs, k).Success?
    ensures j < |RequestedSizes(cfg)| && j < |cidrs|
    ensures RequestedSizes(cfg)[j] == cfg[k].size
    ensures cidrs[j] == Place(vpc, region, azones, cfg, RequestedSizes(cfg), cidrs, k).value.cidr
  {
    var sizes := RequestedSizes(cfg);
    var size := cfg[k].size;
    var b := Bucket(sizes, cidrs, size, Paired(sizes, cidrs));
    j := BucketSlot(sizes, cidrs, size, Paired(sizes, cidrs), |b| - 1 - Used(cfg, k, size));
  }

  /** Without a zone letter, a name ending in `-<digits>` picks the zone
      numbered by the digits from 1; `-0` picks the last zone (Python's index
      -1) and a number past the zones raises IndexError. */
  lemma {:induction false} ZoneFromNameSuffix(region: string, azones: seq<string>, prefix: string, digits: string)
    requires digits != [] && AllDigits(digits)
    ensures var n := DigitsValue(digits);
            ZoneFor(region, azones, prefix + "-" + digits, None)
            == if 1 <= n <= |azones| then Success(azones[n - 1])
               else if n == 0 && azones != [] then Success(azones[|azones| - 1])
               else Failure(ZoneIndexOutOfRange(n - 1))
  {
    var name := prefix + "-" + digits;
    assert LastField(name) == digits by {
      DigitsHaveNoDash(digits);
      LastFieldAfterDash(prefix, digits);
    }
    var n := DigitsValue(digits);
    assert ParseInt(digits) == Some(n as int) by {
      ParseDigits(digits);
    }
    var zone := ZoneFor(region, azones, name, None);
    if 1 <= n <= |azones| {
      assert zone == Success(azones[n - 1]);
    } else if n == 0 && azones != [] {
      assert zone == Success(azones[|azones| - 1]);
    } else {
      assert zone == Failure(ZoneIndexOutOfRange(n - 1));
    }
  }

  lemma {:induction false} DigitsHaveNoDash(digits: string)
    requires AllDigits(digits)
    ensures '-' !in digits
  {
    forall i | 0 <= i < |digits| ensures digits[i] != '-' {
      assert IsDigit(digits[i]);
    }
  }

  /** A subnet named `...-1` without a zone letter goes to the first zone. */
  lemma {:induction false} SuffixOneIsFirstZone(region: string, azones: seq<string>, prefix: string)
    requires azones != []
    ensures ZoneFor(region, azones, prefix + "-1", None) == Success(azones[0])
  {
    assert AllDigits("1") && DigitsValue("1") == 1 by {
      assert IsDigit("1"[0]) && "1"[..0] == [] && DigitValue('1') == 1;
    }
    ZoneFromNameSuffix(region, azones, prefix, "1");
    assert prefix + "-" + "1" == prefix + "-1";
  }

  /** Without a zone letter, a name whose last field is not an integer
      literal raises ValueError in `int()` (line 149). */
  lemma ZoneSuffixRejected(region: string, azones: seq<string>, name: string)
    requires !IntLiteral(Strip(LastField(name)))
    ensures ZoneFor(region, azones, name, None) == Failure(ZoneSuffixNotInteger(name))
  {
  }

  /** `web` is such a name: it has no '-', so its last field is itself. */
  lemma {:induction false} PlainNameRejected(region: string, azones: seq<string>)
    ensures ZoneFor(region, azones, "web", None) == Failure(ZoneSuffixNotInteger("web"))
  {
    assert LastField("web") == "web" by {
      assert "web"[..2] == "we" && "we"[..1] == "w" && "w"[..0] == [];
    }
    assert Strip("web") == "web";
    assert !IsDigit("web"[0]);
    ZoneSuffixRejected(region, azones, "web");
  }

  /** `db-a` is another: its last field is a letter. */
  lemma {:induction false} LetterSuffixRejected(region: string, azones: seq<string>)
    ensures ZoneFor(region, azones, "db-a", None) == Failure(ZoneSuffixNotInteger("db-a"))
  {
    assert LastField("db-a") == "a" by {
      assert "db-a"[..3] == "db-" && "db-"[2] == '-' && "db-a"[3] == 'a';
      assert LastField("db-") == [];
      assert LastField("db-a") == LastField("db-") + ['a'];
    }
    assert !IntLiteral(Strip("a")) by {
      assert LStrip("a", Whitespace) == "a" && RStrip("a", Whitespace) == "a";
      assert !IsDigit("a"[0]);
    }
    ZoneSuffixRejected(region, azones, "db-a");
  }
}
