/** `EnvironmentBuilder.tag_instances` (botoform/builders.py): every new
    instance gets the tags Name = its hostname and role = the role name, and
    each of its volumes gets Name = the same hostname. The provider's tags are
    a map from resource id to that resource's tag map; `update_tags` merges
    the given tags into it. */
module Tagging {
  import opened Naming

  type Tags = map<string, map<string, string>>

  /** An instance with the ids of its attached volumes. */
  datatype Instance = Instance(id: string, volumes: seq<string>)

  /** `update_tags(resource, **extra)`: the given tags replace those of the
      same key, the others stay. */
  function UpdateTags(tags: Tags, id: string, extra: map<string, string>): (r: Tags)
    ensures r.Keys == tags.Keys + {id}
    ensures forall x :: x in tags && x != id ==> r[x] == tags[x]
    ensures forall key :: key in extra ==> key in r[id] && r[id][key] == extra[key]
    ensures id in tags ==> forall key :: key in tags[id] && key !in extra ==> key in r[id] && r[id][key] == tags[id][key]
  {
    tags[id := (if id in tags then tags[id] else map[]) + extra]
  }

  /** The inner loop: Name = `hostname` on each volume, in order. */
  function TagVolumes(tags: Tags, volumes: seq<string>, hostname: string): Tags
  {
    if volumes == [] then tags
    else UpdateTags(TagVolumes(tags, volumes[..|volumes| - 1], hostname),
                    volumes[|volumes| - 1], map["Name" := hostname])
  }

  /** One iteration of the outer loop. */
  function TagInstance(tags: Tags, vpc: string, role: string, inst: Instance): Tags
  {
    var hostname := Hostname(vpc, role, inst.id);
    TagVolumes(UpdateTags(tags, inst.id, map["Name" := hostname, "role" := role]), inst.volumes, hostname)
  }

  /** `tag_instances(role_name, instances)`: exactly the instances and their
      volumes gain tags, and no resource loses its tags. */
  function TagAll(tags: Tags, vpc: string, role: string, instances: seq<Instance>): (r: Tags)
    ensures r.Keys == tags.Keys + Resources(instances)
    ensures forall x :: x in tags && x !in Resources(instances) ==> r[x] == tags[x]
  {
    if instances == [] then tags
    else
      var before := TagAll(tags, vpc, role, instances[..|instances| - 1]);
      var last := instances[|instances| - 1];
      TagInstanceKeys(before, vpc, role, last);
      TagInstanceKeeps(before, vpc, role, last);
      TagInstance(before, vpc, role, last)
  }

  /** Tagging one instance leaves the tags of every resource other than the
      instance and its volumes as they were. */
  lemma TagInstanceKeeps(tags: Tags, vpc: string, role: string, inst: Instance)
    ensures forall x :: x in tags && x != inst.id && x !in inst.volumes ==>
              x in TagInstance(tags, vpc, role, inst) && TagInstance(tags, vpc, role, inst)[x] == tags[x]
  {
    var hostname := Hostname(vpc, role, inst.id);
    TagVolumesKeep(UpdateTags(tags, inst.id, map["Name" := hostname, "role" := role]), inst.volumes, hostname);
  }

  /** The ids of the instances and of all their volumes. */
  ghost function Resources(instances: seq<Instance>): set<string>
  {
    if instances == [] then {}
    else
      var last := instances[|instances| - 1];
      Resources(instances[..|instances| - 1]) + {last.id} + (set v | v in last.volumes)
  }

  /** `Resources` holds every instance and every volume of it, and nothing
      else. */
  lemma {:induction false} ResourcesMembers(instances: seq<Instance>, x: string)
    ensures x in Resources(instances) <==>
            exists i :: 0 <= i < |instances| && (x == instances[i].id || x in instances[i].volumes)
  {
    if instances != [] {
      var n := |instances| - 1;
      var init := instances[..n];
      ResourcesMembers(init, x);
      if x in Resources(init) {
        var i :| 0 <= i < |init| && (x == init[i].id || x in init[i].volumes);
        assert instances[i] == init[i];
      } else if exists i :: 0 <= i < |instances| && (x == instances[i].id || x in instances[i].volumes) {
        var i :| 0 <= i < |instances| && (x == instances[i].id || x in instances[i].volumes);
        if i < n {
          assert init[i] == instances[i];
        }
      }
    }
  }

  /** Tagging one instance adds exactly the instance and its volumes to the
      tagged resources. */
  lemma {:induction false} TagInstanceKeys(tags: Tags, vpc: string, role: string, inst: Instance)
    ensures TagInstance(tags, vpc, role, inst).Keys == tags.Keys + {inst.id} + (set v | v in inst.volumes)
  {
    var hostname := Hostname(vpc, role, inst.id);
    TagVolumesKeys(UpdateTags(tags, inst.id, map["Name" := hostname, "role" := role]), inst.volumes, hostname);
  }

  /** The instances and volumes are all different resources. */
  ghost predicate SeparateResources(instances: seq<Instance>)
  {
    (forall i :: 0 <= i < |instances| ==> instances[i].id !in instances[i].volumes) &&
    (forall i, j :: 0 <= i < j < |instances| ==>
       instances[i].id != instances[j].id &&
       instances[i].id !in instances[j].volumes &&
       instances[j].id !in instances[i].volumes &&
       forall v :: v in instances[i].volumes ==> v !in instances[j].volumes)
  }

  /** The volume loop adds exactly the volumes to the tagged resources. */
  lemma {:induction false} TagVolumesKeys(tags: Tags, volumes: seq<string>, hostname: string)
    ensures TagVolumes(tags, volumes, hostname).Keys == tags.Keys + (set v | v in volumes)
  {
    if volumes != [] {
      var init := volumes[..|volumes| - 1];
      var last := volumes[|volumes| - 1];
      TagVolumesKeys(tags, init, hostname);
      assert volumes == init + [last];
      assert (set v | v in volumes) == (set v | v in init) + {last};
    }
  }

  /** The volume loop leaves every other resource's tags alone. */
  lemma {:induction false} TagVolumesKeep(tags: Tags, volumes: seq<string>, hostname: string)
    ensures forall x :: x in tags && x !in volumes ==>
              x in TagVolumes(tags, volumes, hostname) && TagVolumes(tags, volumes, hostname)[x] == tags[x]
  {
    if volumes != [] {
      var init := volumes[..|volumes| - 1];
      var last := volumes[|volumes| - 1];
      TagVolumesKeep(tags, init, hostname);
      forall x | x in tags && x !in volumes
        ensures x in TagVolumes(tags, volumes, hostname) && TagVolumes(tags, volumes, hostname)[x] == tags[x]
      {
        assert x != last && x !in init;
      }
    }
  }

  /** After the volume loop every volume is named `hostname`. */
  lemma {:induction false} TagVolumesNamed(tags: Tags, volumes: seq<string>, hostname: string)
    ensures forall v :: v in volumes ==>
              v in TagVolumes(tags, volumes, hostname) &&
              "Name" in TagVolumes(tags, volumes, hostname)[v] &&
              TagVolumes(tags, volumes, hostname)[v]["Name"] == hostname
  {
    if volumes != [] {
      var init := volumes[..|volumes| - 1];
      var last := volumes[|volumes| - 1];
      TagVolumesNamed(tags, init, hostname);
      forall v | v in volumes
        ensures v in TagVolumes(tags, volumes, hostname) &&
                "Name" in TagVolumes(tags, volumes, hostname)[v] &&
                TagVolumes(tags, volumes, hostname)[v]["Name"] == hostname
      {
        if v != last {
          assert v in init;
        }
      }
    }
  }

  /** Tagging one instance touches only that instance and its volumes. */
  lemma {:induction false} TagInstanceEffect(tags: Tags, vpc: string, role: string, inst: Instance)
    requires inst.id !in inst.volumes
    ensures forall x :: x in tags && x != inst.id && x !in inst.volumes ==>
              x in TagInstance(tags, vpc, role, inst) && TagInstance(tags, vpc, role, inst)[x] == tags[x]
    ensures inst.id in TagInstance(tags, vpc, role, inst)
    ensures "Name" in TagInstance(tags, vpc, role, inst)[inst.id] && "role" in TagInstance(tags, vpc, role, inst)[inst.id]
    ensures TagInstance(tags, vpc, role, inst)[inst.id]["Name"] == Hostname(vpc, role, inst.id)
    ensures TagInstance(tags, vpc, role, inst)[inst.id]["role"] == role
    ensures forall v :: v in inst.volumes ==>
              v in TagInstance(tags, vpc, role, inst) && "Name" in TagInstance(tags, vpc, role, inst)[v] &&
              TagInstance(tags, vpc, role, inst)[v]["Name"] == Hostname(vpc, role, inst.id)
  {
    var hostname := Hostname(vpc, role, inst.id);
    var named := UpdateTags(tags, inst.id, map["Name" := hostname, "role" := role]);
    TagVolumesKeep(named, inst.volumes, hostname);
    TagVolumesNamed(named, inst.volumes, hostname);
  }

  lemma SeparateInit(instances: seq<Instance>)
    requires SeparateResources(instances) && instances != []
    ensures SeparateResources(instances[..|instances| - 1])
  {
    var init := instances[..|instances| - 1];
    forall a, b | 0 <= a < b < |init| ensures init[a] == instances[a] && init[b] == instances[b] { }
  }

  /** When the instances and their volumes are separate resources, every
      instance ends up tagged with its own hostname and the role. */
  lemma {:induction false} EveryInstanceTagged(tags: Tags, vpc: string, role: string,
                                               instances: seq<Instance>, i: nat)
    requires SeparateResources(instances) && i < |instances|
    ensures var t := TagAll(tags, vpc, role, instances);
            var id := instances[i].id;
            id in t && "Name" in t[id] && "role" in t[id] &&
            t[id]["Name"] == Hostname(vpc, role, id) && t[id]["role"] == role
  {
    var n := |instances| - 1;
    var init := instances[..n];
    var last := instances[n];
    var before := TagAll(tags, vpc, role, init);
    var t := TagAll(tags, vpc, role, instances);
    var id := instances[i].id;
    assert t == TagInstance(before, vpc, role, last);
    if i < n {
      SeparateInit(instances);
      assert init[i] == instances[i];
      EveryInstanceTagged(tags, vpc, role, init, i);
      assert id in t && t[id] == before[id] by {
        assert id != last.id && id !in last.volumes && last.id !in last.volumes;
        TagInstanceEffect(before, vpc, role, last);
      }
    } else {
      assert last.id !in last.volumes;
      TagInstanceEffect(before, vpc, role, last);
    }
  }

  /** Under the same condition, each volume of every instance ends up named
      with its instance's hostname. */
  lemma {:induction false} EveryVolumeTagged(tags: Tags, vpc: string, role: string,
                                             instances: seq<Instance>, i: nat, v: string)
    requires SeparateResources(instances) && i < |instances| && v in instances[i].volumes
    ensures var t := TagAll(tags, vpc, role, instances);
            v in t && "Name" in t[v] && t[v]["Name"] == Hostname(vpc, role, instances[i].id)
  {
    var n := |instances| - 1;
    var init := instances[..n];
    var last := instances[n];
    var before := TagAll(tags, vpc, role, init);
    var t := TagAll(tags, vpc, role, instances);
    assert t == TagInstance(before, vpc, role, last);
    if i < n {
      SeparateInit(instances);
      assert init[i] == instances[i];
      EveryVolumeTagged(tags, vpc, role, init, i, v);
      assert v in t && t[v] == before[v] by {
        assert v != last.id && v !in last.volumes && last.id !in last.volumes;
        TagInstanceEffect(before, vpc, role, last);
      }
    } else {
      assert last.id !in last.volumes;
      TagInstanceEffect(before, vpc, role, last);
    }
  }
}
