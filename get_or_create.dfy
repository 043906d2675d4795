/** The get-or-create loops of `EnvironmentBuilder.security_groups` and
    `EnvironmentBuilder.key_pairs` (botoform/builders.py): each configured
    name is looked up and created only when the lookup finds nothing. The
    provider's resources are a set of names. */
module GetOrCreate {
  import opened Sequences
  import opened Naming

  /** The names such a loop creates, in the order it creates them: each name
      that neither existed before nor was met earlier in the list. */
  function Created(existing: set<string>, names: seq<string>): (r: seq<string>)
    ensures |r| <= |names|
    ensures forall x :: x in r ==> x !in existing && x in names
  {
    if names == [] then []
    else
      var init := names[..|names| - 1];
      var n := names[|names| - 1];
      assert forall x :: x in init ==> x in names;
      Created(existing, init) + if n in existing || n in init then [] else [n]
  }

  /** What the loop creates is created once, and is exactly what was
      configured but missing. */
  lemma {:induction false} CreatedFresh(existing: set<string>, names: seq<string>)
    ensures Distinct(Created(existing, names))
    ensures existing + (set x | x in Created(existing, names)) == existing + (set x | x in names)
  {
    CreatedOnce(existing, names);
    CreatedCovers(existing, names);
  }

  lemma {:induction false} CreatedOnce(existing: set<string>, names: seq<string>)
    ensures Distinct(Created(existing, names))
  {
    if names != [] {
      var init := names[..|names| - 1];
      var n := names[|names| - 1];
      CreatedOnce(existing, init);
      var prev := Created(existing, init);
      assert n in existing || n in init || n !in prev;
    }
  }

  lemma {:induction false} CreatedCovers(existing: set<string>, names: seq<string>)
    ensures existing + (set x | x in Created(existing, names)) == existing + (set x | x in names)
  {
    if names != [] {
      var init := names[..|names| - 1];
      var n := names[|names| - 1];
      CreatedCovers(existing, init);
      assert names == init + [n];
      assert (set x | x in names) == (set x | x in init) + {n};
    }
  }

  /** Running the loop a second time creates nothing. */
  lemma {:induction false} CreatedIdempotent(existing: set<string>, names: seq<string>)
    ensures Created(existing + (set x | x in names), names) == []
  {
    CreatedSubset(existing + (set x | x in names), names);
  }

  /** Names all known before the loop lead to no creation. */
  lemma {:induction false} CreatedSubset(existing: set<string>, names: seq<string>)
    requires forall x :: x in names ==> x in existing
    ensures Created(existing, names) == []
  {
    if names != [] {
      CreatedSubset(existing, names[..|names| - 1]);
    }
  }

  /** `LongName` applied to every configured name. */
  function LongNames(vpc: string, names: seq<string>): (r: seq<string>)
    ensures |r| == |names|
  {
    seq(|names|, i requires 0 <= i < |names| => LongName(vpc, names[i]))
  }
}
