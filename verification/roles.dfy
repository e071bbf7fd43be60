/**
 * Role seeding (roles/roles.service.ts and
 * roles/intialization/role-intialization.service.ts): at start-up two services
 * each make sure a list of role rows exists, inserting the missing names one by
 * one. The role table is a sequence in insertion order; a new row takes the next
 * identifier after the largest one in use.
 */
module Roles {
  import opened Wrappers
  import opened Domain

  /** The names the roles service seeds. */
  const SeededNames: seq<string> := ["admin", "carrier", "shipper"]

  /** The names the role-initialisation service ensures. */
  const DefaultNames: seq<string> := ["admin", "shipper", "carrier", "driver"]

  /** `findOneBy({ name })`: the first row with that name. */
  function FindByName(roles: seq<Role>, name: string): (r: Option<Role>)
    ensures r.Some? ==> r.value in roles && r.value.name == name
    ensures r.None? <==> forall i :: 0 <= i < |roles| ==> roles[i].name != name
  {
    if |roles| == 0 then None
    else if roles[0].name == name then Some(roles[0])
    else FindByName(roles[1..], name)
  }

  /** The names present in the table. */
  function Names(roles: seq<Role>): set<string> {
    set r | r in roles :: r.name
  }

  /** A name is in the table exactly when the lookup by that name finds a row. */
  lemma NamesAgreeWithFind(roles: seq<Role>, n: string)
    ensures n in Names(roles) <==> FindByName(roles, n).Some?
  {
    if FindByName(roles, n).None? {
      forall r | r in roles
        ensures r.name != n
      {
        var i :| 0 <= i < |roles| && roles[i] == r;
      }
    }
  }

  /** The lookup on a table with one more row at the end. */
  lemma {:induction false} FindByNameAppend(roles: seq<Role>, row: Role, name: string)
    ensures FindByName(roles + [row], name) ==
      if FindByName(roles, name).Some? then FindByName(roles, name)
      else if row.name == name then Some(row) else None
  {
    if |roles| > 0 {
      assert (roles + [row])[1..] == roles[1..] + [row];
      FindByNameAppend(roles[1..], row, name);
    }
  }

  /** The identifier the table's auto-increment hands to the next row. */
  function NextId(roles: seq<Role>): (id: int)
    ensures forall i :: 0 <= i < |roles| ==> roles[i].id < id
  {
    if |roles| == 0 then 1
    else
      var rest := NextId(roles[1..]);
      if roles[0].id + 1 > rest then roles[0].id + 1 else rest
  }

  /** The name column is unique. */
  ghost predicate NamesUnique(roles: seq<Role>) {
    forall i, j :: 0 <= i < j < |roles| ==> roles[i].name != roles[j].name
  }

  /** The id column is unique. */
  ghost predicate IdsUnique(roles: seq<Role>) {
    forall i, j :: 0 <= i < j < |roles| ==> roles[i].id != roles[j].id
  }

  /** One step of either seeding loop: look the name up and insert it when absent. */
  function EnsureRole(roles: seq<Role>, name: string): (r: seq<Role>)
    ensures FindByName(r, name).Some?
    ensures FindByName(roles, name).Some? ==> r == roles
    ensures FindByName(roles, name).None? ==> |r| == |roles| + 1 && r[..|roles|] == roles && r[|roles|].name == name
  {
    if FindByName(roles, name).Some? then roles
    else
      FindByNameAppend(roles, Role(NextId(roles), name), name);
      roles + [Role(NextId(roles), name)]
  }

  /** A step inserts only a name that is absent, under an id above all others. */
  lemma EnsureRoleKeepsUnique(roles: seq<Role>, name: string)
    requires NamesUnique(roles) && IdsUnique(roles)
    ensures NamesUnique(EnsureRole(roles, name)) && IdsUnique(EnsureRole(roles, name))
  {
    if FindByName(roles, name).None? {
      var r := roles + [Role(NextId(roles), name)];
      assert forall i :: 0 <= i < |roles| ==> r[i] == roles[i];
    }
  }

  /** The seeding loop run over `names` in order. */
  function EnsureAll(roles: seq<Role>, names: seq<string>): (r: seq<Role>)
    ensures |roles| <= |r| && r[..|roles|] == roles
    decreases |names|
  {
    if |names| == 0 then roles
    else EnsureRole(EnsureAll(roles, names[..|names| - 1]), names[|names| - 1])
  }

  /** The loop adds exactly the listed names that were missing. */
  lemma {:induction false} EnsureAllNames(roles: seq<Role>, names: seq<string>)
    ensures Names(EnsureAll(roles, names)) == Names(roles) + (set n | n in names)
    decreases |names|
  {
    if |names| > 0 {
      var init := names[..|names| - 1];
      var n := names[|names| - 1];
      assert names == init + [n];
      assert (set x | x in names) == (set x | x in init) + {n};
      EnsureAllNames(roles, init);
      EnsureRoleNames(EnsureAll(roles, init), n);
    }
  }

  /** One step leaves the table's names with the given name added. */
  lemma EnsureRoleNames(roles: seq<Role>, name: string)
    ensures Names(EnsureRole(roles, name)) == Names(roles) + {name}
  {
    if FindByName(roles, name).Some? {
      NamesAgreeWithFind(roles, name);
    } else {
      var row := Role(NextId(roles), name);
      assert Names(roles + [row]) == Names(roles) + {name} by {
        forall x | x in Names(roles + [row])
          ensures x in Names(roles) + {name}
        {
          var r :| r in roles + [row] && r.name == x;
          if r != row {
            assert r in roles;
          }
        }
        assert row in roles + [row];
      }
    }
  }

  /** The loop keeps both unique columns unique. */
  lemma {:induction false} EnsureAllKeepsUnique(roles: seq<Role>, names: seq<string>)
    requires NamesUnique(roles) && IdsUnique(roles)
    ensures NamesUnique(EnsureAll(roles, names)) && IdsUnique(EnsureAll(roles, names))
    decreases |names|
  {
    if |names| > 0 {
      EnsureAllKeepsUnique(roles, names[..|names| - 1]);
      EnsureRoleKeepsUnique(EnsureAll(roles, names[..|names| - 1]), names[|names| - 1]);
    }
  }

  /** A table that already holds every listed name is left as it is. */
  lemma {:induction false} EnsureAllPresent(roles: seq<Role>, names: seq<string>)
    requires forall n :: n in names ==> n in Names(roles)
    ensures EnsureAll(roles, names) == roles
    decreases |names|
  {
    if |names| > 0 {
      var init := names[..|names| - 1];
      assert forall k :: 0 <= k < |init| ==> init[k] == names[k];
      EnsureAllPresent(roles, init);
      assert names[|names| - 1] in names;
    }
  }

  /** Running a seeding loop a second time changes nothing. */
  lemma EnsureAllIdempotent(roles: seq<Role>, names: seq<string>)
    ensures EnsureAll(EnsureAll(roles, names), names) == EnsureAll(roles, names)
  {
    EnsureAllNames(roles, names);
    EnsureAllPresent(EnsureAll(roles, names), names);
  }

  lemma SeededNameSet()
    ensures (set n | n in SeededNames) == {"admin", "carrier", "shipper"}
  {
  }

  lemma DefaultNameSet()
    ensures (set n | n in DefaultNames) == {"admin", "shipper", "carrier", "driver"}
  {
  }

  /** `seedRoles` of the roles service. */
  function SeedRoles(roles: seq<Role>): (r: seq<Role>)
    ensures |roles| <= |r| && r[..|roles|] == roles
  {
    EnsureAll(roles, SeededNames)
  }

  /** The roles service seeds admin, carrier and shipper, and never the driver role. */
  lemma SeedRolesNames(roles: seq<Role>)
    ensures Names(SeedRoles(roles)) == Names(roles) + {"admin", "carrier", "shipper"}
    ensures "driver" in Names(SeedRoles(roles)) <==> "driver" in Names(roles)
  {
    var before := Names(roles);
    var after := Names(SeedRoles(roles));
    EnsureAllNames(roles, SeededNames);
    SeededNameSet();
    assert after == before + {"admin", "carrier", "shipper"};
    DriverNotSeeded();
  }

  lemma DriverNotSeeded()
    ensures "driver" !in {"admin", "carrier", "shipper"}
  {
  }

  /**
   * A seeding loop over `names` in which the step at index `failAt`, if any,
   * throws: the steps before it stay written and those after it never run.
   */
  method EnsureEach(roles: seq<Role>, names: seq<string>, failAt: Option<nat>) returns (r: seq<Role>)
    ensures failAt.Some? && failAt.value < |names| ==> r == EnsureAll(roles, names[..failAt.value])
    ensures failAt.None? || failAt.value >= |names| ==> r == EnsureAll(roles, names)
  {
    // the steps that run: all of them, or those before the failing one
    var stop := if failAt.Some? && failAt.value < |names| then failAt.value else |names|;
    r := roles;
    var i := 0;
    assert names[..0] == [];
    while i < stop
      invariant 0 <= i <= stop
      invariant r == EnsureAll(roles, names[..i])
    {
      EnsureAllStep(roles, names, i);
      r := EnsureRole(r, names[i]);
      i := i + 1;
    }
    if stop == |names| {
      assert names[..i] == names;
    }
  }

  /** One more turn of the seeding loop. */
  lemma EnsureAllStep(roles: seq<Role>, names: seq<string>, i: nat)
    requires i < |names|
    ensures EnsureAll(roles, names[..i + 1]) == EnsureRole(EnsureAll(roles, names[..i]), names[i])
  {
    assert names[..i + 1][..i] == names[..i];
  }

  /**
   * `initializeRoles`: the four default names in order; a lookup or save that
   * throws at step `failAt` is caught and logged, leaving the earlier steps written.
   */
  method InitializeRoles(roles: seq<Role>, failAt: Option<nat>) returns (r: seq<Role>)
    ensures failAt.None? ==> r == EnsureAll(roles, DefaultNames)
    ensures failAt.Some? && failAt.value < |DefaultNames| ==> r == EnsureAll(roles, DefaultNames[..failAt.value])
    ensures failAt.Some? && failAt.value >= |DefaultNames| ==> r == EnsureAll(roles, DefaultNames)
  {
    r := EnsureEach(roles, DefaultNames, failAt);
  }

  /** Without a failure the initialisation leaves all four default roles in the table. */
  lemma InitializeRolesNames(roles: seq<Role>)
    ensures Names(EnsureAll(roles, DefaultNames)) == Names(roles) + {"admin", "shipper", "carrier", "driver"}
  {
    EnsureAllNames(roles, DefaultNames);
    DefaultNameSet();
  }

  /**
   * The two start-up hooks run in an order the framework does not fix; either
   * way the table ends with the same set of names, and the unique columns stay unique.
   */
  lemma StartupOrderIrrelevantForNames(roles: seq<Role>)
    requires NamesUnique(roles) && IdsUnique(roles)
    ensures Names(EnsureAll(SeedRoles(roles), DefaultNames)) == Names(SeedRoles(EnsureAll(roles, DefaultNames)))
    ensures NamesUnique(EnsureAll(SeedRoles(roles), DefaultNames))
    ensures NamesUnique(SeedRoles(EnsureAll(roles, DefaultNames)))
  {
    StartupNames(roles);
    StartupUnique(roles);
  }

  lemma StartupNames(roles: seq<Role>)
    ensures Names(EnsureAll(SeedRoles(roles), DefaultNames)) == Names(SeedRoles(EnsureAll(roles, DefaultNames)))
  {
    var seededFirst, initFirst := SeedRoles(roles), EnsureAll(roles, DefaultNames);
    EnsureAllNames(roles, SeededNames);
    EnsureAllNames(seededFirst, DefaultNames);
    EnsureAllNames(roles, DefaultNames);
    EnsureAllNames(initFirst, SeededNames);
  }

  lemma StartupUnique(roles: seq<Role>)
    requires NamesUnique(roles) && IdsUnique(roles)
    ensures NamesUnique(EnsureAll(SeedRoles(roles), DefaultNames))
    ensures NamesUnique(SeedRoles(EnsureAll(roles, DefaultNames)))
  {
    EnsureAllKeepsUnique(roles, SeededNames);
    EnsureAllKeepsUnique(SeedRoles(roles), DefaultNames);
    EnsureAllKeepsUnique(roles, DefaultNames);
    EnsureAllKeepsUnique(EnsureAll(roles, DefaultNames), SeededNames);
  }
}
