/** PReg: the registry of parameter names. Ids count from 1 in order of first
    registration and never change. */
module Registry {
  type Names = seq<string>

  ghost predicate Distinct(names: Names) {
    forall i, j | 0 <= i < j < |names| :: names[i] != names[j]
  }

  /** Id of a name, 0 when it is not registered. */
  function IdOf(names: Names, name: string): (id: nat)
    ensures id <= |names|
    ensures if id == 0 then name !in names else names[id - 1] == name
  {
    if names == [] then 0
    else if names[|names| - 1] == name then |names|
    else IdOf(names[..|names| - 1], name)
  }

  /** The registry after a lookup that registers missing names. */
  function Registered(names: Names, name: string): (names': Names)
    ensures names <= names'
    ensures IdOf(names', name) > 0
    ensures Distinct(names) ==> Distinct(names')
  {
    if IdOf(names, name) > 0 then names else names + [name]
  }

  /** A name is registered once, at the end. */
  lemma RegisteredIs(names: Names, name: string)
    ensures Registered(names, name) == if name in names then names else names + [name]
  {
    if IdOf(names, name) > 0 { assert names[IdOf(names, name) - 1] == name; }
  }

  function NameOf(names: Names, id: int): string {
    if 0 < id <= |names| then names[id - 1] else ""
  }

  /** Names and ids determine each other, and registering more names changes
      neither. */
  lemma IdsAreStable(names: Names, later: Names, name: string)
    requires names <= later && Distinct(later)
    ensures IdOf(names, name) > 0 ==> IdOf(later, name) == IdOf(names, name)
    ensures forall id | 0 < id <= |names| :: NameOf(later, id) == NameOf(names, id)
    ensures forall id | 0 < id <= |later| :: IdOf(later, NameOf(later, id)) == id
  {
    forall id | 0 < id <= |later| ensures IdOf(later, NameOf(later, id)) == id {
      var other := IdOf(later, later[id - 1]);
      assert later[other - 1] == later[id - 1];
    }
    if IdOf(names, name) > 0 {
      assert NameOf(later, IdOf(names, name)) == name;
    }
  }

  class PReg {
    var nameToId: map<string, int>
    var idToName: Names

    ghost predicate Valid()
      reads this
    {
      && Distinct(idToName)
      && (forall k | 0 <= k < |idToName| :: idToName[k] in nameToId && nameToId[idToName[k]] == k + 1)
      && (forall name | name in nameToId :: name in idToName)
    }

    constructor ()
      ensures Valid() && idToName == []
    {
      nameToId, idToName := map[], [];
    }

    method GetID(name: string) returns (id: int)
      requires Valid()
      modifies this
      ensures Valid()
      ensures idToName == Registered(old(idToName), name)
      ensures id == IdOf(idToName, name) > 0
    {
      if name in nameToId {
        id := nameToId[name];
        assert idToName[IdOf(idToName, name) - 1] == name;
        return;
      }
      idToName := idToName + [name];
      var newId := |idToName|;
      nameToId := nameToId[name := newId];
      return newId;
    }

    method GetName(id: int) returns (name: string)
      requires Valid()
      ensures name == NameOf(idToName, id)
      ensures 0 < id <= |idToName| ==> IdOf(idToName, name) == id
    {
      IdsAreStable(idToName, idToName, "");
      if id > 0 && id <= |idToName| {
        return idToName[id - 1];
      }
      return "";
    }
  }
}
