/** The customer master: IBAN and name look-up tables built by scanning the customer list. */
module Customers {
  import opened Common
  import opened ReconModel
  import opened MatchingRules
  import Normalize

  /** The first customer that carries an IBAN keeps it. */
  method IbanLookup(w: World) returns (table: map<string, int>)
    ensures forall key :: if key in table then table[key] in IbanOwners(w, key) else IbanOwners(w, key) == {}
  {
    hide Normalize.Iban;
    table := map[];
    for n := 0 to |w.customers|
      invariant forall key :: key in table ==> table[key] in IbanOwners(w, key)
      invariant forall c, i :: c in w.customers[..n] && i in c.ibans ==> Normalize.Iban(w.platform, i) in table
    {
      var cust := w.customers[n];
      assert cust in w.customers && w.customers[..n + 1] == w.customers[..n] + [cust];
      for k := 0 to |cust.ibans|
        invariant forall key :: key in table ==> table[key] in IbanOwners(w, key)
        invariant forall c, i :: c in w.customers[..n] && i in c.ibans ==> Normalize.Iban(w.platform, i) in table
        invariant forall j :: 0 <= j < k ==> Normalize.Iban(w.platform, cust.ibans[j]) in table
      {
        var key := Normalize.Iban(w.platform, cust.ibans[k]);
        assert cust.ibans[k] in cust.ibans;
        if key !in table {
          table := table[key := cust.id];
        }
      }
    }
    assert w.customers[..|w.customers|] == w.customers;
  }

  method IdentifyByIban(w: World, iban: string) returns (who: Option<int>)
    ensures NamedByIban(w, iban, who)
  {
    if iban == "" {
      return None;
    }
    hide IbanOwners;
    var table := IbanLookup(w);
    var key := Normalize.Iban(w.platform, iban);
    who := if key in table then Some(table[key]) else None;
  }

  /** All owners of every normalised legal name or alias. */
  method NameLookup(w: World) returns (owners: map<string, set<int>>)
    ensures forall key :: NameOwners(w, key) == if key in owners then owners[key] else {}
  {
    hide *;
    owners := map[];
    NoOwners(w);
    for n := 0 to |w.customers|
      invariant OnlyOwners(w, owners)
      invariant forall m :: 0 <= m < n ==> CoversNames(w, owners, w.customers[m], Names(w.customers[m]))
    {
      var cust := w.customers[n];
      var names := Names(cust);
      assert names[..0] == [];
      CoversNone(w, owners, cust);
      for k := 0 to |names|
        invariant OnlyOwners(w, owners)
        invariant forall m :: 0 <= m < n ==> CoversNames(w, owners, w.customers[m], Names(w.customers[m]))
        invariant CoversNames(w, owners, cust, names[..k])
      {
        AddOwnerKeeps(w, owners, cust, names[k]);
        assert names[..k + 1] == names[..k] + [names[k]];
        owners := AddOwner(w, owners, cust, names[k]);
      }
      assert names[..|names|] == names;
    }
    forall key
      ensures NameOwners(w, key) == if key in owners then owners[key] else {}
    {
      TableComplete(w, owners, key);
    }
  }

  /** A normalised name carried by several customers identifies nobody. */
  method IdentifyByName(w: World, remitter: string) returns (who: Option<int>)
    ensures NamedByName(w, remitter, who)
  {
    if remitter == "" {
      return None;
    }
    hide NameOwners;
    var owners := NameLookup(w);
    var key := Normalize.Reference(w.platform, remitter);
    if key in owners {
      who := SoleOwner(owners[key]);
    } else {
      who := None;
    }
  }

  /** `owners.setdefault(norm, set()).add(id)`. */
  function AddOwner(w: World, owners: map<string, set<int>>, c: Customer, name: string): map<string, set<int>> {
    var key := Normalize.Reference(w.platform, name);
    owners[key := (if key in owners then owners[key] else {}) + {c.id}]
  }

  predicate OnlyOwners(w: World, owners: map<string, set<int>>) {
    forall key :: key in owners ==> owners[key] <= NameOwners(w, key)
  }

  predicate CoversNames(w: World, owners: map<string, set<int>>, c: Customer, names: seq<string>) {
    forall name :: name in names ==>
      var key := Normalize.Reference(w.platform, name); key in owners && c.id in owners[key]
  }

  lemma NoOwners(w: World)
    ensures OnlyOwners(w, map[])
  {}

  lemma CoversNone(w: World, owners: map<string, set<int>>, c: Customer)
    ensures CoversNames(w, owners, c, [])
  {}

  lemma AddOwnerKeeps(w: World, owners: map<string, set<int>>, c: Customer, name: string)
    requires OnlyOwners(w, owners) && c in w.customers && name in Names(c)
    ensures OnlyOwners(w, AddOwner(w, owners, c, name))
    ensures forall c', names :: CoversNames(w, owners, c', names) ==> CoversNames(w, AddOwner(w, owners, c, name), c', names)
    ensures forall names :: CoversNames(w, owners, c, names) ==> CoversNames(w, AddOwner(w, owners, c, name), c, names + [name])
  {
    hide Normalize.Reference, Names;
  }

  lemma TableComplete(w: World, owners: map<string, set<int>>, key: string)
    requires OnlyOwners(w, owners)
    requires forall m :: 0 <= m < |w.customers| ==> CoversNames(w, owners, w.customers[m], Names(w.customers[m]))
    ensures NameOwners(w, key) == if key in owners then owners[key] else {}
  {
    hide Normalize.Reference, Names;
  }

  /** The element of a one-element set. */
  method SoleOwner(ids: set<int>) returns (who: Option<int>)
    ensures match who case None => |ids| != 1 case Some(id) => ids == {id}
  {
    if |ids| != 1 {
      return None;
    }
    HasInt(ids);
    var id :| id in ids;
    assert |ids - {id}| == 0;
    who := Some(id);
  }
}
