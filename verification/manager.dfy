/**
 The entity manager: an ordered, in-memory collection of entities looked up by
 name. `BookManager` and `UserManager` are the same code under two names, so
 they are modelled once. Names need not be unique: lookup returns the first
 entity with the name, while removal returns that first entity but drops every
 entity with the name.
 */
module EntityManager {
  import opened Wrappers
  import opened Entities

  datatype Manager = Manager(entities: seq<Entity>)

  /** The manager's constructor: it starts with no entities. */
  function NewManager(): (m: Manager)
    ensures |m.entities| == 0
  {
    Manager([])
  }

  /** No entity at an index below `i` is called `name`. */
  ghost predicate NoneNamedBefore(s: seq<Entity>, name: string, i: int)
    requires i <= |s|
  {
    forall j :: 0 <= j < i ==> s[j].name != name
  }

  /** Where `Array.prototype.find` stops: the index of the first entity called `name`. */
  function FirstIndex(s: seq<Entity>, name: string): (r: Option<nat>)
    ensures r.Some? ==> r.value < |s| && s[r.value].name == name && NoneNamedBefore(s, name, r.value)
    ensures r.None? ==> NoneNamedBefore(s, name, |s|)
  {
    if s == [] then None
    else if s[0].name == name then Some(0)
    else
      match FirstIndex(s[1..], name)
      case None => None
      case Some(k) => Some(k + 1)
  }

  /** `getEntity`: the first stored entity called `name`, or absent if there is none. */
  function GetEntity(m: Manager, name: string): (r: Option<Entity>)
    ensures r.None? <==> forall e :: e in m.entities ==> e.name != name
    ensures r.Some? ==> r.value.name == name
    ensures r.Some? ==> exists i :: 0 <= i < |m.entities| && m.entities[i] == r.value && NoneNamedBefore(m.entities, name, i)
  {
    match FirstIndex(m.entities, name)
    case None => None
    case Some(i) => Some(m.entities[i])
  }

  /** `addEntity`: appends the entity and hands the same entity back. */
  function AddEntity(m: Manager, e: Entity): (r: (Manager, Entity))
    ensures r.1 == e
    ensures |r.0.entities| == |m.entities| + 1
    ensures r.0.entities[..|m.entities|] == m.entities
    ensures r.0.entities[|m.entities|] == e
  {
    (Manager(m.entities + [e]), e)
  }

  /** `s` with each entity kept or dropped, keeping order. */
  ghost predicate Subsequence(a: seq<Entity>, s: seq<Entity>)
  {
    if a == [] then true
    else if s == [] then false
    else (a[0] == s[0] && Subsequence(a[1..], s[1..])) || Subsequence(a, s[1..])
  }

  /**
   The `filter` in `removeEntity`: no entity called `name` survives it.
   */
  function Without(s: seq<Entity>, name: string): (r: seq<Entity>)
    ensures forall e :: e in r ==> e.name != name
  {
    if s == [] then []
    else
      var rest := Without(s[1..], name);
      assert s == [s[0]] + s[1..];
      if s[0].name == name then rest else [s[0]] + rest
  }

  /** The filter keeps every entity not called `name`, as often as it occurs. */
  lemma {:induction false} WithoutKeepsOthers(s: seq<Entity>, name: string)
    ensures forall e: Entity :: e.name != name ==> multiset(Without(s, name))[e] == multiset(s)[e]
  {
    if s != [] {
      WithoutKeepsOthers(s[1..], name);
      assert s == [s[0]] + s[1..];
    }
  }

  /** The filter keeps the entities it keeps in their original relative order. */
  lemma {:induction false} WithoutKeepsOrder(s: seq<Entity>, name: string)
    ensures Subsequence(Without(s, name), s)
  {
    if s != [] {
      WithoutKeepsOrder(s[1..], name);
      var rest := Without(s[1..], name);
      if s[0].name == name {
        assert rest == [] || rest[0] != s[0];
      } else {
        assert ([s[0]] + rest)[1..] == rest;
      }
    }
  }

  /**
   `removeEntity`: returns what `getEntity` would return; when that is an
   entity, every entity with the name is dropped, otherwise nothing changes.
   */
  function RemoveEntity(m: Manager, name: string): (r: (Manager, Option<Entity>))
    ensures r.1 == GetEntity(m, name)
    ensures r.1.None? ==> r.0 == m
    ensures r.0.entities == Without(m.entities, name)
    ensures GetEntity(r.0, name).None?
  {
    var found := GetEntity(m, name);
    if found.Some? then
      (Manager(Without(m.entities, name)), found)
    else
      WithoutAbsent(m.entities, name);
      (m, found)
  }

  /** `getEntities`: the stored entities, in insertion order. */
  function GetEntities(m: Manager): seq<Entity>
  {
    m.entities
  }

  /** Filtering out a name nobody has changes nothing. */
  lemma {:induction false} WithoutAbsent(s: seq<Entity>, name: string)
    requires forall e :: e in s ==> e.name != name
    ensures Without(s, name) == s
  {
    if s != [] {
      WithoutAbsent(s[1..], name);
    }
  }

  /** Filtering distributes over concatenation. */
  lemma {:induction false} WithoutAppend(a: seq<Entity>, b: seq<Entity>, name: string)
    ensures Without(a + b, name) == Without(a, name) + Without(b, name)
  {
    if a == [] {
      assert a + b == b;
    } else {
      assert (a + b)[1..] == a[1..] + b;
      WithoutAppend(a[1..], b, name);
    }
  }

  /** Looking up after an add finds the old first match, else the added entity. */
  lemma GetAfterAdd(m: Manager, e: Entity, name: string)
    ensures GetEntity(AddEntity(m, e).0, name) ==
      if GetEntity(m, name).Some? then GetEntity(m, name)
      else if e.name == name then Some(e)
      else None
  {
  }

  /** Removing one name leaves lookups of every other name as they were. */
  lemma GetAfterRemoveOther(m: Manager, name: string, other: string)
    requires other != name
    ensures GetEntity(RemoveEntity(m, name).0, other) == GetEntity(m, other)
  {
    WithoutKeepsFirst(m.entities, name, other);
  }

  /** The filter of one name keeps the first match of every other name. */
  lemma {:induction false} WithoutKeepsFirst(s: seq<Entity>, name: string, other: string)
    requires other != name
    ensures GetEntity(Manager(Without(s, name)), other) == GetEntity(Manager(s), other)
  {
    if s != [] {
      WithoutKeepsFirst(s[1..], name, other);
      var rest := Without(s[1..], name);
      if s[0].name == name {
        assert Without(s, name) == rest;
        GetEntityTail(s, other);
      } else if s[0].name == other {
        assert Without(s, name) == [s[0]] + rest;
        assert FirstIndex([s[0]] + rest, other) == Some(0);
        assert FirstIndex(s, other) == Some(0);
      } else {
        var t := [s[0]] + rest;
        assert Without(s, name) == t;
        assert t[1..] == rest;
        GetEntityTail(t, other);
        GetEntityTail(s, other);
      }
    }
  }

  /** Lookup skips a first entity with a different name. */
  lemma GetEntityTail(s: seq<Entity>, name: string)
    requires s != [] && s[0].name != name
    ensures GetEntity(Manager(s), name) == GetEntity(Manager(s[1..]), name)
  {
  }

  /** A second removal of the same name finds nothing and changes nothing. */
  lemma RemoveTwice(m: Manager, name: string)
    ensures RemoveEntity(RemoveEntity(m, name).0, name) == (RemoveEntity(m, name).0, None)
  {
  }

  /** `addEntity` applied to each entity in turn. */
  function AddAll(m: Manager, es: seq<Entity>): Manager
    decreases |es|
  {
    if es == [] then m else AddAll(AddEntity(m, es[0]).0, es[1..])
  }

  /** After a run of adds the manager lists the old entities, then the added ones, in call order. */
  lemma {:induction false} AddAllAppends(m: Manager, es: seq<Entity>)
    ensures GetEntities(AddAll(m, es)) == GetEntities(m) + es
    decreases |es|
  {
    if es != [] {
      AddAllAppends(AddEntity(m, es[0]).0, es[1..]);
      assert m.entities + [es[0]] + es[1..] == m.entities + es;
    }
  }

  /** k adds to a new manager leave exactly k entities. */
  lemma AddsCounted(es: seq<Entity>)
    ensures |GetEntities(AddAll(NewManager(), es))| == |es|
  {
    AddAllAppends(NewManager(), es);
  }
}
