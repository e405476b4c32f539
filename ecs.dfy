/** The entity-component store (jmge/src/ecs.rs).

    A `World` and every `Entity` it hands out share one `WorldData`: for
    each registered component type a vector of slots indexed by entity id,
    a stack of free ids and the next never-used id. Component types are
    identified by a tag (standing for Rust's `TypeId`) and component values
    are of a type parameter `V` (standing for `Box<dyn Component>`; the
    downcast back to the concrete type always succeeds, because a tag's
    slots only ever hold values of that type). */
module Ecs {

  import opened Wrappers

  type TypeTag = nat

  const Unregistered := "unregistered component type"
  const Duplicate := "World.register_component(): duplicate component"
  const NoSuchComponent := "no such component for this entity"

  // ---------------------------------------------------------------------
  // The store as a value

  /** Slot `id` of a slot vector; ids past the end are empty. */
  function Slot<V>(vec: seq<Option<V>>, id: nat): Option<V>
  {
    if id < |vec| then vec[id] else None
  }

  /** What `set_component` leaves in a slot vector: grown with empty slots
      to hold index `id` when it is too short, then slot `id` set to `v`. */
  function Place<V>(vec: seq<Option<V>>, id: nat, v: V): (r: seq<Option<V>>)
    ensures |r| == Max(|vec|, id + 1)
    ensures forall i | 0 <= i < |r| :: r[i] == if i == id then Some(v) else Slot(vec, i)
  {
    var grown := if id >= |vec| then vec + seq(id + 1 - |vec|, _ => None) else vec;
    grown[id := Some(v)]
  }

  /** `try_get_component` on the store `comps`: a panic for an unregistered
      tag, otherwise the slot. */
  function Lookup<V>(comps: map<TypeTag, seq<Option<V>>>, tag: TypeTag, id: nat): Outcome<Option<V>>
  {
    if tag !in comps then Panic(Unregistered) else Done(Slot(comps[tag], id))
  }

  /** The store after `set_component` of value v for entity id under `tag`. */
  function Store<V>(comps: map<TypeTag, seq<Option<V>>>, tag: TypeTag, id: nat, v: V): map<TypeTag, seq<Option<V>>>
    requires tag in comps
  {
    comps[tag := Place(comps[tag], id, v)]
  }

  /** The occupied slots of a vector, in index order: what `iter_with`
      passes to its callback. */
  function Occupied<V>(vec: seq<Option<V>>): seq<V>
  {
    if vec == [] then []
    else Occupied(vec[..|vec| - 1]) + (if vec[|vec| - 1].Some? then [vec[|vec| - 1].value] else [])
  }

  /** After a set, reading the same entity and type gives the value set. */
  lemma SetThenGet<V>(comps: map<TypeTag, seq<Option<V>>>, tag: TypeTag, id: nat, v: V)
    requires tag in comps
    ensures Lookup(Store(comps, tag, id, v), tag, id) == Done(Some(v))
  {
  }

  /** A set changes one slot: every other (tag, id) pair reads as before,
      registered or not. */
  lemma SetKeepsOthers<V>(comps: map<TypeTag, seq<Option<V>>>, tag: TypeTag, id: nat, v: V, tag': TypeTag, id': nat)
    requires tag in comps && (tag', id') != (tag, id)
    ensures Lookup(Store(comps, tag, id, v), tag', id') == Lookup(comps, tag', id')
  {
    if tag' == tag {
      var r := Place(comps[tag], id, v);
      if id' < |r| {
        assert r[id'] == Slot(comps[tag], id');
      }
    }
  }

  /** A later set replaces the earlier value. */
  lemma SetTwice<V>(comps: map<TypeTag, seq<Option<V>>>, tag: TypeTag, id: nat, v: V, w: V)
    requires tag in comps
    ensures Store(Store(comps, tag, id, v), tag, id, w) == Store(comps, tag, id, w)
  {
    var a := Place(Place(comps[tag], id, v), id, w);
    var b := Place(comps[tag], id, w);
    assert |a| == |b|;
    forall i | 0 <= i < |a| ensures a[i] == b[i] {
      if i != id {
        assert Slot(Place(comps[tag], id, v), i) == Slot(comps[tag], i);
      }
    }
    assert a == b;
  }

  /** A value is passed to the `iter_with` callback exactly when some slot
      holds it. */
  lemma {:induction false} OccupiedMembers<V>(vec: seq<Option<V>>, v: V)
    ensures v in Occupied(vec) <==> exists i | 0 <= i < |vec| :: vec[i] == Some(v)
    decreases |vec|
  {
    if vec != [] {
      var init := vec[..|vec| - 1];
      OccupiedMembers(init, v);
      if exists i | 0 <= i < |init| :: init[i] == Some(v) {
        var i :| 0 <= i < |init| && init[i] == Some(v);
        assert vec[i] == Some(v);
      }
      if exists i | 0 <= i < |vec| :: vec[i] == Some(v) {
        var i :| 0 <= i < |vec| && vec[i] == Some(v);
        if i < |vec| - 1 {
          assert init[i] == Some(v);
        }
      }
    }
  }

  /** One callback per occupied slot: never more calls than slots. */
  lemma {:induction false} OccupiedLength<V>(vec: seq<Option<V>>)
    ensures |Occupied(vec)| <= |vec|
    ensures |Occupied(vec)| == |vec| <==> forall i | 0 <= i < |vec| :: vec[i].Some?
    decreases |vec|
  {
    if vec != [] {
      var init := vec[..|vec| - 1];
      OccupiedLength(init);
      if forall i | 0 <= i < |vec| :: vec[i].Some? {
        assert forall i | 0 <= i < |init| :: init[i].Some? by {
          forall i | 0 <= i < |init| ensures init[i].Some? {
            assert vec[i].Some?;
          }
        }
      } else {
        var j :| 0 <= j < |vec| && vec[j].None?;
        if j < |vec| - 1 {
          assert init[j].None?;
        }
      }
    }
  }

  // ---------------------------------------------------------------------
  // The shared store and its handles

  /** `WorldData`, shared by the world and its entities. */
  class WorldData<V> {
    var comps: map<TypeTag, seq<Option<V>>>
    var free: seq<nat>
    var maxEntity: nat

    /** Every id waiting on the free stack was handed out before. */
    ghost predicate Valid()
      reads this
    {
      forall k | 0 <= k < |free| :: free[k] < maxEntity
    }

    constructor ()
      ensures comps == map[] && free == [] && maxEntity == 0 && Valid()
    {
      comps := map[];
      free := [];
      maxEntity := 0;
    }
  }

  class World<V> {
    const data: WorldData<V>

    /** `World::new`: no component type, no entity. */
    constructor ()
      ensures fresh(data) && data.comps == map[] && data.free == [] && data.maxEntity == 0 && data.Valid()
    {
      data := new WorldData();
    }

    /** `register_component`: installs an empty slot vector for a new tag;
        a tag registered twice panics. */
    method RegisterComponent(tag: TypeTag) returns (r: Outcome<()>)
      modifies data
      ensures r.Panic? <==> tag in old(data.comps)
      ensures r.Panic? ==> r.msg == Duplicate && data.comps == old(data.comps)
      ensures r.Done? ==> data.comps == old(data.comps)[tag := []]
      ensures data.free == old(data.free) && data.maxEntity == old(data.maxEntity)
    {
      if tag in data.comps {
        return Panic(Duplicate);
      }
      data.comps := data.comps[tag := []];
      return Done(());
    }

    /** `new_entity`: reuses the last free id, or else hands out
        `max_entity` and increments it. */
    method NewEntity() returns (e: Entity<V>)
      requires data.Valid()
      modifies data
      ensures fresh(e) && e.world == data && data.Valid()
      ensures e.id < data.maxEntity && data.comps == old(data.comps)
      ensures old(data.free) != [] ==>
                && e.id == old(data.free)[|old(data.free)| - 1]
                && data.free == old(data.free)[..|old(data.free)| - 1]
                && data.maxEntity == old(data.maxEntity)
      ensures old(data.free) == [] ==>
                e.id == old(data.maxEntity) && data.maxEntity == old(data.maxEntity) + 1 && data.free == []
    {
      var id: nat;
      if data.free != [] {
        id := data.free[|data.free| - 1];
        data.free := data.free[..|data.free| - 1];
      } else {
        data.maxEntity := data.maxEntity + 1;
        id := data.maxEntity - 1;
      }
      e := new Entity(id, data);
    }

    /** `iter_with`: the values handed to the callback, one per occupied
        slot in ascending id order; the store is not changed. */
    method IterWith(tag: TypeTag) returns (r: Outcome<seq<V>>)
      ensures r.Panic? <==> tag !in data.comps
      ensures r.Panic? ==> r.msg == Unregistered
      ensures r.Done? ==> r.value == Occupied(data.comps[tag])
    {
      if tag !in data.comps {
        return Panic(Unregistered);
      }
      var vec := data.comps[tag];
      var calls: seq<V> := [];
      var i := 0;
      while i < |vec|
        invariant 0 <= i <= |vec|
        invariant calls == Occupied(vec[..i])
      {
        assert vec[..i + 1][..i] == vec[..i];
        if vec[i].Some? {
          calls := calls + [vec[i].value];
        }
        i := i + 1;
      }
      assert vec[..i] == vec;
      return Done(calls);
    }
  }

  /** `Entity`: an id and a handle on the world's data. */
  class Entity<V> {
    const id: nat
    const world: WorldData<V>

    constructor (id: nat, world: WorldData<V>)
      ensures this.id == id && this.world == world
    {
      this.id := id;
      this.world := world;
    }

    /** `try_get_component`: a panic for an unregistered type; None when the
        id is past the end of the slot vector or its slot is empty. */
    function TryGetComponent(tag: TypeTag): (r: Outcome<Option<V>>)
      reads world
      ensures r.Panic? <==> tag !in world.comps
      ensures r.Panic? ==> r.msg == Unregistered
      ensures r.Done? ==>
                (r.value.None? <==> id >= |world.comps[tag]| || world.comps[tag][id].None?)
      ensures r.Done? && r.value.Some? ==> world.comps[tag][id] == r.value
    {
      Lookup(world.comps, tag, id)
    }

    /** `get_component`: the component, or a panic when there is none. */
    function GetComponent(tag: TypeTag): (r: Outcome<V>)
      reads world
      ensures r.Panic? <==> TryGetComponent(tag).Panic? || TryGetComponent(tag) == Done(None)
      ensures r.Panic? ==> r.msg == if tag in world.comps then NoSuchComponent else Unregistered
      ensures r.Done? ==> TryGetComponent(tag) == Done(Some(r.value))
    {
      match TryGetComponent(tag)
      case Panic(msg) => Panic(msg)
      case Done(None) => Panic(NoSuchComponent)
      case Done(Some(v)) => Done(v)
    }

    /** `try_get_component_mut` followed by a write through the reference
        it returns: `update` is applied to the stored component. Returns
        whether there was a component to update. */
    method TryGetComponentMut(tag: TypeTag, update: V -> V) returns (r: Outcome<bool>)
      modifies world
      ensures r.Panic? <==> tag !in old(world.comps)
      ensures r.Panic? ==> r.msg == Unregistered
      ensures r.Done? ==> (r.value <==> old(TryGetComponent(tag)).Done? && old(TryGetComponent(tag)).value.Some?)
      ensures r == Done(true) ==>
                world.comps == Store(old(world.comps), tag, id, update(old(TryGetComponent(tag)).value.value))
      ensures r != Done(true) ==> world.comps == old(world.comps)
      ensures world.free == old(world.free) && world.maxEntity == old(world.maxEntity)
    {
      if tag !in world.comps {
        return Panic(Unregistered);
      }
      var vec := world.comps[tag];
      if id >= |vec| || vec[id].None? {
        return Done(false);
      }
      var v := update(vec[id].value);
      world.comps := world.comps[tag := vec[id := Some(v)]];
      assert vec[id := Some(v)] == Place(vec, id, v);
      return Done(true);
    }

    /** `get_component_mut` followed by a write through the reference: a
        panic when there is no component to update. */
    method GetComponentMut(tag: TypeTag, update: V -> V) returns (r: Outcome<()>)
      modifies world
      ensures r.Panic? <==> old(GetComponent(tag)).Panic?
      ensures r.Panic? ==> r.msg == old(GetComponent(tag)).msg && world.comps == old(world.comps)
      ensures r.Done? ==> world.comps == Store(old(world.comps), tag, id, update(old(GetComponent(tag)).value))
      ensures world.free == old(world.free) && world.maxEntity == old(world.maxEntity)
    {
      var found := TryGetComponentMut(tag, update);
      match found
      case Panic(msg) =>
        return Panic(msg);
      case Done(b) =>
        if !b {
          return Panic(NoSuchComponent);
        }
        return Done(());
    }

    /** `set_component`: grows the slot vector with empty slots when the id
        is past its end, then stores the value in the entity's slot. */
    method SetComponent(tag: TypeTag, val: V) returns (r: Outcome<()>)
      modifies world
      ensures r.Panic? <==> tag !in old(world.comps)
      ensures r.Panic? ==> r.msg == Unregistered && world.comps == old(world.comps)
      ensures r.Done? ==> world.comps == Store(old(world.comps), tag, id, val)
      ensures world.free == old(world.free) && world.maxEntity == old(world.maxEntity)
    {
      if tag !in world.comps {
        return Panic(Unregistered);
      }
      var vec := world.comps[tag];
      if id >= |vec| {
        vec := vec + seq(id + 1 - |vec|, _ => None);
      }
      vec := vec[id := Some(val)];
      world.comps := world.comps[tag := vec];
      return Done(());
    }
  }

  /** The usage in test1/src/main.rs: a world with two component types, one
      entity given a position that is read back, updated in place and then
      seen by `iter_with`. */
  method Demo<V>(p: V, moveTo: V -> V) returns (read: Outcome<V>, seen: Outcome<seq<V>>)
    ensures read == Done(p)
    ensures seen == Done([moveTo(p)])
  {
    var position, transform := 0, 1;
    var world := new World<V>();
    var _ := world.RegisterComponent(position);
    var _ := world.RegisterComponent(transform);
    var e := world.NewEntity();
    assert e.id == 0;
    var _ := e.SetComponent(position, p);
    read := e.GetComponent(position);
    var _ := e.GetComponentMut(position, moveTo);
    assert world.data.comps[position] == [Some(moveTo(p))];
    assert [Some(moveTo(p))][..0] == [];
    assert Occupied([Some(moveTo(p))]) == [moveTo(p)];
    seen := world.IterWith(position);
  }
}
